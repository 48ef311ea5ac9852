/** The cyclic-dependency exception: the path it carries and the message built from it. */
module CyclicDependencyException {
  import opened Strings

  /** The fixed text in front of the path. */
  const Header := "Cyclic dependency detected on path: "

  /** The separator placed between two consecutive names of the path. */
  const Arrow := " -> "

  /** `ToMessage(paths)`: the header followed by the path's names joined with arrows. */
  function ToMessage(paths: seq<string>): (r: string)
    ensures At(r, 0, Header) && r[|Header|..] == Join(Arrow, paths)
    ensures |paths| == 0 ==> r == Header
    ensures |paths| == 1 ==> r == Header + paths[0]
  {
    var r := Header + Join(Arrow, paths);
    assert r[..|Header|] == Header;
    r
  }

  /** Extending the path by one name extends the message by one arrow and that name. */
  lemma ToMessageSnoc(paths: seq<string>, name: string)
    requires |paths| > 0
    ensures ToMessage(paths + [name]) == ToMessage(paths) + Arrow + name
  {
    JoinSnoc(Arrow, paths, name);
  }

  /** A message for n names holds their characters, the header and exactly n - 1 arrows. */
  lemma ToMessageLength(paths: seq<string>)
    requires |paths| > 0
    ensures |ToMessage(paths)| == |Header| + TotalLength(paths) + |Arrow| * (|paths| - 1)
  {
    JoinLength(Arrow, paths);
  }

  /** The exception object: it keeps the elements it was constructed with. */
  datatype CyclicDependency = CyclicDependency(elements: seq<string>) {

    /** `Elements`: exactly the sequence given to the constructor. */
    function Elements(): (r: seq<string>)
      ensures r == elements
    {
      elements
    }

    /** The exception's message, `ToMessage(elements)`. */
    function Message(): (r: string)
      ensures At(r, 0, Header) && r[|Header|..] == Join(Arrow, elements)
    {
      ToMessage(elements)
    }
  }
}
