/** The invalid-variable-names exception and its message, built line by line in a `StringBuilder`. */
module InvalidVariableNamesException {
  import opened Strings

  /** `VariableNameProblem`: a rejected name and the reason for rejecting it. */
  datatype VariableNameProblem = VariableNameProblem(variableName: string, message: string)

  /** The line reported for one problem, without its line terminator. */
  function ProblemLine(p: VariableNameProblem): string {
    "Variable '" + p.variableName + "': " + p.message
  }

  /** The problem lines in order, each followed by the line terminator `newLine`. */
  function ProblemLines(problems: seq<VariableNameProblem>, newLine: string): string
    decreases |problems|
  {
    if problems == [] then ""
    else ProblemLines(problems[..|problems| - 1], newLine) + ProblemLine(problems[|problems| - 1]) + newLine
  }

  /** The whole message: the given text, two line terminators, then one line per problem. */
  function MessageText(message: string, problems: seq<VariableNameProblem>, newLine: string): string {
    message + newLine + newLine + ProblemLines(problems, newLine)
  }

  /** A mutable text buffer; `newLine` stands for `Environment.NewLine`. */
  class StringBuilder {
    var text: string
    const newLine: string

    constructor (initial: string, newLine: string)
      ensures text == initial && this.newLine == newLine
    {
      text := initial;
      this.newLine := newLine;
    }

    /** `AppendLine(line)`: the line, then the line terminator. */
    method AppendLine(line: string)
      modifies this
      ensures text == old(text) + line + newLine
    {
      text := text + line + newLine;
    }

    function ToString(): (r: string)
      reads this
      ensures r == text
    {
      text
    }
  }

  /** `ToMessage`: the fold over the problems that appends one line each to the builder. */
  method ToMessage(message: string, validationErrors: seq<VariableNameProblem>, newLine: string)
    returns (r: string)
    ensures r == MessageText(message, validationErrors, newLine)
  {
    var builder := new StringBuilder(message, newLine);
    builder.AppendLine("");
    builder.AppendLine("");
    var i := 0;
    while i < |validationErrors|
      invariant 0 <= i <= |validationErrors|
      invariant builder.newLine == newLine
      invariant builder.text == MessageText(message, validationErrors[..i], newLine)
    {
      MessageTextStep(message, validationErrors, i, newLine);
      builder.AppendLine(ProblemLine(validationErrors[i]));
      i := i + 1;
    }
    assert validationErrors[..i] == validationErrors;
    r := builder.ToString();
  }

  /** One more problem adds its line and a line terminator to the message. */
  lemma MessageTextStep(message: string, problems: seq<VariableNameProblem>, i: nat, newLine: string)
    requires i < |problems|
    ensures MessageText(message, problems[..i + 1], newLine)
      == MessageText(message, problems[..i], newLine) + ProblemLine(problems[i]) + newLine
  {
    assert problems[..i + 1][..i] == problems[..i];
  }

  /** The problem lines of two lists laid end to end are those of the first followed by those of the second. */
  lemma {:induction false} ProblemLinesConcat(a: seq<VariableNameProblem>, b: seq<VariableNameProblem>, newLine: string)
    ensures ProblemLines(a + b, newLine) == ProblemLines(a, newLine) + ProblemLines(b, newLine)
    decreases |b|
  {
    if b == [] {
      assert a + b == a;
    } else {
      var b' := b[..|b| - 1];
      var last := b[|b| - 1];
      assert (a + b)[..|a + b| - 1] == a + b';
      assert (a + b)[|a + b| - 1] == last;
      assert ProblemLines(a + b, newLine) == ProblemLines(a + b', newLine) + ProblemLine(last) + newLine;
      assert ProblemLines(b, newLine) == ProblemLines(b', newLine) + ProblemLine(last) + newLine;
      ProblemLinesConcat(a, b', newLine);
    }
  }

  /** Splitting the problem list at any index splits its lines at the matching line. */
  lemma ProblemLinesAt(problems: seq<VariableNameProblem>, k: nat, newLine: string)
    requires k < |problems|
    ensures ProblemLines(problems, newLine) ==
      ProblemLines(problems[..k], newLine) + ProblemLine(problems[k]) + newLine + ProblemLines(problems[k + 1..], newLine)
  {
    var front := problems[..k + 1];
    assert problems == front + problems[k + 1..];
    ProblemLinesConcat(front, problems[k + 1..], newLine);
    assert front[..|front| - 1] == problems[..k];
  }

  /**
   * The message opens with the given text and two line terminators; with no problems that is all of it,
   * and otherwise the line of each problem follows those of the problems before it.
   */
  lemma MessageLayout(message: string, problems: seq<VariableNameProblem>, newLine: string)
    ensures At(MessageText(message, problems, newLine), 0, message + newLine + newLine)
    ensures problems == [] ==> MessageText(message, problems, newLine) == message + newLine + newLine
    ensures forall k :: 0 <= k < |problems| ==>
      ProblemLines(problems, newLine) ==
        ProblemLines(problems[..k], newLine) + ProblemLine(problems[k]) + newLine + ProblemLines(problems[k + 1..], newLine)
  {
    var head := message + newLine + newLine;
    assert MessageText(message, problems, newLine)[..|head|] == head;
    forall k | 0 <= k < |problems|
      ensures ProblemLines(problems, newLine) ==
        ProblemLines(problems[..k], newLine) + ProblemLine(problems[k]) + newLine + ProblemLines(problems[k + 1..], newLine)
    {
      ProblemLinesAt(problems, k, newLine);
    }
  }

  /** Neither the name nor the reason of a problem contains `c`. */
  predicate FreeOf(c: char, p: VariableNameProblem) {
    (forall k :: 0 <= k < |p.variableName| ==> p.variableName[k] != c) &&
    (forall k :: 0 <= k < |p.message| ==> p.message[k] != c)
  }

  /** The line of a problem whose name and reason avoid `c`, and `c` is not in the fixed text, has no `c`. */
  lemma ProblemLineFree(p: VariableNameProblem, c: char)
    requires FreeOf(c, p) && c !in "Variable ':"
    ensures Count(c, ProblemLine(p)) == 0
  {
    var a, b := "Variable '", "': ";
    assert forall k :: 0 <= k < |a| ==> a[k] in "Variable ':";
    assert forall k :: 0 <= k < |b| ==> b[k] in "Variable ':";
    CountAbsent(c, a);
    CountAbsent(c, b);
    CountAbsent(c, p.variableName);
    CountAbsent(c, p.message);
    CountConcat(c, a, p.variableName);
    CountConcat(c, a + p.variableName, b);
    CountConcat(c, a + p.variableName + b, p.message);
  }

  /**
   * With a one-character line terminator that no name or reason contains, the problem part
   * of the message has exactly one line per problem.
   */
  lemma {:induction false} OneLinePerProblem(problems: seq<VariableNameProblem>, nl: char)
    requires nl !in "Variable ':"
    requires forall k :: 0 <= k < |problems| ==> FreeOf(nl, problems[k])
    ensures Count(nl, ProblemLines(problems, [nl])) == |problems|
    decreases |problems|
  {
    if problems != [] {
      var front := problems[..|problems| - 1];
      var p := problems[|problems| - 1];
      OneLinePerProblem(front, nl);
      ProblemLineFree(p, nl);
      CountConcat(nl, ProblemLines(front, [nl]), ProblemLine(p));
      CountConcat(nl, ProblemLines(front, [nl]) + ProblemLine(p), [nl]);
      assert Count(nl, [nl]) == 1;
    }
  }

  /** The exception carries the problems it was given, unchanged, and the message built from them. */
  datatype InvalidVariableNames = InvalidVariableNames(message: string, validationErrors: seq<VariableNameProblem>) {

    /** `ValidationErrors`: exactly the problems given to the constructor. */
    function ValidationErrors(): (r: seq<VariableNameProblem>)
      ensures r == validationErrors
    {
      validationErrors
    }
  }
}
