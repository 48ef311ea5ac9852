/**
 * The recursive substitution engine as functions: `RegexTransformer.Transform`, the
 * resolver's `Resolve`, and the cycle check of the path-tracking wrapper, with the
 * tracker's stack threaded through as a parameter (`stack`, in push order).
 *
 * Exceptions become `Failure(fault)`. A fault also records `left`, what the tracker
 * holds when the exception escapes: the wrapper pops only after a normal return.
 */
module Resolution {
  import opened Wrappers
  import opened Strings
  import opened Values
  import opened Errors
  import opened Placeholders

  /** The variable-resolving delegate: looks a name up among the bindings. */
  type Lookup = (map<string, Value>, string) -> Option<Value>

  /** The not-found policy: the text used for an unbound name, or the exception it throws. */
  type NotFoundPolicy = string -> Result<string, Error>

  /** What one replacement call works with: the bindings, the lookup, the transformer and the two policies. */
  datatype Settings = Settings(
    variables: map<string, Value>,
    lookup: Lookup,
    transformer: RegexTransformer,
    wordChar: char -> bool,
    variableNotFound: NotFoundPolicy,
    valueFormatter: Value -> string)

  /** The lookup finds only names that are bound: the guarantee that expansion terminates. */
  ghost predicate LookupConfined(st: Settings) {
    forall name :: st.lookup(st.variables, name).Some? ==> name in st.variables
  }

  /** Dictionary lookup, `TryGetValue`. */
  function TryGetValue(variables: map<string, Value>, name: string): (r: Option<Value>)
    ensures r.Some? <==> name in variables
    ensures r.Some? ==> r.value == variables[name]
  {
    if name in variables then Some(variables[name]) else None
  }

  /** Dictionary lookup satisfies the guarantee, whatever the bindings. */
  lemma TryGetValueConfined(st: Settings)
    requires st.lookup == TryGetValue
    ensures LookupConfined(st)
  {
  }

  /** How an exception escapes a resolution. */
  datatype Fault =
    /** The cycle check fired: `elements` is the stack in push order plus the repeated name. */
    | Cycle(elements: seq<string>, left: seq<string>)
    /** The not-found policy threw `error`. */
    | Raised(error: Error, left: seq<string>)
  {
    /** The exception the caller sees. */
    function ToError(): Error {
      match this
      case Cycle(elements, _) => CyclicDependency(elements)
      case Raised(e, _) => e
    }
  }

  /** The bound names not yet on the stack: each expansion step removes one, so expansion ends. */
  function Measure(st: Settings, stack: seq<string>): nat {
    |st.variables.Keys - (set n | n in stack)|
  }

  /** The placeholders of `source` under the settings' transformer, in match order. */
  function PlaceholdersIn(st: Settings, source: string): (ps: seq<Placeholder>)
  {
    var ms := FindMatches(st.wordChar, st.transformer, source);
    PlaceholdersOf(st.wordChar, st.transformer, source, ms)
  }

  /**
   * `RegexTransformer.Transform`: every match of the pattern in `source` is replaced by the
   * resolution of its name (post-processed by its command, if any); the rest is copied through.
   */
  function Transform(st: Settings, source: string, stack: seq<string>): Result<string, Fault>
    requires LookupConfined(st)
    decreases Measure(st, stack), 3, 0
  {
    var ms := FindMatches(st.wordChar, st.transformer, source);
    match ResolveAll(st, PlaceholdersOf(st.wordChar, st.transformer, source, ms), stack)
    case Success(reps) => Success(Splice(source, 0, ms, reps))
    case Failure(f) => Failure(f)
  }

  /** The match evaluator applied to each placeholder in turn, all with the same tracker state. */
  function ResolveAll(st: Settings, ps: seq<Placeholder>, stack: seq<string>): (r: Result<seq<string>, Fault>)
    requires LookupConfined(st)
    ensures r.Success? ==> |r.value| == |ps|
    decreases Measure(st, stack), 2, |ps|
  {
    if ps == [] then Success([])
    else
      match Resolve(st, ps[0].name, stack)
      case Failure(f) => Failure(f)
      case Success(text) =>
        match ResolveAll(st, ps[1..], stack)
        case Failure(f) => Failure(f)
        case Success(rest) => Success([Replacement(st.transformer, ps[0], text)] + rest)
  }

  /**
   * `VariableResolver.Resolve`: a bound name's formatted value is expanded through the tracker;
   * an unbound name gets the not-found policy's text, which is not expanded.
   */
  function Resolve(st: Settings, name: string, stack: seq<string>): Result<string, Fault>
    requires LookupConfined(st)
    decreases Measure(st, stack), 1, 0
  {
    match st.lookup(st.variables, name)
    case None =>
      (match st.variableNotFound(name)
       case Success(text) => Success(text)
       case Failure(e) => Failure(Raised(e, stack)))
    case Some(value) => Track(st, name, st.valueFormatter(value), stack)
  }

  /**
   * `VariablePathWrapperTransformer.Transform`: a name already on the stack is a cycle;
   * otherwise the name is pushed, the inner transformer runs on the value, and the name is popped.
   */
  function Track(st: Settings, name: string, source: string, stack: seq<string>): Result<string, Fault>
    requires LookupConfined(st) && name in st.variables
    decreases Measure(st, stack), 0, 0
  {
    if name in stack then Failure(Cycle(stack + [name], stack))
    else
      RemainderShrinks(st.variables.Keys, stack, name);
      Transform(st, source, stack + [name])
  }

  /** Resolving a list of placeholders succeeds exactly when each one resolves, and then yields their replacements in order. */
  lemma {:induction false} ResolveAllSucceeds(st: Settings, ps: seq<Placeholder>, stack: seq<string>)
    requires LookupConfined(st)
    ensures ResolveAll(st, ps, stack).Success? <==>
      forall k :: 0 <= k < |ps| ==> Resolve(st, ps[k].name, stack).Success?
    ensures ResolveAll(st, ps, stack).Success? ==>
      forall k :: 0 <= k < |ps| ==>
        ResolveAll(st, ps, stack).value[k] == Replacement(st.transformer, ps[k], Resolve(st, ps[k].name, stack).value)
    decreases |ps|
  {
    if ps != [] {
      ResolveAllSucceeds(st, ps[1..], stack);
      assert forall k :: 1 <= k < |ps| ==> ps[1..][k - 1] == ps[k];
    }
  }

  /** A failed list resolution reports the fault of the first placeholder that fails; the ones before it succeeded. */
  lemma {:induction false} ResolveAllFirstFailure(st: Settings, ps: seq<Placeholder>, stack: seq<string>)
    requires LookupConfined(st)
    requires ResolveAll(st, ps, stack).Failure?
    ensures exists k ::
              && 0 <= k < |ps|
              && Resolve(st, ps[k].name, stack) == Failure(ResolveAll(st, ps, stack).error)
              && forall j :: 0 <= j < k ==> Resolve(st, ps[j].name, stack).Success?
    decreases |ps|
  {
    if Resolve(st, ps[0].name, stack).Failure? {
      assert 0 < |ps| && Resolve(st, ps[0].name, stack) == Failure(ResolveAll(st, ps, stack).error);
    } else {
      ResolveAllFirstFailure(st, ps[1..], stack);
      var k :| 0 <= k < |ps[1..]|
        && Resolve(st, ps[1..][k].name, stack) == Failure(ResolveAll(st, ps[1..], stack).error)
        && forall j :: 0 <= j < k ==> Resolve(st, ps[1..][j].name, stack).Success?;
      assert forall j :: 1 <= j < k + 1 ==> ps[j] == ps[1..][j - 1];
      assert Resolve(st, ps[k + 1].name, stack) == Failure(ResolveAll(st, ps, stack).error);
    }
  }

  /**
   * One transformation pass: it succeeds exactly when every placeholder of the source resolves,
   * and then each match is replaced by its placeholder's replacement while the text between
   * matches is kept.
   */
  lemma TransformSplices(st: Settings, source: string, stack: seq<string>)
    requires LookupConfined(st)
    ensures var ms := FindMatches(st.wordChar, st.transformer, source);
      var ps := PlaceholdersIn(st, source);
      && (Transform(st, source, stack).Success? <==>
           forall k :: 0 <= k < |ps| ==> Resolve(st, ps[k].name, stack).Success?)
      && (Transform(st, source, stack).Success? ==>
           exists reps: seq<string> ::
             && |reps| == |ms|
             && (forall k :: 0 <= k < |ps| ==>
                   reps[k] == Replacement(st.transformer, ps[k], Resolve(st, ps[k].name, stack).value))
             && Transform(st, source, stack).value == Splice(source, 0, ms, reps))
  {
    var ps := PlaceholdersIn(st, source);
    ResolveAllSucceeds(st, ps, stack);
  }

  /** A failed pass fails with the fault of its first failing placeholder. */
  lemma TransformFirstFailure(st: Settings, source: string, stack: seq<string>)
    requires LookupConfined(st)
    requires Transform(st, source, stack).Failure?
    ensures var ps := PlaceholdersIn(st, source);
      exists k ::
        && 0 <= k < |ps|
        && Resolve(st, ps[k].name, stack) == Failure(Transform(st, source, stack).error)
        && forall j :: 0 <= j < k ==> Resolve(st, ps[j].name, stack).Success?
  {
    ResolveAllFirstFailure(st, PlaceholdersIn(st, source), stack);
  }

  /** Text without a match passes through unchanged. */
  lemma TransformNoMatch(st: Settings, source: string, stack: seq<string>)
    requires LookupConfined(st)
    requires FindMatches(st.wordChar, st.transformer, source) == []
    ensures Transform(st, source, stack) == Success(source)
  {
    SpliceNothing(source);
  }

  /** Without a command extension, text that holds no prefix-name-suffix occurrence passes through unchanged. */
  lemma TransformPlainText(st: Settings, source: string, stack: seq<string>)
    requires LookupConfined(st) && st.transformer.commandProcessor.None?
    requires forall i, q :: !PlainAt(st.wordChar, st.transformer, source, i, q)
    ensures Transform(st, source, stack) == Success(source)
  {
    NoPlaceholderNoMatch(st.wordChar, st.transformer, source);
    TransformNoMatch(st, source, stack);
  }

  /** An unbound name is replaced by the not-found policy's text, which is not expanded further, or raises its error. */
  lemma ResolveUnbound(st: Settings, name: string, stack: seq<string>)
    requires LookupConfined(st) && st.lookup(st.variables, name).None?
    ensures st.variableNotFound(name).Success? ==> Resolve(st, name, stack) == Success(st.variableNotFound(name).value)
    ensures st.variableNotFound(name).Failure? ==> Resolve(st, name, stack) == Failure(Raised(st.variableNotFound(name).error, stack))
  {
  }

  /** A bound name whose formatted value holds no placeholder resolves to that formatted value, unless it is already being expanded. */
  lemma ResolveLiteral(st: Settings, name: string, stack: seq<string>)
    requires LookupConfined(st) && st.lookup(st.variables, name).Some?
    requires FindMatches(st.wordChar, st.transformer, st.valueFormatter(st.lookup(st.variables, name).value)) == []
    ensures name !in stack ==> Resolve(st, name, stack) == Success(st.valueFormatter(st.lookup(st.variables, name).value))
    ensures name in stack ==> Resolve(st, name, stack) == Failure(Cycle(stack + [name], stack))
  {
    if name !in stack {
      RemainderShrinks(st.variables.Keys, stack, name);
      TransformNoMatch(st, st.valueFormatter(st.lookup(st.variables, name).value), stack + [name]);
    }
  }

  /** A bound name not yet on the stack resolves to the expansion of its formatted value, with the name pushed. */
  lemma ResolveBound(st: Settings, name: string, stack: seq<string>)
    requires LookupConfined(st) && st.lookup(st.variables, name).Some? && name !in stack
    ensures name in st.variables
    ensures Resolve(st, name, stack) ==
      Transform(st, st.valueFormatter(st.lookup(st.variables, name).value), stack + [name])
  {
    RemainderShrinks(st.variables.Keys, stack, name);
  }

  /** A bound name that is already being expanded is a cycle: the path is the stack plus that name. */
  lemma ResolveRepeated(st: Settings, name: string, stack: seq<string>)
    requires LookupConfined(st) && st.lookup(st.variables, name).Some? && name in stack
    ensures Resolve(st, name, stack) == Failure(Cycle(stack + [name], stack))
  {
  }

  /**
   * What an escaped exception leaves behind, starting from tracker content `stack`: the tracker
   * has only grown (nothing was popped on the way out), still holds distinct bound names, and
   * a cycle's path is that content plus a name that already occurs in it; a raised error is
   * the not-found policy's error for some name the lookup does not find.
   */
  ghost predicate FaultFrom(st: Settings, stack: seq<string>, f: Fault) {
    && |stack| <= |f.left| && f.left[..|stack|] == stack
    && Distinct(f.left) && Within(f.left, st.variables.Keys)
    && (f.Cycle? ==>
          |f.elements| == |f.left| + 1 && f.elements[..|f.left|] == f.left && f.elements[|f.left|] in f.left)
    && (f.Raised? ==>
          exists n :: st.lookup(st.variables, n).None? && st.variableNotFound(n) == Failure(f.error))
  }

  /** A fault that keeps its shape from the tracker with a name pushed keeps it from the tracker before the push. */
  lemma FaultFromPushed(st: Settings, stack: seq<string>, name: string, f: Fault)
    requires FaultFrom(st, stack + [name], f)
    ensures FaultFrom(st, stack, f)
  {
    var pushed := stack + [name];
    assert f.left[..|stack|] == f.left[..|pushed|][..|stack|] == pushed[..|stack|] == stack;
  }

  /** A fault of a pass keeps the shape described by `FaultFrom`. */
  lemma {:induction false} TransformFault(st: Settings, source: string, stack: seq<string>)
    requires LookupConfined(st) && Distinct(stack) && Within(stack, st.variables.Keys)
    ensures Transform(st, source, stack).Failure? ==> FaultFrom(st, stack, Transform(st, source, stack).error)
    decreases Measure(st, stack), 3, 0
  {
    ResolveAllFault(st, PlaceholdersIn(st, source), stack);
  }

  /** A fault of a list resolution keeps the shape described by `FaultFrom`. */
  lemma {:induction false} ResolveAllFault(st: Settings, ps: seq<Placeholder>, stack: seq<string>)
    requires LookupConfined(st) && Distinct(stack) && Within(stack, st.variables.Keys)
    ensures ResolveAll(st, ps, stack).Failure? ==> FaultFrom(st, stack, ResolveAll(st, ps, stack).error)
    decreases Measure(st, stack), 2, |ps|
  {
    if ps != [] {
      ResolveFault(st, ps[0].name, stack);
      ResolveAllFault(st, ps[1..], stack);
    }
  }

  /** A fault of one resolution keeps the shape described by `FaultFrom`. */
  lemma {:induction false} ResolveFault(st: Settings, name: string, stack: seq<string>)
    requires LookupConfined(st) && Distinct(stack) && Within(stack, st.variables.Keys)
    ensures Resolve(st, name, stack).Failure? ==> FaultFrom(st, stack, Resolve(st, name, stack).error)
    decreases Measure(st, stack), 1, 0
  {
    match st.lookup(st.variables, name)
    case None =>
      if st.variableNotFound(name).Failure? {
        assert stack[..|stack|] == stack;
      }
    case Some(value) =>
      TrackFault(st, name, st.valueFormatter(value), stack);
  }

  /** A fault of one tracked expansion keeps the shape described by `FaultFrom`. */
  lemma {:induction false} TrackFault(st: Settings, name: string, source: string, stack: seq<string>)
    requires LookupConfined(st) && name in st.variables
    requires Distinct(stack) && Within(stack, st.variables.Keys)
    ensures Track(st, name, source, stack).Failure? ==> FaultFrom(st, stack, Track(st, name, source, stack).error)
    decreases Measure(st, stack), 0, 0
  {
    if name in stack {
      var elements := stack + [name];
      assert elements[..|stack|] == stack;
      assert stack[..|stack|] == stack;
    } else {
      RemainderShrinks(st.variables.Keys, stack, name);
      var pushed := stack + [name];
      assert Distinct(pushed);
      assert Within(pushed, st.variables.Keys);
      TransformFault(st, source, pushed);
      if Transform(st, source, pushed).Failure? {
        FaultFromPushed(st, stack, name, Transform(st, source, pushed).error);
      }
    }
  }

  /**
   * Expansion is bounded by the bindings: whenever an exception escapes, the tracker holds at
   * most one entry per bound name, and a reported cycle path is at most one longer.
   */
  lemma FaultDepth(st: Settings, source: string)
    requires LookupConfined(st)
    requires Transform(st, source, []).Failure?
    ensures |Transform(st, source, []).error.left| <= |st.variables|
    ensures Transform(st, source, []).error.Cycle? ==> |Transform(st, source, []).error.elements| <= |st.variables| + 1
  {
    TransformFault(st, source, []);
    var f := Transform(st, source, []).error;
    DistinctWithinBound(f.left, st.variables.Keys);
  }

  /** Resolution stops at the first placeholder that fails, whatever follows it. */
  lemma ResolveAllFailsAt(st: Settings, ps: seq<Placeholder>, stack: seq<string>, i: nat)
    requires LookupConfined(st) && i < |ps|
    requires forall k :: 0 <= k < i ==> Resolve(st, ps[k].name, stack).Success?
    requires Resolve(st, ps[i].name, stack).Failure?
    ensures ResolveAll(st, ps, stack) == Failure(Resolve(st, ps[i].name, stack).error)
  {
    ResolveAllSucceeds(st, ps, stack);
    ResolveAllFirstFailure(st, ps, stack);
  }

  /** The first `|reps|` placeholders resolve under `stack`, and `reps` holds their replacements. */
  ghost predicate ResolvedPrefix(st: Settings, ps: seq<Placeholder>, stack: seq<string>, reps: seq<string>)
    requires LookupConfined(st)
  {
    && |reps| <= |ps|
    && forall k :: 0 <= k < |reps| ==>
      && Resolve(st, ps[k].name, stack).Success?
      && reps[k] == Replacement(st.transformer, ps[k], Resolve(st, ps[k].name, stack).value)
  }

  /** Resolving the next placeholder extends the resolved prefix by its replacement. */
  lemma ResolvedExtend(st: Settings, ps: seq<Placeholder>, stack: seq<string>, reps: seq<string>, text: string)
    requires LookupConfined(st) && ResolvedPrefix(st, ps, stack, reps) && |reps| < |ps|
    requires Resolve(st, ps[|reps|].name, stack) == Success(text)
    ensures ResolvedPrefix(st, ps, stack, reps + [Replacement(st.transformer, ps[|reps|], text)])
  {
  }

  /** Once every placeholder is resolved, the replacements are what `ResolveAll` gives. */
  lemma ResolvedComplete(st: Settings, ps: seq<Placeholder>, stack: seq<string>, reps: seq<string>)
    requires LookupConfined(st) && ResolvedPrefix(st, ps, stack, reps) && |reps| == |ps|
    ensures ResolveAll(st, ps, stack) == Success(reps)
  {
    ResolveAllSucceeds(st, ps, stack);
    assert ResolveAll(st, ps, stack).value == reps;
  }

  /** A placeholder that fails after a resolved prefix is the failure of `ResolveAll`. */
  lemma ResolvedFails(st: Settings, ps: seq<Placeholder>, stack: seq<string>, reps: seq<string>, f: Fault)
    requires LookupConfined(st) && ResolvedPrefix(st, ps, stack, reps) && |reps| < |ps|
    requires Resolve(st, ps[|reps|].name, stack) == Failure(f)
    ensures ResolveAll(st, ps, stack) == Failure(f)
  {
    ResolveAllFailsAt(st, ps, stack, |reps|);
  }

  /**
   * A source written as a template is filled with the resolutions of its names, in order;
   * resolution stops at the first name that fails.
   */
  lemma TemplateTransform(st: Settings, texts: seq<string>, names: seq<string>, stack: seq<string>)
    requires LookupConfined(st) && TemplateShape(st.wordChar, st.transformer, texts, names)
    ensures var r := Transform(st, Template(st.transformer, texts, names), stack);
      var reps := ResolveAll(st, Plain(names), stack);
      && (r.Success? <==> reps.Success?)
      && (reps.Success? ==> r.value == Fill(texts, reps.value))
      && (reps.Failure? ==> r.error == reps.error)
  {
    TemplateRead(st.wordChar, st.transformer, texts, names);
  }

  /** Each name resolves, at `stack`, to the text at its position in `reps`. */
  ghost predicate ResolveEach(st: Settings, names: seq<string>, stack: seq<string>, reps: seq<string>)
    requires LookupConfined(st)
    decreases |names|
  {
    && |names| == |reps|
    && (names != [] ==>
          && Resolve(st, names[0], stack) == Success(reps[0])
          && ResolveEach(st, names[1..], stack, reps[1..]))
  }

  /** Names that each resolve give their resolutions, in order. */
  lemma {:induction false} ResolveEachAll(st: Settings, names: seq<string>, stack: seq<string>, reps: seq<string>)
    requires LookupConfined(st) && ResolveEach(st, names, stack, reps)
    ensures ResolveAll(st, Plain(names), stack) == Success(reps)
    decreases |names|
  {
    if names != [] {
      ResolveEachAll(st, names[1..], stack, reps[1..]);
      assert Plain(names)[1..] == Plain(names[1..]);
      assert reps == [reps[0]] + reps[1..];
    }
  }

  /** A template whose names all resolve is filled with their resolutions. */
  lemma TemplateFilled(st: Settings, texts: seq<string>, names: seq<string>, stack: seq<string>, reps: seq<string>)
    requires LookupConfined(st) && TemplateShape(st.wordChar, st.transformer, texts, names)
    requires ResolveEach(st, names, stack, reps)
    ensures Transform(st, Template(st.transformer, texts, names), stack) == Success(Fill(texts, reps))
  {
    TemplateTransform(st, texts, names, stack);
    ResolveEachAll(st, names, stack, reps);
  }

  /** A template fails with the fault of its first name that does not resolve. */
  lemma TemplateFails(st: Settings, texts: seq<string>, names: seq<string>, stack: seq<string>,
                      reps: seq<string>, f: Fault)
    requires LookupConfined(st) && TemplateShape(st.wordChar, st.transformer, texts, names)
    requires |reps| < |names| && ResolveEach(st, names[..|reps|], stack, reps)
    requires Resolve(st, names[|reps|], stack) == Failure(f)
    ensures Transform(st, Template(st.transformer, texts, names), stack) == Failure(f)
  {
    TemplateTransform(st, texts, names, stack);
    var k := |reps|;
    ResolveEachAll(st, names[..k], stack, reps);
    ResolveAllSucceeds(st, Plain(names[..k]), stack);
    forall j | 0 <= j < k ensures Resolve(st, Plain(names)[j].name, stack).Success? {
      assert Plain(names)[j] == Plain(names[..k])[j];
    }
    ResolveAllFailsAt(st, Plain(names), stack, k);
  }
}
