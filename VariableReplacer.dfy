/** `VariableReplacer`: the replacer a configuration builds, and the properties of one replacement call. */
module VariableReplacer {
  import opened Wrappers
  import opened Strings
  import opened Values
  import opened Errors
  import opened Placeholders
  import opened Resolution
  import opened Tracking
  import opened Configuration

  /**
   * One replacement call: the configured transformer runs on the source with an empty path
   * (the source itself is not a variable, so it is not tracked), and a fault surfaces as its exception.
   */
  function Replace(st: Settings, source: string): (r: Result<string, Error>)
    requires LookupConfined(st)
  {
    match Resolution.Transform(st, source, [])
    case Success(text) => Success(text)
    case Failure(fault) => Failure(fault.ToError())
  }

  class VariableReplacer {
    const configuration: VariableReplacerConfiguration

    constructor(configuration: VariableReplacerConfiguration)
      ensures this.configuration == configuration
    {
      this.configuration := configuration;
    }

    /** `Variables`: a read-only view of the configuration's bindings, so later additions show through. */
    function Variables(): (vs: map<string, Value>)
      reads configuration
      ensures vs == configuration.variables
    {
      configuration.variables
    }

    /**
     * `ReplaceVariables`: builds a fresh path-tracking wrapper around the configured transformer
     * and a resolver over the configuration, then transforms the source with them.
     */
    method ReplaceVariables(sourceToReplaceVariablesIn: string) returns (r: Result<string, Error>)
      ensures r == Replace(configuration.Settings(), sourceToReplaceVariablesIn)
    {
      var st := configuration.Settings();
      var wrapper := new VariablePathWrapperTransformer(st.transformer);
      var resolver := new VariableResolver(st, wrapper);
      var result := TransformSource(st.transformer, sourceToReplaceVariablesIn, resolver);
      match result
      case Success(text) => r := Success(text);
      case Failure(fault) => r := Failure(fault.ToError());
    }
  }

  /** A source without placeholders comes back unchanged. */
  lemma ReplaceNoMatch(st: Settings, source: string)
    requires LookupConfined(st)
    requires FindMatches(st.wordChar, st.transformer, source) == []
    ensures Replace(st, source) == Success(source)
  {
    TransformNoMatch(st, source, []);
  }

  /** A template whose names all resolve comes back with each placeholder replaced by its name's resolution. */
  lemma ReplaceTemplate(st: Settings, texts: seq<string>, names: seq<string>, reps: seq<string>)
    requires LookupConfined(st) && TemplateShape(st.wordChar, st.transformer, texts, names)
    requires ResolveEach(st, names, [], reps)
    ensures Replace(st, Template(st.transformer, texts, names)) == Success(Fill(texts, reps))
  {
    TemplateFilled(st, texts, names, [], reps);
  }

  /** A template fails with the exception of its first name that does not resolve. */
  lemma ReplaceTemplateFails(st: Settings, texts: seq<string>, names: seq<string>, reps: seq<string>, f: Fault)
    requires LookupConfined(st) && TemplateShape(st.wordChar, st.transformer, texts, names)
    requires |reps| < |names| && ResolveEach(st, names[..|reps|], [], reps)
    requires Resolution.Resolve(st, names[|reps|], []) == Failure(f)
    ensures Replace(st, Template(st.transformer, texts, names)) == Failure(f.ToError())
  {
    TemplateFails(st, texts, names, [], reps, f);
  }

  /**
   * A reported cycle is a real one: its path visits distinct bound names and ends with a name
   * already on the path, so it is at least two long and at most one longer than the number of
   * bindings.
   */
  lemma CyclePath(st: Settings, source: string)
    requires LookupConfined(st)
    requires Resolution.Transform(st, source, []).Failure? && Resolution.Transform(st, source, []).error.Cycle?
    ensures var elements := Resolution.Transform(st, source, []).error.elements;
      && Replace(st, source) == Failure(CyclicDependency(elements))
      && 2 <= |elements| <= |st.variables| + 1
      && Distinct(elements[..|elements| - 1])
      && Within(elements, st.variables.Keys)
      && elements[|elements| - 1] in elements[..|elements| - 1]
  {
    TransformFault(st, source, []);
    FaultDepth(st, source);
  }

  /** With a policy that never throws, the only exception a replacement can end in is a cyclic dependency. */
  lemma OnlyCyclesFail(st: Settings, source: string)
    requires LookupConfined(st)
    requires forall n :: st.variableNotFound(n).Success?
    ensures Replace(st, source).Failure? ==> Replace(st, source).error.CyclicDependency?
  {
    TransformFault(st, source, []);
  }

  /** With the throwing policy, a failure that is not a cycle names a variable that is not bound. */
  lemma ThrowingPolicyNamesMissing(st: Settings, source: string)
    requires LookupConfined(st) && st.variableNotFound == ThrowNotFound && st.lookup == TryGetValue
    requires Replace(st, source).Failure? && !Replace(st, source).error.CyclicDependency?
    ensures exists n :: n !in st.variables && Replace(st, source).error == Argument("Variable '" + n + "' not found")
  {
    TransformFault(st, source, []);
    var f := Resolution.Transform(st, source, []).error;
    assert f.Raised?;
    var n :| st.lookup(st.variables, n).None? && st.variableNotFound(n) == Failure(f.error);
    assert n !in st.variables;
  }
}
