/**
 * The objects that carry out one replacement call: the path-tracking wrapper with its stack of
 * names being expanded, the resolver that looks names up and hands their values to the wrapper,
 * and the regex transformer's replace loop. Each method is proved to compute the corresponding
 * function of `Resolution` and to leave the wrapper's stack as the source does: restored after a
 * normal return, and as it was when the exception escaped otherwise.
 */
module Tracking {
  import opened Wrappers
  import opened Strings
  import opened Placeholders
  import opened Resolution

  /** `VariablePathWrapperTransformer`: guards the inner transformer against cyclic expansion. */
  class VariablePathWrapperTransformer {
    /** The wrapped transformer. */
    const transformer: RegexTransformer
    /** `CollectedVariables`: the names being expanded, bottom of the stack first. */
    var collectedVariables: seq<string>

    constructor(transformer: RegexTransformer)
      ensures this.transformer == transformer && collectedVariables == []
    {
      this.transformer := transformer;
      collectedVariables := [];
    }

    /**
     * `Transform` for a tracking context naming `variableName`: a name already on the stack is
     * a cycle, reported with the stack in push order followed by the name; otherwise the name is
     * pushed, the inner transformer expands `source` with `resolver`, and the name is popped.
     */
    method Transform(variableName: string, source: string, resolver: VariableResolver) returns (r: Result<string, Fault>)
      requires resolver.transformer == this && resolver.Valid()
      requires variableName in resolver.settings.variables
      modifies this
      ensures resolver.Valid()
      ensures r == Track(resolver.settings, variableName, source, old(collectedVariables))
      ensures r.Success? ==> collectedVariables == old(collectedVariables)
      ensures r.Failure? ==> collectedVariables == r.error.left
      decreases Measure(resolver.settings, collectedVariables), 0
    {
      if variableName in collectedVariables {
        r := Failure(Cycle(collectedVariables + [variableName], collectedVariables));
        return;
      }
      RemainderShrinks(resolver.settings.variables.Keys, collectedVariables, variableName);
      collectedVariables := collectedVariables + [variableName];
      r := TransformSource(transformer, source, resolver);
      if r.Success? {
        collectedVariables := collectedVariables[..|collectedVariables| - 1];
      }
    }
  }

  /** `VariableResolver`: resolves one placeholder name against the configuration. */
  class VariableResolver {
    const settings: Settings
    const transformer: VariablePathWrapperTransformer

    /** The lookup is confined, the wrapper wraps the configured transformer, and its stack holds distinct bound names. */
    ghost predicate Valid()
      reads this, transformer
    {
      && LookupConfined(settings)
      && transformer.transformer == settings.transformer
      && Distinct(transformer.collectedVariables)
      && Within(transformer.collectedVariables, settings.variables.Keys)
    }

    constructor(settings: Settings, transformer: VariablePathWrapperTransformer)
      ensures this.settings == settings && this.transformer == transformer
    {
      this.settings := settings;
      this.transformer := transformer;
    }

    /**
     * `Resolve`: a name the lookup finds is expanded through the wrapper, from its formatted
     * value; any other name is given to the not-found policy.
     */
    method Resolve(variableName: string) returns (r: Result<string, Fault>)
      requires Valid()
      modifies transformer
      ensures Valid()
      ensures r == Resolution.Resolve(settings, variableName, old(transformer.collectedVariables))
      ensures r.Success? ==> transformer.collectedVariables == old(transformer.collectedVariables)
      ensures r.Failure? ==> transformer.collectedVariables == r.error.left
      decreases Measure(settings, transformer.collectedVariables), 1
    {
      var found := settings.lookup(settings.variables, variableName);
      if found.Some? {
        r := transformer.Transform(variableName, settings.valueFormatter(found.value), this);
      } else {
        var text := settings.variableNotFound(variableName);
        if text.Success? {
          r := Success(text.value);
        } else {
          r := Failure(Raised(text.error, transformer.collectedVariables));
        }
      }
    }
  }

  /**
   * `RegexTransformer.Transform`: finds the matches of `t` in `source`, asks `resolver` for each
   * name from left to right, and splices the replacements in; the first failure escapes.
   */
  method TransformSource(t: RegexTransformer, source: string, resolver: VariableResolver) returns (r: Result<string, Fault>)
    requires resolver.Valid() && t == resolver.settings.transformer
    modifies resolver.transformer
    ensures resolver.Valid()
    ensures r == Resolution.Transform(resolver.settings, source, old(resolver.transformer.collectedVariables))
    ensures r.Success? ==> resolver.transformer.collectedVariables == old(resolver.transformer.collectedVariables)
    ensures r.Failure? ==> resolver.transformer.collectedVariables == r.error.left
    decreases Measure(resolver.settings, resolver.transformer.collectedVariables), 3
  {
    var st := resolver.settings;
    var ms := FindMatches(st.wordChar, t, source);
    var ps := PlaceholdersOf(st.wordChar, t, source, ms);
    ghost var stack := resolver.transformer.collectedVariables;
    var reps: seq<string> := [];
    while |reps| < |ps|
      invariant resolver.Valid() && resolver.transformer.collectedVariables == stack
      invariant ResolvedPrefix(st, ps, stack, reps)
      decreases |ps| - |reps|
    {
      var text := resolver.Resolve(ps[|reps|].name);
      if text.Failure? {
        ResolvedFails(st, ps, stack, reps, text.error);
        r := Failure(text.error);
        return;
      }
      ResolvedExtend(st, ps, stack, reps, text.value);
      reps := reps + [Replacement(t, ps[|reps|], text.value)];
    }
    ResolvedComplete(st, ps, stack, reps);
    r := Success(Splice(source, 0, ms, reps));
  }
}
