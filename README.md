# LSL.VariableReplacer in Dafny

A model of the placeholder-substitution engine of LSL.VariableReplacer, with proofs.

The library replaces placeholders such as `$(FirstName)` in a string with the values bound to
those names. A value may itself contain placeholders, so expansion is recursive. A chain of
names that leads back to a name still being expanded is reported as a cyclic dependency.

The model covers these parts:

- **The matcher** (`Placeholders`). It models `RegexTransformer`'s pattern
  `Escape(prefix) (\w+) Escape(suffix)`. The model is a left-to-right scanner that finds the
  leftmost match, resumes at the match's end, and backtracks the greedy `\w+` the way the regex
  engine does. The word-character class `\w` is a parameter `w: char -> bool`. The prefix and
  suffix are compared as literal text.
- **The engine** (`Resolution`). Three mutually recursive functions model the engine:
  `Transform` (the regex replace), `Resolve` (`VariableResolver.Resolve`) and `Track` (the check,
  push and pop of `VariablePathWrapperTransformer`). The tracker's stack is threaded through
  them as a parameter. Exceptions become `Failure(fault)`. A fault records what the tracker held
  when the exception escaped, because the wrapper pops only after a normal return. Expansion
  terminates with the measure |bound names − names on the stack|. This needs the lookup to find
  only bound names, which dictionary lookup does.
- **The stateful objects** (`Tracking`). `VariablePathWrapperTransformer` is a class with a
  `seq<string>` stack. `VariableResolver` is a class, and the regex replace loop is a method.
  Each method is proved to compute the functional model. On success it leaves the stack as it
  found it. On failure the stack holds exactly what the fault records.
- **The entry point** (`VariableReplacer`). Each `ReplaceVariables` call builds a fresh wrapper,
  so the path starts empty. `Variables` is a view of the configuration's bindings.
- **The configuration** (`Configuration`, `CanAddVariablesExtensions`, `EnvironmentOptions`,
  `ObjectOptions`). These are classes whose setters reassign fields. `AddVariable` has
  `Dictionary.Add` semantics. There are bulk additions from a dictionary, from an environment
  snapshot and from an object's property tree.
- **The small value types**: `Guard`, `CyclicDependencyException`,
  `InvalidVariableNamesException` (its `StringBuilder` fold is a loop),
  `VariableNameValidationResult` and `TransformHelperExtensions`.
- **The scenarios** (`Scenarios`). The repository's tests, stated and proved for the model.

Where the repository's files disagree with each other, the model follows the code that runs:

- A cyclic-dependency path is the whole stack in push order plus the repeated name
  (`VariablePathWrapperTransformer.cs:15`).
- The wrapper does not pop when the inner transform throws: the pop at
  `VariablePathWrapperTransformer.cs:22` follows the call at line 20 with no `finally`. The
  model keeps the unpopped stack in the fault.
- The tests (`VariableReplacerFactoryTests.cs:46-48`) expect `$(other.codes)` to resolve, which
  `\w+` (`RegexTransformer.cs:9`) cannot match. `Scenarios.DottedNameKept` proves that with
  `\w` as written, `"$(other.codes)"` is left unchanged. `Scenarios.DottedNameResolved` proves
  the test's expected output when the name class also admits `.`.
- `VariableReplacerConfiguration.cs:53` passes a command processor that `RegexTransformer.cs:5`
  does not take. The model makes it an optional field of the transformer. When it is absent,
  nothing changes. When it is present, the matcher also accepts
  `prefix name ':' command suffix`, and the processor gets `(command, resolved text)`; this
  syntax follows the processor test (`VariableReplacerFactoryTests.cs:176-201`).
- `CyclicDependencyException` derives from `Exception` (`CyclicDependencyException.cs:9`),
  although the test expects an `ArgumentException` (`VariableReplacerFactoryTests.cs:156`). The
  model does not depend on the exception's base class.
- `VariableResolver.cs:7` uses `config.VariableResolver` and `config.ReadOnlyVariables`, which
  `VariableReplacerConfiguration` (`VariableReplacerConfiguration.cs:11-14`) does not declare.
  The lookup is therefore a parameter with the shape of `VariableResolvingDelegate`
  (`VariableResolvingDelegate.cs:12`). The configuration installs dictionary lookup
  (`TryGetValue`).

## Model

| member | source | states |
|---|---|---|
| `Placeholders.DefaultTransformer` | LSL.VariableReplacer/RegexTransformer.cs:7 | The parameterless transformer uses the delimiters `$(` and `)` and has no command processor. |
| `Placeholders.WordRun` | LSL.VariableReplacer/RegexTransformer.cs:9 | The result is the length of the maximal run of word characters at `j`: all are word characters and the next one is not. |
| `Placeholders.Longest` | LSL.VariableReplacer/RegexTransformer.cs:9 | Backtracking a greedy `\w+`: the largest name length ≤ n after which the suffix occurs; no longer length has the suffix; `None` only if no length has it. |
| `Placeholders.CommandAt` | LSL.VariableReplacer/VariableReplacerConfiguration.cs:49-53 | A command is recognised only with a processor configured, right after a `:`, as a word run followed by the suffix. |
| `Placeholders.TryName` | LSL.VariableReplacer/RegexTransformer.cs:9 | A name of one given length after the prefix: a match of exactly that name when a command or the suffix follows, and none only when the suffix does not follow it. |
| `Placeholders.NameSearch` | LSL.VariableReplacer/RegexTransformer.cs:9 | A found match starts at the prefix and is well formed. If none is found, no name length has the suffix after it. Without commands, the match has the longest such name. |
| `Placeholders.MatchAt` | LSL.VariableReplacer/RegexTransformer.cs:9 | A match at `i` is prefix, non-empty word run, suffix (or command form) and ends after `i`. No match means no `prefix \w+ suffix` starts at `i`. Without commands, it picks the longest name. |
| `Placeholders.FindFromLeftmost` | LSL.VariableReplacer/RegexTransformer.cs:12-15 | The scan finds the leftmost-first decomposition. No match starts before each found one, each is the match at its start, and scanning resumes at its end. |
| `Placeholders.LeftmostChain` | LSL.VariableReplacer/RegexTransformer.cs:12-15 | The matches of the decomposition do not overlap and lie in order. |
| `Placeholders.LeftmostAllMatch` | LSL.VariableReplacer/RegexTransformer.cs:9 | Every match in the decomposition has the pattern's shape. |
| `Placeholders.FindMatches` | LSL.VariableReplacer/RegexTransformer.cs:12-15 | All matches of a source: leftmost-first, non-overlapping, in order, each of the pattern's shape. |
| `Placeholders.LeftmostUnique` | LSL.VariableReplacer/RegexTransformer.cs:12-15 | The leftmost decomposition is unique, so the matches depend on the pattern and the source alone. |
| `Placeholders.NoPlaceholderNoMatch` | LSL.VariableReplacer/RegexTransformer.cs:11-15 | A source with no `prefix \w+ suffix` occurrence has no match. |
| `Placeholders.PlaceholderOf` | LSL.VariableReplacer/RegexTransformer.cs:15 | The captured name (`Groups[1]`) is a non-empty run of word characters. A command is captured only when a processor is configured. |
| `Placeholders.PlaceholdersOf` | LSL.VariableReplacer/RegexTransformer.cs:15 | One placeholder per match, in match order. |
| `Placeholders.Replacement` | LSL.VariableReplacer/VariableReplacerConfiguration.cs:49-53 | A placeholder without a command is replaced by its resolved text unchanged. |
| `Placeholders.SpliceRestores` | LSL.VariableReplacer/RegexTransformer.cs:13-15 | Replacing each match by the text it covers gives the source back, so all text around the matches is copied verbatim and in order. |
| `Placeholders.SpliceLength` | LSL.VariableReplacer/RegexTransformer.cs:13-15 | The output length is the unmatched text plus the replacements, with no rescanning and no other text added. |
| `Placeholders.TemplateFound` | LSL.VariableReplacer/RegexTransformer.cs:9-15 | In text of the form `t0 prefix n1 suffix t1 …`, the scan finds exactly the written placeholders. |
| `Placeholders.TemplateNames` | LSL.VariableReplacer/RegexTransformer.cs:15 | Each of those matches captures its written name. |
| `Placeholders.TemplateSplice` | LSL.VariableReplacer/RegexTransformer.cs:13-15 | Splicing replacements into those matches interleaves the literal texts with the replacements. |
| `Placeholders.TemplateRead` | LSL.VariableReplacer/RegexTransformer.cs:9-15 | A whole template is matched as its names, in order and without commands. Any replacements fill it. |
| `Resolution.TryGetValue` | LSL.VariableReplacer/VariableResolvingDelegate.cs:12 | Dictionary lookup finds a value exactly for bound names, and the value is the bound one. |
| `Resolution.TryGetValueConfined` | LSL.VariableReplacer/VariableResolver.cs:7-8 | Dictionary lookup only finds bound names, the guarantee that bounds the recursion. |
| `Resolution.ResolveAll` | LSL.VariableReplacer/RegexTransformer.cs:15 | A successful evaluation of the matches yields one replacement per placeholder. |
| `Resolution.ResolveAllSucceeds` | LSL.VariableReplacer/RegexTransformer.cs:15 | Resolving the placeholders succeeds iff each one resolves. Replacement k is placeholder k's resolution, so a repeated name is resolved each time. |
| `Resolution.ResolveAllFirstFailure` | LSL.VariableReplacer/RegexTransformer.cs:15 | A failure is the failure of the first placeholder that fails, and all earlier ones succeeded. |
| `Resolution.ResolveAllFailsAt` | LSL.VariableReplacer/RegexTransformer.cs:15 | Resolution stops at the first failing placeholder, whatever follows. |
| `Resolution.TransformSplices` | LSL.VariableReplacer/RegexTransformer.cs:11-15 | A pass succeeds iff every placeholder resolves. Its output is the source with match k replaced by placeholder k's replacement. |
| `Resolution.TransformFirstFailure` | LSL.VariableReplacer/RegexTransformer.cs:11-15 | A failing pass fails with its first failing placeholder's fault. |
| `Resolution.TransformNoMatch` | LSL.VariableReplacer/RegexTransformer.cs:11-15 | A source without matches is returned unchanged, whatever the tracker holds. |
| `Resolution.TransformPlainText` | LSL.VariableReplacer/RegexTransformer.cs:9-15 | Without commands, a source with no `prefix \w+ suffix` occurrence is returned unchanged. |
| `Resolution.ResolveUnbound` | LSL.VariableReplacer/VariableResolver.cs:7-9 | An unbound name gives exactly the not-found policy's text, with no expansion and no push. If the policy throws, its error escapes with the tracker untouched. |
| `Resolution.ResolveBound` | LSL.VariableReplacer/VariableResolver.cs:7-12 | A bound name not being expanded resolves to the transform of its value, formatted once, with the name pushed. |
| `Resolution.ResolveLiteral` | LSL.VariableReplacer/VariableResolver.cs:7-12 | A bound name whose formatted value has no placeholder resolves to that value, or to a cycle if it is already on the stack. |
| `Resolution.ResolveRepeated` | LSL.VariableReplacer/VariablePathWrapperTransformer.cs:13-16 | A bound name already on the stack fails with a cycle whose path is the stack in push order plus the name. |
| `Resolution.TransformFault` | LSL.VariableReplacer/VariablePathWrapperTransformer.cs:13-22 | An escaping fault leaves a tracker that only grew from the starting stack and holds distinct bound names. A cycle path is that content plus a name in it. A raised error is the policy's error for an unbound name. |
| `Resolution.ResolveAllFault` | LSL.VariableReplacer/VariablePathWrapperTransformer.cs:13-22 | The same fault shape for a list of placeholders. |
| `Resolution.ResolveFault` | LSL.VariableReplacer/VariableResolver.cs:7-12 | The same fault shape for one resolution. |
| `Resolution.TrackFault` | LSL.VariableReplacer/VariablePathWrapperTransformer.cs:13-22 | The same fault shape for one tracked expansion. The push is not undone when the inner transform fails. |
| `Resolution.FaultDepth` | LSL.VariableReplacer/VariableResolver.cs:7-12 | When a call fails, the tracker holds at most one entry per binding, and a cycle path is at most one longer. |
| `Resolution.ResolvedComplete` | LSL.VariableReplacer/RegexTransformer.cs:15 | Once each placeholder is resolved in turn, the replacements are those of the whole evaluation. |
| `Resolution.ResolvedFails` | LSL.VariableReplacer/RegexTransformer.cs:15 | A placeholder that fails after resolved ones is the failure of the whole evaluation. |
| `Resolution.TemplateTransform` | LSL.VariableReplacer/RegexTransformer.cs:11-15 | A template's transform succeeds iff its names resolve in order. It then fills the template, and otherwise fails with the first failure. |
| `Resolution.ResolveEachAll` | LSL.VariableReplacer/RegexTransformer.cs:15 | Names that each resolve give their resolutions, in order. |
| `Resolution.TemplateFilled` | LSL.VariableReplacer/RegexTransformer.cs:13-15 | A template whose names all resolve is filled with their resolutions. |
| `Resolution.TemplateFails` | LSL.VariableReplacer/RegexTransformer.cs:13-15 | A template fails with the fault of its first name that does not resolve. |
| `Tracking.VariablePathWrapperTransformer.constructor` | LSL.VariableReplacer/VariablePathWrapperTransformer.cs:6-8 | A new wrapper has an empty stack and wraps the given transformer. |
| `Tracking.VariablePathWrapperTransformer.Transform` | LSL.VariableReplacer/VariablePathWrapperTransformer.cs:10-25 | Check, push, delegate, pop: the result is `Track` of the old stack. A success restores the stack. A failure leaves the stack as the fault records (no pop). |
| `Tracking.VariableResolver.constructor` | LSL.VariableReplacer/VariableResolver.cs:5 | The resolver holds the given settings and the given wrapper, which later resolutions share. |
| `Tracking.VariableResolver.Resolve` | LSL.VariableReplacer/VariableResolver.cs:5-13 | The resolver object computes `Resolution.Resolve` on the wrapper's stack, with the same stack discipline. |
| `Tracking.TransformSource` | LSL.VariableReplacer/RegexTransformer.cs:11-15 | The replace loop asks the resolver for each match left to right and computes `Resolution.Transform`. A success leaves the stack as it was. |
| `VariableReplacer.VariableReplacer.constructor` | LSL.VariableReplacer/VariableReplacer.cs:6 | The replacer keeps a reference to its configuration, not a copy. |
| `VariableReplacer.VariableReplacer.Variables` | LSL.VariableReplacer/VariableReplacer.cs:8 | The view is exactly the configuration's bindings. |
| `VariableReplacer.VariableReplacer.ReplaceVariables` | LSL.VariableReplacer/VariableReplacer.cs:10-17 | With a fresh wrapper and resolver per call, the result is `Replace` of the configuration's settings: the transform of the source with an empty path, a fault surfacing as its exception. |
| `VariableReplacer.ReplaceNoMatch` | LSL.VariableReplacer/VariableReplacer.cs:10-17 | A source without placeholders comes back unchanged. |
| `VariableReplacer.ReplaceTemplate` | LSL.VariableReplacer/VariableReplacer.cs:10-17 | A template whose names resolve comes back with each placeholder replaced by its resolution. |
| `VariableReplacer.ReplaceTemplateFails` | LSL.VariableReplacer/VariableReplacer.cs:10-17 | A template fails with the exception of its first unresolvable name. |
| `VariableReplacer.CyclePath` | LSL.VariableReplacer/VariablePathWrapperTransformer.cs:13-18 | A reported cycle is real. Its path has distinct bound names followed by one that repeats, and its length is between 2 and the number of bindings + 1. |
| `VariableReplacer.OnlyCyclesFail` | LSL.VariableReplacer/VariableReplacerConfiguration.cs:13 | With a not-found policy that never throws (like the default), the only possible failure is a cyclic dependency. |
| `VariableReplacer.ThrowingPolicyNamesMissing` | LSL.VariableReplacer/VariableReplacerConfiguration.cs:77-78 | Under the throwing policy, a failure other than a cycle is `Variable '<n>' not found` for an unbound `n`. |
| `Configuration.DictionaryAdd` | LSL.VariableReplacer/VariableReplacerConfiguration.cs:21 | `Dictionary.Add` fails iff the key is bound, with the duplicate-key error. Otherwise it adds exactly that binding and keeps all others. |
| `Configuration.VariableReplacerConfiguration.constructor` | LSL.VariableReplacer/VariableReplacerConfiguration.cs:11-14 | Defaults: no bindings, the `$(`/`)` transformer, `NOTFOUND:` + name, and interpolation as formatter. |
| `Configuration.VariableReplacerConfiguration.Settings` | LSL.VariableReplacer/VariableReplacerConfiguration.cs:11-14 | The settings a replacer works with use dictionary lookup, which finds only bound names. |
| `Configuration.VariableReplacerConfiguration.AddVariable` | LSL.VariableReplacer/VariableReplacerConfiguration.cs:17-23 | A null name fails for parameter `name` and changes nothing. A bound name fails with the duplicate-key error and keeps the old binding. A fresh name adds exactly that binding. No other field changes. |
| `Configuration.VariableReplacerConfiguration.WithTransformer` | LSL.VariableReplacer/VariableReplacerConfiguration.cs:34-40 | Rejects null; otherwise replaces only the transformer and returns the same configuration. |
| `Configuration.VariableReplacerConfiguration.WithDefaultTransformer` | LSL.VariableReplacer/VariableReplacerConfiguration.cs:49-53 | With both delimiters present (default `$(`/`)`), installs a regex transformer with them and the optional processor, and nothing else. A null delimiter fails with the `ArgumentNullException` of `Regex.Escape` (RegexTransformer.cs:9) and leaves the transformer unchanged. |
| `Configuration.VariableReplacerConfiguration.WhenVariableNotFound` | LSL.VariableReplacer/VariableReplacerConfiguration.cs:64-70 | Rejects null; otherwise replaces only the not-found policy. |
| `Configuration.VariableReplacerConfiguration.ThrowIfVariableNotFound` | LSL.VariableReplacer/VariableReplacerConfiguration.cs:77-78 | Installs the throwing policy and nothing else. |
| `Configuration.VariableReplacerConfiguration.WithValueFormatter` | LSL.VariableReplacer/VariableReplacerConfiguration.cs:80-86 | Rejects null; otherwise replaces only the formatter. |
| `Configuration.ThrowNotFoundMessage` | LSL.VariableReplacer/VariableReplacerConfiguration.cs:78 | The throwing policy's message is `Variable '<name>' not found`. |
| `CanAddVariablesExtensions.AddAllHead` | LSL.VariableReplacer/CanAddVariablesExtensions.cs:26 | Each step of the fold is one `Dictionary.Add`. |
| `CanAddVariablesExtensions.AddAllKeeps` | LSL.VariableReplacer/CanAddVariablesExtensions.cs:26 | Existing bindings survive a bulk addition unchanged, even one that stops early. |
| `CanAddVariablesExtensions.AddAllBlames` | LSL.VariableReplacer/CanAddVariablesExtensions.cs:26 | An addition that stops reports the duplicate key of one of its entries. |
| `CanAddVariablesExtensions.EntryKeysMembers` | LSL.VariableReplacer/CanAddVariablesExtensions.cs:26 | A key is among the entry keys iff some entry has it. |
| `CanAddVariablesExtensions.FreshTail` | LSL.VariableReplacer/CanAddVariablesExtensions.cs:26 | Fresh keys stay fresh for the rest of the list after the first entry is added. |
| `CanAddVariablesExtensions.AddAllFresh` | LSL.VariableReplacer/CanAddVariablesExtensions.cs:26 | With new, distinct keys, the result is the old store plus exactly the entries. |
| `CanAddVariablesExtensions.AddAllStopsAt` | LSL.VariableReplacer/CanAddVariablesExtensions.cs:26 | The first already-bound key stops the fold, and only the entries before it are added. |
| `CanAddVariablesExtensions.AddOne` | LSL.VariableReplacer/CanAddVariablesExtensions.cs:26 | Adding one entry is one dictionary addition. |
| `CanAddVariablesExtensions.AddAllConcat` | LSL.VariableReplacer/CanAddVariablesExtensions.cs:26 | Folding over a concatenation is folding over the first list, then the second unless it stopped. |
| `CanAddVariablesExtensions.AddStep` | LSL.VariableReplacer/CanAddVariablesExtensions.cs:26 | One step of the fold either ends the addition with the duplicate key or extends the bindings by one. |
| `CanAddVariablesExtensions.AddVariables` | LSL.VariableReplacer/CanAddVariablesExtensions.cs:21-27 | A null dictionary fails for `variableDictionary` and changes nothing. Otherwise the store becomes the fold's result, with its error if it stopped. |
| `CanAddVariablesExtensions.AddEach` | LSL.VariableReplacer/CanAddVariablesExtensions.cs:26 | The loop of `AddVariable` calls computes the fold. |
| `CanAddVariablesExtensions.EnvironmentEntries` | LSL.VariableReplacer/CanAddVariablesExtensions.cs:49-55 | No more entries than environment variables. |
| `CanAddVariablesExtensions.EnvironmentEntriesMembers` | LSL.VariableReplacer/CanAddVariablesExtensions.cs:49-55 | An entry `(prefix + k, v)` is produced iff the snapshot has `k = v` and the filter accepts `k`. |
| `CanAddVariablesExtensions.EnvironmentEntriesPrefixed` | LSL.VariableReplacer/CanAddVariablesExtensions.cs:55 | Every added key starts with the prefix. |
| `CanAddVariablesExtensions.AddEnvironmentVariables` | LSL.VariableReplacer/CanAddVariablesExtensions.cs:43-56 | Adds the filtered, prefixed snapshot entries. A null filter accepts all, a null prefix keeps raw keys, and the default prefix is `ENV_`. |
| `CanAddVariablesExtensions.MakePathJoins` | LSL.VariableReplacer/CanAddVariablesExtensions.cs:81 | `MakePath` from an empty path gives the name. Building paths step by step joins the property names with `.`. |
| `CanAddVariablesExtensions.WalkProperties` | LSL.VariableReplacer/CanAddVariablesExtensions.cs:67-83 | Every key produced under a non-empty path starts with that path and `.`. What the walk adds is stated by `WalkLeaves`. |
| `CanAddVariablesExtensions.WalkLeaves` | LSL.VariableReplacer/CanAddVariablesExtensions.cs:67-83 | Each primitive or string property is bound at its dotted path with its value, in declaration order, depth first. The walk stops at a null nested object exactly when the tree holds one, and what it added up to there is a prefix of those bindings. |
| `CanAddVariablesExtensions.AddProperties` | LSL.VariableReplacer/CanAddVariablesExtensions.cs:67-83 | Simple properties become bindings at their path, and nested objects are walked at the extended path. A null nested object raises a null-reference error. |
| `CanAddVariablesExtensions.AddPropertyList` | LSL.VariableReplacer/CanAddVariablesExtensions.cs:69-82 | The `Aggregate` over one property list computes the walk's additions. |
| `CanAddVariablesExtensions.AddVariablesFromObject` | LSL.VariableReplacer/CanAddVariablesExtensions.cs:58-66 | A null object fails for `value`. Otherwise the walk's bindings are added from the root and the same source is returned; for a tree without a null nested object the store gains exactly its `Leaves`, the dotted path of each primitive or string property with its value. |
| `CyclicDependencyException.ToMessage` | LSL.VariableReplacer/CyclicDependencyException.cs:16-17 | The message is the fixed header followed by the elements joined with ` -> `. An empty path gives just the header, and one element has no arrow. |
| `CyclicDependencyException.ToMessageSnoc` | LSL.VariableReplacer/CyclicDependencyException.cs:17 | One more element adds exactly one arrow and that element. |
| `CyclicDependencyException.ToMessageLength` | LSL.VariableReplacer/CyclicDependencyException.cs:17 | A message for n elements has their characters, the header and n − 1 arrows. |
| `CyclicDependencyException.CyclicDependency.Elements` | LSL.VariableReplacer/CyclicDependencyException.cs:14 | `Elements` is exactly the constructor's sequence. |
| `CyclicDependencyException.CyclicDependency.Message` | LSL.VariableReplacer/CyclicDependencyException.cs:9 | The exception's message is built from its elements. |
| `Strings.JoinSnoc` | LSL.VariableReplacer/CyclicDependencyException.cs:17 | `string.Join` of one more element adds one separator before it. |
| `Strings.JoinLength` | LSL.VariableReplacer/CyclicDependencyException.cs:17 | A join of n elements has n − 1 separators. |
| `Strings.DistinctWithinBound` | LSL.VariableReplacer/VariablePathWrapperTransformer.cs:13-18 | A stack without duplicates drawn from the bound names is no longer than the number of bindings. |
| `Strings.RemainderShrinks` | LSL.VariableReplacer/VariablePathWrapperTransformer.cs:13-18 | Pushing a bound name that is not on the stack decreases the termination measure. |
| `Guard.IsNotNull` | LSL.VariableReplacer/Guard.cs:7 | A present value is returned unchanged. Null fails with an argument-null error for the parameter with text `Argument cannot be null`. |
| `Guard.AssertNotNull` | LSL.VariableReplacer/Guard.cs:9 | Behaves exactly as `IsNotNull`. |
| `Guard.GuardMessage` | LSL.VariableReplacer/Guard.cs:7 | The failure message is `Argument cannot be null (Parameter '<name>')`. |
| `InvalidVariableNamesException.StringBuilder.AppendLine` | LSL.VariableReplacer/InvalidVariableNamesException.cs:25-27 | Appends the line and then the line terminator. |
| `InvalidVariableNamesException.StringBuilder.ToString` | LSL.VariableReplacer/InvalidVariableNamesException.cs:28 | Returns the accumulated text. |
| `InvalidVariableNamesException.ToMessage` | LSL.VariableReplacer/InvalidVariableNamesException.cs:21-29 | The fold gives the message, then two terminators, then one `Variable '<name>': <message>` line per problem in input order. |
| `InvalidVariableNamesException.ProblemLinesConcat` | LSL.VariableReplacer/InvalidVariableNamesException.cs:23-27 | The lines of two problem lists laid end to end are the first's lines followed by the second's. |
| `InvalidVariableNamesException.ProblemLinesAt` | LSL.VariableReplacer/InvalidVariableNamesException.cs:27 | Problem k's line sits between the lines of the problems before and after it. |
| `InvalidVariableNamesException.MessageLayout` | LSL.VariableReplacer/InvalidVariableNamesException.cs:23-28 | The message starts with the header and two terminators, is just that with no problems, and keeps problem lines in order. |
| `InvalidVariableNamesException.ProblemLineFree` | LSL.VariableReplacer/InvalidVariableNamesException.cs:27 | A problem line has no terminator character of its own. |
| `InvalidVariableNamesException.OneLinePerProblem` | LSL.VariableReplacer/InvalidVariableNamesException.cs:27 | After the header, the number of lines equals the number of problems. |
| `InvalidVariableNamesException.InvalidVariableNames.ValidationErrors` | LSL.VariableReplacer/InvalidVariableNamesException.cs:18 | Returns exactly the given problems. |
| `VariableNameValidationResult.Success` | LSL.VariableReplacer/VariableNameValidationResult.cs:25 | Succeeded with a null error message. |
| `VariableNameValidationResult.Failed` | LSL.VariableReplacer/VariableNameValidationResult.cs:32 | Not succeeded, carrying the given message. |
| `VariableNameValidationResult.SuccessIsNotFailed` | LSL.VariableReplacer/VariableNameValidationResult.cs:25-32 | A success never equals a failure. |
| `TransformHelperExtensions.TryAs` | LSL.VariableReplacer/TransformHelperExtensions.cs:12-14 | True iff the source is a transformer container, with the cast value, or null otherwise. |
| `TransformHelperExtensions.GetVariableNameValidator` | LSL.VariableReplacer/TransformHelperExtensions.cs:7-10 | A container's validator is its transformer's. Any other source gets a validator that succeeds for every name. |
| `EnvironmentOptions.VariablesFromEnvironmentVariablesConfiguration.constructor` | LSL.VariableReplacer/VariablesFromEnvironmentVariablesConfiguration.cs:11-13 | Defaults: accept every key, flag false, prefix null. |
| `EnvironmentOptions.VariablesFromEnvironmentVariablesConfiguration.WithEnvironmentVariableFilter` | LSL.VariableReplacer/VariablesFromEnvironmentVariablesConfiguration.cs:21-22 | Rejects null; otherwise sets only the filter and returns the same instance. |
| `EnvironmentOptions.VariablesFromEnvironmentVariablesConfiguration.DisableInvalidVariableNameFilter` | LSL.VariableReplacer/VariablesFromEnvironmentVariablesConfiguration.cs:34-35 | Sets the flag (idempotently) and nothing else. |
| `EnvironmentOptions.VariablesFromEnvironmentVariablesConfiguration.WithPrefix` | LSL.VariableReplacer/VariablesFromEnvironmentVariablesConfiguration.cs:46-47 | Sets the prefix, null included, and nothing else. |
| `ObjectOptions.VariablesFromObjectConfiguration.constructor` | LSL.VariableReplacer/VariablesFromObjectConfiguration.cs:11-12 | Defaults: separator `.`, no property filter. |
| `ObjectOptions.VariablesFromObjectConfiguration.WithPropertyFilter` | LSL.VariableReplacer/VariablesFromObjectConfiguration.cs:19-20 | Rejects null; otherwise sets only the filter. |
| `ObjectOptions.VariablesFromObjectConfiguration.WithPropertyPathSeparator` | LSL.VariableReplacer/VariablesFromObjectConfiguration.cs:27-28 | Rejects null; otherwise sets only the separator. |
| `Values.Digits` | LSL.VariableReplacer/VariableReplacerConfiguration.cs:14 | The decimal digits of a number: non-empty, all digit characters. |
| `Values.DigitsRoundTrip` | LSL.VariableReplacer/VariableReplacerConfiguration.cs:14 | Reading back the digits of n gives n. |
| `Values.DecimalRoundTrip` | LSL.VariableReplacer/VariableReplacerConfiguration.cs:14 | The interpolated text of every integer reads back as that integer. |
| `Values.DefaultFormat` | LSL.VariableReplacer/VariableReplacerConfiguration.cs:14 | Interpolation turns null into `""`, keeps strings, gives `True`/`False`, and writes integers losslessly in decimal. |
| `Scenarios.NotFound` | LSL.VariableReplacer.Tests/VariableReplacerFactoryTests.cs:12-20 | With no bindings, `Hello $(Unknown)` becomes `Hello NOTFOUND:Unknown`. |
| `Scenarios.CustomFormatter` | LSL.VariableReplacer.Tests/VariableReplacerFactoryTests.cs:23-31 | With the formatter `!{o}!`, `Hello $(name)` becomes `Hello !Als!`. |
| `Scenarios.ObjectVariables` | LSL.VariableReplacer.Tests/VariableReplacerFactoryTests.cs:34-44 | Flattening `{name, age, other{codes}}` gives exactly `name`, `age`, `other.codes`. |
| `Scenarios.DottedNameKept` | LSL.VariableReplacer.Tests/VariableReplacerFactoryTests.cs:46-48 | With `\w+` as written, `$(other.codes)` is not a placeholder and is left unchanged. |
| `Scenarios.DottedNameResolved` | LSL.VariableReplacer.Tests/VariableReplacerFactoryTests.cs:46-48 | When names may contain `.`, `Hello $(name). $(other.codes)` becomes `Hello Als. True`. |
| `Scenarios.DuplicateName` | LSL.VariableReplacer.Tests/VariableReplacerFactoryTests.cs:52-59 | A second `same` is rejected with "An item with the same key has already been added. Key: same". |
| `Scenarios.RecursiveVariables` | LSL.VariableReplacer.Tests/VariableReplacerFactoryTests.cs:89-102 | `Hello $(FullName). Can I call you $(FirstName)?` becomes `Hello Al Jones. Can I call you Al?`. |
| `Scenarios.ThrowsNotFound` | LSL.VariableReplacer.Tests/VariableReplacerFactoryTests.cs:131-139 | Under the throwing policy, `Hello $(Unknown)` fails with `Variable 'Unknown' not found`. |
| `Scenarios.CyclicVariables` | LSL.VariableReplacer.Tests/VariableReplacerFactoryTests.cs:142-157 | The cyclic bindings fail with path `FullName -> Other -> Another -> FullName` and that message. |
| `Scenarios.CustomDelimiters` | LSL.VariableReplacer.Tests/VariableReplacerFactoryTests.cs:160-174 | With `$${`/`}`, the delimiter test's source becomes `Hello Al Jones. Can I call you Al?`. |
| `Scenarios.EnvironmentVariables` | LSL.VariableReplacer.Tests/VariableReplacerFactoryTests.cs:204-221 | Filtering on `ALS_` with a null prefix adds exactly `ALS_NAME = Als`. |
| `Scenarios.EnvironmentReplaced` | LSL.VariableReplacer.Tests/VariableReplacerFactoryTests.cs:223 | `Hi $(ALS_NAME)` becomes `Hi Als`. |
| `Scenarios.NullDictionary` | LSL.VariableReplacer.Tests/VariableReplacerFactoryTests.cs:243-248 | `AddVariables(null)` on a new configuration fails with "Argument cannot be null (Parameter 'variableDictionary')". |
| `Scenarios.NullName` | LSL.VariableReplacer.Tests/VariableReplacerFactoryTests.cs:251-259 | After adding `Name = "Als"`, `AddVariable(null, null)` fails with "Argument cannot be null (Parameter 'name')". |

## Left out

- The .NET regex engine in general. Only the one pattern shape is modelled, with `\w` as a
  parameter rather than Unicode's word classification.
- Regex match timeouts: `RegexTransformer.cs:9` sets none, so none is modelled.
- The command syntax is reconstructed from the processor test, because `RegexTransformer.cs:9`
  has no command group. The test's own processor (`trim`,
  `ensureSlash`, at `VariableReplacerFactoryTests.cs:176-201`) is not restated as a scenario.
- `Resolution.Settings`: the value formatter is a total function `Value -> string`. A user
  formatter (`VariableReplacerConfiguration.cs:14`, `80-86`) that throws, called at
  `VariableResolver.cs:12` before the push, or that returns null, which then reaches
  `Regex.Replace` after the push, is not modelled.
- `Resolution.LookupConfined`: the engine assumes a lookup that finds only bound names, which
  dictionary lookup meets. A custom `VariableResolvingDelegate`
  (`VariableResolvingDelegate.cs:12`) that finds names outside the dictionary is not modelled;
  for it the recursion has no bound from the bindings.
- `Configuration.VariableReplacerConfiguration.WithTransformer`: custom transformers
  (`VariableReplacerConfiguration.cs:34-40`, any `ITransformer`) are not modelled. The
  transformer is always a `RegexTransformer`, and `VariableReplacer.CyclePath` and
  `VariableReplacer.OnlyCyclesFail` are proved for the regex transformer only.
- `CanAddVariablesExtensions.AddProperties`: a property is either a primitive or string value or
  a finite tree of nested properties. The reflection walk (`CanAddVariablesExtensions.cs:69-79`)
  also meets types that are neither, whose behaviour the model does not capture: a `DateTime`
  property is recursed into and `DateTime.Date` is again a `DateTime`, so the recursion does not
  end; an enum property has no public properties and adds nothing; an indexer property makes
  `GetValue` throw; a cyclic object graph recurses forever. `CanAddVariablesExtensions.WalkLeaves`
  also assumes non-empty property names, as C# identifiers are.
- Reading the process environment (`Environment.GetEnvironmentVariables`). The snapshot is an
  input sequence of key/value pairs in enumeration order.
- Reflection (`GetProperties`, `GetValue`, `IsPrimitive`). An object is an abstract tree of named
  properties that are simple values or nested objects (or null). `PropertyFilterContext` keeps
  the property's name instead of its `PropertyInfo`.
- `PropertyFilter` and `PropertyPathSeparator` of the object options are stored but not consulted.
  `AddVariablesFromObject` (`CanAddVariablesExtensions.cs:58-84`) uses neither and always
  joins with `.` (`CanAddVariablesExtensions.cs:81`).
- `InvalidVariableNameFilterIsDisabled` is stored but not consulted. The name-validation gate
  that reads it, `IsAValidVariableName`, `IHaveATransformer` and `WithReplaceVariableBehaviour`
  are not part of this model. The validator is a parameter of `TransformHelperExtensions.Source`.
- `CloneAndConfigure`, `VariableReplacerFactory.Build` and `InnerBuild`: callback plumbing.
  `Configuration.Clone()` is not part of this model.
- `VariableNameValidationResult.Success` / `VariableNameValidationResult.Failed`: `Success`
  returning one shared instance and `Failed` returning a fresh one cannot be stated for
  datatype values. Equal values are indistinguishable in the model.
- Values are null, strings, integers, booleans or an opaque object with its `ToString` text. The
  default formatter writes integers in invariant decimal. Culture-specific formatting and other
  value types are out of scope.
- `Environment.NewLine` is the parameter `newLine` of `InvalidVariableNamesException.ToMessage`.
- Threads: the source's objects are not shared between threads during a call, so concurrency
  is not modelled.
- Tests not restated as scenarios:
  - `VariableReplacerFactoryTests.cs:61-70` and `104-128` need `WithReplaceVariableBehaviour`
    and `CloneAndConfigure`, which are not part of this model.
  - `VariableReplacerFactoryTests.cs:226-240` depends on the real process environment.
  - `VariableReplacerFactoryTests.cs:73-86` replaces the same text as `Scenarios.CustomDelimiters`,
    under the default delimiters, and is not proved separately.
