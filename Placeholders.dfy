/**
 * The placeholder matcher of `RegexTransformer`: the pattern
 * `Escape(prefix) (\w+) Escape(suffix)`, found left to right without overlaps, as
 * `Regex.Replace` finds it. The delimiters are literal text; the word-character class
 * `\w` is the parameter `w`.
 *
 * When a command processor is configured, a placeholder may also carry a command,
 * `prefix name ':' command suffix`, tried before the plain form after each name length.
 */
module Placeholders {
  import opened Wrappers
  import opened Strings

  /** Post-processes the resolved text of a placeholder: `(command, value) -> replacement`. */
  type CommandProcessor = (string, string) -> string

  /** A regex transformer's configuration: its delimiters and its optional command processor. */
  datatype RegexTransformer = RegexTransformer(prefix: string, suffix: string, commandProcessor: Option<CommandProcessor>)

  /** The parameterless constructor: delimiters `$(` and `)`, no command processor. */
  function DefaultTransformer(): (t: RegexTransformer)
    ensures t.prefix == "$(" && t.suffix == ")" && t.commandProcessor.None?
  {
    RegexTransformer("$(", ")", None)
  }

  /** A half-open range of indices into the source. */
  datatype Span = Span(lo: nat, hi: nat)

  /** One match: where it starts, the captured name, the captured command if any, and where it ends. */
  datatype Match = Match(start: nat, name: Span, command: Option<Span>, end: nat)

  /** The indices `lo .. hi - 1` hold a non-empty run of word characters. */
  predicate WordRunAt(w: char -> bool, s: string, lo: nat, hi: nat) {
    lo < hi <= |s| && forall k :: lo <= k < hi ==> w(s[k])
  }

  /** The length of the longest run of word characters starting at `j`. */
  function WordRun(w: char -> bool, s: string, j: nat): (n: nat)
    requires j <= |s|
    ensures j + n <= |s|
    ensures forall k :: j <= k < j + n ==> w(s[k])
    ensures j + n < |s| ==> !w(s[j + n])
    decreases |s| - j
  {
    if j < |s| && w(s[j]) then 1 + WordRun(w, s, j + 1) else 0
  }

  /**
   * Backtracking of a greedy `\w+` followed by `suffix`: the largest `k` in `1 .. n` such that
   * the suffix occurs at `j + k`.
   */
  function Longest(suffix: string, s: string, j: nat, n: nat): (r: Option<nat>)
    ensures r.Some? ==> 1 <= r.value <= n && At(s, j + r.value, suffix)
    ensures r.Some? ==> forall p :: j + r.value < p <= j + n ==> !At(s, p, suffix)
    ensures r.None? ==> forall p :: j < p <= j + n ==> !At(s, p, suffix)
    decreases n
  {
    if n == 0 then None
    else if At(s, j + n, suffix) then Some(n)
    else Longest(suffix, s, j, n - 1)
  }

  /** What a match must look like: prefix, word-run name, then either the suffix or `:` command suffix. */
  predicate IsMatch(w: char -> bool, t: RegexTransformer, s: string, m: Match) {
    && At(s, m.start, t.prefix)
    && m.name.lo == m.start + |t.prefix|
    && WordRunAt(w, s, m.name.lo, m.name.hi)
    && match m.command
       case None =>
         At(s, m.name.hi, t.suffix) && m.end == m.name.hi + |t.suffix|
       case Some(c) =>
         && t.commandProcessor.Some?
         && m.name.hi < |s| && s[m.name.hi] == ':'
         && c.lo == m.name.hi + 1
         && WordRunAt(w, s, c.lo, c.hi)
         && At(s, c.hi, t.suffix) && m.end == c.hi + |t.suffix|
  }

  /** A plain placeholder at `i` whose name ends at `q`: prefix, a word run, then the suffix. */
  predicate PlainAt(w: char -> bool, t: RegexTransformer, s: string, i: nat, q: nat) {
    At(s, i, t.prefix) && WordRunAt(w, s, i + |t.prefix|, q) && At(s, q, t.suffix)
  }

  /** The `':' (\w+)` alternative right after a name ending at `p`, tried only with a command processor. */
  function CommandAt(w: char -> bool, t: RegexTransformer, s: string, p: nat): (r: Option<Span>)
    requires p <= |s|
    ensures r.Some? ==> && t.commandProcessor.Some? && p < |s| && s[p] == ':' && r.value.lo == p + 1
                        && WordRunAt(w, s, r.value.lo, r.value.hi) && At(s, r.value.hi, t.suffix)
  {
    if t.commandProcessor.Some? && p < |s| && s[p] == ':' then
      match Longest(t.suffix, s, p + 1, WordRun(w, s, p + 1))
      case Some(c) => Some(Span(p + 1, p + 1 + c))
      case None => None
    else None
  }

  /**
   * One step of the backtracking: the name is the `k` word characters after a prefix at `i`; with a
   * command processor the `':' command suffix` alternative is tried first, then the plain suffix.
   */
  function TryName(w: char -> bool, t: RegexTransformer, s: string, i: nat, k: nat): (r: Option<Match>)
    requires At(s, i, t.prefix) && 0 < k && i + |t.prefix| + k <= |s|
    requires forall q :: i + |t.prefix| <= q < i + |t.prefix| + k ==> w(s[q])
    ensures r.Some? ==> r.value.start == i && r.value.name.hi == i + |t.prefix| + k && IsMatch(w, t, s, r.value)
    ensures r.None? ==> !At(s, i + |t.prefix| + k, t.suffix)
    ensures r.Some? && t.commandProcessor.None? ==> r.value.command.None?
  {
    var j := i + |t.prefix|;
    match CommandAt(w, t, s, j + k)
    case Some(c) => Some(Match(i, Span(j, j + k), Some(c), c.hi + |t.suffix|))
    case None =>
      if At(s, j + k, t.suffix) then Some(Match(i, Span(j, j + k), None, j + k + |t.suffix|))
      else None
  }

  /** Tries the name lengths `k, k - 1, ..., 1` after a prefix at `i`, as the regex engine backtracks. */
  function NameSearch(w: char -> bool, t: RegexTransformer, s: string, i: nat, k: nat): (r: Option<Match>)
    requires At(s, i, t.prefix) && i + |t.prefix| + k <= |s|
    requires forall q :: i + |t.prefix| <= q < i + |t.prefix| + k ==> w(s[q])
    ensures r.Some? ==> r.value.start == i && IsMatch(w, t, s, r.value)
    ensures r.None? ==> forall q :: i + |t.prefix| < q <= i + |t.prefix| + k ==> !At(s, q, t.suffix)
    ensures r.Some? && t.commandProcessor.None? ==>
      r.value.command.None? && forall q :: r.value.name.hi < q <= i + |t.prefix| + k ==> !At(s, q, t.suffix)
    decreases k
  {
    if k == 0 then None
    else
      var r := TryName(w, t, s, i, k);
      if r.Some? then r else NameSearch(w, t, s, i, k - 1)
  }

  /** The match the regex finds when it tries position `i`, if any. */
  function MatchAt(w: char -> bool, t: RegexTransformer, s: string, i: nat): (r: Option<Match>)
    requires i <= |s|
    ensures r.Some? ==> r.value.start == i && IsMatch(w, t, s, r.value)
    ensures r.Some? ==> i < r.value.end <= |s|
    ensures r.None? ==> forall q :: !PlainAt(w, t, s, i, q)
    ensures r.Some? && t.commandProcessor.None? ==>
      && r.value.command.None?
      && PlainAt(w, t, s, i, r.value.name.hi)
      && forall q :: r.value.name.hi < q ==> !PlainAt(w, t, s, i, q)
  {
    if At(s, i, t.prefix) then
      var j := i + |t.prefix|;
      var n := WordRun(w, s, j);
      var r := NameSearch(w, t, s, i, n);
      assert forall q: nat :: WordRunAt(w, s, j, q) ==> q <= j + n;
      r
    else None
  }

  /** No match starts at any position in `lo .. hi - 1`. */
  predicate NoMatchIn(w: char -> bool, t: RegexTransformer, s: string, lo: nat, hi: nat) {
    hi <= |s| && forall p :: lo <= p < hi ==> MatchAt(w, t, s, p).None?
  }

  /**
   * The leftmost-first, non-overlapping decomposition of `s[i..]`: no match starts before the first one,
   * each is the match at its start, the scan resumes at its end, and nothing matches after the last.
   */
  predicate Leftmost(w: char -> bool, t: RegexTransformer, s: string, i: nat, ms: seq<Match>)
    decreases |ms|
  {
    if ms == [] then i <= |s| && NoMatchIn(w, t, s, i, |s|)
    else
      && i <= ms[0].start < ms[0].end <= |s|
      && NoMatchIn(w, t, s, i, ms[0].start)
      && MatchAt(w, t, s, ms[0].start) == Some(ms[0])
      && Leftmost(w, t, s, ms[0].end, ms[1..])
  }

  /** The matches lie in order inside `s[from..]`, each ending no later than the next starts. */
  predicate Chain(s: string, from: nat, ms: seq<Match>)
    decreases |ms|
  {
    if ms == [] then from <= |s|
    else from <= ms[0].start <= ms[0].end <= |s| && Chain(s, ms[0].end, ms[1..])
  }

  /** Every element is a well-formed match in `s`. */
  predicate AllMatch(w: char -> bool, t: RegexTransformer, s: string, ms: seq<Match>) {
    forall k :: 0 <= k < |ms| ==> IsMatch(w, t, s, ms[k])
  }

  /** The scan of `Regex.Replace` from position `i`: try a match; on success resume at its end, else one further. */
  function FindFrom(w: char -> bool, t: RegexTransformer, s: string, i: nat): (ms: seq<Match>)
    requires i <= |s|
    ensures forall k :: 0 <= k < |ms| ==> i <= ms[k].start
    decreases |s| - i
  {
    if i == |s| then []
    else match MatchAt(w, t, s, i)
      case Some(m) => [m] + FindFrom(w, t, s, m.end)
      case None => FindFrom(w, t, s, i + 1)
  }

  /** The scan finds the leftmost-first decomposition of `s[i..]`. */
  lemma {:induction false} FindFromLeftmost(w: char -> bool, t: RegexTransformer, s: string, i: nat)
    requires i <= |s|
    ensures Leftmost(w, t, s, i, FindFrom(w, t, s, i))
    decreases |s| - i
  {
    if i < |s| {
      match MatchAt(w, t, s, i)
      case Some(m) =>
        var rest := FindFrom(w, t, s, m.end);
        FindFromLeftmost(w, t, s, m.end);
        assert ([m] + rest)[1..] == rest;
      case None =>
        var rest := FindFrom(w, t, s, i + 1);
        FindFromLeftmost(w, t, s, i + 1);
        if rest == [] {
          NoMatchExtend(w, t, s, i, |s|);
        } else {
          NoMatchExtend(w, t, s, i, rest[0].start);
        }
    }
  }

  /** A position without a match widens a match-free stretch that starts just after it. */
  lemma NoMatchExtend(w: char -> bool, t: RegexTransformer, s: string, i: nat, hi: nat)
    requires i < |s| && MatchAt(w, t, s, i).None? && NoMatchIn(w, t, s, i + 1, hi)
    ensures NoMatchIn(w, t, s, i, hi)
  {
  }

  /** A leftmost decomposition is a chain of spans inside `s[i..]`. */
  lemma {:induction false} LeftmostChain(w: char -> bool, t: RegexTransformer, s: string, i: nat, ms: seq<Match>)
    requires Leftmost(w, t, s, i, ms)
    ensures Chain(s, i, ms)
    decreases |ms|
  {
    if ms != [] {
      LeftmostChain(w, t, s, ms[0].end, ms[1..]);
    }
  }

  /** Every element of a leftmost decomposition is a match of the pattern. */
  lemma {:induction false} LeftmostAllMatch(w: char -> bool, t: RegexTransformer, s: string, i: nat, ms: seq<Match>)
    requires Leftmost(w, t, s, i, ms)
    ensures AllMatch(w, t, s, ms)
    decreases |ms|
  {
    if ms != [] {
      LeftmostAllMatch(w, t, s, ms[0].end, ms[1..]);
      forall k | 0 <= k < |ms| ensures IsMatch(w, t, s, ms[k]) {
        if k > 0 {
          assert ms[k] == ms[1..][k - 1];
        }
      }
    }
  }

  /** All the matches of the transformer's pattern in `s`, in order. */
  function FindMatches(w: char -> bool, t: RegexTransformer, s: string): (ms: seq<Match>)
    ensures Leftmost(w, t, s, 0, ms) && Chain(s, 0, ms) && AllMatch(w, t, s, ms)
  {
    FindFromLeftmost(w, t, s, 0);
    LeftmostChain(w, t, s, 0, FindFrom(w, t, s, 0));
    LeftmostAllMatch(w, t, s, 0, FindFrom(w, t, s, 0));
    FindFrom(w, t, s, 0)
  }

  /** There is exactly one leftmost decomposition, so the scan's result is determined by the pattern alone. */
  lemma {:induction false} LeftmostUnique(w: char -> bool, t: RegexTransformer, s: string, i: nat, a: seq<Match>, b: seq<Match>)
    requires Leftmost(w, t, s, i, a) && Leftmost(w, t, s, i, b)
    ensures a == b
    decreases |a|
  {
    if a != [] && b != [] && a[0].start == b[0].start {
      LeftmostUnique(w, t, s, a[0].end, a[1..], b[1..]);
      assert a == [a[0]] + a[1..] && b == [b[0]] + b[1..];
    }
  }

  /** A source with no plain placeholder anywhere has no match, when no command processor is configured. */
  lemma NoPlaceholderNoMatch(w: char -> bool, t: RegexTransformer, s: string)
    requires t.commandProcessor.None?
    requires forall i, q :: !PlainAt(w, t, s, i, q)
    ensures FindMatches(w, t, s) == []
  {
  }

  /** What a match captured: the name and, if any, the command. */
  datatype Placeholder = Placeholder(name: string, command: Option<string>)

  /** The captured groups of one match, `m.Groups[1]` and the command group. */
  function PlaceholderOf(w: char -> bool, t: RegexTransformer, s: string, m: Match): (p: Placeholder)
    requires IsMatch(w, t, s, m)
    ensures |p.name| > 0 && forall k :: 0 <= k < |p.name| ==> w(p.name[k])
    ensures p.command.Some? ==> t.commandProcessor.Some?
  {
    Placeholder(s[m.name.lo..m.name.hi],
                match m.command case None => None case Some(c) => Some(s[c.lo..c.hi]))
  }

  /** The placeholders of a list of matches, in the same order. */
  function PlaceholdersOf(w: char -> bool, t: RegexTransformer, s: string, ms: seq<Match>): (ps: seq<Placeholder>)
    requires AllMatch(w, t, s, ms)
    ensures |ps| == |ms| && forall k :: 0 <= k < |ms| ==> ps[k] == PlaceholderOf(w, t, s, ms[k])
  {
    seq(|ms|, k requires 0 <= k < |ms| => PlaceholderOf(w, t, s, ms[k]))
  }

  /** The text that replaces a placeholder whose name resolved to `resolved`. */
  function Replacement(t: RegexTransformer, p: Placeholder, resolved: string): (r: string)
    ensures p.command.None? ==> r == resolved
  {
    if p.command.Some? && t.commandProcessor.Some? then t.commandProcessor.value(p.command.value, resolved)
    else resolved
  }

  /**
   * `Regex.Replace`'s output: the text before, between and after the matches copied through in order,
   * and the k-th match replaced by `reps[k]`, which is inserted as it is.
   */
  function Splice(s: string, from: nat, ms: seq<Match>, reps: seq<string>): string
    requires Chain(s, from, ms) && |reps| == |ms|
    decreases |ms|
  {
    if ms == [] then s[from..]
    else s[from..ms[0].start] + reps[0] + Splice(s, ms[0].end, ms[1..], reps[1..])
  }

  /** The text each match covers. */
  function MatchedTexts(s: string, ms: seq<Match>): (r: seq<string>)
    requires forall k :: 0 <= k < |ms| ==> ms[k].start <= ms[k].end <= |s|
    ensures |r| == |ms|
  {
    seq(|ms|, k requires 0 <= k < |ms| => s[ms[k].start..ms[k].end])
  }

  /** Replacing every match with the text it covers gives the source back. */
  lemma {:induction false} SpliceRestores(s: string, from: nat, ms: seq<Match>)
    requires Chain(s, from, ms)
    requires forall k :: 0 <= k < |ms| ==> ms[k].start <= ms[k].end <= |s|
    ensures Splice(s, from, ms, MatchedTexts(s, ms)) == s[from..]
    decreases |ms|
  {
    if ms != [] {
      var texts := MatchedTexts(s, ms);
      assert texts[1..] == MatchedTexts(s, ms[1..]);
      SpliceRestores(s, ms[0].end, ms[1..]);
      assert s[from..] == s[from..ms[0].start] + s[ms[0].start..ms[0].end] + s[ms[0].end..];
    }
  }

  /** Without matches the output is the source. */
  lemma SpliceNothing(s: string)
    ensures Chain(s, 0, []) && Splice(s, 0, [], []) == s
  {
  }

  /** The sum of the lengths the matches cover. */
  function Covered(ms: seq<Match>): int
    decreases |ms|
  {
    if ms == [] then 0 else ms[0].end - ms[0].start + Covered(ms[1..])
  }

  /** The output has the copied-through text plus the replacements, no more and no less. */
  lemma {:induction false} SpliceLength(s: string, from: nat, ms: seq<Match>, reps: seq<string>)
    requires Chain(s, from, ms) && |reps| == |ms|
    ensures |Splice(s, from, ms, reps)| == |s| - from - Covered(ms) + TotalLength(reps)
    decreases |ms|
  {
    if ms != [] {
      SpliceLength(s, ms[0].end, ms[1..], reps[1..]);
    }
  }

  /** The text `texts[0] prefix names[0] suffix texts[1] ... prefix names[n-1] suffix texts[n]`. */
  function Template(t: RegexTransformer, texts: seq<string>, names: seq<string>): string
    requires |texts| == |names| + 1
    decreases |names|
  {
    if names == [] then texts[0]
    else texts[0] + t.prefix + names[0] + t.suffix + Template(t, texts[1..], names[1..])
  }

  /** None of the texts contains `c`. */
  predicate TextsLack(c: char, texts: seq<string>)
    decreases |texts|
  {
    texts == [] || (c !in texts[0] && TextsLack(c, texts[1..]))
  }

  /** Every name is a non-empty run of word characters. */
  predicate WordNames(w: char -> bool, names: seq<string>)
    decreases |names|
  {
    names == [] || (|names[0]| > 0 && (forall c :: c in names[0] ==> w(c)) && WordNames(w, names[1..]))
  }

  /**
   * When a template is read back exactly as written: the names are word runs, the literal texts
   * never contain the prefix's first character, the suffix starts with a non-word character,
   * and there is no command syntax.
   */
  predicate TemplateShape(w: char -> bool, t: RegexTransformer, texts: seq<string>, names: seq<string>) {
    && t.commandProcessor.None? && |t.prefix| > 0 && |t.suffix| > 0 && !w(t.suffix[0])
    && |texts| == |names| + 1
    && TextsLack(t.prefix[0], texts)
    && WordNames(w, names)
  }

  /** The matches of a template that starts at `from`, one per name. */
  function TemplateMatches(t: RegexTransformer, from: nat, texts: seq<string>, names: seq<string>): (ms: seq<Match>)
    requires |texts| == |names| + 1
    ensures |ms| == |names|
    decreases |names|
  {
    if names == [] then []
    else
      var lo := from + |texts[0]| + |t.prefix|;
      var hi := lo + |names[0]|;
      [Match(from + |texts[0]|, Span(lo, hi), None, hi + |t.suffix|)]
        + TemplateMatches(t, hi + |t.suffix|, texts[1..], names[1..])
  }

  /** The literal texts interleaved with the replacements. */
  function Fill(texts: seq<string>, reps: seq<string>): string
    requires |texts| == |reps| + 1
    decreases |reps|
  {
    if reps == [] then texts[0] else texts[0] + reps[0] + Fill(texts[1..], reps[1..])
  }

  /** Literal text without the prefix's first character starts no match. */
  lemma TextNoMatch(w: char -> bool, t: RegexTransformer, s: string, from: nat, text: string)
    requires |t.prefix| > 0 && t.prefix[0] !in text
    requires from + |text| <= |s| && s[from..from + |text|] == text
    ensures NoMatchIn(w, t, s, from, from + |text|)
  {
    forall p | from <= p < from + |text| ensures MatchAt(w, t, s, p).None? {
      assert s[p] == text[p - from];
    }
  }

  /** The layout of the first placeholder of a template read from `from`. */
  lemma TemplateHead(t: RegexTransformer, s: string, from: nat, texts: seq<string>, names: seq<string>)
    requires |texts| == |names| + 1 && names != []
    requires from <= |s| && s[from..] == Template(t, texts, names)
    ensures var m := TemplateMatches(t, from, texts, names)[0];
      && m.end <= |s|
      && s[from..m.start] == texts[0]
      && s[m.start..m.name.lo] == t.prefix
      && s[m.name.lo..m.name.hi] == names[0]
      && s[m.name.hi..m.end] == t.suffix
      && s[m.end..] == Template(t, texts[1..], names[1..])
  {
    var rest := Template(t, texts[1..], names[1..]);
    var m := TemplateMatches(t, from, texts, names)[0];
    assert s[from..] == texts[0] + t.prefix + names[0] + t.suffix + rest;
    assert s[from..][..|texts[0]|] == texts[0];
    assert s[from..][|texts[0]|..m.name.lo - from] == t.prefix;
    assert s[from..][m.name.lo - from..m.name.hi - from] == names[0];
    assert s[from..][m.name.hi - from..m.end - from] == t.suffix;
    assert s[from..][m.end - from..] == rest;
  }

  /**
   * Without command syntax, prefix, a word run and a suffix that starts with a non-word character
   * are the match found at the prefix's position.
   */
  lemma PlainMatch(w: char -> bool, t: RegexTransformer, s: string, m: Match)
    requires t.commandProcessor.None? && |t.suffix| > 0 && !w(t.suffix[0])
    requires m.command.None? && m.name.lo == m.start + |t.prefix| && m.end == m.name.hi + |t.suffix|
    requires At(s, m.start, t.prefix) && WordRunAt(w, s, m.name.lo, m.name.hi) && At(s, m.name.hi, t.suffix)
    ensures MatchAt(w, t, s, m.start) == Some(m)
  {
    assert s[m.name.hi] == s[m.name.hi..m.end][0];
    var n := WordRun(w, s, m.name.lo);
    assert n == m.name.hi - m.name.lo;
    assert CommandAt(w, t, s, m.name.hi) == None;
    assert TryName(w, t, s, m.start, n) == Some(m);
  }

  /** The first placeholder of a template is the match the regex finds at its position. */
  lemma TemplateHeadMatch(w: char -> bool, t: RegexTransformer, s: string, from: nat, texts: seq<string>, names: seq<string>)
    requires TemplateShape(w, t, texts, names) && names != []
    requires from <= |s| && s[from..] == Template(t, texts, names)
    ensures var m := TemplateMatches(t, from, texts, names)[0];
      m.start < m.end <= |s| && MatchAt(w, t, s, m.start) == Some(m)
  {
    var m := TemplateMatches(t, from, texts, names)[0];
    TemplateHead(t, s, from, texts, names);
    var name := names[0];
    assert forall c :: c in name ==> w(c);
    forall k | m.name.lo <= k < m.name.hi ensures w(s[k]) {
      assert s[k] == s[m.name.lo..m.name.hi][k - m.name.lo];
    }
    PlainMatch(w, t, s, m);
  }

  /** Read from `from`, a template in the shape above is found placeholder by placeholder, in its own matches. */
  lemma {:induction false} TemplateFound(w: char -> bool, t: RegexTransformer, s: string, from: nat,
                                         texts: seq<string>, names: seq<string>)
    requires TemplateShape(w, t, texts, names)
    requires from <= |s| && s[from..] == Template(t, texts, names)
    ensures Leftmost(w, t, s, from, TemplateMatches(t, from, texts, names))
    ensures Chain(s, from, TemplateMatches(t, from, texts, names))
    decreases |names|
  {
    var ms := TemplateMatches(t, from, texts, names);
    if names == [] {
      TextNoMatch(w, t, s, from, texts[0]);
    } else {
      var lo := from + |texts[0]| + |t.prefix|;
      var m := Match(from + |texts[0]|, Span(lo, lo + |names[0]|), None, lo + |names[0]| + |t.suffix|);
      var rest := TemplateMatches(t, m.end, texts[1..], names[1..]);
      assert ms == [m] + rest;
      assert ms[0] == m;
      TemplateHead(t, s, from, texts, names);
      TextNoMatch(w, t, s, from, texts[0]);
      TemplateHeadMatch(w, t, s, from, texts, names);
      assert TemplateShape(w, t, texts[1..], names[1..]);
      TemplateFound(w, t, s, m.end, texts[1..], names[1..]);
      LeftmostCons(w, t, s, from, m, rest);
    }
  }

  /** A match at the first position that has one, followed by the decomposition of the rest. */
  lemma LeftmostCons(w: char -> bool, t: RegexTransformer, s: string, from: nat, m: Match, rest: seq<Match>)
    requires from <= m.start < m.end <= |s| && NoMatchIn(w, t, s, from, m.start)
    requires MatchAt(w, t, s, m.start) == Some(m)
    requires Leftmost(w, t, s, m.end, rest) && Chain(s, m.end, rest)
    ensures Leftmost(w, t, s, from, [m] + rest) && Chain(s, from, [m] + rest)
  {
    assert ([m] + rest)[0] == m && ([m] + rest)[1..] == rest;
  }

  /** Each match of a template captures its name, without a command. */
  lemma {:induction false} TemplateNames(t: RegexTransformer, s: string, from: nat, texts: seq<string>, names: seq<string>)
    requires |texts| == |names| + 1
    requires from <= |s| && s[from..] == Template(t, texts, names)
    ensures var ms := TemplateMatches(t, from, texts, names);
      forall k :: 0 <= k < |ms| ==>
        && ms[k].command.None? && ms[k].name.lo <= ms[k].name.hi <= |s|
        && s[ms[k].name.lo..ms[k].name.hi] == names[k]
    decreases |names|
  {
    if names != [] {
      var ms := TemplateMatches(t, from, texts, names);
      TemplateHead(t, s, from, texts, names);
      TemplateNames(t, s, ms[0].end, texts[1..], names[1..]);
      forall k | 1 <= k < |ms|
        ensures && ms[k].command.None? && ms[k].name.lo <= ms[k].name.hi <= |s|
                && s[ms[k].name.lo..ms[k].name.hi] == names[k]
      {
        assert ms[k] == ms[1..][k - 1] && names[k] == names[1..][k - 1];
      }
    }
  }

  /** Splicing replacements into a template's matches fills its texts with them. */
  lemma {:induction false} TemplateSplice(t: RegexTransformer, s: string, from: nat, texts: seq<string>,
                                          names: seq<string>, reps: seq<string>)
    requires |texts| == |names| + 1 && |reps| == |names|
    requires from <= |s| && s[from..] == Template(t, texts, names)
    requires Chain(s, from, TemplateMatches(t, from, texts, names))
    ensures Splice(s, from, TemplateMatches(t, from, texts, names), reps) == Fill(texts, reps)
    decreases |names|
  {
    if names != [] {
      var ms := TemplateMatches(t, from, texts, names);
      TemplateHead(t, s, from, texts, names);
      assert ms[1..] == TemplateMatches(t, ms[0].end, texts[1..], names[1..]);
      TemplateSplice(t, s, ms[0].end, texts[1..], names[1..], reps[1..]);
    }
  }

  /** The placeholders a template is read back as: its names, in order, without commands. */
  function Plain(names: seq<string>): (ps: seq<Placeholder>)
    ensures |ps| == |names| && forall k :: 0 <= k < |names| ==> ps[k] == Placeholder(names[k], None)
  {
    seq(|names|, k requires 0 <= k < |names| => Placeholder(names[k], None))
  }

  /** A whole source that is a template: its matches, its placeholders, and how splicing fills it. */
  lemma TemplateRead(w: char -> bool, t: RegexTransformer, texts: seq<string>, names: seq<string>)
    requires TemplateShape(w, t, texts, names)
    ensures var s := Template(t, texts, names);
      var ms := FindMatches(w, t, s);
      && ms == TemplateMatches(t, 0, texts, names)
      && PlaceholdersOf(w, t, s, ms) == Plain(names)
      && forall reps :: |reps| == |names| ==> Splice(s, 0, ms, reps) == Fill(texts, reps)
  {
    var s := Template(t, texts, names);
    var ms := TemplateMatches(t, 0, texts, names);
    TemplateFound(w, t, s, 0, texts, names);
    TemplateNames(t, s, 0, texts, names);
    LeftmostUnique(w, t, s, 0, FindMatches(w, t, s), ms);
    forall reps: seq<string> | |reps| == |names| ensures Splice(s, 0, ms, reps) == Fill(texts, reps) {
      TemplateSplice(t, s, 0, texts, names, reps);
    }
  }
}
