/** String helpers shared by the message builders and the placeholder matcher. */
module Strings {

  /** `t` occurs in `s` starting at index `i`. */
  predicate At(s: string, i: nat, t: string) {
    i + |t| <= |s| && s[i..i + |t|] == t
  }

  /** `string.Join(sep, xs)`: the elements in order with `sep` between neighbours. */
  function Join(sep: string, xs: seq<string>): string
    decreases |xs|
  {
    if |xs| == 0 then ""
    else if |xs| == 1 then xs[0]
    else xs[0] + sep + Join(sep, xs[1..])
  }

  /** The sum of the lengths of the elements. */
  function TotalLength(xs: seq<string>): nat
    decreases |xs|
  {
    if xs == [] then 0 else |xs[0]| + TotalLength(xs[1..])
  }

  /** Joining one more element adds exactly one separator before it. */
  lemma {:induction false} JoinSnoc(sep: string, xs: seq<string>, x: string)
    requires |xs| > 0
    ensures Join(sep, xs + [x]) == Join(sep, xs) + sep + x
    decreases |xs|
  {
    if |xs| == 1 {
      assert xs + [x] == [xs[0], x];
      assert (xs + [x])[1..] == [x];
    } else {
      assert (xs + [x])[1..] == xs[1..] + [x];
      JoinSnoc(sep, xs[1..], x);
    }
  }

  /** A join of n elements holds the elements' characters plus n - 1 separators. */
  lemma {:induction false} JoinLength(sep: string, xs: seq<string>)
    requires |xs| > 0
    ensures |Join(sep, xs)| == TotalLength(xs) + |sep| * (|xs| - 1)
    decreases |xs|
  {
    if |xs| == 1 {
      assert xs[1..] == [];
    } else {
      JoinLength(sep, xs[1..]);
    }
  }

  /** No element occurs twice. */
  predicate Distinct<T(==)>(xs: seq<T>) {
    forall i, j :: 0 <= i < j < |xs| ==> xs[i] != xs[j]
  }

  /** Every element of `xs` belongs to `s`. */
  predicate Within<T(==)>(xs: seq<T>, s: set<T>) {
    forall k :: 0 <= k < |xs| ==> xs[k] in s
  }

  /** A sequence without repetitions drawn from a finite set is no longer than the set. */
  lemma {:induction false} DistinctWithinBound<T>(xs: seq<T>, s: set<T>)
    requires Distinct(xs) && Within(xs, s)
    ensures |xs| <= |s|
    decreases |xs|
  {
    if xs != [] {
      var rest := xs[1..];
      assert Distinct(rest);
      assert Within(rest, s - {xs[0]}) by {
        forall k | 0 <= k < |rest| ensures rest[k] in s - {xs[0]} {
          assert rest[k] == xs[k + 1];
        }
      }
      DistinctWithinBound(rest, s - {xs[0]});
    }
  }

  /** Removing one more member of a finite set from its remainder makes the remainder smaller. */
  lemma RemainderShrinks<T>(s: set<T>, xs: seq<T>, x: T)
    requires x in s && x !in xs
    ensures |s - (set y | y in xs + [x])| < |s - (set y | y in xs)|
  {
    var before := s - (set y | y in xs);
    var after := s - (set y | y in xs + [x]);
    assert after == before - {x};
    assert x in before;
  }

  /** The number of occurrences of `c` in `s`. */
  function Count(c: char, s: string): nat
    decreases |s|
  {
    if s == [] then 0 else (if s[0] == c then 1 else 0) + Count(c, s[1..])
  }

  /** Counting distributes over concatenation. */
  lemma {:induction false} CountConcat(c: char, a: string, b: string)
    ensures Count(c, a + b) == Count(c, a) + Count(c, b)
    decreases |a|
  {
    if a == [] {
      assert a + b == b;
    } else {
      assert (a + b)[1..] == a[1..] + b;
      CountConcat(c, a[1..], b);
    }
  }

  /** A string that does not contain `c` has no occurrence of it. */
  lemma {:induction false} CountAbsent(c: char, s: string)
    requires forall k :: 0 <= k < |s| ==> s[k] != c
    ensures Count(c, s) == 0
    decreases |s|
  {
    if s != [] {
      CountAbsent(c, s[1..]);
    }
  }
}
