/** The array operations the engine is built from (`filter`, `some`, `find`),
    as functions on sequences together with the facts that characterise them. */
module Seqs {
  import opened Wrappers

  /** `r` is `s` with some elements dropped and the others kept in their order. */
  predicate IsSubsequence<T(==)>(r: seq<T>, s: seq<T>)
    decreases |s|
  {
    if |r| == 0 then true
    else if |s| == 0 then false
    else (r[0] == s[0] && IsSubsequence(r[1..], s[1..])) || IsSubsequence(r, s[1..])
  }

  /** `Array.prototype.filter`: the elements of `s` that satisfy `p`, in order,
      each as many times as it occurs in `s`. */
  function Filter<T(==,!new)>(p: T -> bool, s: seq<T>): (r: seq<T>)
    ensures IsSubsequence(r, s)
    ensures forall x :: x in r <==> x in s && p(x)
    ensures forall x :: multiset(r)[x] == if p(x) then multiset(s)[x] else 0
  {
    if |s| == 0 then []
    else
      var rest := Filter(p, s[1..]);
      assert s == [s[0]] + s[1..];
      if p(s[0]) then [s[0]] + rest else rest
  }

  /** A filter that every element passes keeps the whole sequence. */
  lemma {:induction false} FilterKeepsAll<T(!new)>(p: T -> bool, s: seq<T>)
    requires forall x :: x in s ==> p(x)
    ensures Filter(p, s) == s
  {
    if |s| > 0 {
      assert forall x :: x in s[1..] ==> x in s;
      FilterKeepsAll(p, s[1..]);
      assert p(s[0]);
      assert Filter(p, s) == [s[0]] + Filter(p, s[1..]);
      assert s == [s[0]] + s[1..];
    }
  }

  /** Filtering by two complementary predicates splits `s` into two parts
      whose multisets add up to that of `s`. */
  lemma FilterComplement<T(!new)>(p: T -> bool, q: T -> bool, s: seq<T>)
    requires forall x :: x in s ==> q(x) == !p(x)
    ensures multiset(Filter(p, s)) + multiset(Filter(q, s)) == multiset(s)
  {
    var a, b := Filter(p, s), Filter(q, s);
    forall x
      ensures (multiset(a) + multiset(b))[x] == multiset(s)[x]
    {
      if x !in s {
        assert multiset(s)[x] == 0;
      }
    }
  }

  /** `Array.prototype.some`. */
  function Any<T>(p: T -> bool, s: seq<T>): (r: bool)
    ensures r <==> exists i :: 0 <= i < |s| && p(s[i])
  {
    if |s| == 0 then false
    else if p(s[0]) then true
    else
      var rest := Any(p, s[1..]);
      assert forall i :: 0 < i < |s| ==> s[i] == s[1..][i - 1];
      rest
  }

  /** `Array.prototype.find`: the first element of `s` that satisfies `p`,
      or `None` (JavaScript's `undefined`) when there is none. */
  function Find<T(==)>(p: T -> bool, s: seq<T>): (r: Option<T>)
    ensures r.None? <==> forall i :: 0 <= i < |s| ==> !p(s[i])
    ensures r.Some? ==> exists k :: 0 <= k < |s| && s[k] == r.value && p(s[k]) && forall j :: 0 <= j < k ==> !p(s[j])
  {
    if |s| == 0 then None
    else if p(s[0]) then Some(s[0])
    else
      var rest := Find(p, s[1..]);
      assert forall i :: 0 < i < |s| ==> s[i] == s[1..][i - 1];
      if rest.Some? then
        var k' :| 0 <= k' < |s| - 1 && s[1..][k'] == rest.value && p(s[1..][k'])
                   && forall j :: 0 <= j < k' ==> !p(s[1..][j]);
        assert s[k' + 1] == rest.value;
        rest
      else rest
  }
}
