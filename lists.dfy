/** The JavaScript array operations the store and the pages rely on: `findIndex`, `find`,
    `filter`, `includes`, and the insertion order of a `Set`. */
module Lists {
  import opened Wrappers

  /** `s` holds no element twice. */
  predicate NoDuplicates<T(==)>(s: seq<T>) {
    forall i, j :: 0 <= i < j < |s| ==> s[i] != s[j]
  }

  /** `r` is `s` with some elements left out and the rest kept in order. */
  predicate SubsequenceOf<T(==)>(r: seq<T>, s: seq<T>)
    decreases |s|
  {
    if r == [] then true
    else if s == [] then false
    else (r[0] == s[0] && SubsequenceOf(r[1..], s[1..])) || SubsequenceOf(r, s[1..])
  }

  /** `Array.prototype.findIndex`: the first index whose element satisfies `p`, or -1. */
  function FindIndex<T>(s: seq<T>, p: T -> bool): (r: int)
    ensures -1 <= r < |s|
    ensures r == -1 <==> forall i :: 0 <= i < |s| ==> !p(s[i])
    ensures 0 <= r ==> p(s[r]) && forall i :: 0 <= i < r ==> !p(s[i])
  {
    if s == [] then -1
    else if p(s[0]) then 0
    else
      var k := FindIndex(s[1..], p);
      if k == -1 then -1 else k + 1
  }

  /** `Array.prototype.find`: the element at `FindIndex`, or nothing. */
  function Find<T>(s: seq<T>, p: T -> bool): (r: Option<T>)
    ensures r.None? <==> forall i :: 0 <= i < |s| ==> !p(s[i])
    ensures r.Some? ==> r.value in s && p(r.value)
    ensures r.Some? ==> r.value == s[FindIndex(s, p)]
  {
    var i := FindIndex(s, p);
    if i == -1 then None else Some(s[i])
  }

  /** `Array.prototype.filter`: the elements that satisfy `p`, in their original order. */
  function Filter<T(==, !new)>(s: seq<T>, p: T -> bool): (r: seq<T>)
    ensures |r| <= |s|
    ensures SubsequenceOf(r, s)
    ensures forall x :: x in r <==> x in s && p(x)
    ensures (forall i :: 0 <= i < |s| ==> p(s[i])) ==> r == s
    ensures forall x :: multiset(r)[x] == if p(x) then multiset(s)[x] else 0
  {
    if s == [] then []
    else
      var rest := Filter(s[1..], p);
      FilterCountStep(s, p, rest);
      if p(s[0]) then [s[0]] + rest else rest
  }

  /** One step of `Filter`'s membership and multiplicity: putting the head back in front of
      the filtered tail. */
  lemma {:induction false} FilterCountStep<T(!new)>(s: seq<T>, p: T -> bool, rest: seq<T>)
    requires s != []
    requires forall x :: x in rest <==> x in s[1..] && p(x)
    requires forall x :: multiset(rest)[x] == if p(x) then multiset(s[1..])[x] else 0
    ensures var r := if p(s[0]) then [s[0]] + rest else rest;
            forall x :: x in r <==> x in s && p(x)
    ensures forall x :: multiset(if p(s[0]) then [s[0]] + rest else rest)[x] == if p(x) then multiset(s)[x] else 0
  {
    assert s == [s[0]] + s[1..];
    assert multiset(s) == multiset([s[0]]) + multiset(s[1..]);
  }

  /** `Array.prototype.indexOf`: the first position of `x` in `s`, or -1. */
  function IndexOf<T(==)>(s: seq<T>, x: T): (r: int)
    ensures -1 <= r < |s|
    ensures r == -1 <==> x !in s
    ensures 0 <= r ==> s[r] == x && forall k :: 0 <= k < r ==> s[k] != x
  {
    if s == [] then -1
    else if s[0] == x then 0
    else
      var k := IndexOf(s[1..], x);
      if k == -1 then -1
      else
        assert s[..k + 1] == [s[0]] + s[1..][..k];
        k + 1
  }

  /** The elements of `Array.from(new Set(xs))`: each distinct element once, in the order of
      its first occurrence (a `Set` keeps insertion order and ignores repeated insertions). */
  function Unique<T(==, !new)>(xs: seq<T>): (r: seq<T>)
    ensures NoDuplicates(r)
    ensures forall x {:trigger x in r} :: x in r <==> x in xs
  {
    if xs == [] then []
    else
      var init, last := xs[..|xs| - 1], xs[|xs| - 1];
      assert xs == init + [last];
      var seen := Unique(init);
      if last in seen then seen else seen + [last]
  }

  /** `Unique` lists the distinct elements in the order of their first occurrence. */
  lemma {:induction false} UniqueInFirstOccurrenceOrder<T(!new)>(xs: seq<T>, i: nat, j: nat)
    requires i < j < |Unique(xs)|
    ensures IndexOf(xs, Unique(xs)[i]) < IndexOf(xs, Unique(xs)[j])
  {
    var init, last := xs[..|xs| - 1], xs[|xs| - 1];
    assert xs == init + [last];
    var seen, r := Unique(init), Unique(xs);
    IndexOfExtend(init, last);
    assert r[i] in seen;
    if j < |seen| {
      UniqueInFirstOccurrenceOrder(init, i, j);
    } else {
      assert r[j] == last && last !in init;
    }
  }

  /** Adding an element at the end moves no first occurrence, and a new element is found last. */
  lemma IndexOfExtend<T>(s: seq<T>, a: T)
    ensures forall x :: x in s ==> IndexOf(s + [a], x) == IndexOf(s, x)
    ensures a !in s ==> IndexOf(s + [a], a) == |s|
  {
    forall x | x in s
      ensures IndexOf(s + [a], x) == IndexOf(s, x)
    {
      var k := IndexOf(s, x);
      assert (s + [a])[k] == x;
      assert (s + [a])[..k] == s[..k];
    }
    assert a !in s ==> (s + [a])[..|s|] == s;
  }

  /** An element appended behind elements that all fail the test is what `find` returns, as
      soon as it passes the test. */
  lemma FindAppended<T>(s: seq<T>, x: T, p: T -> bool)
    requires forall i :: 0 <= i < |s| ==> !p(s[i])
    requires p(x)
    ensures Find(s + [x], p) == Some(x)
  {
    assert (s + [x])[|s|] == x;
    assert forall i :: 0 <= i < |s| ==> (s + [x])[i] == s[i];
  }

  /** Two tests that agree on every element filter the same elements. */
  lemma {:induction false} FilterSameTest<T(!new)>(s: seq<T>, p: T -> bool, q: T -> bool)
    requires forall i :: 0 <= i < |s| ==> p(s[i]) == q(s[i])
    ensures Filter(s, p) == Filter(s, q)
  {
    if s != [] {
      FilterSameTest(s[1..], p, q);
    }
  }
}
