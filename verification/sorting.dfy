/** A stable sort by a comparison, standing for `slice::sort_by`, and why its result does not
    depend on the order of the input. */
module Sorting {

  type Order<!T> = (T, T) -> bool

  ghost predicate IsTotalPreorder<T(!new)>(le: Order<T>) {
    && (forall x, y :: le(x, y) || le(y, x))
    && (forall x, y, z :: le(x, y) && le(y, z) ==> le(x, z))
  }

  ghost predicate Sorted<T>(le: Order<T>, s: seq<T>) {
    forall i, j :: 0 <= i < j < |s| ==> le(s[i], s[j])
  }

  function Insert<T>(le: Order<T>, x: T, s: seq<T>): (r: seq<T>)
    ensures multiset(r) == multiset([x]) + multiset(s)
  {
    if s == [] || le(x, s[0]) then [x] + s
    else
      assert s == [s[0]] + s[1..];
      [s[0]] + Insert(le, x, s[1..])
  }

  function Sort<T>(le: Order<T>, s: seq<T>): (r: seq<T>)
    ensures multiset(r) == multiset(s)
  {
    if s == [] then [] else
      assert s == [s[0]] + s[1..];
      Insert(le, s[0], Sort(le, s[1..]))
  }

  lemma {:induction false} InsertSorted<T(!new)>(le: Order<T>, x: T, s: seq<T>)
    requires IsTotalPreorder(le) && Sorted(le, s)
    ensures Sorted(le, Insert(le, x, s))
  {
    if s != [] && !le(x, s[0]) {
      InsertSorted(le, x, s[1..]);
      var rest := Insert(le, x, s[1..]);
      forall k | 0 <= k < |rest| ensures le(s[0], rest[k]) {
        assert rest[k] in multiset(rest);
        assert rest[k] == x || rest[k] in s[1..];
      }
    }
  }

  lemma {:induction false} SortSorted<T(!new)>(le: Order<T>, s: seq<T>)
    requires IsTotalPreorder(le)
    ensures Sorted(le, Sort(le, s))
  {
    if s != [] {
      SortSorted(le, s[1..]);
      InsertSorted(le, s[0], Sort(le, s[1..]));
    }
  }

  /** No two different members of `s` compare as equal. */
  ghost predicate NoTies<T>(le: Order<T>, s: seq<T>) {
    forall i, j :: 0 <= i < |s| && 0 <= j < |s| && le(s[i], s[j]) && le(s[j], s[i]) ==> s[i] == s[j]
  }

  lemma Uncons<T>(s: seq<T>)
    requires s != []
    ensures multiset(s) == multiset([s[0]]) + multiset(s[1..])
  {
    assert s == [s[0]] + s[1..];
  }

  lemma SortedHeads<T>(le: Order<T>, a: seq<T>, b: seq<T>)
    requires Sorted(le, a) && Sorted(le, b) && NoTies(le, a)
    requires multiset(a) == multiset(b) && a != [] && b != []
    ensures a[0] == b[0]
  {
    assert a[0] in multiset(b);
    var k :| 0 <= k < |b| && b[k] == a[0];
    assert b[0] in multiset(a);
    var l :| 0 <= l < |a| && a[l] == b[0];
    if k > 0 && l > 0 {
      assert le(a[0], a[l]) && le(b[0], b[k]);
    }
  }

  lemma {:induction false} SortedUnique<T>(le: Order<T>, a: seq<T>, b: seq<T>)
    requires Sorted(le, a) && Sorted(le, b) && NoTies(le, a)
    requires multiset(a) == multiset(b)
    ensures a == b
    decreases |a|
  {
    assert |multiset(a)| == |a| && |multiset(b)| == |b|;
    if a != [] {
      SortedHeads(le, a, b);
      Uncons(a);
      Uncons(b);
      assert multiset(a[1..]) == multiset(b[1..]) by {
        assert multiset(a[1..]) == multiset(a) - multiset([a[0]]);
        assert multiset(b[1..]) == multiset(b) - multiset([b[0]]);
      }
      SortedUnique(le, a[1..], b[1..]);
    }
  }

  /** Sorting two arrangements of the same elements gives the same list. */
  lemma SortForgetsOrder<T(!new)>(le: Order<T>, a: seq<T>, b: seq<T>)
    requires IsTotalPreorder(le) && NoTies(le, a)
    requires multiset(a) == multiset(b)
    ensures Sort(le, a) == Sort(le, b)
  {
    SortSorted(le, a);
    SortSorted(le, b);
    var s := Sort(le, a);
    forall i, j | 0 <= i < |s| && 0 <= j < |s| && le(s[i], s[j]) && le(s[j], s[i]) ensures s[i] == s[j] {
      assert s[i] in multiset(s) && s[j] in multiset(s);
      assert s[i] in a && s[j] in a;
    }
    SortedUnique(le, s, Sort(le, b));
  }

  /** Sorting a sorted list without ties changes nothing. */
  lemma SortOfSorted<T(!new)>(le: Order<T>, s: seq<T>)
    requires IsTotalPreorder(le) && NoTies(le, s) && Sorted(le, s)
    ensures Sort(le, s) == s
  {
    SortSorted(le, s);
    SortedUnique(le, s, Sort(le, s));
  }

  ghost predicate NoRepeats<T>(s: seq<T>) {
    forall i, j :: 0 <= i < j < |s| ==> s[i] != s[j]
  }

  lemma {:induction false} CountsOnce<T>(s: seq<T>, x: T)
    requires NoRepeats(s)
    ensures multiset(s)[x] <= 1
  {
    if s != [] {
      CountsOnce(s[1..], x);
      Uncons(s);
      if s[0] == x { assert x !in s[1..]; }
    }
  }

  /** Rearranging a list without repeats creates none. */
  lemma NoRepeatsPermutation<T>(a: seq<T>, b: seq<T>)
    requires NoRepeats(a) && multiset(a) == multiset(b)
    ensures NoRepeats(b)
  {
    forall i, j | 0 <= i < j < |b| ensures b[i] != b[j] {
      CountsOnce(a, b[i]);
      assert b == b[..i] + [b[i]] + b[i + 1..j] + [b[j]] + b[j + 1..];
    }
  }

  // ---------- sequences under a function ----------

  function Map<T, U>(f: T -> U, s: seq<T>): (r: seq<U>)
    ensures |r| == |s|
    ensures forall i :: 0 <= i < |s| ==> r[i] == f(s[i])
  {
    seq(|s|, i requires 0 <= i < |s| => f(s[i]))
  }

  lemma MapConcat<T, U>(f: T -> U, a: seq<T>, b: seq<T>)
    ensures Map(f, a + b) == Map(f, a) + Map(f, b)
  {
  }

  lemma TakeOut<T>(s: seq<T>, k: nat)
    requires k < |s|
    ensures multiset(s) == multiset(s[..k] + s[k + 1..]) + multiset([s[k]])
  {
    assert s == s[..k] + [s[k]] + s[k + 1..];
  }

  lemma MapTakeOut<T, U>(f: T -> U, s: seq<T>, k: nat)
    requires k < |s|
    ensures multiset(Map(f, s)) == multiset(Map(f, s[..k] + s[k + 1..])) + multiset([f(s[k])])
  {
    assert Map(f, s[..k] + s[k + 1..]) == Map(f, s)[..k] + Map(f, s)[k + 1..];
    TakeOut(Map(f, s), k);
  }

  lemma PartnerOf<T>(a: seq<T>, b: seq<T>) returns (k: nat)
    requires a != [] && multiset(a) == multiset(b)
    ensures k < |b| && b[k] == a[0]
    ensures multiset(a[..0] + a[1..]) == multiset(b[..k] + b[k + 1..])
  {
    assert a[0] in multiset(b);
    k :| 0 <= k < |b| && b[k] == a[0];
    TakeOut(a, 0);
    TakeOut(b, k);
    assert multiset(a[..0] + a[1..]) == multiset(a) - multiset([a[0]]);
    assert multiset(b[..k] + b[k + 1..]) == multiset(b) - multiset([a[0]]);
  }

  lemma {:induction false} MapPermutation<T, U>(f: T -> U, a: seq<T>, b: seq<T>)
    requires multiset(a) == multiset(b)
    ensures multiset(Map(f, a)) == multiset(Map(f, b))
    decreases |a|
  {
    if a == [] {
      assert |multiset(a)| == |a| && |multiset(b)| == |b|;
    } else {
      var k := PartnerOf(a, b);
      MapPermutation(f, a[..0] + a[1..], b[..k] + b[k + 1..]);
      MapTakeOut(f, a, 0);
      MapTakeOut(f, b, k);
    }
  }
}
