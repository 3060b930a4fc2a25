/** The lexicographic order that Rust's `String` and `BTreeMap<String, _>` use,
    and ascending iteration over a set of keys. */
module StringOrder {

  predicate Less(a: string, b: string) {
    if b == [] then false
    else if a == [] then true
    else if a[0] != b[0] then a[0] < b[0]
    else Less(a[1..], b[1..])
  }

  lemma {:induction false} Asymmetric(a: string, b: string)
    ensures !(Less(a, b) && Less(b, a))
  {
    if a != [] && b != [] && a[0] == b[0] {
      Asymmetric(a[1..], b[1..]);
    }
  }

  lemma {:induction false} LessTotal(a: string, b: string)
    ensures a == b || Less(a, b) || Less(b, a)
  {
    if a != [] && b != [] && a[0] == b[0] {
      LessTotal(a[1..], b[1..]);
      assert a == [a[0]] + a[1..] && b == [b[0]] + b[1..];
    }
  }

  lemma {:induction false} Transitive(a: string, b: string, c: string)
    requires Less(a, b) && Less(b, c)
    ensures Less(a, c)
  {
    if a != [] && a[0] == b[0] && b[0] == c[0] {
      Transitive(a[1..], b[1..], c[1..]);
    }
  }

  /** A string comes before each of its proper extensions. */
  lemma {:induction false} PrefixFirst(a: string, suffix: string)
    requires suffix != []
    ensures Less(a, a + suffix)
  {
    if a != [] {
      PrefixFirst(a[1..], suffix);
      assert (a + suffix)[1..] == a[1..] + suffix;
    }
  }

  ghost predicate Ascending(s: seq<string>) {
    forall i, j :: 0 <= i < j < |s| ==> Less(s[i], s[j])
  }

  /** An ascending list is determined by the set of its elements. */
  lemma {:induction false} AscendingUnique(a: seq<string>, b: seq<string>)
    requires Ascending(a) && Ascending(b)
    requires forall x :: x in a <==> x in b
    ensures a == b
  {
    if a != [] { assert a[0] in b; }
    if b != [] { assert b[0] in a; }
    if a != [] {
      if a[0] != b[0] {
        Asymmetric(a[0], b[0]);
        assert false;
      }
      forall x
        ensures x in a[1..] <==> x in b[1..]
      {
        Asymmetric(a[0], a[0]);
        if x in a[1..] { assert x in a; assert x != a[0]; assert x in b; }
        if x in b[1..] { assert x in b; assert x != b[0]; assert x in a; }
      }
      AscendingUnique(a[1..], b[1..]);
    }
  }

  predicate IsLeast(x: string, s: set<string>) {
    x in s && forall y :: y in s ==> y == x || Less(x, y)
  }

  lemma {:induction false} LeastExists(s: set<string>)
    requires s != {}
    ensures exists x :: IsLeast(x, s)
  {
    var p :| p in s;
    if s == {p} {
      assert IsLeast(p, s);
    } else {
      LeastExists(s - {p});
      var q :| IsLeast(q, s - {p});
      LessTotal(p, q);
      if Less(p, q) {
        forall y | y in s && y != p ensures Less(p, y) {
          if y != q { Transitive(p, q, y); }
        }
        assert IsLeast(p, s);
      } else {
        assert IsLeast(q, s);
      }
    }
  }

  function Least(s: set<string>): (x: string)
    requires s != {}
    ensures IsLeast(x, s)
  {
    LeastExists(s);
    assert forall x, y :: IsLeast(x, s) && IsLeast(y, s) ==> x == y by {
      forall x, y | IsLeast(x, s) && IsLeast(y, s) ensures x == y { Asymmetric(x, y); }
    }
    var x :| x in s && IsLeast(x, s);
    x
  }

  /** The keys of a `BTreeMap` or `BTreeSet` in iteration order. */
  function SortedKeys(s: set<string>): (r: seq<string>)
    ensures Ascending(r)
    ensures forall x :: x in r <==> x in s
  {
    if s == {} then [] else
      var least := Least(s);
      var rest := SortedKeys(s - {least});
      assert forall i :: 0 <= i < |rest| ==> rest[i] in rest && Less(least, rest[i]);
      [least] + rest
  }
}
