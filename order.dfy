/**
  Python's ordering of `str` values and `sorted()` over a collection of
  paths: code point by code point, a proper prefix before any extension.
*/
module Order {

  /** `a < b` on Python strings. */
  predicate Less(a: string, b: string)
    decreases |a|
  {
    if a == [] then b != []
    else if b == [] then false
    else if a[0] != b[0] then a[0] < b[0]
    else Less(a[1..], b[1..])
  }

  lemma {:induction false} LessIrreflexive(a: string)
    ensures !Less(a, a)
    decreases |a|
  {
    if a != [] { LessIrreflexive(a[1..]); }
  }

  lemma {:induction false} LessAsymmetric(a: string, b: string)
    requires Less(a, b)
    ensures !Less(b, a)
    decreases |a|
  {
    if a != [] && b != [] && a[0] == b[0] { LessAsymmetric(a[1..], b[1..]); }
  }

  lemma {:induction false} LessTransitive(a: string, b: string, c: string)
    requires Less(a, b) && Less(b, c)
    ensures Less(a, c)
    decreases |a|
  {
    if a != [] && a[0] == b[0] && b[0] == c[0] {
      LessTransitive(a[1..], b[1..], c[1..]);
    }
  }

  lemma {:induction false} LessTotal(a: string, b: string)
    requires a != b
    ensures Less(a, b) || Less(b, a)
    decreases |a|
  {
    if a != [] && b != [] && a[0] == b[0] {
      assert a == [a[0]] + a[1..] && b == [b[0]] + b[1..];
      LessTotal(a[1..], b[1..]);
    }
  }

  /**
    A common leading part does not change the order: sorting full paths
    under one root orders them as their root-relative parts.
  */
  lemma {:induction false} LessCommonPrefix(p: string, a: string, b: string)
    ensures Less(p + a, p + b) == Less(a, b)
    decreases |p|
  {
    if p == [] {
      assert p + a == a && p + b == b;
    } else {
      assert (p + a)[0] == p[0] == (p + b)[0];
      assert (p + a)[1..] == p[1..] + a && (p + b)[1..] == p[1..] + b;
      LessCommonPrefix(p[1..], a, b);
    }
  }

  /** Strictly ascending, hence without duplicates. */
  predicate Increasing(s: seq<string>)
  {
    forall i, j :: 0 <= i < j < |s| ==> Less(s[i], s[j])
  }

  /** `x` placed into an ascending sequence, unless it is already there. */
  function Insert(x: string, s: seq<string>): (r: seq<string>)
    requires Increasing(s)
    ensures Increasing(r)
    ensures forall y :: y in r <==> y == x || y in s
    decreases |s|
  {
    if s == [] then [x]
    else if x == s[0] then s
    else if Less(x, s[0]) then
      InsertFront(x, s);
      [x] + s
    else
      LessTotal(x, s[0]);
      var t := Insert(x, s[1..]);
      assert forall i :: 0 <= i < |t| ==> Less(s[0], t[i]) by {
        forall i | 0 <= i < |t| ensures Less(s[0], t[i]) {
          if t[i] != x {
            assert t[i] in s[1..];
            var k :| 0 <= k < |s[1..]| && s[1..][k] == t[i];
            assert s[k + 1] == t[i];
          }
        }
      }
      [s[0]] + t
  }

  lemma InsertFront(x: string, s: seq<string>)
    requires Increasing(s) && s != [] && Less(x, s[0])
    ensures Increasing([x] + s)
  {
    forall j | 0 < j < |s| + 1 ensures Less(([x] + s)[0], ([x] + s)[j]) {
      if j > 1 { LessTransitive(x, s[0], s[j - 1]); }
    }
  }

  /** sorted(set(xs)): the elements of `xs`, ascending, each once. */
  function Sort(xs: seq<string>): (r: seq<string>)
    ensures Increasing(r)
    ensures forall y :: y in r <==> y in xs
    decreases |xs|
  {
    if xs == [] then []
    else Insert(xs[|xs| - 1], Sort(xs[..|xs| - 1]))
  }

  /**
    Two ascending sequences with the same elements are equal: the order in
    which the sources were gathered does not affect the order of processing.
  */
  lemma {:induction false} IncreasingUnique(a: seq<string>, b: seq<string>)
    requires Increasing(a) && Increasing(b)
    requires forall y :: y in a <==> y in b
    ensures a == b
    decreases |a|
  {
    assert a != [] ==> a[0] in b;
    assert b != [] ==> b[0] in a;
    if a != [] && b != [] {
      if a[0] != b[0] {
        assert a[0] in b && b[0] in a;
        var i :| 0 <= i < |b| && b[i] == a[0];
        var j :| 0 <= j < |a| && a[j] == b[0];
        assert Less(b[0], b[i]) && Less(a[0], a[j]);
        LessAsymmetric(a[0], b[0]);
      }
      forall y ensures y in a[1..] <==> y in b[1..] {
        if y in a[1..] {
          var i :| 1 <= i < |a| && a[i] == y;
          assert y in b;
          var k :| 0 <= k < |b| && b[k] == y;
          if k == 0 { assert Less(a[0], a[i]); LessIrreflexive(y); }
          assert b[1..][k - 1] == y;
        }
        if y in b[1..] {
          var i :| 1 <= i < |b| && b[i] == y;
          assert y in a;
          var k :| 0 <= k < |a| && a[k] == y;
          if k == 0 { assert Less(b[0], b[i]); LessIrreflexive(y); }
          assert a[1..][k - 1] == y;
        }
      }
      IncreasingUnique(a[1..], b[1..]);
    }
  }

  /** Sorting depends only on which elements there are. */
  lemma SortBySet(xs: seq<string>, ys: seq<string>)
    requires forall y :: y in xs <==> y in ys
    ensures Sort(xs) == Sort(ys)
  {
    IncreasingUnique(Sort(xs), Sort(ys));
  }
}
