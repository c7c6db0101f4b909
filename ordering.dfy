/*
 * The order QString's operator< gives strings (character by character, a
 * proper prefix first), the insertion sort that stands for QStringList::sort
 * and QListWidget::sortItems, and the ascending key order in which a QMap
 * is iterated.
 */
module Ordering {

  /** a comes no later than b in QString order. */
  predicate LexLe(a: string, b: string)
    decreases |a|
  {
    a == [] || (b != [] && (a[0] < b[0] || (a[0] == b[0] && LexLe(a[1..], b[1..]))))
  }

  lemma {:induction false} LexLeReflexive(a: string)
    ensures LexLe(a, a)
    decreases |a|
  {
    if a != [] {
      LexLeReflexive(a[1..]);
    }
  }

  lemma {:induction false} LexLeTotal(a: string, b: string)
    ensures LexLe(a, b) || LexLe(b, a)
    decreases |a|
  {
    if a != [] && b != [] && a[0] == b[0] {
      LexLeTotal(a[1..], b[1..]);
    }
  }

  lemma {:induction false} LexLeTransitive(a: string, b: string, c: string)
    requires LexLe(a, b) && LexLe(b, c)
    ensures LexLe(a, c)
    decreases |a|
  {
    if a != [] && a[0] == b[0] && b[0] == c[0] {
      LexLeTransitive(a[1..], b[1..], c[1..]);
    }
  }

  lemma {:induction false} LexLeAntisymmetric(a: string, b: string)
    requires LexLe(a, b) && LexLe(b, a)
    ensures a == b
    decreases |a|
  {
    if a != [] {
      LexLeAntisymmetric(a[1..], b[1..]);
      assert a == [a[0]] + a[1..] && b == [b[0]] + b[1..];
    }
  }

  function Id(s: string): string { s }

  /** xs is in ascending order of key. */
  predicate SortedBy<T>(xs: seq<T>, key: T -> string) {
    forall i, j :: 0 <= i < j < |xs| ==> LexLe(key(xs[i]), key(xs[j]))
  }

  predicate Sorted(xs: seq<string>) {
    SortedBy(xs, Id)
  }

  /** Inserts x into sorted xs in front of the first element whose key is not
      below x's. */
  function InsertBy<T>(x: T, xs: seq<T>, key: T -> string): (r: seq<T>)
    requires SortedBy(xs, key)
    ensures SortedBy(r, key)
    ensures multiset(r) == multiset(xs) + multiset{x}
  {
    if xs == [] then [x]
    else if LexLe(key(x), key(xs[0])) then
      InsertInFront(x, xs, key);
      [x] + xs
    else
      var tail := InsertBy(x, xs[1..], key);
      LexLeTotal(key(x), key(xs[0]));
      InsertAfterHead(xs, x, tail, key);
      [xs[0]] + tail
  }

  lemma InsertInFront<T>(x: T, xs: seq<T>, key: T -> string)
    requires SortedBy(xs, key) && xs != [] && LexLe(key(x), key(xs[0]))
    ensures SortedBy([x] + xs, key)
  {
    var r := [x] + xs;
    forall i, j | 0 <= i < j < |r| ensures LexLe(key(r[i]), key(r[j])) {
      if i == 0 && j > 1 {
        LexLeTransitive(key(x), key(xs[0]), key(xs[j - 1]));
      }
    }
  }

  lemma InsertAfterHead<T>(xs: seq<T>, x: T, tail: seq<T>, key: T -> string)
    requires SortedBy(xs, key) && xs != [] && LexLe(key(xs[0]), key(x))
    requires SortedBy(tail, key)
    requires multiset(tail) == multiset(xs[1..]) + multiset{x}
    ensures SortedBy([xs[0]] + tail, key)
    ensures multiset([xs[0]] + tail) == multiset(xs) + multiset{x}
  {
    assert xs == [xs[0]] + xs[1..];
    var r := [xs[0]] + tail;
    forall j | 1 <= j < |r| ensures LexLe(key(xs[0]), key(r[j])) {
      assert r[j] == tail[j - 1];
      assert r[j] in multiset(tail);
      if r[j] != x {
        assert r[j] in multiset(xs[1..]);
        var k :| 0 <= k < |xs[1..]| && xs[1..][k] == r[j];
        assert xs[k + 1] == r[j];
      }
    }
  }

  /** Stable insertion sort by key, in code-point order: QStringList::sort
      for strings. It also stands in for QListWidget::sortItems, which
      compares item texts with QString::localeAwareCompare and does not keep
      the order of items that compare equal. */
  function SortBy<T>(xs: seq<T>, key: T -> string): (r: seq<T>)
    ensures SortedBy(r, key)
    ensures multiset(r) == multiset(xs)
  {
    if xs == [] then []
    else
      assert xs == [xs[0]] + xs[1..];
      InsertBy(xs[0], SortBy(xs[1..], key), key)
  }

  function SortStrings(xs: seq<string>): (r: seq<string>)
    ensures Sorted(r) && multiset(r) == multiset(xs)
  {
    SortBy(xs, Id)
  }

  /** A smallest element of a non-empty set of strings. */
  ghost function MinOf(s: set<string>): (m: string)
    requires s != {}
    ensures m in s && forall x :: x in s ==> LexLe(m, x)
  {
    var x :| x in s;
    LexLeReflexive(x);
    if s == {x} then x
    else
      var y := MinOf(s - {x});
      LexLeTotal(x, y);
      LexLeReflexive(y);
      MinBound(s, x, y, if LexLe(x, y) then x else y);
      if LexLe(x, y) then x else y
  }

  lemma MinBound(s: set<string>, x: string, y: string, m: string)
    requires x in s && y in s - {x}
    requires forall z :: z in s - {x} ==> LexLe(y, z)
    requires m == x || m == y
    requires LexLe(m, x) && LexLe(m, y)
    ensures forall z :: z in s ==> LexLe(m, z)
  {
    forall z | z in s ensures LexLe(m, z) {
      if z != x { LexLeTransitive(m, y, z); }
    }
  }

  /** A set has only one smallest element. */
  lemma MinUnique(s: set<string>, m: string)
    requires m in s && forall x :: x in s ==> LexLe(m, x)
    ensures s != {} && m == MinOf(s)
  {
    LexLeAntisymmetric(m, MinOf(s));
  }

  /** The elements of s in ascending order: the order in which QMap
      iterates its keys. */
  ghost function SortedSet(s: set<string>): (r: seq<string>)
    ensures |r| == |s|
    ensures forall x :: x in r <==> x in s
    decreases s
  {
    if s == {} then []
    else
      var m := MinOf(s);
      var rest := SortedSet(s - {m});
      assert forall x :: x in [m] + rest <==> x == m || x in rest;
      [m] + rest
  }

  /** Keys in ascending order never repeat. */
  lemma {:induction false} SortedSetStrictlyAscending(s: set<string>)
    ensures Sorted(SortedSet(s))
    ensures forall i, j :: 0 <= i < j < |SortedSet(s)| ==> SortedSet(s)[i] != SortedSet(s)[j]
    decreases s
  {
    if s != {} {
      var m := MinOf(s);
      SortedSetStrictlyAscending(s - {m});
      var r := SortedSet(s);
      assert r == [m] + SortedSet(s - {m});
      forall j | 0 < j < |r| ensures LexLe(m, r[j]) && r[j] != m {
        assert r[j] in SortedSet(s - {m});
      }
    }
  }

  /** Taking the least element off the front of the keys still to visit
      keeps the visit in ascending order. */
  lemma SortedSetStep(whole: seq<string>, done: seq<string>, pending: set<string>, k: string)
    requires whole == done + SortedSet(pending)
    requires k in pending && forall o :: o in pending ==> LexLe(k, o)
    ensures whole == (done + [k]) + SortedSet(pending - {k})
  {
    MinUnique(pending, k);
    SortedSetHead(pending);
    AppendAssoc(done, k, SortedSet(pending - {k}));
  }

  /** A walk over the keys of a QMap from constBegin to constEnd. */
  method SortedKeys(s: set<string>) returns (r: seq<string>)
    ensures r == SortedSet(s)
  {
    r := [];
    var pending := s;
    while pending != {}
      invariant pending <= s
      invariant SortedSet(s) == r + SortedSet(pending)
      decreases pending
    {
      ghost var least := MinOf(pending);
      var key :| key in pending && forall o :: o in pending ==> LexLe(key, o);
      SortedSetStep(SortedSet(s), r, pending, key);
      r := r + [key];
      pending := pending - {key};
    }
    assert r + SortedSet(pending) == r;
  }

  lemma AppendAssoc<T>(a: seq<T>, x: T, b: seq<T>)
    ensures a + ([x] + b) == (a + [x]) + b
  {
  }

  /** The keys in ascending order start with the least key. */
  lemma SortedSetHead(s: set<string>)
    requires s != {}
    ensures SortedSet(s) == [MinOf(s)] + SortedSet(s - {MinOf(s)})
  {
  }
}
