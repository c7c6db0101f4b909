/*
 * Lists edited by selected row numbers: removing the selected rows the way
 * the screens do it (QList::removeAt over the rows in descending order), and
 * the subsequence relation that filtering and removal keep.
 */
module Rows {

  /** The elements of s whose row number is not in sel, in their order. */
  function KeepRows<T>(s: seq<T>, sel: set<nat>): (r: seq<T>)
    ensures |r| <= |s|
  {
    if s == [] then []
    else KeepRows(s[..|s| - 1], sel) + (if |s| - 1 in sel then [] else [s[|s| - 1]])
  }

  /** How many of the row numbers 0 .. n-1 are in sel. */
  function CountBelow(sel: set<nat>, n: nat): nat {
    if n == 0 then 0 else CountBelow(sel, n - 1) + (if n - 1 in sel then 1 else 0)
  }

  /** QList::removeAt. */
  function RemoveAt<T>(s: seq<T>, i: nat): (r: seq<T>)
    requires i < |s|
    ensures |r| == |s| - 1
  {
    s[..i] + s[i + 1..]
  }

  /** a is a subsequence of b: b with some elements left out, the rest in order. */
  predicate SubseqOf<T(==)>(a: seq<T>, b: seq<T>)
    decreases |b|
  {
    if a == [] then true
    else if b == [] then false
    else if a[|a| - 1] == b[|b| - 1] then SubseqOf(a[..|a| - 1], b[..|b| - 1])
    else SubseqOf(a, b[..|b| - 1])
  }

  lemma {:induction false} KeepNoRows<T>(s: seq<T>, sel: set<nat>)
    requires forall x :: x in sel ==> x >= |s|
    ensures KeepRows(s, sel) == s
  {
    if s != [] {
      KeepNoRows(s[..|s| - 1], sel);
    }
  }

  /** Removing row i, when every row already removed lies above i, removes
      row i of the original list; the rows below i are still in place. */
  lemma {:induction false} RemoveBelowRemoved<T>(s: seq<T>, sel: set<nat>, i: nat)
    requires i < |s|
    requires forall x :: x in sel ==> x > i
    ensures i < |KeepRows(s, sel)|
    ensures RemoveAt(KeepRows(s, sel), i) == KeepRows(s, sel + {i})
  {
    var n := |s| - 1;
    var init := s[..n];
    if n == i {
      KeepNoRows(init, sel);
      KeepNoRows(init, sel + {i});
      assert KeepRows(s, sel) == init + [s[n]];
      assert RemoveAt(init + [s[n]], n) == init;
    } else {
      RemoveBelowRemoved(init, sel, i);
      var k := KeepRows(init, sel);
      var tail := if n in sel then [] else [s[n]];
      assert KeepRows(s, sel) == k + tail;
      assert RemoveAt(k + tail, i) == RemoveAt(k, i) + tail;
    }
  }

  /** The kept rows are the original list with some elements left out. */
  lemma {:induction false} KeepRowsIsSubseq<T>(s: seq<T>, sel: set<nat>)
    ensures SubseqOf(KeepRows(s, sel), s)
  {
    if s != [] {
      var n := |s| - 1;
      KeepRowsIsSubseq(s[..n], sel);
      var k := KeepRows(s[..n], sel);
      assert s[..n] + [s[n]] == s;
      assert KeepRows(s, sel) == if n !in sel then k + [s[n]] else k;
      SubseqSnoc(k, s[..n], s[n], n !in sel);
    }
  }

  /** Exactly the selected rows that exist are left out. */
  lemma {:induction false} KeepRowsLength<T>(s: seq<T>, sel: set<nat>)
    ensures |KeepRows(s, sel)| == |s| - CountBelow(sel, |s|)
  {
    if s != [] {
      KeepRowsLength(s[..|s| - 1], sel);
    }
  }

  /** Appending one element to b, and maybe to a, keeps a a subsequence of b. */
  lemma SubseqSnoc<T>(a: seq<T>, b: seq<T>, x: T, both: bool)
    requires SubseqOf(a, b)
    ensures SubseqOf(if both then a + [x] else a, b + [x])
  {
    if both {
      assert (b + [x])[..|b|] == b;
      assert (a + [x])[..|a|] == a;
    } else {
      SubseqExtend(a, b, x);
    }
  }

  lemma {:induction false} SubseqDropLast<T>(a: seq<T>, b: seq<T>)
    requires a != [] && SubseqOf(a, b)
    ensures SubseqOf(a[..|a| - 1], b)
    decreases |b|, 1
  {
    var b' := b[..|b| - 1];
    assert b' + [b[|b| - 1]] == b;
    if a[|a| - 1] == b[|b| - 1] {
      SubseqExtend(a[..|a| - 1], b', b[|b| - 1]);
    } else {
      SubseqDropLast(a, b');
      SubseqExtend(a[..|a| - 1], b', b[|b| - 1]);
    }
  }

  lemma {:induction false} SubseqExtend<T>(a: seq<T>, b: seq<T>, x: T)
    requires SubseqOf(a, b)
    ensures SubseqOf(a, b + [x])
    decreases |b|, 2
  {
    assert (b + [x])[..|b|] == b;
    if a != [] && a[|a| - 1] == x {
      SubseqDropLast(a, b);
    }
  }

  predicate IsMaxOf(m: nat, s: set<nat>) {
    m in s && forall o :: o in s ==> o <= m
  }

  /** Every non-empty set of row numbers has a highest row. */
  lemma HighestRow(s: set<nat>) returns (m: nat)
    requires s != {}
    ensures IsMaxOf(m, s)
    decreases s
  {
    var x :| x in s;
    if s == {x} {
      m := x;
    } else {
      var m' := HighestRow(s - {x});
      m := if x > m' then x else m';
      assert forall o :: o in s ==> o == x || o in s - {x};
    }
  }

  /** The selected rows of a list widget: each row once, each one that exists. */
  predicate ValidRows(rows: seq<nat>, size: nat) {
    && (forall k :: 0 <= k < |rows| ==> 0 <= rows[k] < size)
    && (forall k, l :: 0 <= k < l < |rows| ==> rows[k] != rows[l])
  }

  function Elements(rows: seq<nat>): set<nat> {
    set k | 0 <= k < |rows| :: rows[k]
  }

  /** deleteFromDocs: sorts the selected rows, reverses them and calls
      QList::removeAt on each, highest row first, so that every removal
      still addresses the row that was selected. */
  method RemoveRows<T>(s: seq<T>, rows: seq<nat>) returns (r: seq<T>)
    requires ValidRows(rows, |s|)
    ensures r == KeepRows(s, Elements(rows))
  {
    var pending := Elements(rows);
    var done: set<nat> := {};
    r := s;
    KeepNoRows(s, {});
    while pending != {}
      invariant pending + done == Elements(rows) && pending !! done
      invariant forall x :: x in pending ==> 0 <= x < |s|
      invariant forall x, y :: x in pending && y in done ==> x < y
      invariant r == KeepRows(s, done)
      decreases pending
    {
      ghost var highest := HighestRow(pending);
      var i: nat :| i in pending && forall o :: o in pending ==> o <= i;
      RemoveBelowRemoved(s, done, i);
      r := r[..i] + r[i + 1..];
      pending, done := pending - {i}, done + {i};
    }
  }
}
