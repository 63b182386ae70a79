/** Column sorting (`sortUsers`): the direction toggle and the comparator-driven
    sort of the currently shown list. */
module Sorting {
  import opened JsValues
  import opened Members

  datatype Dir = Asc | Desc

  /** The `sortBy` state: the column last clicked and its direction. */
  datatype SortBy = SortBy(field: string, dir: Dir)

  /** The state the page starts in. */
  const InitialSortBy: SortBy := SortBy("name", Asc)

  /** The new `sortBy` after a click on column `field`. */
  function NextSortBy(cur: SortBy, field: string): (r: SortBy)
    ensures r.field == field
    ensures r.dir == Desc <==> cur.field == field && cur.dir == Asc
  {
    SortBy(field, if cur.field == field && cur.dir == Asc then Desc else Asc)
  }

  /** Clicking the same column again always flips the direction; clicking
      another column always starts ascending. */
  lemma SameColumnAlternates(cur: SortBy, field: string, other: string)
    requires other != field
    ensures NextSortBy(NextSortBy(cur, field), field).dir != NextSortBy(cur, field).dir
    ensures NextSortBy(NextSortBy(cur, field), other).dir == Asc
  {
  }

  /** `(u[field] || "").toString().toLowerCase()` */
  function SortKey(u: Record, field: string): string {
    LowerKey(Get(u, field))
  }

  /** The comparator handed to `Array.prototype.sort`. */
  function Compare(dir: Dir, va: string, vb: string): int {
    if LexLess(va, vb) then (if dir == Asc then -1 else 1)
    else if LexLess(vb, va) then (if dir == Asc then 1 else -1)
    else 0
  }

  /** Key `ka` may stand before key `kb` in a list sorted in direction `dir`:
      non-decreasing for Asc, non-increasing for Desc. */
  predicate InOrder(dir: Dir, ka: string, kb: string) {
    if dir == Asc then !LexLess(kb, ka) else !LexLess(ka, kb)
  }

  /** The comparator orders `va` strictly before `vb` exactly when `vb` may not
      stand before `va`, and calls two keys equal exactly when they are. */
  lemma CompareMeaning(dir: Dir, va: string, vb: string)
    ensures Compare(dir, va, vb) < 0 <==> !InOrder(dir, vb, va)
    ensures Compare(dir, va, vb) == 0 <==> va == vb
  {
    LexLessTotal(va, vb);
    LexLessIrreflexive(va);
    if LexLess(va, vb) { LexLessAsymmetric(va, vb); }
    if LexLess(vb, va) { LexLessAsymmetric(vb, va); }
  }

  lemma InOrderTotal(dir: Dir, a: string, b: string)
    ensures InOrder(dir, a, b) || InOrder(dir, b, a)
  {
    if LexLess(a, b) { LexLessAsymmetric(a, b); }
  }

  lemma InOrderTransitive(dir: Dir, a: string, b: string, c: string)
    requires InOrder(dir, a, b) && InOrder(dir, b, c)
    ensures InOrder(dir, a, c)
  {
    LexLessTotal(a, b);
    LexLessTotal(b, c);
    if dir == Asc {
      if LexLess(c, a) {
        if LexLess(a, b) { LexLessTransitive(c, a, b); }
      }
    } else {
      if LexLess(a, c) {
        if LexLess(b, a) { LexLessTransitive(b, a, c); }
      }
    }
  }

  /** Every record's key may stand before every later record's key: keys never
      decrease along an ascending list and never increase along a descending one. */
  predicate Sorted(s: seq<Record>, field: string, dir: Dir) {
    forall i, j :: 0 <= i < j < |s| ==> InOrder(dir, SortKey(s[i], field), SortKey(s[j], field))
  }

  /** The records of `s` whose key is `k`, in their order in `s`. */
  function KeyGroup(s: seq<Record>, field: string, k: string): seq<Record> {
    if |s| == 0 then []
    else (if SortKey(s[0], field) == k then [s[0]] else []) + KeyGroup(s[1..], field, k)
  }

  /** Places `x` in front of the first record that the comparator does not
      order strictly before it. */
  function Insert(x: Record, t: seq<Record>, field: string, dir: Dir): seq<Record> {
    if |t| == 0 || Compare(dir, SortKey(t[0], field), SortKey(x, field)) >= 0 then [x] + t
    else [t[0]] + Insert(x, t[1..], field, dir)
  }

  lemma {:induction false} InsertPermutes(x: Record, t: seq<Record>, field: string, dir: Dir)
    ensures multiset(Insert(x, t, field, dir)) == multiset(t) + multiset{x}
    decreases |t|
  {
    if |t| > 0 && Compare(dir, SortKey(t[0], field), SortKey(x, field)) < 0 {
      InsertPermutes(x, t[1..], field, dir);
      assert t == [t[0]] + t[1..];
    }
  }

  lemma SortedCons(h: Record, r: seq<Record>, field: string, dir: Dir)
    requires Sorted(r, field, dir)
    requires forall j :: 0 <= j < |r| ==> InOrder(dir, SortKey(h, field), SortKey(r[j], field))
    ensures Sorted([h] + r, field, dir)
  {
    var s := [h] + r;
    forall i, j | 0 <= i < j < |s| ensures InOrder(dir, SortKey(s[i], field), SortKey(s[j], field)) {
      assert s[j] == r[j - 1];
      if i > 0 { assert s[i] == r[i - 1]; }
    }
  }

  /** A key that may stand before `x` and before every record of `t` may
      stand before every record of `Insert(x, t, ...)`. */
  lemma InsertKeepsBound(x: Record, t: seq<Record>, field: string, dir: Dir, k: string)
    requires InOrder(dir, k, SortKey(x, field))
    requires forall j :: 0 <= j < |t| ==> InOrder(dir, k, SortKey(t[j], field))
    ensures forall j :: 0 <= j < |Insert(x, t, field, dir)| ==> InOrder(dir, k, SortKey(Insert(x, t, field, dir)[j], field))
  {
    var r := Insert(x, t, field, dir);
    InsertPermutes(x, t, field, dir);
    forall j | 0 <= j < |r| ensures InOrder(dir, k, SortKey(r[j], field)) {
      assert r[j] in multiset(r);
      if r[j] != x {
        assert r[j] in t;
        var m :| 0 <= m < |t| && t[m] == r[j];
      }
    }
  }

  lemma {:induction false} InsertSorted(x: Record, t: seq<Record>, field: string, dir: Dir)
    requires Sorted(t, field, dir)
    ensures Sorted(Insert(x, t, field, dir), field, dir)
    decreases |t|
  {
    var kx := SortKey(x, field);
    if |t| == 0 {
    } else {
      var k0 := SortKey(t[0], field);
      CompareMeaning(dir, k0, kx);
      if Compare(dir, k0, kx) >= 0 {
        forall j | 0 <= j < |t| ensures InOrder(dir, kx, SortKey(t[j], field)) {
          if j > 0 { InOrderTransitive(dir, kx, k0, SortKey(t[j], field)); }
        }
        SortedCons(x, t, field, dir);
      } else {
        InOrderTotal(dir, kx, k0);
        var rest := Insert(x, t[1..], field, dir);
        InsertSorted(x, t[1..], field, dir);
        InsertKeepsBound(x, t[1..], field, dir, k0);
        SortedCons(t[0], rest, field, dir);
      }
    }
  }

  lemma {:induction false} KeyGroupCons(h: Record, t: seq<Record>, field: string, k: string)
    ensures KeyGroup([h] + t, field, k) == (if SortKey(h, field) == k then [h] else []) + KeyGroup(t, field, k)
  {
    assert ([h] + t)[0] == h;
    assert ([h] + t)[1..] == t;
  }

  lemma SwapDisjoint(a: seq<Record>, b: seq<Record>, c: seq<Record>)
    requires a == [] || b == []
    ensures a + (b + c) == b + (a + c)
  {
  }

  /** Inserting `x` keeps it ahead of every record with the same key. */
  lemma {:induction false} InsertKeepsGroups(x: Record, t: seq<Record>, field: string, dir: Dir, k: string)
    ensures KeyGroup(Insert(x, t, field, dir), field, k) == KeyGroup([x] + t, field, k)
    decreases |t|
  {
    if |t| > 0 && Compare(dir, SortKey(t[0], field), SortKey(x, field)) < 0 {
      CompareMeaning(dir, SortKey(t[0], field), SortKey(x, field));
      var t0, t' := t[0], t[1..];
      var gx := if SortKey(x, field) == k then [x] else [];
      var g0 := if SortKey(t0, field) == k then [t0] else [];
      assert gx == [] || g0 == [];
      var ins' := Insert(x, t', field, dir);
      assert Insert(x, t, field, dir) == [t0] + ins';
      assert t == [t0] + t';
      KeyGroupCons(t0, ins', field, k);
      InsertKeepsGroups(x, t', field, dir, k);
      KeyGroupCons(x, t', field, k);
      KeyGroupCons(t0, t', field, k);
      KeyGroupCons(x, t, field, k);
      SwapDisjoint(g0, gx, KeyGroup(t', field, k));
    }
  }

  /** Inserting `x` into a rearrangement of `t` that keeps its key groups
      keeps the key groups of `[x] + t`. */
  lemma InsertStepGroups(x: Record, rest: seq<Record>, t: seq<Record>, field: string, dir: Dir)
    requires forall k :: KeyGroup(rest, field, k) == KeyGroup(t, field, k)
    ensures forall k :: KeyGroup(Insert(x, rest, field, dir), field, k) == KeyGroup([x] + t, field, k)
  {
    forall k ensures KeyGroup(Insert(x, rest, field, dir), field, k) == KeyGroup([x] + t, field, k) {
      InsertKeepsGroups(x, rest, field, dir, k);
      KeyGroupCons(x, rest, field, k);
      KeyGroupCons(x, t, field, k);
    }
  }

  /** One step of the insertion sort: if `rest` is a stable sort of `t`, then
      inserting `x` into it gives a stable sort of `[x] + t`. */
  lemma InsertStep(x: Record, rest: seq<Record>, t: seq<Record>, field: string, dir: Dir)
    requires multiset(rest) == multiset(t) && Sorted(rest, field, dir)
    requires forall k :: KeyGroup(rest, field, k) == KeyGroup(t, field, k)
    ensures multiset(Insert(x, rest, field, dir)) == multiset([x] + t)
    ensures Sorted(Insert(x, rest, field, dir), field, dir)
    ensures forall k :: KeyGroup(Insert(x, rest, field, dir), field, k) == KeyGroup([x] + t, field, k)
  {
    InsertPermutes(x, rest, field, dir);
    InsertSorted(x, rest, field, dir);
    InsertStepGroups(x, rest, t, field, dir);
  }

  /** `[...filtered].sort(comparator)`: `Array.prototype.sort` is stable, which
      this insertion sort reproduces. */
  function SortRecords(s: seq<Record>, field: string, dir: Dir): (r: seq<Record>)
    ensures multiset(r) == multiset(s)
    ensures Sorted(r, field, dir)
    ensures forall k :: KeyGroup(r, field, k) == KeyGroup(s, field, k)
    decreases |s|
  {
    if |s| == 0 then []
    else
      var rest := SortRecords(s[1..], field, dir);
      InsertStep(s[0], rest, s[1..], field, dir);
      assert s == [s[0]] + s[1..];
      Insert(s[0], rest, field, dir)
  }

  function Flip(dir: Dir): Dir {
    if dir == Asc then Desc else Asc
  }

  function Reverse(s: seq<Record>): (r: seq<Record>)
    ensures |r| == |s|
    ensures forall i :: 0 <= i < |s| ==> r[i] == s[|s| - 1 - i]
  {
    if |s| == 0 then [] else Reverse(s[1..]) + [s[0]]
  }

  /** Records with equal keys are equal: no two distinct records tie. */
  predicate KeyDetermines(s: seq<Record>, field: string) {
    forall x, y :: x in s && y in s && SortKey(x, field) == SortKey(y, field) ==> x == y
  }

  lemma InOrderAntisymmetric(dir: Dir, a: string, b: string)
    requires InOrder(dir, a, b) && InOrder(dir, b, a)
    ensures a == b
  {
    LexLessTotal(a, b);
  }

  lemma InOrderReflexive(dir: Dir, a: string)
    ensures InOrder(dir, a, a)
  {
    LexLessIrreflexive(a);
  }

  /** A list sorted one way, read backwards, is sorted the other way. */
  lemma ReverseSorted(s: seq<Record>, field: string, dir: Dir)
    requires Sorted(s, field, dir)
    ensures Sorted(Reverse(s), field, Flip(dir))
  {
    var r := Reverse(s);
    forall i, j | 0 <= i < j < |r| ensures InOrder(Flip(dir), SortKey(r[i], field), SortKey(r[j], field)) {
      assert InOrder(dir, SortKey(s[|s| - 1 - j], field), SortKey(s[|s| - 1 - i], field));
    }
  }

  lemma {:induction false} ReversePermutes(s: seq<Record>)
    ensures multiset(Reverse(s)) == multiset(s)
    decreases |s|
  {
    if |s| > 0 {
      ReversePermutes(s[1..]);
      assert s == [s[0]] + s[1..];
    }
  }

  lemma SortedTail(s: seq<Record>, field: string, dir: Dir)
    requires |s| > 0 && Sorted(s, field, dir)
    ensures Sorted(s[1..], field, dir)
  {
    forall p, q | 0 <= p < q < |s[1..]| ensures InOrder(dir, SortKey(s[1..][p], field), SortKey(s[1..][q], field)) {
      assert s[1..][p] == s[p + 1] && s[1..][q] == s[q + 1];
    }
  }

  /** The first record of a sorted list may stand before every record in it. */
  lemma SortedHeadFirst(s: seq<Record>, field: string, dir: Dir, x: Record)
    requires |s| > 0 && Sorted(s, field, dir) && x in s
    ensures InOrder(dir, SortKey(s[0], field), SortKey(x, field))
  {
    var i :| 0 <= i < |s| && s[i] == x;
    if i == 0 { InOrderReflexive(dir, SortKey(x, field)); }
  }

  lemma SortedHeadsEqual(a: seq<Record>, b: seq<Record>, field: string, dir: Dir)
    requires |a| > 0 && Sorted(a, field, dir) && Sorted(b, field, dir)
    requires multiset(a) == multiset(b)
    requires KeyDetermines(a, field)
    ensures |b| > 0 && a[0] == b[0]
  {
    assert a[0] in multiset(b);
    assert b[0] in multiset(a);
    SortedHeadFirst(b, field, dir, a[0]);
    SortedHeadFirst(a, field, dir, b[0]);
    InOrderAntisymmetric(dir, SortKey(a[0], field), SortKey(b[0], field));
  }

  lemma SameTails(a: seq<Record>, b: seq<Record>)
    requires |a| > 0 && |b| > 0 && a[0] == b[0] && multiset(a) == multiset(b)
    ensures multiset(a[1..]) == multiset(b[1..])
  {
    assert a == [a[0]] + a[1..] && b == [b[0]] + b[1..];
    assert multiset(a) == multiset{a[0]} + multiset(a[1..]);
    assert multiset(b) == multiset{a[0]} + multiset(b[1..]);
    assert multiset(a[1..]) == multiset(a) - multiset{a[0]};
    assert multiset(b[1..]) == multiset(b) - multiset{a[0]};
  }

  lemma KeyDeterminesSub(a: seq<Record>, b: seq<Record>, field: string)
    requires KeyDetermines(a, field)
    requires forall x :: x in b ==> x in a
    ensures KeyDetermines(b, field)
  {
  }

  /** When no two distinct records tie, there is only one sorted arrangement of
      a given collection of records. */
  lemma {:induction false} SortedUnique(a: seq<Record>, b: seq<Record>, field: string, dir: Dir)
    requires Sorted(a, field, dir) && Sorted(b, field, dir)
    requires multiset(a) == multiset(b)
    requires KeyDetermines(a, field)
    ensures a == b
    decreases |a|
  {
    if |a| == 0 {
      assert multiset(b) == multiset{};
    } else {
      SortedHeadsEqual(a, b, field, dir);
      SameTails(a, b);
      SortedTail(a, field, dir);
      SortedTail(b, field, dir);
      KeyDeterminesSub(a, a[1..], field);
      SortedUnique(a[1..], b[1..], field, dir);
      assert a == [a[0]] + a[1..] && b == [b[0]] + b[1..];
    }
  }

  /** Clicking the same column twice reverses the list when no two distinct
      records share a key. */
  lemma SecondClickReverses(s: seq<Record>, field: string, dir: Dir)
    requires KeyDetermines(s, field)
    ensures SortRecords(SortRecords(s, field, dir), field, Flip(dir)) == Reverse(SortRecords(s, field, dir))
  {
    var once := SortRecords(s, field, dir);
    var twice := SortRecords(once, field, Flip(dir));
    ReverseSorted(once, field, dir);
    ReversePermutes(once);
    assert forall x :: x in twice ==> x in multiset(twice);
    KeyDeterminesSub(s, twice, field);
    SortedUnique(twice, Reverse(once), field, Flip(dir));
  }

  lemma {:induction false} KeyGroupOfOneKey(s: seq<Record>, field: string, k: string)
    requires forall i :: 0 <= i < |s| ==> SortKey(s[i], field) == k
    ensures KeyGroup(s, field, k) == s
    decreases |s|
  {
    if |s| > 0 {
      KeyGroupOfOneKey(s[1..], field, k);
      assert s == [s[0]] + s[1..];
    }
  }

  /** Records that tie keep their order in either direction, so a second click
      on a column whose values all tie does not reverse the list. */
  lemma TiesKeepOrder(s: seq<Record>, field: string, dir: Dir, k: string)
    requires forall i :: 0 <= i < |s| ==> SortKey(s[i], field) == k
    ensures SortRecords(s, field, dir) == s
  {
    var r := SortRecords(s, field, dir);
    forall i | 0 <= i < |r| ensures SortKey(r[i], field) == k {
      assert r[i] in multiset(s);
    }
    KeyGroupOfOneKey(s, field, k);
    KeyGroupOfOneKey(r, field, k);
  }
}
