/** Lots, the two matching orders, and the stable sort that puts lots into them. */
module LotOrder {

  datatype Strategy = FIFO | HIFO

  /** What never changes about a lot. */
  datatype LotInfo = LotInfo(id: string, symbol: string, original: real, cost: real, time: int)

  datatype Lot = Lot(info: LotInfo, remaining: real)

  datatype Key = Key(rank: real, time: int)

  /** Oldest first, or highest cost first and then oldest. */
  function KeyOf(st: Strategy, lot: Lot): Key
  {
    Key(if st.FIFO? then 0.0 else -lot.info.cost, lot.info.time)
  }

  predicate Before(a: Key, b: Key) { a.rank < b.rank || (a.rank == b.rank && a.time < b.time) }

  predicate Precedes(st: Strategy, a: Lot, b: Lot) { Before(KeyOf(st, a), KeyOf(st, b)) }

  function Insert(st: Strategy, s: seq<Lot>, x: Lot): (r: seq<Lot>)
    ensures |r| == |s| + 1
  {
    if s == [] || !Precedes(st, x, s[|s| - 1]) then s + [x]
    else Insert(st, s[..|s| - 1], x) + [s[|s| - 1]]
  }

  /** The stable sort of Python's `sorted` with the strategy's key. */
  function Sort(st: Strategy, s: seq<Lot>): (r: seq<Lot>)
    ensures |r| == |s|
  {
    if s == [] then [] else Insert(st, Sort(st, s[..|s| - 1]), s[|s| - 1])
  }

  lemma {:induction false} SortAppend(st: Strategy, s: seq<Lot>, x: Lot)
    ensures Sort(st, s + [x]) == Insert(st, Sort(st, s), x)
  {
    assert (s + [x])[..|s|] == s;
  }

  ghost predicate Sorted(st: Strategy, s: seq<Lot>)
  {
    forall i, j :: 0 <= i < j < |s| ==> !Precedes(st, s[j], s[i])
  }

  /** The lots with key k, in the order they stand. */
  function WithKey(st: Strategy, s: seq<Lot>, k: Key): seq<Lot>
  {
    if s == [] then []
    else WithKey(st, s[..|s| - 1], k) + if KeyOf(st, s[|s| - 1]) == k then [s[|s| - 1]] else []
  }

  /** Same lots key by key, equal keys in the same order. */
  ghost predicate SameByKey(st: Strategy, s: seq<Lot>, t: seq<Lot>)
  {
    forall k :: WithKey(st, s, k) == WithKey(st, t, k)
  }

  lemma {:induction false} WithKeyConcat(st: Strategy, s: seq<Lot>, t: seq<Lot>, k: Key)
    ensures WithKey(st, s + t, k) == WithKey(st, s, k) + WithKey(st, t, k)
  {
    if t == [] {
      assert s + t == s;
    } else {
      WithKeyConcat(st, s, t[..|t| - 1], k);
      assert (s + t)[..|s + t| - 1] == s + t[..|t| - 1];
    }
  }

  function IfKey(st: Strategy, x: Lot, k: Key): seq<Lot> { if KeyOf(st, x) == k then [x] else [] }

  lemma {:induction false} WithKeyAppend(st: Strategy, s: seq<Lot>, x: Lot, k: Key)
    ensures WithKey(st, s + [x], k) == WithKey(st, s, k) + IfKey(st, x, k)
  {
    assert (s + [x])[..|s|] == s;
  }

  lemma {:induction false} InsertIsStable(st: Strategy, s: seq<Lot>, x: Lot, k: Key)
    ensures WithKey(st, Insert(st, s, x), k) == WithKey(st, s, k) + IfKey(st, x, k)
  {
    if s != [] && Precedes(st, x, s[|s| - 1]) {
      var front, last := s[..|s| - 1], s[|s| - 1];
      InsertIsStable(st, front, x, k);
      WithKeyAppend(st, Insert(st, front, x), last, k);
      OneIsEmpty(WithKey(st, front, k), IfKey(st, x, k), IfKey(st, last, k));
    } else {
      WithKeyAppend(st, s, x, k);
    }
  }

  lemma OneIsEmpty(a: seq<Lot>, b: seq<Lot>, c: seq<Lot>)
    requires b == [] || c == []
    ensures (a + b) + c == (a + c) + b
  {
  }

  lemma {:induction false} InsertIsSorted(st: Strategy, s: seq<Lot>, x: Lot)
    requires Sorted(st, s)
    ensures Sorted(st, Insert(st, s, x))
    ensures forall y :: y in Insert(st, s, x) ==> y in s || y == x
  {
    if s != [] && Precedes(st, x, s[|s| - 1]) {
      var front, last := s[..|s| - 1], s[|s| - 1];
      var r := Insert(st, front, x);
      InsertIsSorted(st, front, x);
      forall i | 0 <= i < |r| ensures !Precedes(st, last, r[i]) {
        assert r[i] in r;
        if r[i] != x {
          var j :| 0 <= j < |front| && front[j] == r[i];
          assert !Precedes(st, s[|s| - 1], s[j]);
        }
      }
      assert Insert(st, s, x) == r + [last];
    }
  }

  /** The result is in order and every group of equal keys keeps its order. */
  lemma {:induction false} SortIsStable(st: Strategy, s: seq<Lot>)
    ensures Sorted(st, Sort(st, s)) && SameByKey(st, Sort(st, s), s)
  {
    if s != [] {
      var front, x := s[..|s| - 1], s[|s| - 1];
      SortIsStable(st, front);
      InsertIsSorted(st, Sort(st, front), x);
      forall k ensures WithKey(st, Sort(st, s), k) == WithKey(st, s, k) {
        InsertIsStable(st, Sort(st, front), x, k);
      }
    }
  }

  lemma {:induction false} WithKeyMembers(st: Strategy, s: seq<Lot>, k: Key)
    ensures forall y :: y in WithKey(st, s, k) <==> y in s && KeyOf(st, y) == k
  {
    if s != [] {
      WithKeyMembers(st, s[..|s| - 1], k);
      assert s == s[..|s| - 1] + [s[|s| - 1]];
    }
  }

  lemma {:induction false} SortKeepsMembers(st: Strategy, s: seq<Lot>)
    ensures forall y :: y in Sort(st, s) <==> y in s
  {
    SortIsStable(st, s);
    forall y ensures y in Sort(st, s) <==> y in s {
      WithKeyMembers(st, s, KeyOf(st, y));
      WithKeyMembers(st, Sort(st, s), KeyOf(st, y));
      assert WithKey(st, Sort(st, s), KeyOf(st, y)) == WithKey(st, s, KeyOf(st, y));
    }
  }

  lemma LastIsGreatest(st: Strategy, s: seq<Lot>, y: Lot)
    requires Sorted(st, s) && y in s
    ensures !Precedes(st, s[|s| - 1], y)
  {
  }

  lemma {:induction false} SameLast(st: Strategy, s: seq<Lot>, t: seq<Lot>)
    requires Sorted(st, s) && Sorted(st, t) && SameByKey(st, s, t) && s != []
    ensures t != [] && t[|t| - 1] == s[|s| - 1]
  {
    var x := s[|s| - 1];
    var k := KeyOf(st, x);
    WithKeyMembers(st, s, k);
    WithKeyMembers(st, t, k);
    assert x in WithKey(st, s, k);
    assert x in t;
    var y := t[|t| - 1];
    WithKeyMembers(st, t, KeyOf(st, y));
    WithKeyMembers(st, s, KeyOf(st, y));
    assert y in WithKey(st, t, KeyOf(st, y));
    LastIsGreatest(st, s, y);
    LastIsGreatest(st, t, x);
    assert KeyOf(st, y) == k;
    var ws, wt := WithKey(st, s, k), WithKey(st, t, k);
    assert ws[|ws| - 1] == x && wt[|wt| - 1] == y;
  }

  /** Order and stability leave only one result, so `Sort` is the sort. */
  lemma {:induction false} StableSortIsUnique(st: Strategy, s: seq<Lot>, t: seq<Lot>)
    requires Sorted(st, s) && Sorted(st, t) && SameByKey(st, s, t)
    ensures s == t
  {
    if s == [] {
      if t != [] {
        SameLast(st, t, s);
      }
    } else {
      SameLast(st, s, t);
      var s', t', x := s[..|s| - 1], t[..|t| - 1], s[|s| - 1];
      forall k ensures WithKey(st, s', k) == WithKey(st, t', k) {
        assert WithKey(st, s, k) == WithKey(st, t, k);
        var tail := if KeyOf(st, x) == k then [x] else [];
        CancelTail(WithKey(st, s', k), WithKey(st, t', k), tail);
      }
      StableSortIsUnique(st, s', t');
      assert s == s' + [x] && t == t' + [x];
    }
  }

  lemma {:induction false} CancelTail(a: seq<Lot>, b: seq<Lot>, c: seq<Lot>)
    requires a + c == b + c
    ensures a == b
  {
    assert |a| == |b|;
    assert a == (a + c)[..|a|] && b == (b + c)[..|b|];
  }

  /** Sorting a list whose front was sorted before gives what sorting once would have. */
  lemma {:induction false} SortAbsorbsSort(st: Strategy, s: seq<Lot>, t: seq<Lot>)
    ensures Sort(st, Sort(st, s) + t) == Sort(st, s + t)
  {
    var a, b := Sort(st, s) + t, s + t;
    SortIsStable(st, s);
    SortIsStable(st, a);
    SortIsStable(st, b);
    forall k ensures WithKey(st, Sort(st, a), k) == WithKey(st, Sort(st, b), k) {
      WithKeyConcat(st, Sort(st, s), t, k);
      WithKeyConcat(st, s, t, k);
      assert WithKey(st, Sort(st, s), k) == WithKey(st, s, k);
    }
    StableSortIsUnique(st, Sort(st, a), Sort(st, b));
  }

  lemma {:induction false} SortIsIdempotent(st: Strategy, s: seq<Lot>)
    ensures Sort(st, Sort(st, s)) == Sort(st, s)
  {
    SortAbsorbsSort(st, s, []);
    assert Sort(st, s) + [] == Sort(st, s) && s + [] == s;
  }
}
