/** The ledger engine: lot objects whose remaining quantity is reduced in place, kept in
    lists that are re-sorted in place. */
module TaxLotEngine {
  import opened Options
  import opened LotOrder
  import opened TaxLots

  /** `_calculate_pnl` with its refusals. */
  function CalculatePnl(price: real, cost: real, quantity: real): Option<real>
  {
    if quantity <= 0.0 || price < 0.0 || cost < 0.0 then None else Some(Pnl(price, cost, quantity))
  }

  class TaxLot {
    const info: LotInfo
    var remaining: real

    constructor (info: LotInfo, remaining: real)
      ensures this.info == info && this.remaining == remaining
    {
      this.info, this.remaining := info, remaining;
    }

    function View(): Lot
      reads this
    {
      Lot(info, remaining)
    }
  }

  /** The values of a list of lot objects. */
  function Views(lots: seq<TaxLot>): (vs: seq<Lot>)
    reads lots
    ensures |vs| == |lots| && forall i :: 0 <= i < |lots| ==> vs[i] == lots[i].View()
  {
    seq(|lots|, i requires 0 <= i < |lots| reads lots => lots[i].View())
  }

  ghost predicate Distinct(lots: seq<TaxLot>)
  {
    forall i, j :: 0 <= i < j < |lots| ==> lots[i] != lots[j]
  }

  lemma DistinctAppend(lots: seq<TaxLot>, x: TaxLot)
    requires Distinct(lots) && x !in lots
    ensures Distinct(lots + [x])
  {
  }

  /** Insertion from the right, past every lot the new one precedes. */
  method InsertLot(st: Strategy, lots: seq<TaxLot>, x: TaxLot) returns (r: seq<TaxLot>)
    requires Distinct(lots) && x !in lots
    ensures Distinct(r) && (forall y :: y in r <==> y in lots || y == x)
    ensures Views(r) == Insert(st, Views(lots), x.View())
  {
    hide Precedes;
    if lots == [] || !Precedes(st, x.View(), lots[|lots| - 1].View()) {
      r := lots + [x];
      DistinctAppend(lots, x);
      ViewsAppend(lots, x);
    } else {
      var front, last := lots[..|lots| - 1], lots[|lots| - 1];
      assert lots == front + [last];
      ViewsAppend(front, last);
      var inner := InsertLot(st, front, x);
      assert last !in front && last !in inner;
      DistinctAppend(inner, last);
      ViewsAppend(inner, last);
      r := inner + [last];
      assert Views(lots)[..|lots| - 1] == Views(front);
    }
  }

  lemma ViewsAppend(lots: seq<TaxLot>, x: TaxLot)
    ensures Views(lots + [x]) == Views(lots) + [x.View()]
  {
  }

  lemma SortNothing(st: Strategy)
    ensures Sort(st, []) == []
  {
  }

  method SortLots(st: Strategy, lots: seq<TaxLot>) returns (r: seq<TaxLot>)
    requires Distinct(lots)
    ensures Distinct(r) && (forall y :: y in r <==> y in lots)
    ensures Views(r) == Sort(st, Views(lots))
  {
    hide Sort, Insert;
    r := [];
    SortNothing(st);
    for i := 0 to |lots|
      invariant Distinct(r) && (forall y :: y in r <==> y in lots[..i])
      invariant Views(r) == Sort(st, Views(lots[..i]))
    {
      assert lots[..i + 1] == lots[..i] + [lots[i]];
      ViewsAppend(lots[..i], lots[i]);
      SortAppend(st, Views(lots[..i]), lots[i].View());
      assert lots[i] !in lots[..i];
      r := InsertLot(st, r, lots[i]);
    }
    assert lots[..|lots|] == lots;
  }

  /** The takes plan: which lots give how much, and what stays unmet. */
  method PlanMatch(lots: seq<TaxLot>, want: real) returns (plan: seq<(TaxLot, real)>, unmet: real)
    requires Distinct(lots)
    ensures unmet == Unmet(Views(lots), want)
    ensures plan == Planned(lots, Takes(Views(lots), want))
  {
    hide Unmet, Takes, Planned, Views;
    plan, unmet := [], want;
    ghost var vs := Views(lots);
    NothingPlanned(lots, vs, want);
    for i := 0 to |lots|
      invariant unmet == Unmet(vs[..i], want)
      invariant plan == Planned(lots[..i], Takes(vs[..i], want))
    {
      if unmet <= EPSILON {
        RestIsUntouched(lots, vs, want, i);
        return;
      }
      var consumed := Min(unmet, lots[i].remaining);
      PlanStep(lots, vs, want, i, i + 1);
      if consumed > EPSILON {
        plan := plan + [(lots[i], consumed)];
        unmet := unmet - consumed;
      }
    }
    assert vs[..|lots|] == vs && lots[..|lots|] == lots;
  }

  lemma NothingPlanned(lots: seq<TaxLot>, vs: seq<Lot>, want: real)
    ensures Unmet(vs[..0], want) == want && Takes(vs[..0], want) == [] && Planned(lots[..0], []) == []
  {
  }

  /** The next lot gives all that is wanted or all it has, unless that is dust. */
  lemma {:induction false} PlanStep(lots: seq<TaxLot>, vs: seq<Lot>, want: real, i: nat, next: nat)
    requires i < |lots| == |vs| && next == i + 1 && Unmet(vs[..i], want) > EPSILON
    ensures var unmet, plan := Unmet(vs[..i], want), Planned(lots[..i], Takes(vs[..i], want));
      var given := Min(unmet, vs[i].remaining);
      && Unmet(vs[..next], want) == (if given > EPSILON then unmet - given else unmet)
      && Planned(lots[..next], Takes(vs[..next], want)) == plan + if given > EPSILON then [(lots[i], given)] else []
  {
    hide Planned;
    var front := vs[..i];
    assert vs[..next] == front + [vs[i]];
    TakesAppend(front, vs[i], want);
    PlannedAppend(lots[..i], Takes(front, want), lots[i], Taken(Unmet(front, want), vs[i]));
    assert lots[..next] == lots[..i] + [lots[i]];
  }

  lemma TakesAppend(front: seq<Lot>, lot: Lot, want: real)
    ensures Takes(front + [lot], want) == Takes(front, want) + [Taken(Unmet(front, want), lot)]
    ensures Unmet(front + [lot], want) == Unmet(front, want) - Taken(Unmet(front, want), lot)
  {
    assert (front + [lot])[..|front|] == front;
  }

  lemma PlannedAppend(lots: seq<TaxLot>, takes: seq<real>, lot: TaxLot, take: real)
    requires |takes| == |lots|
    ensures Planned(lots + [lot], takes + [take]) == Planned(lots, takes) + if take > 0.0 then [(lot, take)] else []
  {
    assert (lots + [lot])[..|lots|] == lots && (takes + [take])[..|takes|] == takes;
  }

  /** The lots of a plan with what they give. */
  ghost function Planned(lots: seq<TaxLot>, takes: seq<real>): seq<(TaxLot, real)>
    requires |takes| == |lots|
  {
    if lots == [] then []
    else
      var n := |lots| - 1;
      Planned(lots[..n], takes[..n]) + if takes[n] > 0.0 then [(lots[n], takes[n])] else []
  }

  lemma NothingTaken(vs: seq<Lot>, want: real)
    requires vs != [] && Unmet(vs[..|vs| - 1], want) <= EPSILON
    ensures Unmet(vs, want) == Unmet(vs[..|vs| - 1], want)
    ensures Takes(vs, want) == Takes(vs[..|vs| - 1], want) + [0.0]
  {
  }

  lemma {:induction false} PlannedWithout(lots: seq<TaxLot>, takes: seq<real>)
    requires lots != [] && |takes| == |lots| - 1
    ensures Planned(lots, takes + [0.0]) == Planned(lots[..|lots| - 1], takes)
  {
    assert (takes + [0.0])[..|takes|] == takes;
  }

  /** Once nothing is left to sell the remaining lots change neither plan nor rest. */
  lemma {:induction false} RestIsUntouched(lots: seq<TaxLot>, vs: seq<Lot>, want: real, i: nat)
    requires i <= |lots| == |vs| && Unmet(vs[..i], want) <= EPSILON
    ensures Unmet(vs, want) == Unmet(vs[..i], want)
    ensures Planned(lots, Takes(vs, want)) == Planned(lots[..i], Takes(vs[..i], want))
  {
    hide Unmet, Takes, Planned;
    if i == |lots| {
      assert vs[..i] == vs && lots[..i] == lots;
    } else {
      var n := |lots| - 1;
      assert vs[..n][..i] == vs[..i] && lots[..n][..i] == lots[..i];
      RestIsUntouched(lots[..n], vs[..n], want, i);
      NothingTaken(vs, want);
      PlannedWithout(lots, Takes(vs[..n], want));
    }
  }

  // ---------------------------------------------------------------- committing a plan

  ghost predicate IsEntry(lots: seq<TaxLot>, takes: seq<real>, e: (TaxLot, real), i: nat)
    requires |takes| == |lots|
  {
    i < |lots| && e == (lots[i], takes[i]) && takes[i] > 0.0
  }

  /** Each entry of the plan is a lot with its positive take. */
  lemma {:induction false} EntryComesFromLot(lots: seq<TaxLot>, takes: seq<real>, j: nat) returns (i: nat)
    requires |takes| == |lots| && j < |Planned(lots, takes)|
    ensures IsEntry(lots, takes, Planned(lots, takes)[j], i)
  {
    var n := |lots| - 1;
    if j < |Planned(lots[..n], takes[..n])| {
      i := EntryComesFromLot(lots[..n], takes[..n], j);
    } else {
      i := n;
    }
  }

  lemma {:induction false} TouchedLotIsPlanned(lots: seq<TaxLot>, takes: seq<real>, i: nat)
    requires |takes| == |lots| && i < |lots| && takes[i] > 0.0
    ensures (lots[i], takes[i]) in Planned(lots, takes)
  {
    var n := |lots| - 1;
    if i < n {
      TouchedLotIsPlanned(lots[..n], takes[..n], i);
    }
  }

  lemma {:induction false} PlannedOnce(lots: seq<TaxLot>, takes: seq<real>)
    requires |takes| == |lots| && Distinct(lots)
    ensures forall j, k :: 0 <= j < k < |Planned(lots, takes)| ==>
      Planned(lots, takes)[j].0 != Planned(lots, takes)[k].0
  {
    if lots != [] {
      var n := |lots| - 1;
      PlannedOnce(lots[..n], takes[..n]);
      var front := Planned(lots[..n], takes[..n]);
      forall j | 0 <= j < |front| ensures front[j].0 != lots[n] {
        var i := EntryComesFromLot(lots[..n], takes[..n], j);
      }
    }
  }

  /** The plan holds each touched lot once, with its take. */
  lemma {:induction false} PlannedIsFaithful(lots: seq<TaxLot>, takes: seq<real>)
    requires |takes| == |lots| && Distinct(lots)
    ensures forall e :: e in Planned(lots, takes) ==> exists i :: IsEntry(lots, takes, e, i)
    ensures forall i :: 0 <= i < |lots| && takes[i] > 0.0 ==> (lots[i], takes[i]) in Planned(lots, takes)
    ensures forall j, k :: 0 <= j < k < |Planned(lots, takes)| ==>
      Planned(lots, takes)[j].0 != Planned(lots, takes)[k].0
  {
    hide Planned;
    var p := Planned(lots, takes);
    forall e | e in p ensures exists i :: IsEntry(lots, takes, e, i) {
      var j :| 0 <= j < |p| && p[j] == e;
      var i := EntryComesFromLot(lots, takes, j);
    }
    forall i | 0 <= i < |lots| && takes[i] > 0.0 ensures (lots[i], takes[i]) in p {
      TouchedLotIsPlanned(lots, takes, i);
    }
    PlannedOnce(lots, takes);
  }

  function RecordsOf(t: Trade, plan: seq<(TaxLot, real)>): seq<Gain>
  {
    if plan == [] then []
    else
      var (lot, quantity) := plan[|plan| - 1];
      RecordsOf(t, plan[..|plan| - 1]) + [GainOf(t, Lot(lot.info, 0.0), quantity)]
  }

  lemma {:induction false} RecordsAreGains(t: Trade, lots: seq<TaxLot>, vs: seq<Lot>, takes: seq<real>)
    requires |takes| == |lots| == |vs| && forall i :: 0 <= i < |lots| ==> vs[i].info == lots[i].info
    ensures RecordsOf(t, Planned(lots, takes)) == GainsOf(t, vs, takes)
  {
    hide Pnl;
    if lots != [] {
      var n := |lots| - 1;
      RecordsAreGains(t, lots[..n], vs[..n], takes[..n]);
      var front := Planned(lots[..n], takes[..n]);
      if takes[n] > 0.0 {
        assert (front + [(lots[n], takes[n])])[..|front|] == front;
      } else {
        assert front + [] == front;
      }
    }
  }

  ghost predicate InPlan(plan: seq<(TaxLot, real)>, k: nat, lot: TaxLot)
    requires k <= |plan|
  {
    exists j :: 0 <= j < k && plan[j].0 == lot
  }

  /** Reduces each planned lot in place; the records cannot fail. */
  method CommitPlan(t: Trade, lots: seq<TaxLot>, ghost takes: seq<real>, plan: seq<(TaxLot, real)>)
    returns (gains: seq<Gain>)
    requires |takes| == |lots| && Distinct(lots) && plan == Planned(lots, takes)
    requires t.price >= 0.0 && forall i :: 0 <= i < |lots| ==> lots[i].info.cost >= 0.0 && takes[i] >= 0.0
    modifies set l | l in lots
    ensures gains == GainsOf(t, old(Views(lots)), takes)
    ensures forall i :: 0 <= i < |lots| ==> lots[i].remaining == old(lots[i].remaining) - takes[i]
  {
    hide Planned, GainsOf;
    PlannedIsFaithful(lots, takes);
    gains := [];
    for k := 0 to |plan|
      invariant gains == RecordsOf(t, plan[..k])
      invariant forall i :: 0 <= i < |lots| ==>
        lots[i].remaining == old(lots[i].remaining) - (if InPlan(plan, k, lots[i]) then takes[i] else 0.0)
    {
      var (lot, quantity) := plan[k];
      assert plan[k] in plan;
      ghost var m :| IsEntry(lots, takes, plan[k], m);
      var pnl := CalculatePnl(t.price, lot.info.cost, quantity);
      assert pnl.Some?;
      gains := gains + [Gain(t.id, t.symbol, quantity, t.price, lot.info.id, lot.info.cost, pnl.value,
                             lot.info.time, t.time)];
      assert plan[..k + 1][..k] == plan[..k];
      lot.remaining := lot.remaining - quantity;
    }
    assert plan[..|plan|] == plan;
    RecordsAreGains(t, lots, old(Views(lots)), takes);
    forall i | 0 <= i < |lots| ensures InPlan(plan, |plan|, lots[i]) <==> takes[i] > 0.0 {
      if takes[i] > 0.0 {
        assert (lots[i], takes[i]) in plan;
      }
      if InPlan(plan, |plan|, lots[i]) {
        var j :| 0 <= j < |plan| && plan[j].0 == lots[i];
        assert plan[j] in plan;
        var m :| IsEntry(lots, takes, plan[j], m);
      }
    }
  }

  /** Keeps the lots with more than dust left. */
  method DropSettled(lots: seq<TaxLot>) returns (kept: seq<TaxLot>)
    requires Distinct(lots)
    ensures Distinct(kept) && forall y :: y in kept ==> y in lots
    ensures Views(kept) == Open(Views(lots))
  {
    hide Open;
    kept := [];
    ghost var vs := Views(lots);
    NothingOpen(vs);
    for i := 0 to |lots|
      invariant Distinct(kept) && forall y :: y in kept ==> y in lots[..i]
      invariant Views(kept) == Open(vs[..i])
    {
      OpenStep(vs, i, i + 1);
      if lots[i].remaining > EPSILON {
        assert lots[i] !in lots[..i];
        DistinctAppend(kept, lots[i]);
        ViewsAppend(kept, lots[i]);
        kept := kept + [lots[i]];
      }
    }
    assert lots[..|lots|] == lots && vs[..|vs|] == vs;
  }

  lemma NothingOpen(vs: seq<Lot>)
    ensures Open(vs[..0]) == []
  {
  }

  lemma OpenStep(vs: seq<Lot>, i: nat, next: nat)
    requires i < |vs| && next == i + 1
    ensures Open(vs[..next]) == Open(vs[..i]) + if vs[i].remaining > EPSILON then [vs[i]] else []
  {
    assert vs[..next][..i] == vs[..i];
  }

  function Open(lots: seq<Lot>): seq<Lot>
  {
    if lots == [] then []
    else Open(lots[..|lots| - 1]) + if lots[|lots| - 1].remaining > EPSILON then [lots[|lots| - 1]] else []
  }

  lemma {:induction false} OpenIsSettled(before: seq<Lot>, takes: seq<real>, after: seq<Lot>)
    requires |before| == |takes| == |after|
    requires forall i :: 0 <= i < |before| ==> after[i] == Left(before[i], takes[i])
    ensures Open(after) == Settle(before, takes)
  {
    if before != [] {
      var n := |before| - 1;
      OpenIsSettled(before[..n], takes[..n], after[..n]);
    }
  }

  /** Plans a sell in full, then commits: a sell that is not covered reduces no lot, though
      it leaves the list sorted. */
  method MatchSell(st: Strategy, lots: seq<TaxLot>, t: Trade) returns (r: Result, kept: seq<TaxLot>)
    requires Distinct(lots) && lots != [] && Sound(Views(lots)) && t.action.Sell? && Complaint(t).Gains?
    modifies set l | l in lots
    ensures Distinct(kept) && forall l :: l in kept ==> l in lots
    ensures (r, Views(kept)) == Handle(st, old(Views(lots)), t)
    ensures r.Failed? ==> forall l :: l in lots ==> l.remaining == old(l.remaining)
  {
    hide Sort, Unmet, Takes, GainsOf, Settle;
    var sorted := SortLots(st, lots);
    var plan, unmet := PlanMatch(sorted, t.quantity);
    if unmet > EPSILON {
      return Failed(Oversold(unmet)), sorted;
    }
    ghost var vs := Views(sorted);
    ghost var takes := Takes(vs, t.quantity);
    SoundWhenSorted(st, Views(lots));
    forall i | 0 <= i < |sorted| ensures takes[i] >= 0.0 && sorted[i].info.cost >= 0.0 {
      NeverOverConsumed(vs, t.quantity, i);
      assert SoundLot(vs[i]);
    }
    assert (set l | l in sorted) == (set l | l in lots);
    var gains := CommitPlan(t, sorted, takes, plan);
    OpenIsSettled(vs, takes, Views(sorted));
    kept := DropSettled(sorted);
    r := Gains(gains);
  }

  twostate lemma SameViews(lots: seq<TaxLot>)
    requires forall l :: l in lots ==> l.remaining == old(l.remaining)
    ensures Views(lots) == old(Views(lots))
  {
  }

  // ---------------------------------------------------------------- the engine

  lemma {:induction false} HistoryExtends(st: Strategy, h: seq<Trade>, t: Trade, i: nat)
    requires i <= |h|
    ensures LedgerAt(st, h + [t], i) == LedgerAt(st, h, i)
    ensures GainsAt(st, h + [t], i) == GainsAt(st, h, i)
  {
    hide Step;
    if i > 0 {
      HistoryExtends(st, h, t, i - 1);
    }
  }

  lemma {:induction false} NextState(st: Strategy, h: seq<Trade>, t: Trade)
    ensures var (r, l) := Step(st, LedgerAt(st, h, |h|), t);
      && LedgerAt(st, h + [t], |h| + 1) == l && ResultAt(st, h + [t], |h|) == r
      && GainsAt(st, h + [t], |h| + 1) == GainsAt(st, h, |h|) + if r.Gains? then r.records else []
  {
    hide Step;
    HistoryExtends(st, h, t, |h|);
  }

  class Engine {
    const strategy: Strategy
    var openLots: map<string, seq<TaxLot>>
    var realizedGains: seq<Gain>
    ghost var history: seq<Trade>  // every trade processed, accepted or not

    ghost function Objects(): set<TaxLot>
      reads this`openLots
    {
      set s, l | s in openLots && l in openLots[s] :: l
    }

    ghost function SymbolView(s: string): seq<Lot>
      requires s in openLots
      reads this`openLots, Objects()
    {
      assert forall l :: l in openLots[s] ==> l in Objects();
      Views(openLots[s])
    }

    ghost function View(): Ledger
      reads this`openLots, Objects()
    {
      map s | s in openLots :: SymbolView(s)
    }

    /** A lot stands once, and only in the list of its own symbol. */
    ghost predicate Tidy()
      reads this`openLots
    {
      forall s :: s in openLots ==> Distinct(openLots[s]) && forall l :: l in openLots[s] ==> l.info.symbol == s
    }

    ghost predicate Valid()
      reads this, Objects()
    {
      && Tidy() && View() == LedgerAt(strategy, history, |history|)
      && realizedGains == GainsAt(strategy, history, |history|)
    }

    constructor (strategy: Strategy)
      ensures Valid() && this.strategy == strategy && history == []
    {
      this.strategy := strategy;
      openLots, realizedGains, history := map[], [], [];
    }

    method ProcessTrade(t: Trade) returns (r: Result)
      requires Valid()
      modifies this, Objects()
      ensures Valid() && fresh(Objects() - old(Objects()))
      ensures history == old(history) + [t] && r == ResultAt(strategy, history, |old(history)|)
      ensures realizedGains == old(realizedGains) + if r.Gains? then r.records else []
    {
      hide LedgerAt, GainsAt, ResultAt, Step, Tidy, SoundLedger, View, SymbolView;
      ghost var before := View();
      var complaint := Complaint(t);
      if complaint.Failed? {
        r := complaint;
        RefusalStep(strategy, before, t);
      } else if t.action.Buy? {
        HandleBuy(t);
        r := Gains([]);
      } else {
        EveryLedgerIsSound(strategy, history, |history|);
        r := HandleSell(t);
      }
      NextState(strategy, history, t);
      history := history + [t];
    }

    method HandleBuy(t: Trade)
      requires Tidy() && t.action.Buy? && Complaint(t).Gains?
      modifies this`openLots
      ensures Tidy() && fresh(Objects() - old(Objects()))
      ensures (Gains([]), View()) == Step(strategy, old(View()), t)
    {
      hide Tidy, View, SymbolView, LotsOf, Step, Complaint;
      BuyStep(strategy, View(), t);
      var lot := new TaxLot(LotInfo(t.id, t.symbol, t.quantity, t.price, t.time), t.quantity);
      var lots := if t.symbol in openLots then openLots[t.symbol] else [];
      openLots := openLots[t.symbol := lots + [lot]];
      OnlyAppended(t.symbol, lot);
    }

    /** A new lot at the end of its symbol's list. */
    twostate lemma OnlyAppended(symbol: string, new lot: TaxLot)
      requires old(Tidy()) && fresh(lot) && lot.info.symbol == symbol
      requires var lots := if symbol in old(openLots) then old(openLots)[symbol] else [];
        openLots == old(openLots)[symbol := lots + [lot]]
      requires forall l :: l in old(Objects()) ==> l.remaining == old(l.remaining)
      ensures Tidy() && fresh(Objects() - old(Objects()))
      ensures View() == old(View())[symbol := LotsOf(old(View()), symbol) + [lot.View()]]
    {
      var lots := if symbol in old(openLots) then old(openLots)[symbol] else [];
      assert forall l :: l in lots ==> l in old(Objects());
      DistinctAppend(lots, lot);
      ViewsAppend(lots, lot);
      SameViews(lots);
      OnlyChanged(symbol);
    }

    /** A ledger whose other lists and lots stand as before is the old one, updated. */
    twostate lemma {:induction false} OnlyChanged(symbol: string)
      requires old(Tidy()) && Tidy() && symbol in openLots
      requires openLots.Keys == old(openLots).Keys + {symbol}
      requires forall s :: s in old(openLots) && s != symbol ==> openLots[s] == old(openLots)[s]
      requires forall l :: l in old(Objects()) && l.info.symbol != symbol ==> l.remaining == old(l.remaining)
      ensures View() == old(View())[symbol := Views(openLots[symbol])]
    {
      forall s | s in old(openLots) && s != symbol ensures SymbolView(s) == old(SymbolView(s)) {
        forall l | l in openLots[s] ensures l.remaining == old(l.remaining) {
          assert l in old(Objects());
        }
        SameViews(openLots[s]);
      }
    }

    /** A symbol's list replaced by some of its own lots. */
    twostate lemma OnlyReplaced(symbol: string)
      requires old(Tidy()) && symbol in old(openLots) && symbol in openLots
      requires openLots == old(openLots)[symbol := openLots[symbol]]
      requires Distinct(openLots[symbol]) && forall l :: l in openLots[symbol] ==> l in old(openLots)[symbol]
      requires forall l :: l in old(Objects()) && l.info.symbol != symbol ==> l.remaining == old(l.remaining)
      ensures Tidy() && Objects() <= old(Objects())
      ensures View() == old(View())[symbol := Views(openLots[symbol])]
    {
      OnlyChanged(symbol);
    }

    lemma ListIsTidy(symbol: string)
      requires Tidy() && SoundLedger(View())
      ensures symbol !in openLots ==> LotsOf(View(), symbol) == []
      ensures symbol in openLots ==> LotsOf(View(), symbol) == Views(openLots[symbol])
      ensures symbol in openLots ==> Distinct(openLots[symbol]) && Sound(Views(openLots[symbol]))
      ensures symbol in openLots ==> forall l :: l in openLots[symbol] ==> l.info.symbol == symbol && l in Objects()
    {
      assert symbol in openLots ==> LotsOf(View(), symbol) == Views(openLots[symbol]);
    }

    method HandleSell(t: Trade) returns (r: Result)
      requires Tidy() && t.action.Sell? && Complaint(t).Gains? && SoundLedger(View())
      modifies this`openLots, this`realizedGains, Objects()
      ensures Tidy() && Objects() <= old(Objects())
      ensures (r, View()) == Step(strategy, old(View()), t)
      ensures realizedGains == old(realizedGains) + if r.Gains? then r.records else []
    {
      hide Handle, Step, Tidy, SoundLedger, Sound, Distinct, View, SymbolView, LotsOf;
      ghost var before := View();
      ListIsTidy(t.symbol);
      if t.symbol !in openLots || openLots[t.symbol] == [] {
        NoLotsStep(strategy, before, t);
        return Failed(NoOpenLots);
      }
      SellStep(strategy, before, t);
      var lots := openLots[t.symbol];
      var kept;
      r, kept := MatchSell(strategy, lots, t);
      openLots := openLots[t.symbol := kept];
      OnlyReplaced(t.symbol);
      if r.Gains? {
        realizedGains := realizedGains + r.records;
      }
    }
  }

  lemma BuyStep(st: Strategy, l: Ledger, t: Trade)
    requires t.action.Buy? && Complaint(t).Gains?
    ensures Step(st, l, t) == (Gains([]), l[t.symbol := LotsOf(l, t.symbol) + [NewLot(t)]])
  {
  }

  lemma NoLotsStep(st: Strategy, l: Ledger, t: Trade)
    requires t.action.Sell? && Complaint(t).Gains? && LotsOf(l, t.symbol) == []
    ensures Step(st, l, t) == (Failed(NoOpenLots), l)
  {
  }

  lemma SellStep(st: Strategy, l: Ledger, t: Trade)
    requires t.action.Sell? && Complaint(t).Gains? && LotsOf(l, t.symbol) != []
    ensures var (r, lots) := Handle(st, LotsOf(l, t.symbol), t);
      Step(st, l, t) == (r, l[t.symbol := lots])
  {
  }

  lemma RefusalStep(st: Strategy, l: Ledger, t: Trade)
    requires Complaint(t).Failed?
    ensures Step(st, l, t) == (Complaint(t), l)
  {
  }
}
