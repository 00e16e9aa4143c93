/** Where lots and gain records come from: every one of them names a buy of the history, and
    a sell draws on buys in the strategy's order. */
module TaxTrail {
  import opened LotOrder
  import opened TaxLots

  /** Trade b of the history was accepted and bought what the lot says. */
  ghost predicate BoughtAt(st: Strategy, h: seq<Trade>, b: nat, info: LotInfo)
    requires b < |h|
  {
    && h[b].action.Buy? && ResultAt(st, h, b).Gains?
    && info.id == h[b].id && info.symbol == h[b].symbol
    && info.original == h[b].quantity && info.cost == h[b].price && info.time == h[b].time
  }

  ghost predicate BoughtBefore(st: Strategy, h: seq<Trade>, i: nat, info: LotInfo)
    requires i <= |h|
  {
    exists b: nat :: b < i && BoughtAt(st, h, b, info)
  }

  lemma {:induction false} SettledAt(lots: seq<Lot>, takes: seq<real>, x: Lot) returns (k: nat)
    requires |takes| == |lots| && x in Settle(lots, takes)
    ensures k < |lots| && x == lots[k].(remaining := lots[k].remaining - takes[k])
  {
    var n := |lots| - 1;
    if x in Settle(lots[..n], takes[..n]) {
      k := SettledAt(lots[..n], takes[..n], x);
    } else {
      k := n;
    }
  }

  lemma {:induction false} GainAt(t: Trade, lots: seq<Lot>, takes: seq<real>, g: Gain) returns (k: nat)
    requires |takes| == |lots| && g in GainsOf(t, lots, takes)
    ensures k < |lots| && takes[k] > 0.0 && g == GainOf(t, lots[k], takes[k])
  {
    var n := |lots| - 1;
    if g in GainsOf(t, lots[..n], takes[..n]) {
      k := GainAt(t, lots[..n], takes[..n], g);
    } else {
      k := n;
    }
  }

  lemma {:induction false} GainIsRecorded(t: Trade, lots: seq<Lot>, takes: seq<real>, k: nat)
    requires |takes| == |lots| && k < |lots| && takes[k] > 0.0
    ensures GainOf(t, lots[k], takes[k]) in GainsOf(t, lots, takes)
  {
    if k < |lots| - 1 {
      GainIsRecorded(t, lots[..|lots| - 1], takes[..|lots| - 1], k);
    }
  }

  /** After a trade, a lot is the one just bought or a lot from before. */
  lemma {:induction false} LotsStay(st: Strategy, lots: seq<Lot>, t: Trade, x: Lot)
    requires x in Handle(st, lots, t).1
    ensures (t.action.Buy? && x.info == LotInfo(t.id, t.symbol, t.quantity, t.price, t.time))
      || exists y :: y in lots && y.info == x.info
  {
    hide Sort, Takes, Unmet, GainsOf, Settle;
    SortKeepsMembers(st, lots);
    if t.action.Sell? && lots != [] && Handle(st, lots, t).0.Gains? {
      var sorted := Sort(st, lots);
      var k := SettledAt(sorted, Takes(sorted, t.quantity), x);
      assert sorted[k] in lots;
    }
  }

  lemma {:induction false} BoughtEarlier(st: Strategy, h: seq<Trade>, i: nat, next: nat, info: LotInfo)
    requires i <= next <= |h| && BoughtBefore(st, h, i, info)
    ensures BoughtBefore(st, h, next, info)
  {
  }

  /** Every open lot carries the id, symbol, quantity, price and time of an earlier accepted buy. */
  lemma {:induction false} LotsAreBuys(st: Strategy, h: seq<Trade>, i: nat, symbol: string, x: Lot)
    requires i <= |h| && x in LotsOf(LedgerAt(st, h, i), symbol)
    ensures x.info.symbol == symbol
    ensures exists b: nat :: b < i && BoughtAt(st, h, b, x.info)
  {
    hide Handle;
    assert i > 0;
    var l, t := LedgerAt(st, h, i - 1), h[i - 1];
    assert LedgerAt(st, h, i) == Step(st, l, t).1;
    if x in LotsOf(l, symbol) {
      LotsAreBuys(st, h, i - 1, symbol, x);
      assert BoughtBefore(st, h, i - 1, x.info);
      BoughtEarlier(st, h, i - 1, i, x.info);
    } else {
      LotsStay(st, LotsOf(l, symbol), t, x);
      if y :| y in LotsOf(l, symbol) && y.info == x.info {
        LotsAreBuys(st, h, i - 1, symbol, y);
        assert BoughtBefore(st, h, i - 1, x.info);
        BoughtEarlier(st, h, i - 1, i, x.info);
      } else {
        assert ResultAt(st, h, i - 1).Gains? by { BuySucceeds(st, LotsOf(l, symbol), t); }
        assert BoughtAt(st, h, i - 1, x.info);
      }
    }
  }

  lemma BuySucceeds(st: Strategy, lots: seq<Lot>, t: Trade)
    requires t.action.Buy?
    ensures Handle(st, lots, t).0 == Gains([])
  {
  }

  // ---------------------------------------------------------------- gain records

  /** The record names the lot it draws on and the sell, with the gain between their prices. */
  predicate Draws(t: Trade, info: LotInfo, g: Gain)
  {
    && g.lotId == info.id && g.cost == info.cost && g.acquired == info.time
    && g.sellId == t.id && g.symbol == t.symbol && g.sellPrice == t.price && g.disposed == t.time
    && g.quantity > 0.0 && g.pnl == (t.price - info.cost) * g.quantity
  }

  lemma DrawsOf(t: Trade, lot: Lot, quantity: real)
    requires quantity > 0.0
    ensures Draws(t, lot.info, GainOf(t, lot, quantity))
  {
  }

  lemma {:induction false} GainsAreOfSells(st: Strategy, h: seq<Trade>, i: nat)
    requires i < |h| && ResultAt(st, h, i).Gains? && ResultAt(st, h, i).records != []
    ensures var lots := LotsOf(LedgerAt(st, h, i), h[i].symbol);
      && h[i].action.Sell? && lots != [] && Complaint(h[i]).Gains?
      && Unmet(Sort(st, lots), h[i].quantity) <= EPSILON
      && ResultAt(st, h, i).records == GainsOf(h[i], Sort(st, lots), Takes(Sort(st, lots), h[i].quantity))
      && LotsOf(LedgerAt(st, h, i + 1), h[i].symbol)
         == Settle(Sort(st, lots), Takes(Sort(st, lots), h[i].quantity))
  {
    hide Sort, Takes, Unmet, GainsOf, Settle;
    assert LedgerAt(st, h, i + 1) == Step(st, LedgerAt(st, h, i), h[i]).1;
  }

  /** Every gain record names an accepted buy of the symbol made before the sell, and the sell. */
  lemma {:induction false} GainsAreBuysAndSells(st: Strategy, h: seq<Trade>, i: nat, g: Gain)
    requires i < |h| && ResultAt(st, h, i).Gains? && g in ResultAt(st, h, i).records
    ensures h[i].action.Sell?
    ensures g.sellId == h[i].id && g.sellPrice == h[i].price && g.disposed == h[i].time
    ensures exists b: nat ::
      && b < i && h[b].action.Buy? && ResultAt(st, h, b).Gains?
      && h[b].symbol == h[i].symbol == g.symbol
      && g.lotId == h[b].id && g.cost == h[b].price && g.acquired == h[b].time
      && 0.0 < g.quantity <= h[b].quantity && g.pnl == (h[i].price - h[b].price) * g.quantity
  {
    hide Sort, Takes, Unmet, GainsOf, Settle, Step, Sound;
    GainsAreOfSells(st, h, i);
    var l, t := LedgerAt(st, h, i), h[i];
    var lots := LotsOf(l, t.symbol);
    var sorted := Sort(st, lots);
    var takes := Takes(sorted, t.quantity);
    var k := GainAt(t, sorted, takes, g);
    DrawsOf(t, sorted[k], takes[k]);
    SortKeepsMembers(st, lots);
    assert sorted[k] in lots;
    LotsAreBuys(st, h, i, t.symbol, sorted[k]);
    EveryLedgerIsSound(st, h, i);
    assert Sound(lots);
    SoundWhenSorted(st, lots);
    NeverOverConsumed(sorted, t.quantity, k);
    assert SoundLot(sorted[k]) by { SoundAt(sorted, k); }
    var b: nat :| b < i && BoughtAt(st, h, b, sorted[k].info);
    assert h[b].action.Buy?;
  }

  lemma SoundAt(lots: seq<Lot>, k: nat)
    requires Sound(lots) && k < |lots|
    ensures SoundLot(lots[k])
  {
  }

  // ---------------------------------------------------------------- which buys a sell draws on

  /** Which of two buys goes first: the older, or the costlier and then the older. */
  predicate GoesFirst(st: Strategy, cost: real, time: int, otherCost: real, otherTime: int)
  {
    if st.FIFO? then time < otherTime else cost > otherCost || (cost == otherCost && time < otherTime)
  }

  lemma {:induction false} FirstIsTouchedFirst(st: Strategy, lots: seq<Lot>, want: real, i: nat, j: nat)
    requires Sound(lots) && Sorted(st, lots) && want >= 0.0 && i < |lots| && j < |lots|
    requires Takes(lots, want)[j] > 0.0 && lots[i].remaining > EPSILON
    requires GoesFirst(st, lots[i].info.cost, lots[i].info.time, lots[j].info.cost, lots[j].info.time)
    ensures Takes(lots, want)[i] == lots[i].remaining
  {
    if j <= i {
      assert Precedes(st, lots[i], lots[j]);
      assert false;
    }
    EarlierLotsAreExhausted(lots, want, i, j);
  }

  /** A sell draws on a buy only when every open lot that goes first, above dust, is sold in
      full by the same sell. */
  lemma {:induction false} FirstLotsAreSoldInFull(st: Strategy, h: seq<Trade>, i: nat, g: Gain, x: Lot)
    returns (d: Gain)
    requires i < |h| && ResultAt(st, h, i).Gains? && g in ResultAt(st, h, i).records
    requires x in LotsOf(LedgerAt(st, h, i), h[i].symbol) && x.remaining > EPSILON
    requires GoesFirst(st, x.info.cost, x.info.time, g.cost, g.acquired)
    ensures d in ResultAt(st, h, i).records && d.quantity == x.remaining
    ensures d.lotId == x.info.id && d.cost == x.info.cost && d.acquired == x.info.time
  {
    hide Sort, Takes, Unmet, GainsOf, Settle, Step, Sound, Sorted;
    GainsAreOfSells(st, h, i);
    var t := h[i];
    var lots := LotsOf(LedgerAt(st, h, i), t.symbol);
    var sorted := Sort(st, lots);
    var takes := Takes(sorted, t.quantity);
    EveryLedgerIsSound(st, h, i);
    assert Sound(lots);
    SoundWhenSorted(st, lots);
    var j := GainAt(t, sorted, takes, g);
    SortKeepsMembers(st, lots);
    var k: nat :| k < |sorted| && sorted[k] == x;
    FirstIsTouchedFirst(st, sorted, t.quantity, k, j);
    d := GainOf(t, sorted[k], takes[k]);
    GainIsRecorded(t, sorted, takes, k);
  }

  // ---------------------------------------------------------------- what a trade does to the ledger

  /** An accepted buy adds its lot at the end and leaves the others as they were. */
  lemma {:induction false} BuyAddsItsLot(st: Strategy, h: seq<Trade>, i: nat, next: nat)
    requires i < |h| && next == i + 1 && h[i].action.Buy? && ResultAt(st, h, i).Gains?
    ensures var t := h[i];
      && ResultAt(st, h, i).records == []
      && LotsOf(LedgerAt(st, h, next), t.symbol)
         == LotsOf(LedgerAt(st, h, i), t.symbol)
            + [Lot(LotInfo(t.id, t.symbol, t.quantity, t.price, t.time), t.quantity)]
  {
    assert LedgerAt(st, h, next) == Step(st, LedgerAt(st, h, i), h[i]).1;
  }

  /** One of the records draws this quantity on the lot. */
  ghost predicate DrawnBy(t: Trade, records: seq<Gain>, info: LotInfo, quantity: real)
  {
    exists g :: g in records && Draws(t, info, g) && g.quantity == quantity
  }

  /** A lot open after a sell was open before it, and is short of exactly what one record of
      the sell draws on it, or of nothing. */
  lemma {:induction false} SellReducesItsLots(st: Strategy, h: seq<Trade>, i: nat, next: nat, x: Lot)
    requires i < |h| && next == i + 1 && ResultAt(st, h, i).Gains? && ResultAt(st, h, i).records != []
    requires x in LotsOf(LedgerAt(st, h, next), h[i].symbol)
    ensures x.remaining > EPSILON
    ensures exists y ::
      && y in LotsOf(LedgerAt(st, h, i), h[i].symbol) && y.info == x.info
      && (y == x || DrawnBy(h[i], ResultAt(st, h, i).records, x.info, y.remaining - x.remaining))
  {
    hide Sort, Takes, Unmet, GainsOf, Settle, Step, Sound, Sorted, LedgerAt, ResultAt;
    GainsAreOfSells(st, h, i);
    var t := h[i];
    var lots := LotsOf(LedgerAt(st, h, i), t.symbol);
    var sorted := Sort(st, lots);
    var takes := Takes(sorted, t.quantity);
    var k := SettledAt(sorted, takes, x);
    SettledIsOpen(sorted, takes, x);
    SortKeepsMembers(st, lots);
    var y := sorted[k];
    assert y in lots;
    EveryLedgerIsSound(st, h, i);
    assert Sound(lots);
    SoundWhenSorted(st, lots);
    NeverOverConsumed(sorted, t.quantity, k);
    if takes[k] > 0.0 {
      GainIsRecorded(t, sorted, takes, k);
      DrawsOf(t, y, takes[k]);
      assert GainOf(t, y, takes[k]).quantity == y.remaining - x.remaining;
    } else {
      assert y == x;
    }
  }

  lemma {:induction false} SettledIsOpen(lots: seq<Lot>, takes: seq<real>, x: Lot)
    requires |takes| == |lots| && x in Settle(lots, takes)
    ensures x.remaining > EPSILON
  {
    var n := |lots| - 1;
    if x in Settle(lots[..n], takes[..n]) {
      SettledIsOpen(lots[..n], takes[..n], x);
    }
  }

  /** What the lots above dust hold together. */
  function Open(lots: seq<Lot>): real
  {
    if lots == [] then 0.0
    else
      var x := lots[|lots| - 1].remaining;
      Open(lots[..|lots| - 1]) + if x > EPSILON then x else 0.0
  }

  lemma {:induction false} OpenAppend(lots: seq<Lot>, x: Lot)
    ensures Open(lots + [x]) == Open(lots) + Open([x])
  {
    assert (lots + [x])[..|lots|] == lots;
    assert [x][..0] == [];
  }

  lemma {:induction false} OpenInsert(st: Strategy, lots: seq<Lot>, x: Lot)
    ensures Open(Insert(st, lots, x)) == Open(lots) + Open([x])
  {
    if lots != [] && Precedes(st, x, lots[|lots| - 1]) {
      OpenInsert(st, lots[..|lots| - 1], x);
      OpenAppend(lots[..|lots| - 1], lots[|lots| - 1]);
      OpenAppend(Insert(st, lots[..|lots| - 1], x), lots[|lots| - 1]);
      assert lots == lots[..|lots| - 1] + [lots[|lots| - 1]];
    } else {
      OpenAppend(lots, x);
    }
  }

  lemma {:induction false} OpenSort(st: Strategy, lots: seq<Lot>)
    ensures Open(Sort(st, lots)) == Open(lots)
  {
    if lots != [] {
      var n := |lots| - 1;
      OpenSort(st, lots[..n]);
      OpenInsert(st, Sort(st, lots[..n]), lots[n]);
      OpenAppend(lots[..n], lots[n]);
      assert lots == lots[..n] + [lots[n]];
    }
  }

  /** While something is wanted every lot gives all it can. */
  lemma {:induction false} UnmetIsShortfall(lots: seq<Lot>, want: real)
    requires Sound(lots) && want >= 0.0
    ensures Unmet(lots, want) > EPSILON ==> Unmet(lots, want) == want - Open(lots)
    ensures Unmet(lots, want) <= EPSILON ==> want - Open(lots) <= EPSILON
  {
    if lots != [] {
      var n := |lots| - 1;
      SoundFront(lots);
      UnmetIsShortfall(lots[..n], want);
      OpenIsNotNegative(lots[..n]);
    }
  }

  lemma SoundFront(lots: seq<Lot>)
    requires Sound(lots) && lots != []
    ensures Sound(lots[..|lots| - 1])
  {
  }

  lemma {:induction false} OpenIsNotNegative(lots: seq<Lot>)
    ensures Open(lots) >= 0.0
  {
    if lots != [] {
      OpenIsNotNegative(lots[..|lots| - 1]);
    }
  }

  /** A trade is refused exactly for a faulty field, the first in this order, or for a sell
      of more than the open lots above dust hold, which names the shortfall. */
  lemma {:induction false} RefusedExactly(st: Strategy, h: seq<Trade>, i: nat)
    requires i < |h|
    ensures var t := h[i];
      var lots := LotsOf(LedgerAt(st, h, i), t.symbol);
      ResultAt(st, h, i).Failed? <==>
        || t.id == "" || t.symbol == "" || t.quantity <= 0.0 || t.price < 0.0 || t.time < 0
        || (t.action.Sell? && (lots == [] || t.quantity - Open(lots) > EPSILON))
    ensures ResultAt(st, h, i).Failed? ==>
      var t := h[i];
      var lots := LotsOf(LedgerAt(st, h, i), t.symbol);
      match ResultAt(st, h, i).error {
        case BadTradeId => t.id == ""
        case BadSymbol => t.id != "" && t.symbol == ""
        case BadQuantity => t.id != "" && t.symbol != "" && t.quantity <= 0.0
        case BadPrice => t.id != "" && t.symbol != "" && t.quantity > 0.0 && t.price < 0.0
        case BadTime => t.id != "" && t.symbol != "" && t.quantity > 0.0 && t.price >= 0.0 && t.time < 0
        case NoOpenLots => t.action.Sell? && lots == []
        case Oversold(unmet) => t.action.Sell? && lots != [] && unmet == t.quantity - Open(lots) > EPSILON
      }
  {
    hide Sort, Takes, GainsOf, Settle, Unmet, Open, Sound;
    var t := h[i];
    var lots := LotsOf(LedgerAt(st, h, i), t.symbol);
    if Complaint(t).Gains? && t.action.Sell? && lots != [] {
      EveryLedgerIsSound(st, h, i);
      assert Sound(lots);
      SoundWhenSorted(st, lots);
      UnmetIsShortfall(Sort(st, lots), t.quantity);
      OpenSort(st, lots);
    }
  }
}
