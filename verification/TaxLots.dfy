/** Matching sells against open tax lots: a plan is made in full before anything changes,
    and a remainder of at most EPSILON counts as nothing. Quantities and prices are reals. */
module TaxLots {
  import opened LotOrder

  const EPSILON := 0.000000001

  datatype Action = Buy | Sell

  datatype Trade = Trade(id: string, symbol: string, action: Action, quantity: real, price: real, time: int)

  datatype Gain = Gain(
    sellId: string,
    symbol: string,
    quantity: real,
    sellPrice: real,
    lotId: string,
    cost: real,
    pnl: real,
    acquired: int,
    disposed: int)

  datatype Error =
    | BadTradeId | BadSymbol | BadQuantity | BadPrice | BadTime | NoOpenLots | Oversold(unmet: real)

  datatype Result = Gains(records: seq<Gain>) | Failed(error: Error)

  function Times(x: real, y: real): real { x * y }

  function Min(x: real, y: real): real { if x < y then x else y }

  /** The first complaint about a trade, if any. */
  function Complaint(t: Trade): Result
  {
    if t.id == "" then Failed(BadTradeId)
    else if t.symbol == "" then Failed(BadSymbol)
    else if t.quantity <= 0.0 then Failed(BadQuantity)
    else if t.price < 0.0 then Failed(BadPrice)
    else if t.time < 0 then Failed(BadTime)
    else Gains([])
  }

  // ---------------------------------------------------------------- the plan

  /** What is still to be sold after going through the lots. */
  function Unmet(lots: seq<Lot>, want: real): real
  {
    if lots == [] then want
    else Unmet(lots[..|lots| - 1], want) - Taken(Unmet(lots[..|lots| - 1], want), lots[|lots| - 1])
  }

  /** What the next lot gives when `want` is still to be sold. */
  function Taken(want: real, lot: Lot): real
  {
    if want <= EPSILON || Min(want, lot.remaining) <= EPSILON then 0.0 else Min(want, lot.remaining)
  }

  /** What each lot gives, in order. */
  function Takes(lots: seq<Lot>, want: real): (ts: seq<real>)
    ensures |ts| == |lots|
  {
    if lots == [] then []
    else Takes(lots[..|lots| - 1], want) + [Taken(Unmet(lots[..|lots| - 1], want), lots[|lots| - 1])]
  }

  function Pnl(price: real, cost: real, quantity: real): real { Times(price - cost, quantity) }

  function GainOf(t: Trade, lot: Lot, quantity: real): Gain
  {
    Gain(t.id, t.symbol, quantity, t.price, lot.info.id, lot.info.cost,
         Pnl(t.price, lot.info.cost, quantity), lot.info.time, t.time)
  }

  /** One record per lot that gives something. */
  function GainsOf(t: Trade, lots: seq<Lot>, takes: seq<real>): seq<Gain>
    requires |takes| == |lots|
  {
    if lots == [] then []
    else
      var n := |lots| - 1;
      GainsOf(t, lots[..n], takes[..n]) + if takes[n] > 0.0 then [GainOf(t, lots[n], takes[n])] else []
  }

  function Left(lot: Lot, take: real): Lot { lot.(remaining := lot.remaining - take) }

  /** The lots that stay open: what they have left exceeds EPSILON. */
  function Settle(lots: seq<Lot>, takes: seq<real>): seq<Lot>
    requires |takes| == |lots|
  {
    if lots == [] then []
    else
      var n := |lots| - 1;
      var left := Left(lots[n], takes[n]);
      Settle(lots[..n], takes[..n]) + if left.remaining > EPSILON then [left] else []
  }

  function NewLot(t: Trade): Lot { Lot(LotInfo(t.id, t.symbol, t.quantity, t.price, t.time), t.quantity) }

  // ---------------------------------------------------------------- one trade on one symbol's lots

  /** The outcome of a valid trade and the symbol's lots after it. A sell that cannot be
      covered still leaves the list sorted. */
  function Handle(st: Strategy, lots: seq<Lot>, t: Trade): (Result, seq<Lot>)
  {
    if t.action.Buy? then (Gains([]), lots + [NewLot(t)])
    else if lots == [] then (Failed(NoOpenLots), lots)
    else
      var sorted := Sort(st, lots);
      var takes := Takes(sorted, t.quantity);
      if Unmet(sorted, t.quantity) > EPSILON then (Failed(Oversold(Unmet(sorted, t.quantity))), sorted)
      else (Gains(GainsOf(t, sorted, takes)), Settle(sorted, takes))
  }

  // ---------------------------------------------------------------- sums over lots

  function Sum(xs: seq<real>): real
  {
    if xs == [] then 0.0 else Sum(xs[..|xs| - 1]) + xs[|xs| - 1]
  }

  /** Total of xs[i] * cost of lot i. */
  function Basis(lots: seq<Lot>, xs: seq<real>): real
    requires |xs| == |lots|
  {
    if lots == [] then 0.0
    else
      var n := |lots| - 1;
      Basis(lots[..n], xs[..n]) + Times(lots[n].info.cost, xs[n])
  }

  /** A lot holds between nothing and what was bought, at a cost that is not negative. */
  predicate SoundLot(lot: Lot) { 0.0 <= lot.remaining <= lot.info.original && lot.info.cost >= 0.0 }

  predicate Sound(lots: seq<Lot>)
  {
    forall i :: 0 <= i < |lots| ==> SoundLot(lots[i])
  }

  /** What a lot can give: all it has, unless that is dust. */
  function Available(lot: Lot): real { if lot.remaining > EPSILON then lot.remaining else 0.0 }

  lemma {:induction false} TakesPrefix(lots: seq<Lot>, want: real, i: nat)
    requires i < |lots|
    ensures Takes(lots, want)[i] == Taken(Unmet(lots[..i], want), lots[i])
  {
    var n := |lots| - 1;
    if i < n {
      TakesPrefix(lots[..n], want, i);
      assert lots[..n][..i] == lots[..i];
    }
  }

  /** No lot gives more than it has. */
  lemma {:induction false} NeverOverConsumed(lots: seq<Lot>, want: real, i: nat)
    requires Sound(lots) && i < |lots|
    ensures 0.0 <= Takes(lots, want)[i] <= Available(lots[i])
    ensures Takes(lots, want)[i] == 0.0 || Takes(lots, want)[i] > EPSILON
  {
    TakesPrefix(lots, want, i);
  }

  lemma {:induction false} UnmetIsRest(lots: seq<Lot>, want: real)
    ensures Unmet(lots, want) == want - Sum(Takes(lots, want))
  {
    if lots != [] {
      var n := |lots| - 1;
      UnmetIsRest(lots[..n], want);
      assert Takes(lots, want)[..n] == Takes(lots[..n], want);
    }
  }

  lemma {:induction false} UnmetStaysNonNegative(lots: seq<Lot>, want: real)
    requires want >= 0.0
    ensures 0.0 <= Unmet(lots, want) <= want
  {
    if lots != [] {
      UnmetStaysNonNegative(lots[..|lots| - 1], want);
    }
  }

  lemma {:induction false} UnmetShrinks(lots: seq<Lot>, want: real, i: nat)
    requires i <= |lots| && want >= 0.0
    ensures Unmet(lots, want) <= Unmet(lots[..i], want)
  {
    if i < |lots| {
      var n := |lots| - 1;
      UnmetShrinks(lots[..n], want, i);
      UnmetStaysNonNegative(lots[..n], want);
      assert lots[..n][..i] == lots[..i];
    } else {
      assert lots[..i] == lots;
    }
  }

  /** A lot is touched only when every earlier lot has given all it can. */
  lemma {:induction false} EarlierLotsAreExhausted(lots: seq<Lot>, want: real, i: nat, j: nat)
    requires Sound(lots) && want >= 0.0 && i < j < |lots| && Takes(lots, want)[j] > 0.0
    ensures Takes(lots, want)[i] == Available(lots[i])
  {
    TakesPrefix(lots, want, i);
    TakesPrefix(lots, want, j);
    var w := Unmet(lots[..i], want);
    UnmetShrinks(lots[..j], want, i + 1);
    assert lots[..j][..i + 1] == lots[..i + 1];
    assert lots[..i + 1][..i] == lots[..i];
    assert Unmet(lots[..i + 1], want) == w - Taken(w, lots[i]);
  }

  /** Under FIFO a sell reaches a lot only after every older lot that is not dust. */
  lemma {:induction false} FifoConsumesOldestFirst(lots: seq<Lot>, want: real, i: nat, j: nat)
    requires Sound(lots) && Sorted(FIFO, lots) && want >= 0.0 && i < |lots| && j < |lots|
    requires Takes(lots, want)[j] > 0.0
    requires lots[i].info.time < lots[j].info.time && lots[i].remaining > EPSILON
    ensures Takes(lots, want)[i] == lots[i].remaining
  {
    if j < i {
      assert Precedes(FIFO, lots[i], lots[j]);
    }
    EarlierLotsAreExhausted(lots, want, i, j);
  }

  // ---------------------------------------------------------------- HIFO is optimal

  /** Another way of selling from the same lots. */
  ghost predicate IsAllocation(lots: seq<Lot>, xs: seq<real>)
  {
    |xs| == |lots| && forall i :: 0 <= i < |lots| ==> 0.0 <= xs[i] <= Available(lots[i])
  }

  /** Taking ts instead of xs never moves quantity away from a lot costlier than c or
      towards one cheaper than c. */
  ghost predicate Favours(lots: seq<Lot>, ts: seq<real>, xs: seq<real>, c: real)
    requires |ts| == |lots| == |xs|
  {
    forall i :: 0 <= i < |lots| ==>
      (ts[i] > xs[i] ==> lots[i].info.cost >= c) && (ts[i] < xs[i] ==> lots[i].info.cost <= c)
  }

  lemma {:induction false} GapStep(ts: real, xs: real, cost: real, c: real)
    requires ts > xs ==> cost >= c
    requires ts < xs ==> cost <= c
    ensures Times(cost, ts) - Times(cost, xs) >= Times(c, ts - xs)
  {
    assert Times(cost, ts) - Times(cost, xs) - Times(c, ts - xs) == (cost - c) * (ts - xs);
    SameSign(cost - c, ts - xs);
  }

  lemma SameSign(a: real, b: real)
    requires (b > 0.0 ==> a >= 0.0) && (b < 0.0 ==> a <= 0.0)
    ensures a * b >= 0.0
  {
  }

  lemma TimesAdds(c: real, x: real, y: real)
    ensures Times(c, x) + Times(c, y) == Times(c, x + y)
  {
  }

  lemma {:induction false} FavouringPays(lots: seq<Lot>, ts: seq<real>, xs: seq<real>, c: real)
    requires |ts| == |lots| == |xs| && Favours(lots, ts, xs, c)
    ensures Basis(lots, ts) - Basis(lots, xs) >= Times(c, Sum(ts) - Sum(xs))
  {
    hide Times;
    if lots == [] {
      TimesZero(c);
    } else {
      var n := |lots| - 1;
      FavouringPays(lots[..n], ts[..n], xs[..n], c);
      GapStep(ts[n], xs[n], lots[n].info.cost, c);
      TimesAdds(c, Sum(ts[..n]) - Sum(xs[..n]), ts[n] - xs[n]);
    }
  }

  lemma TimesZero(c: real)
    ensures Times(c, 0.0) == 0.0
  {
  }

  /** The last lot that gives anything. */
  lemma {:induction false} LastTouched(ts: seq<real>) returns (p: int)
    requires forall i :: 0 <= i < |ts| ==> ts[i] >= 0.0
    ensures -1 <= p < |ts| && (p >= 0 ==> ts[p] > 0.0)
    ensures forall i :: p < i < |ts| ==> ts[i] == 0.0
  {
    if ts == [] {
      p := -1;
    } else if ts[|ts| - 1] > 0.0 {
      p := |ts| - 1;
    } else {
      p := LastTouched(ts[..|ts| - 1]);
    }
  }

  lemma {:induction false} ZeroSum(xs: seq<real>)
    requires forall i :: 0 <= i < |xs| ==> xs[i] >= 0.0
    ensures Sum(xs) >= 0.0
    ensures Sum(xs) == 0.0 <==> forall i :: 0 <= i < |xs| ==> xs[i] == 0.0
  {
    if xs != [] {
      ZeroSum(xs[..|xs| - 1]);
    }
  }

  /** The cost of the last lot touched separates what the plan takes from what it leaves. */
  lemma {:induction false} HifoFavours(lots: seq<Lot>, want: real, xs: seq<real>) returns (c: real)
    requires Sound(lots) && Sorted(HIFO, lots) && want >= 0.0 && IsAllocation(lots, xs)
    ensures Favours(lots, Takes(lots, want), xs, c) || Sum(Takes(lots, want)) == 0.0
  {
    var ts := Takes(lots, want);
    forall i | 0 <= i < |lots| ensures 0.0 <= ts[i] <= Available(lots[i]) {
      NeverOverConsumed(lots, want, i);
    }
    var p := LastTouched(ts);
    if p < 0 {
      c := 0.0;
      ZeroSum(ts);
    } else {
      c := lots[p].info.cost;
      forall i | 0 <= i < |lots|
        ensures (ts[i] > xs[i] ==> lots[i].info.cost >= c) && (ts[i] < xs[i] ==> lots[i].info.cost <= c)
      {
        if i < p {
          EarlierLotsAreExhausted(lots, want, i, p);
          assert !Precedes(HIFO, lots[p], lots[i]);
        } else if p < i {
          assert !Precedes(HIFO, lots[i], lots[p]);
        }
      }
    }
  }

  /** Among all ways of selling the same total from the lots that are not dust, the executed
      plan under HIFO has the greatest cost basis. */
  lemma {:induction false} HifoMaximisesBasis(lots: seq<Lot>, want: real, xs: seq<real>)
    requires Sound(lots) && Sorted(HIFO, lots) && want >= 0.0
    requires IsAllocation(lots, xs) && Sum(xs) == Sum(Takes(lots, want))
    ensures Basis(lots, xs) <= Basis(lots, Takes(lots, want))
  {
    hide Takes, Times, Basis, Sorted;
    var ts := Takes(lots, want);
    var c := HifoFavours(lots, want, xs);
    if Sum(ts) == 0.0 {
      forall i | 0 <= i < |lots| ensures ts[i] >= 0.0 && xs[i] >= 0.0 {
        NeverOverConsumed(lots, want, i);
      }
      ZeroSum(ts);
      ZeroSum(xs);
      assert ts == xs;
    } else {
      FavouringPays(lots, ts, xs, c);
      TimesZero(c);
    }
  }

  function PnlSum(price: real, lots: seq<Lot>, xs: seq<real>): real
    requires |xs| == |lots|
  {
    if lots == [] then 0.0
    else
      var n := |lots| - 1;
      PnlSum(price, lots[..n], xs[..n]) + Pnl(price, lots[n].info.cost, xs[n])
  }

  lemma PnlSplits(price: real, cost: real, x: real)
    ensures Pnl(price, cost, x) == Times(price, x) - Times(cost, x)
  {
  }

  lemma {:induction false} PnlIsProceedsLessBasis(price: real, lots: seq<Lot>, xs: seq<real>)
    requires |xs| == |lots|
    ensures PnlSum(price, lots, xs) == Times(price, Sum(xs)) - Basis(lots, xs)
  {
    hide Times, Pnl;
    if lots == [] {
      TimesZero(price);
    } else {
      var n := |lots| - 1;
      PnlIsProceedsLessBasis(price, lots[..n], xs[..n]);
      PnlSplits(price, lots[n].info.cost, xs[n]);
      TimesAdds(price, Sum(xs[..n]), xs[n]);
    }
  }

  /** Hence no other way of selling the same total realises a smaller gain. */
  lemma {:induction false} HifoMinimisesGain(lots: seq<Lot>, want: real, price: real, xs: seq<real>)
    requires Sound(lots) && Sorted(HIFO, lots) && want >= 0.0
    requires IsAllocation(lots, xs) && Sum(xs) == Sum(Takes(lots, want))
    ensures PnlSum(price, lots, Takes(lots, want)) <= PnlSum(price, lots, xs)
  {
    HifoMaximisesBasis(lots, want, xs);
    PnlIsProceedsLessBasis(price, lots, xs);
    PnlIsProceedsLessBasis(price, lots, Takes(lots, want));
  }

  function TotalPnl(gs: seq<Gain>): real
  {
    if gs == [] then 0.0 else TotalPnl(gs[..|gs| - 1]) + gs[|gs| - 1].pnl
  }

  lemma PnlOfNothing(price: real, cost: real)
    ensures Pnl(price, cost, 0.0) == 0.0
  {
  }

  lemma {:induction false} RecordedPnl(t: Trade, lots: seq<Lot>, takes: seq<real>)
    requires |takes| == |lots| && forall i :: 0 <= i < |lots| ==> takes[i] >= 0.0
    ensures TotalPnl(GainsOf(t, lots, takes)) == PnlSum(t.price, lots, takes)
  {
    hide Pnl;
    if lots != [] {
      var n := |lots| - 1;
      RecordedPnl(t, lots[..n], takes[..n]);
      var front := GainsOf(t, lots[..n], takes[..n]);
      if takes[n] > 0.0 {
        assert (front + [GainOf(t, lots[n], takes[n])])[..|front|] == front;
      } else {
        PnlOfNothing(t.price, lots[n].info.cost);
        assert front + [] == front;
      }
    }
  }

  lemma {:induction false} SoundWhenSorted(st: Strategy, lots: seq<Lot>)
    requires Sound(lots)
    ensures Sound(Sort(st, lots)) && Sorted(st, Sort(st, lots))
  {
    SortIsStable(st, lots);
    SortKeepsMembers(st, lots);
    forall i | 0 <= i < |lots| ensures SoundLot(Sort(st, lots)[i]) {
      assert Sort(st, lots)[i] in lots;
    }
  }

  /** Every successful sell under HIFO realises the least gain any allocation of the same
      quantity over the open, non-dust lots could. */
  lemma {:induction false} HifoSellIsOptimal(lots: seq<Lot>, t: Trade, xs: seq<real>)
    requires Sound(lots) && t.action.Sell? && t.quantity > 0.0 && Handle(HIFO, lots, t).0.Gains?
    requires IsAllocation(Sort(HIFO, lots), xs)
    requires Sum(xs) == Sum(Takes(Sort(HIFO, lots), t.quantity))
    ensures TotalPnl(Handle(HIFO, lots, t).0.records) <= PnlSum(t.price, Sort(HIFO, lots), xs)
  {
    var sorted := Sort(HIFO, lots);
    SoundWhenSorted(HIFO, lots);
    forall i | 0 <= i < |sorted| ensures Takes(sorted, t.quantity)[i] >= 0.0 {
      NeverOverConsumed(sorted, t.quantity, i);
    }
    RecordedPnl(t, sorted, Takes(sorted, t.quantity));
    HifoMinimisesGain(sorted, t.quantity, t.price, xs);
  }

  // ---------------------------------------------------------------- conservation in one sell

  /** Counting quantity, or quantity times cost. */
  datatype Measure = Quantity | CostBasis

  function Weigh(m: Measure, cost: real, quantity: real): real
  {
    if m.Quantity? then quantity else Times(cost, quantity)
  }

  function Held(m: Measure, lots: seq<Lot>): real
  {
    if lots == [] then 0.0
    else Held(m, lots[..|lots| - 1]) + Weigh(m, lots[|lots| - 1].info.cost, lots[|lots| - 1].remaining)
  }

  function Realised(m: Measure, gs: seq<Gain>): real
  {
    if gs == [] then 0.0
    else Realised(m, gs[..|gs| - 1]) + Weigh(m, gs[|gs| - 1].cost, gs[|gs| - 1].quantity)
  }

  /** What is thrown away with the lots a sell removes. */
  function Dust(m: Measure, lots: seq<Lot>, takes: seq<real>): real
    requires |takes| == |lots|
  {
    if lots == [] then 0.0
    else
      var n := |lots| - 1;
      var left := Left(lots[n], takes[n]);
      Dust(m, lots[..n], takes[..n])
      + if left.remaining > EPSILON then 0.0 else Weigh(m, left.info.cost, left.remaining)
  }

  function Removed(lots: seq<Lot>, takes: seq<real>): nat
    requires |takes| == |lots|
  {
    if lots == [] then 0
    else
      var n := |lots| - 1;
      Removed(lots[..n], takes[..n]) + if Left(lots[n], takes[n]).remaining > EPSILON then 0 else 1
  }

  lemma WeighSplits(m: Measure, cost: real, x: real, y: real)
    ensures Weigh(m, cost, x) + Weigh(m, cost, y) == Weigh(m, cost, x + y)
  {
  }

  lemma WeighNothing(m: Measure, cost: real)
    ensures Weigh(m, cost, 0.0) == 0.0
  {
  }

  lemma {:induction false} HeldAppend(m: Measure, lots: seq<Lot>, x: Lot)
    ensures Held(m, lots + [x]) == Held(m, lots) + Weigh(m, x.info.cost, x.remaining)
  {
    assert (lots + [x])[..|lots|] == lots;
  }

  lemma {:induction false} RealisedAppend(m: Measure, gs: seq<Gain>, g: Gain)
    ensures Realised(m, gs + [g]) == Realised(m, gs) + Weigh(m, g.cost, g.quantity)
  {
    assert (gs + [g])[..|gs|] == gs;
  }

  lemma {:induction false} HeldIf(m: Measure, lots: seq<Lot>, b: bool, x: Lot)
    ensures Held(m, lots + if b then [x] else [])
      == Held(m, lots) + if b then Weigh(m, x.info.cost, x.remaining) else 0.0
  {
    if b {
      HeldAppend(m, lots, x);
    } else {
      assert lots + [] == lots;
    }
  }

  lemma {:induction false} RealisedIf(m: Measure, gs: seq<Gain>, b: bool, g: Gain)
    ensures Realised(m, gs + if b then [g] else []) == Realised(m, gs) + if b then Weigh(m, g.cost, g.quantity) else 0.0
  {
    if b {
      RealisedAppend(m, gs, g);
    } else {
      assert gs + [] == gs;
    }
  }

  /** What was held is realised, still held, or thrown away as dust. */
  lemma {:induction false} SellConserves(m: Measure, t: Trade, lots: seq<Lot>, takes: seq<real>)
    requires |takes| == |lots| && forall i :: 0 <= i < |lots| ==> takes[i] >= 0.0
    ensures Held(m, lots)
      == Realised(m, GainsOf(t, lots, takes)) + Held(m, Settle(lots, takes)) + Dust(m, lots, takes)
  {
    hide Weigh, Pnl;
    if lots != [] {
      var n := |lots| - 1;
      var cost, take, left := lots[n].info.cost, takes[n], Left(lots[n], takes[n]);
      SellConserves(m, t, lots[..n], takes[..n]);
      WeighSplits(m, cost, take, left.remaining);
      WeighNothing(m, cost);
      RealisedIf(m, GainsOf(t, lots[..n], takes[..n]), take > 0.0, GainOf(t, lots[n], take));
      HeldIf(m, Settle(lots[..n], takes[..n]), left.remaining > EPSILON, left);
    }
  }

  /** Each removed lot throws away at most EPSILON. */
  lemma {:induction false} DustIsSmall(lots: seq<Lot>, takes: seq<real>)
    requires |takes| == |lots| && forall i :: 0 <= i < |lots| ==> takes[i] <= lots[i].remaining
    ensures 0.0 <= Dust(Quantity, lots, takes) <= EPSILON * Removed(lots, takes) as real
  {
    if lots != [] {
      DustIsSmall(lots[..|lots| - 1], takes[..|lots| - 1]);
    }
  }

  lemma {:induction false} SettleIsSound(lots: seq<Lot>, takes: seq<real>)
    requires |takes| == |lots| && Sound(lots) && forall i :: 0 <= i < |lots| ==> 0.0 <= takes[i] <= lots[i].remaining
    ensures Sound(Settle(lots, takes))
  {
    if lots != [] {
      SettleIsSound(lots[..|lots| - 1], takes[..|lots| - 1]);
    }
  }

  lemma {:induction false} HeldInsert(m: Measure, st: Strategy, lots: seq<Lot>, x: Lot)
    ensures Held(m, Insert(st, lots, x)) == Held(m, lots) + Weigh(m, x.info.cost, x.remaining)
  {
    hide Weigh;
    if lots != [] && Precedes(st, x, lots[|lots| - 1]) {
      HeldInsert(m, st, lots[..|lots| - 1], x);
      HeldAppend(m, Insert(st, lots[..|lots| - 1], x), lots[|lots| - 1]);
    } else {
      HeldAppend(m, lots, x);
    }
  }

  lemma {:induction false} HeldSort(m: Measure, st: Strategy, lots: seq<Lot>)
    ensures Held(m, Sort(st, lots)) == Held(m, lots)
  {
    hide Weigh;
    if lots != [] {
      HeldSort(m, st, lots[..|lots| - 1]);
      HeldInsert(m, st, Sort(st, lots[..|lots| - 1]), lots[|lots| - 1]);
    }
  }

  lemma {:induction false} RealisedQuantity(t: Trade, lots: seq<Lot>, takes: seq<real>)
    requires |takes| == |lots| && forall i :: 0 <= i < |lots| ==> takes[i] >= 0.0
    ensures Realised(Quantity, GainsOf(t, lots, takes)) == Sum(takes)
  {
    if lots != [] {
      var n := |lots| - 1;
      RealisedQuantity(t, lots[..n], takes[..n]);
      RealisedIf(Quantity, GainsOf(t, lots[..n], takes[..n]), takes[n] > 0.0, GainOf(t, lots[n], takes[n]));
    }
  }

  /** A covered sell realises its quantity to within EPSILON. */
  lemma {:induction false} CoveredSellIsComplete(st: Strategy, lots: seq<Lot>, t: Trade)
    requires Sound(lots) && t.action.Sell? && t.quantity > 0.0 && Handle(st, lots, t).0.Gains?
    ensures t.quantity - EPSILON <= Realised(Quantity, Handle(st, lots, t).0.records) <= t.quantity
  {
    var sorted := Sort(st, lots);
    var takes := Takes(sorted, t.quantity);
    SoundWhenSorted(st, lots);
    forall i | 0 <= i < |sorted| ensures takes[i] >= 0.0 {
      NeverOverConsumed(sorted, t.quantity, i);
    }
    RealisedQuantity(t, sorted, takes);
    UnmetIsRest(sorted, t.quantity);
    UnmetStaysNonNegative(sorted, t.quantity);
  }

  // ---------------------------------------------------------------- whole ledgers

  type Ledger = map<string, seq<Lot>>

  function LotsOf(l: Ledger, symbol: string): seq<Lot> { if symbol in l then l[symbol] else [] }

  function Step(st: Strategy, l: Ledger, t: Trade): (Result, Ledger)
  {
    if Complaint(t).Failed? then (Complaint(t), l)
    else if t.action.Sell? && LotsOf(l, t.symbol) == [] then (Failed(NoOpenLots), l)
    else
      var (r, lots) := Handle(st, LotsOf(l, t.symbol), t);
      (r, l[t.symbol := lots])
  }

  function LedgerAt(st: Strategy, h: seq<Trade>, i: nat): Ledger
    requires i <= |h|
  {
    if i == 0 then map[] else Step(st, LedgerAt(st, h, i - 1), h[i - 1]).1
  }

  function ResultAt(st: Strategy, h: seq<Trade>, i: nat): Result
    requires i < |h|
  {
    Step(st, LedgerAt(st, h, i), h[i]).0
  }

  /** All gain records so far. */
  function GainsAt(st: Strategy, h: seq<Trade>, i: nat): seq<Gain>
    requires i <= |h|
  {
    if i == 0 then []
    else
      var r := ResultAt(st, h, i - 1);
      GainsAt(st, h, i - 1) + if r.Gains? then r.records else []
  }

  // ---------------------------------------------------------------- an oversold sell is unobservable

  /** Two ledgers no trade can tell apart: per symbol the same lots once sorted. */
  ghost predicate Equivalent(st: Strategy, a: Ledger, b: Ledger)
  {
    forall symbol :: Sort(st, LotsOf(a, symbol)) == Sort(st, LotsOf(b, symbol))
  }

  lemma {:induction false} HandleRespects(st: Strategy, a: seq<Lot>, b: seq<Lot>, t: Trade)
    requires Sort(st, a) == Sort(st, b)
    ensures Handle(st, a, t).0 == Handle(st, b, t).0
    ensures Sort(st, Handle(st, a, t).1) == Sort(st, Handle(st, b, t).1)
  {
    hide Sort, Takes, Unmet, GainsOf, Settle;
    assert |Sort(st, a)| == |a| && |Sort(st, b)| == |b|;
    SortAbsorbsSort(st, a, [NewLot(t)]);
    SortAbsorbsSort(st, b, [NewLot(t)]);
  }

  lemma {:induction false} FailureKeepsLots(st: Strategy, lots: seq<Lot>, t: Trade)
    requires Handle(st, lots, t).0.Failed?
    ensures Sort(st, Handle(st, lots, t).1) == Sort(st, lots)
  {
    hide Sort, Takes, Unmet, GainsOf, Settle;
    SortIsIdempotent(st, lots);
  }

  /** A failed sell leaves the list as it stood exactly when it stood in matching order. */
  lemma {:induction false} FailureKeepsOrderExactly(st: Strategy, lots: seq<Lot>, t: Trade)
    requires t.action.Sell? && Handle(st, lots, t).0.Failed?
    ensures Handle(st, lots, t).1 == lots <==> Sorted(st, lots)
  {
    hide Sort, Takes, Unmet, GainsOf, Settle, SameByKey;
    SortIsStable(st, lots);
    if Sorted(st, lots) {
      StableSortIsUnique(st, Sort(st, lots), lots);
    }
  }

  /** Under HIFO a cheaper lot bought first is moved by a sell that raises. */
  lemma {:induction false} FailureCanReorder()
    ensures var lots := [Lot(LotInfo("1", "A", 1.0, 1.0, 0), 1.0), Lot(LotInfo("2", "A", 1.0, 2.0, 1), 1.0)];
      var t := Trade("3", "A", Sell, 3.0, 1.0, 2);
      && Complaint(t).Gains?
      && Handle(HIFO, lots, t).0.Failed? && Handle(HIFO, lots, t).1 != lots
  {
    var lots := [Lot(LotInfo("1", "A", 1.0, 1.0, 0), 1.0), Lot(LotInfo("2", "A", 1.0, 2.0, 1), 1.0)];
    var t := Trade("3", "A", Sell, 3.0, 1.0, 2);
    UnmetAtLeast(Sort(HIFO, lots), t.quantity);
    assert lots[..1] == [lots[0]] && [lots[0]][..0] == [];
    assert Sort(HIFO, [lots[0]]) == [lots[0]];
    assert Sort(HIFO, lots) == Insert(HIFO, [lots[0]], lots[1]);
    SortKeepsMembers(HIFO, lots);
    assert Precedes(HIFO, lots[1], lots[0]);
    FailureKeepsOrderExactly(HIFO, lots, t);
  }

  /** Lots of one unit each leave unmet what they cannot cover. */
  lemma {:induction false} UnmetAtLeast(lots: seq<Lot>, want: real)
    requires (forall l :: l in lots ==> l.remaining <= 1.0) || lots == []
    ensures Unmet(lots, want) >= want - |lots| as real
  {
    if lots != [] {
      assert forall l :: l in lots[..|lots| - 1] ==> l in lots;
      assert lots[|lots| - 1] in lots;
      UnmetAtLeast(lots[..|lots| - 1], want);
    }
  }

  lemma {:induction false} StepRespects(st: Strategy, a: Ledger, b: Ledger, t: Trade)
    requires Equivalent(st, a, b)
    ensures Step(st, a, t).0 == Step(st, b, t).0
    ensures Equivalent(st, Step(st, a, t).1, Step(st, b, t).1)
  {
    hide Sort, Handle;
    var x, y := LotsOf(a, t.symbol), LotsOf(b, t.symbol);
    assert Sort(st, x) == Sort(st, y);
    assert |Sort(st, x)| == |x| && |Sort(st, y)| == |y|;
    HandleRespects(st, x, y, t);
    var a', b' := Step(st, a, t).1, Step(st, b, t).1;
    forall symbol ensures Sort(st, LotsOf(a', symbol)) == Sort(st, LotsOf(b', symbol)) {
      assert Sort(st, LotsOf(a, symbol)) == Sort(st, LotsOf(b, symbol));
    }
  }

  /** A trade that raises changes the ledger at most by sorting a list. */
  lemma {:induction false} FailureIsInvisible(st: Strategy, l: Ledger, t: Trade)
    requires Step(st, l, t).0.Failed?
    ensures Equivalent(st, Step(st, l, t).1, l)
  {
    hide Sort, Handle;
    if Complaint(t).Gains? && Step(st, l, t).1 != l {
      FailureKeepsLots(st, LotsOf(l, t.symbol), t);
    }
  }

  lemma {:induction false} PrefixDecides(st: Strategy, h: seq<Trade>, g: seq<Trade>, i: nat)
    requires i <= |h| && i <= |g| && h[..i] == g[..i]
    ensures LedgerAt(st, h, i) == LedgerAt(st, g, i)
  {
    hide Step;
    if i > 0 {
      assert h[..i - 1] == h[..i][..i - 1] && g[..i - 1] == g[..i][..i - 1];
      assert h[i - 1] == h[..i][i - 1] && g[i - 1] == g[..i][i - 1];
      PrefixDecides(st, h, g, i - 1);
    }
  }

  /** Deleting a failed trade from any history changes no later result: same gain records,
      same successes and same errors. */
  lemma {:induction false} FailedTradeIsUnobservable(st: Strategy, h1: seq<Trade>, t: Trade, h2: seq<Trade>, i: nat)
    requires ResultAt(st, h1 + [t] + h2, |h1|).Failed? && i <= |h2|
    ensures Equivalent(st, LedgerAt(st, h1 + [t] + h2, |h1| + 1 + i), LedgerAt(st, h1 + h2, |h1| + i))
    ensures i < |h2| ==> ResultAt(st, h1 + [t] + h2, |h1| + 1 + i) == ResultAt(st, h1 + h2, |h1| + i)
  {
    hide Step, Equivalent;
    var h, g := h1 + [t] + h2, h1 + h2;
    if i == 0 {
      assert h[..|h1|] == g[..|h1|];
      PrefixDecides(st, h, g, |h1|);
      assert h[|h1|] == t;
      FailureIsInvisible(st, LedgerAt(st, h, |h1|), t);
    } else {
      FailedTradeIsUnobservable(st, h1, t, h2, i - 1);
      assert h[|h1| + i] == h2[i - 1] && g[|h1| + i - 1] == h2[i - 1];
      StepRespects(st, LedgerAt(st, h, |h1| + i), LedgerAt(st, g, |h1| + i - 1), h2[i - 1]);
    }
    if i < |h2| {
      assert h[|h1| + 1 + i] == h2[i] && g[|h1| + i] == h2[i];
      StepRespects(st, LedgerAt(st, h, |h1| + 1 + i), LedgerAt(st, g, |h1| + i), h2[i]);
    }
  }

  // ---------------------------------------------------------------- conservation over whole histories

  /** What valid buys of the symbol brought in. */
  function Bought(m: Measure, h: seq<Trade>, i: nat, symbol: string): real
    requires i <= |h|
  {
    if i == 0 then 0.0
    else
      var t := h[i - 1];
      Bought(m, h, i - 1, symbol)
      + if Complaint(t).Gains? && t.action.Buy? && t.symbol == symbol then Weigh(m, t.price, t.quantity) else 0.0
  }

  predicate SellsAt(st: Strategy, h: seq<Trade>, i: nat, symbol: string)
    requires i < |h|
  {
    h[i].symbol == symbol && h[i].action.Sell? && ResultAt(st, h, i).Gains?
  }

  function RealisedBy(m: Measure, st: Strategy, h: seq<Trade>, i: nat, symbol: string): real
    requires i <= |h|
  {
    if i == 0 then 0.0
    else
      var gained := if SellsAt(st, h, i - 1, symbol) then Realised(m, ResultAt(st, h, i - 1).records) else 0.0;
      RealisedBy(m, st, h, i - 1, symbol) + gained
  }

  function SellTakes(st: Strategy, h: seq<Trade>, i: nat): (r: (seq<Lot>, seq<real>))
    requires i < |h|
    ensures |r.0| == |r.1|
  {
    var sorted := Sort(st, LotsOf(LedgerAt(st, h, i), h[i].symbol));
    (sorted, Takes(sorted, h[i].quantity))
  }

  function DustBy(m: Measure, st: Strategy, h: seq<Trade>, i: nat, symbol: string): real
    requires i <= |h|
  {
    if i == 0 then 0.0
    else
      var (lots, takes) := SellTakes(st, h, i - 1);
      DustBy(m, st, h, i - 1, symbol) + if SellsAt(st, h, i - 1, symbol) then Dust(m, lots, takes) else 0.0
  }

  /** Lots of the symbol removed as settled. */
  function RemovedBy(st: Strategy, h: seq<Trade>, i: nat, symbol: string): nat
    requires i <= |h|
  {
    if i == 0 then 0
    else
      var (lots, takes) := SellTakes(st, h, i - 1);
      RemovedBy(st, h, i - 1, symbol) + if SellsAt(st, h, i - 1, symbol) then Removed(lots, takes) else 0
  }

  ghost predicate SoundLedger(l: Ledger)
  {
    forall symbol :: Sound(LotsOf(l, symbol))
  }

  lemma {:induction false} HandleIsSound(st: Strategy, lots: seq<Lot>, t: Trade)
    requires Sound(lots) && Complaint(t).Gains?
    ensures Sound(Handle(st, lots, t).1)
  {
    var sorted := Sort(st, lots);
    SoundWhenSorted(st, lots);
    forall i | 0 <= i < |sorted| ensures 0.0 <= Takes(sorted, t.quantity)[i] <= sorted[i].remaining {
      NeverOverConsumed(sorted, t.quantity, i);
    }
    SettleIsSound(sorted, Takes(sorted, t.quantity));
  }

  /** In every reachable ledger each lot holds between nothing and what was bought. */
  lemma {:induction false} EveryLedgerIsSound(st: Strategy, h: seq<Trade>, i: nat)
    requires i <= |h|
    ensures SoundLedger(LedgerAt(st, h, i))
  {
    hide Handle, Sound;
    if i == 0 {
      assert Sound([]) by { SoundNothing(); }
    } else {
      EveryLedgerIsSound(st, h, i - 1);
      var l, t := LedgerAt(st, h, i - 1), h[i - 1];
      assert Sound(LotsOf(l, t.symbol));
      if Complaint(t).Gains? {
        HandleIsSound(st, LotsOf(l, t.symbol), t);
      }
      forall symbol ensures Sound(LotsOf(LedgerAt(st, h, i), symbol)) {
        assert Sound(LotsOf(l, symbol));
      }
    }
  }

  lemma SoundNothing()
    ensures Sound([])
  {
  }

  /** One trade moves nothing in or out of a symbol except what is bought, realised or dust. */
  lemma {:induction false} StepConserves(m: Measure, st: Strategy, h: seq<Trade>, i: nat, symbol: string)
    requires i < |h| && SoundLedger(LedgerAt(st, h, i))
    ensures var (lots, takes) := SellTakes(st, h, i);
      var sells := SellsAt(st, h, i, symbol);
      var buys := Complaint(h[i]).Gains? && h[i].action.Buy? && h[i].symbol == symbol;
      Held(m, LotsOf(LedgerAt(st, h, i), symbol)) + (if buys then Weigh(m, h[i].price, h[i].quantity) else 0.0)
      == Held(m, LotsOf(LedgerAt(st, h, i + 1), symbol))
         + (if sells then Realised(m, ResultAt(st, h, i).records) + Dust(m, lots, takes) else 0.0)
  {
    hide Weigh, Sort, Takes, Unmet, GainsOf, Settle, Held, Dust, Realised;
    var l, t := LedgerAt(st, h, i), h[i];
    var before := LotsOf(l, t.symbol);
    assert LedgerAt(st, h, i + 1) == Step(st, l, t).1;
    if symbol == t.symbol && Complaint(t).Gains? {
      if t.action.Buy? {
        HeldAppend(m, before, NewLot(t));
      } else {
        var (sorted, takes) := SellTakes(st, h, i);
        HeldSort(m, st, before);
        assert Sound(before);
        SoundWhenSorted(st, before);
        forall k | 0 <= k < |sorted| ensures takes[k] >= 0.0 {
          NeverOverConsumed(sorted, t.quantity, k);
        }
        SellConserves(m, t, sorted, takes);
      }
    }
  }

  /** Over any history and for every symbol: bought equals realised plus open plus discarded
      dust, in quantity and in cost. */
  lemma {:induction false} LedgerConserves(m: Measure, st: Strategy, h: seq<Trade>, i: nat, symbol: string)
    requires i <= |h|
    ensures Bought(m, h, i, symbol)
      == RealisedBy(m, st, h, i, symbol) + Held(m, LotsOf(LedgerAt(st, h, i), symbol)) + DustBy(m, st, h, i, symbol)
  {
    hide Weigh, Step, Dust, Realised, SellTakes, SellsAt;
    if i > 0 {
      LedgerConserves(m, st, h, i - 1, symbol);
      EveryLedgerIsSound(st, h, i - 1);
      StepConserves(m, st, h, i - 1, symbol);
    }
  }

  /** The dust discarded amounts to at most EPSILON per removed lot. */
  lemma {:induction false} DustIsBounded(st: Strategy, h: seq<Trade>, i: nat, symbol: string)
    requires i <= |h|
    ensures 0.0 <= DustBy(Quantity, st, h, i, symbol) <= EPSILON * RemovedBy(st, h, i, symbol) as real
  {
    hide Step, Dust, Removed;
    if i > 0 {
      DustIsBounded(st, h, i - 1, symbol);
      EveryLedgerIsSound(st, h, i - 1);
      var (lots, takes) := SellTakes(st, h, i - 1);
      assert Sound(LotsOf(LedgerAt(st, h, i - 1), h[i - 1].symbol));
      SoundWhenSorted(st, LotsOf(LedgerAt(st, h, i - 1), h[i - 1].symbol));
      forall k | 0 <= k < |lots| ensures takes[k] <= lots[k].remaining {
        NeverOverConsumed(lots, h[i - 1].quantity, k);
      }
      DustIsSmall(lots, takes);
    }
  }
}
