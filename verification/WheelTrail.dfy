/** What a broker's score means in money: prices against the decision, by side, and fees. */
module WheelTrail {
  import opened Options
  import opened BrokerWheel
  import Ordering
  import Text

  predicate Buys(e: Execution) { Text.SameButCase(Text.Strip(e.side), "BUY") }

  predicate Sells(e: Execution) { Text.SameButCase(Text.Strip(e.side), "SELL") }

  function Product(x: real, y: real): real { x * y }

  /** What an execution cost against its decision price: paying more when buying, receiving
      less when selling, and the fees. */
  function Cost(e: Execution): real
  {
    Product(if Buys(e) then e.fill - e.decision else e.decision - e.fill, e.quantity) + e.fees
  }

  function CostOf(es: seq<Execution>, b: string): real
  {
    if es == [] then 0.0
    else
      var e := es[|es| - 1];
      CostOf(es[..|es| - 1], b) + if Text.Strip(e.broker) == b then Cost(e) else 0.0
  }

  function NotionalOf(es: seq<Execution>, b: string): real
  {
    if es == [] then 0.0
    else
      var e := es[|es| - 1];
      NotionalOf(es[..|es| - 1], b) + if Text.Strip(e.broker) == b then Product(e.decision, e.quantity) else 0.0
  }

  function CountOf(es: seq<Execution>, b: string): nat
  {
    if es == [] then 0
    else CountOf(es[..|es| - 1], b) + if Text.Strip(es[|es| - 1].broker) == b then 1 else 0
  }

  // ---------------------------------------------------------------- sides and faults

  lemma {:induction false} UpperIgnoresCase(s: string, word: string)
    requires forall i :: 0 <= i < |word| ==> 'A' <= word[i] <= 'Z'
    ensures Upper(s) == word <==> Text.SameButCase(s, word)
  {
    if Upper(s) == word {
      assert |s| == |word|;
      forall i | 0 <= i < |s| ensures UpperChar(s[i]) == word[i] {
        assert Upper(s)[i] == word[i];
      }
    }
    if Text.SameButCase(s, word) {
      forall i | 0 <= i < |s| ensures Upper(s)[i] == word[i] {
      }
    }
  }

  lemma {:induction false} SideIs(e: Execution)
    ensures Side(e) == "BUY" <==> Buys(e)
    ensures Side(e) == "SELL" <==> Sells(e)
    ensures !(Buys(e) && Sells(e))
  {
    UpperIgnoresCase(Text.Strip(e.side), "BUY");
    UpperIgnoresCase(Text.Strip(e.side), "SELL");
  }

  /** An execution is refused exactly for the first of these faults, and accepted without any. */
  lemma {:induction false} FaultExactly(e: Execution)
    ensures match FaultOf(e)
      case None =>
        && !Text.Blank(e.broker) && (Buys(e) || Sells(e))
        && e.decision > 0.0 && e.fill > 0.0 && e.quantity > 0.0
      case Some(fault) =>
        if Text.Blank(e.broker) then fault == BlankBroker
        else if !Buys(e) && !Sells(e) then fault == BadSide
        else if !(e.decision > 0.0) then fault == BadDecisionPrice
        else if !(e.fill > 0.0) then fault == BadFillPrice
        else fault == BadQuantity && !(e.quantity > 0.0)
  {
    Text.StripBlank(e.broker);
    SideIs(e);
  }

  // ---------------------------------------------------------------- scores are costs

  lemma {:induction false} ProductAssociates(x: real, y: real, z: real)
    ensures Product(Product(x, y), z) == Product(x, Product(y, z))
  {
    assert (x * y) * z == x * (y * z);
  }

  lemma QuotientTimes(x: real, y: real)
    requires y != 0.0
    ensures Product(x / y, y) == x
  {
  }

  lemma ProductAdds(x: real, y: real, z: real)
    ensures Product(x + y, z) == Product(x, z) + Product(y, z)
  {
  }

  lemma TenThousand(x: real, y: real)
    ensures Product(x * 10000.0, y) == 10000.0 * Product(x, y)
  {
  }

  lemma {:induction false} SlippageInMoney(slippage: real, decision: real, quantity: real)
    requires decision > 0.0
    ensures Product(slippage / decision, Product(decision, quantity)) == Product(slippage, quantity)
  {
    ProductAssociates(slippage / decision, decision, quantity);
    QuotientTimes(slippage, decision);
  }

  /** Basis points times notional are ten thousand times the money. */
  lemma {:induction false} ShortfallIsCost(e: Execution)
    requires IsValid(e)
    ensures Product(Shortfall(e), Product(e.decision, e.quantity)) == 10000.0 * Cost(e)
    ensures Notional(e) == Product(e.decision, e.quantity) > 0.0
  {
    hide Product;
    SideIs(e);
    var n := Product(e.decision, e.quantity);
    assert Notional(e) == n by { NotionalIs(e); }
    var slippage := if Buys(e) then e.fill - e.decision else e.decision - e.fill;
    SlippageInMoney(slippage, e.decision, e.quantity);
    QuotientTimes(e.fees, n);
    ProductAdds(slippage / e.decision * 10000.0, e.fees / n * 10000.0, n);
    TenThousand(slippage / e.decision, n);
    TenThousand(e.fees / n, n);
  }

  lemma NotionalIs(e: Execution)
    requires IsValid(e)
    ensures Notional(e) == Product(e.decision, e.quantity)
  {
  }

  lemma {:induction false} EntryIsCosts(es: seq<Execution>, b: string)
    requires AllValid(es)
    ensures EntryOf(es, b) == Entry(10000.0 * CostOf(es, b), NotionalOf(es, b), CountOf(es, b))
  {
    hide Product, IsValid, Shortfall, Notional, Cost;
    if es != [] {
      var front, e := es[..|es| - 1], es[|es| - 1];
      assert e in es;
      assert forall x :: x in front ==> x in es;
      EntryIsCosts(front, b);
      ShortfallIsCost(e);
      GrownIs(EntryOf(front, b), e);
    }
  }

  lemma GrownIs(t: Entry, e: Execution)
    requires IsValid(e)
    ensures Grown(t, e) == Entry(t.weighted + Product(Shortfall(e), Notional(e)), t.notional + Notional(e), t.count + 1)
  {
  }

  /** A ranking lists each broker that traded once, with its cost in basis points of its
      notional, the cheaper before the dearer and equals by name; a broker may lead exactly
      with enough executions and notional. */
  lemma {:induction false} RankedByCost(pol: Policy, es: seq<Execution>, r: seq<Score>)
    requires AllValid(es) && IsRanking(pol, es, r)
    ensures forall b :: CountOf(es, b) > 0 <==> exists i :: 0 <= i < |r| && r[i].broker == b
    ensures forall i :: 0 <= i < |r| ==>
      && r[i].notional == NotionalOf(es, r[i].broker) > 0.0 && r[i].count == CountOf(es, r[i].broker)
      && Product(r[i].average, r[i].notional) == 10000.0 * CostOf(es, r[i].broker)
      && (r[i].eligible <==> r[i].count >= pol.observations && r[i].notional >= pol.notional)
    ensures forall i, j :: 0 <= i < j < |r| ==>
      || r[i].average < r[j].average
      || (r[i].average == r[j].average && Ordering.Below(r[i].broker, r[j].broker))
  {
    hide Product, EntryOf, NotionalOf, CostOf, CountOf, IsValid, Ordering.Below;
    forall i | 0 <= i < |r|
      ensures r[i].notional == NotionalOf(es, r[i].broker) > 0.0 && r[i].count == CountOf(es, r[i].broker)
      ensures Product(r[i].average, r[i].notional) == 10000.0 * CostOf(es, r[i].broker)
      ensures r[i].eligible <==> r[i].count >= pol.observations && r[i].notional >= pol.notional
    {
      assert r[i] in r;
      EntryIsCosts(es, r[i].broker);
      QuotientTimes(10000.0 * CostOf(es, r[i].broker), r[i].notional);
    }
    forall b ensures CountOf(es, b) > 0 <==> exists i :: 0 <= i < |r| && r[i].broker == b {
      EntryIsCosts(es, b);
      EntryOfTrader(es, b);
      if Trades(es, b) {
        assert ScoreOf(pol, b, EntryOf(es, b)) in r;
      }
    }
  }
}
