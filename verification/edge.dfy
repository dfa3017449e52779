/** A fee-adjusted directed link between two currencies, backed by one side of
    one market's order book. Immutable: every operation that changes the edge
    returns the changed copy alongside its result. */
module Edges {
  import opened Common
  import opened Orders

  /** `orders` is the book side, best level first; `order` caches the head
      level; `inVolume`/`outVolume` total what was spent and received. */
  datatype Edge = Edge(
    from: Currency,
    to: Currency,
    reminder: real,
    forward: bool,
    pair: string,
    orders: seq<Order>,
    order: Option<Order>,
    inVolume: real,
    outVolume: real)

  /** The market label: base before quote whichever way the edge runs. */
  function PairLabel(from: Currency, to: Currency, forward: bool): string {
    if forward then from + "/" + to else to + "/" + from
  }

  /** A fresh edge: no book bound yet, nothing cached, nothing traded. */
  function NewEdge(from: Currency, to: Currency, reminder: real, forward: bool): (e: Edge)
    ensures e.from == from && e.to == to && e.reminder == reminder && e.forward == forward
    ensures e.pair == PairLabel(from, to, forward)
    ensures e.orders == [] && e.order == None
    ensures e.inVolume == 0.0 && e.outVolume == 0.0
  {
    Edge(from, to, reminder, forward, PairLabel(from, to, forward), [], None, 0.0, 0.0)
  }

  /** Both directions of one market carry the same `base/quote` label. */
  lemma MarketDirectionsSharePair(base: Currency, quote: Currency, reminder: real)
    ensures NewEdge(base, quote, reminder, true).pair == base + "/" + quote
    ensures NewEdge(quote, base, reminder, false).pair == base + "/" + quote
  {
  }

  /** The string form `from->to`. */
  function ToString(e: Edge): (s: string)
    ensures |s| == |e.from| + 2 + |e.to|
    ensures s[..|e.from|] == e.from && s[|e.from| + 2..] == e.to
    ensures s[|e.from|..|e.from| + 2] == "->"
  {
    e.from + "->" + e.to
  }

  /** Binds a book side; the cached head is left as it was. */
  function SetData(e: Edge, orders: seq<Order>): (r: Edge)
    ensures r.orders == orders && r.order == e.order
    ensures r.(orders := e.orders) == e
  {
    e.(orders := orders)
  }

  /** The head level of a book side, or the exhausted marker. */
  function Head(orders: seq<Order>): (o: Order)
    ensures |orders| == 0 ==> o.IsEmpty()
  {
    if |orders| > 0 then orders[0] else Exhausted
  }

  /** The cache is either empty or holds exactly the current head. */
  predicate Coherent(e: Edge) {
    e.order == None || e.order == Some(Head(e.orders))
  }

  /** Reads the head through the cache, filling the cache when it is empty. */
  function GetOrder(e: Edge): (r: (Order, Edge))
    ensures r.1 == e.(order := Some(r.0))
    ensures e.order.Some? ==> r.0 == e.order.value
    ensures Coherent(e) ==> r.0 == Head(e.orders) && Coherent(r.1)
  {
    match e.order
    case Some(o) => (o, e)
    case None => var o := Head(e.orders); (o, e.(order := Some(o)))
  }

  /** The state a read leaves behind: the cache filled, nothing else changed. */
  function Touch(e: Edge): Edge {
    GetOrder(e).1
  }

  /** Touching is idempotent and invisible to every later read. */
  lemma TouchIsInvisible(e: Edge)
    ensures Touch(Touch(e)) == Touch(e)
    ensures GetOrder(Touch(e)).0 == GetOrder(e).0
    ensures Touch(e).(order := e.order) == e
    ensures Coherent(e) ==> Coherent(Touch(e))
  {
  }

  /** The head price may be divided by: a reverse edge never quotes price 0. */
  predicate Probeable(e: Edge) {
    e.forward || GetOrder(e).0.price != 0.0
  }

  /** `getRatio` never divides by zero: an empty head short-circuits first. */
  predicate Quotable(e: Edge) {
    GetOrder(e).0.IsEmpty() || Probeable(e)
  }

  /** Destination units per source unit at the head level, net of the fee. */
  function GetRatio(e: Edge): (r: (real, Edge))
    requires Quotable(e)
    ensures r.1 == Touch(e)
    ensures GetOrder(e).0.IsEmpty() ==> r.0 == 0.0
    ensures e.reminder > 0.0 && GetOrder(e).0.price >= 0.0 ==>
              (r.0 > 0.0 <==> !GetOrder(e).0.IsEmpty() && GetOrder(e).0.price > 0.0)
    ensures !GetOrder(e).0.IsEmpty() && e.forward ==> r.0 == GetOrder(e).0.price * e.reminder
    ensures !GetOrder(e).0.IsEmpty() && !e.forward ==> r.0 * GetOrder(e).0.price == e.reminder
  {
    var (o, e') := GetOrder(e);
    if o.IsEmpty() then (0.0, e')
    else
      var ratio := if e.forward then o.price else 1.0 / o.price;
      (ratio * e.reminder, e')
  }

  /** The rate an edge quotes, without the cache effect. */
  function Rate(e: Edge): real
    requires Quotable(e)
  {
    GetRatio(e).0
  }

  /** What the capacity probe reports: the fraction of the proposed input
      the head level can absorb, and a provisional next-stage volume. */
  datatype Filling = Filling(percent: real, volume: real)

  /** The capacity probe `calculateVolumeFilling`. On a forward edge the
      provisional volume omits the price factor, exactly as written. */
  function CalculateVolumeFilling(e: Edge, inVolume: real): (r: (Filling, Edge))
    requires inVolume != 0.0
    requires Probeable(e)
    ensures r.1 == Touch(e)
    ensures var o := GetOrder(e).0;
            var depth := o.volume * (if e.forward then 1.0 else o.price);
            inVolume > 0.0 && depth >= 0.0 ==>
              && 0.0 <= r.0.percent <= 1.0
              && (r.0.percent == 1.0 <==> depth >= inVolume)
              && (r.0.percent == 0.0 <==> depth == 0.0)
  {
    var (o, e') := GetOrder(e);
    var depth := o.volume * (if e.forward then 1.0 else o.price);
    CoveredShare(inVolume, depth);
    var ratio := Min(inVolume, depth) / inVolume;
    var volume := Min(inVolume / (if e.forward then 1.0 else o.price), o.volume) * e.reminder;
    (Filling(ratio, volume), e')
  }

  /** The amounts one execution moves: base volume taken from the head,
      source currency spent, destination currency received. */
  datatype Trade = Trade(filled: real, spent: real, got: real)

  /** The arithmetic of `exchange` against the head level. */
  function Fill(e: Edge, inVolume: real): Trade
    requires Probeable(e)
  {
    var o := GetOrder(e).0;
    if e.forward then
      var filled := Min(inVolume, o.volume);
      Trade(filled, filled, filled * o.price * e.reminder)
    else
      var filled := Min(inVolume / o.price, o.volume);
      Trade(filled, filled * o.price, filled * e.reminder)
  }

  /** Takes `volume` off the head level, popping it (and clearing the cache)
      once nothing positive remains. */
  function ReduceOrderVolume(e: Edge, volume: real): (r: Edge)
    requires |e.orders| > 0 && e.order.Some?
    ensures var remaining := e.orders[0].volume - volume;
            if remaining <= 0.0 then
              r.orders == e.orders[1..] && r.order == None
            else
              && |r.orders| == |e.orders|
              && r.orders[0] == Order(e.orders[0].price, remaining)
              && r.orders[1..] == e.orders[1..]
              && r.order == Some(e.order.value.(volume := remaining))
    ensures r.(orders := e.orders, order := e.order) == e
  {
    var remaining := e.orders[0].volume - volume;
    var e' := e.(orders := e.orders[0 := e.orders[0].(volume := remaining)],
                 order := Some(e.order.value.(volume := remaining)));
    if remaining <= 0.0 then e'.(orders := e'.orders[1..], order := None) else e'
  }

  /** Executes `inVolume` against the head level and returns what was received. */
  function Exchange(e: Edge, inVolume: real): (r: (real, Edge))
    requires |e.orders| > 0
    requires Probeable(e)
    ensures var t := Fill(e, inVolume);
            && r.0 == t.got
            && r.1.inVolume == e.inVolume + t.spent
            && r.1.outVolume == e.outVolume + t.got
    ensures r.1.from == e.from && r.1.to == e.to && r.1.pair == e.pair
    ensures r.1.forward == e.forward && r.1.reminder == e.reminder
    ensures var remaining := e.orders[0].volume - Fill(e, inVolume).filled;
            if remaining <= 0.0 then
              r.1.orders == e.orders[1..] && r.1.order == None
            else
              && |r.1.orders| == |e.orders|
              && r.1.orders[0] == Order(e.orders[0].price, remaining)
              && r.1.orders[1..] == e.orders[1..]
    ensures Coherent(e) ==> Coherent(r.1)
  {
    var t := Fill(e, inVolume);
    var e' := ReduceOrderVolume(Touch(e), t.filled);
    (t.got, e'.(inVolume := e.inVolume + t.spent, outVolume := e.outVolume + t.got))
  }

  /** Binding a book to an edge whose cache is empty leaves it coherent. */
  lemma SetDataKeepsCoherence(e: Edge, orders: seq<Order>)
    requires e.order == None
    ensures Coherent(SetData(e, orders))
    ensures GetOrder(SetData(e, orders)).0 == Head(orders)
  {
  }

  /** Exchange bounds: the filled volume never exceeds the head volume, the
      amount spent never exceeds the input, nothing is negative, so the
      accumulated totals never decrease. */
  lemma ExchangeBounds(e: Edge, inVolume: real)
    requires |e.orders| > 0 && Probeable(e)
    requires inVolume >= 0.0 && e.reminder >= 0.0
    requires GetOrder(e).0.volume >= 0.0 && GetOrder(e).0.price >= 0.0
    ensures var t := Fill(e, inVolume);
            && 0.0 <= t.filled <= GetOrder(e).0.volume
            && 0.0 <= t.spent <= inVolume
            && 0.0 <= t.got
    ensures Exchange(e, inVolume).1.inVolume >= e.inVolume
    ensures Exchange(e, inVolume).1.outVolume >= e.outVolume
  {
    var o := GetOrder(e).0;
    var t := Fill(e, inVolume);
    if !e.forward {
      assert t.filled <= inVolume / o.price;
      assert t.filled * o.price <= inVolume / o.price * o.price;
    }
  }

  /** The probe against the execution from the same state: its percent is the
      share of the input the execution spends, and its provisional volume is
      what the execution returns on a reverse edge but the price-free base
      volume on a forward edge. */
  lemma ProbeVersusExchange(e: Edge, inVolume: real)
    requires inVolume != 0.0 && Probeable(e)
    requires e.forward || GetOrder(e).0.price > 0.0
    ensures CalculateVolumeFilling(e, inVolume).0.percent * inVolume == Fill(e, inVolume).spent
    ensures !e.forward ==> CalculateVolumeFilling(e, inVolume).0.volume == Fill(e, inVolume).got
    ensures e.forward ==>
              CalculateVolumeFilling(e, inVolume).0.volume * GetOrder(e).0.price == Fill(e, inVolume).got
  {
    if e.forward {
      ForwardProbe(e, inVolume);
    } else {
      ReverseProbe(e, inVolume);
    }
  }

  lemma ForwardProbe(e: Edge, inVolume: real)
    requires inVolume != 0.0 && Probeable(e) && e.forward
    ensures CalculateVolumeFilling(e, inVolume).0.percent * inVolume == Fill(e, inVolume).spent
    ensures CalculateVolumeFilling(e, inVolume).0.volume * GetOrder(e).0.price == Fill(e, inVolume).got
  {
    var o := GetOrder(e).0;
    var m := Min(inVolume, o.volume);
    assert inVolume / 1.0 == inVolume && o.volume * 1.0 == o.volume;
    ShareOfInput(inVolume, o.volume);
    Reorder(m, e.reminder, o.price);
  }

  lemma ReverseProbe(e: Edge, inVolume: real)
    requires inVolume != 0.0 && Probeable(e) && !e.forward && GetOrder(e).0.price > 0.0
    ensures CalculateVolumeFilling(e, inVolume).0.percent * inVolume == Fill(e, inVolume).spent
    ensures CalculateVolumeFilling(e, inVolume).0.volume == Fill(e, inVolume).got
  {
    var o := GetOrder(e).0;
    ShareOfInput(inVolume, o.volume * o.price);
    ScaledMin(inVolume, o.price, o.volume);
  }

  /** The share of the input a cap covers, scaled back, is the capped amount. */
  lemma ShareOfInput(a: real, d: real)
    requires a != 0.0
    ensures Min(a, d) / a * a == Min(a, d)
  {
  }

  lemma Reorder(m: real, r: real, p: real)
    ensures m * r * p == m * p * r
  {
  }

  /** Converting a cap from base to quote units commutes with `min`. */
  lemma ScaledMin(a: real, p: real, v: real)
    requires p > 0.0
    ensures Min(a / p, v) * p == Min(a, v * p)
  {
    assert a / p * p == a;
    if a / p <= v {
      assert a / p * p <= v * p;
    } else {
      assert v * p < a / p * p;
    }
  }

  /** When the head level covers the whole input, the execution yields exactly
      the quoted rate. */
  lemma ExchangeRealisesRatio(e: Edge, inVolume: real)
    requires Probeable(e) && !GetOrder(e).0.IsEmpty()
    requires e.forward || GetOrder(e).0.price > 0.0
    requires inVolume <= GetOrder(e).0.volume * (if e.forward then 1.0 else GetOrder(e).0.price)
    ensures Fill(e, inVolume).got == inVolume * Rate(e)
  {
    var o := GetOrder(e).0;
    if !e.forward {
      assert inVolume / o.price <= o.volume by {
        assert inVolume / o.price * o.price <= o.volume * o.price;
      }
    }
  }

  /** Every level of a bound book side quotes a positive price and a
      non-negative volume. */
  predicate BookOk(orders: seq<Order>) {
    forall i :: 0 <= i < |orders| ==> orders[i].price > 0.0 && orders[i].volume >= 0.0
  }

  /** The state of an edge during settlement: coherent cache, a positive fee
      retention, a well-formed book side and non-negative totals. */
  predicate Sane(e: Edge) {
    && Coherent(e)
    && e.reminder > 0.0
    && BookOk(e.orders)
    && e.inVolume >= 0.0
    && e.outVolume >= 0.0
  }

  /** A sane edge can always be quoted, and a positive quote means a real,
      non-empty head level behind it. */
  lemma SaneQuotes(e: Edge)
    requires Sane(e)
    ensures Quotable(e) && Rate(e) >= 0.0 && Sane(Touch(e))
    ensures Rate(e) > 0.0 ==>
              && |e.orders| > 0 && Probeable(e)
              && GetOrder(e).0.volume > 0.0 && GetOrder(e).0.price > 0.0
  {
    if |e.orders| > 0 {
      assert e.orders[0].price > 0.0;
    }
  }

  /** Executing a non-negative volume keeps a sane edge sane. */
  lemma SaneAfterExchange(e: Edge, inVolume: real)
    requires Sane(e) && |e.orders| > 0 && inVolume >= 0.0
    ensures Probeable(e)
    ensures Sane(Exchange(e, inVolume).1)
  {
    assert e.orders[0].price > 0.0;
    ExchangeBounds(e, inVolume);
    var e' := Exchange(e, inVolume).1;
    forall i | 0 <= i < |e'.orders|
      ensures e'.orders[i].price > 0.0 && e'.orders[i].volume >= 0.0
    {
      if e'.orders != e.orders[1..] {
        if i > 0 {
          assert e'.orders[i] == e'.orders[1..][i - 1] == e.orders[i];
        }
      } else {
        assert e'.orders[i] == e.orders[i + 1];
      }
    }
  }

  /** A forward BTC/USDT-style edge at price 2, volume 50, taker fee 0.001,
      given 10: the probe reports a full fill and (as written) 9.99; the
      execution spends 10, returns 19.98 and leaves 40 on the head level. */
  lemma DeepHeadScenario()
    ensures var e := SetData(NewEdge("X", "Y", 0.999, true), [Order(2.0, 50.0), Order(1.5, 7.0)]);
            && CalculateVolumeFilling(e, 10.0).0 == Filling(1.0, 9.99)
            && Fill(e, 10.0) == Trade(10.0, 10.0, 19.98)
            && Exchange(e, 10.0).0 == 19.98
            && Exchange(e, 10.0).1.orders == [Order(2.0, 40.0), Order(1.5, 7.0)]
  {
  }

  /** The same edge with only 5 left on the head level, given 10: the probe
      reports half, and the execution drains the head, pops it and clears the
      cache, so the next read sees the next level. */
  lemma ShallowHeadScenario()
    ensures var e := SetData(NewEdge("X", "Y", 0.999, true), [Order(2.0, 5.0), Order(1.5, 7.0)]);
            && CalculateVolumeFilling(e, 10.0).0.percent == 0.5
            && Exchange(e, 10.0).1.orders == [Order(1.5, 7.0)]
            && Exchange(e, 10.0).1.order == None
            && GetOrder(Exchange(e, 10.0).1).0 == Order(1.5, 7.0)
  {
  }
}
