/** Building the currency graph from the exchange's market list. */
module Network {
  import opened Common
  import opened Edges
  import opened Graphs

  /** A market as the exchange lists it. `active` is absent when the exchange
      does not say; only an explicit `false` marks a market inactive. */
  datatype Market = Market(base: Currency, quote: Currency, active: Option<bool>, taker: real)

  /** The fixed allow-list of sufficiently liquid currencies. */
  const AvailableCurrencies: seq<Currency> :=
    ["BTC", "ETH", "USDT", "USDC", "BNB", "BUSD", "XRP", "LTC", "TRX", "DOT"]

  /** Markets that enter the graph: not flagged inactive, both currencies allowed. */
  predicate Eligible(m: Market) {
    && m.active != Some(false)
    && m.base in AvailableCurrencies
    && m.quote in AvailableCurrencies
  }

  /** The market's forward edge base->quote. */
  function ForwardEdge(m: Market): Edge {
    NewEdge(m.base, m.quote, 1.0 - m.taker, true)
  }

  /** The market's reverse edge quote->base. */
  function ReverseEdge(m: Market): Edge {
    NewEdge(m.quote, m.base, 1.0 - m.taker, false)
  }

  /** Registers both currencies, then the forward edge on the base node and
      the reverse edge on the quote node. */
  function AddNodeToGraph(g: Graph, m: Market): (r: Graph)
    ensures r.nodes.Keys == g.nodes.Keys + {m.base, m.quote}
    ensures r.edges == g.edges
  {
    var g1 := GetNodeInstance(g, m.base).1;
    var g2 := GetNodeInstance(g1, m.quote).1;
    var g3 := RegisterEdge(g2, ForwardEdge(m));
    RegisterEdge(g3, ReverseEdge(m))
  }

  /** An accepted market yields its forward edge on the base node and its
      reverse edge on the quote node (the reverse one wins if base and quote
      coincide); every other edge is left as it was, and the graph stays
      well formed. */
  lemma AddNodeToGraphEffect(g: Graph, m: Market)
    ensures var r := AddNodeToGraph(g, m);
            && HasEdge(r, m.base, m.quote) && HasEdge(r, m.quote, m.base)
            && (m.base != m.quote ==> r.nodes[m.base].edges[m.quote] == ForwardEdge(m))
            && r.nodes[m.quote].edges[m.base] == ReverseEdge(m)
            && (forall c, d :: (c, d) != (m.base, m.quote) && (c, d) != (m.quote, m.base) ==>
                  (HasEdge(r, c, d) <==> HasEdge(g, c, d)))
            && (forall c, d :: (c, d) != (m.base, m.quote) && (c, d) != (m.quote, m.base) && HasEdge(g, c, d) ==>
                  r.nodes[c].edges[d] == g.nodes[c].edges[d])
    ensures WellFormed(g) ==> WellFormed(AddNodeToGraph(g, m))
  {
    var g1 := GetNodeInstance(g, m.base).1;
    GetNodeInstanceKeepsEdges(g, m.base);
    var g2 := GetNodeInstance(g1, m.quote).1;
    GetNodeInstanceKeepsEdges(g1, m.quote);
    var g3 := RegisterEdge(g2, ForwardEdge(m));
    RegisterEdgeEffect(g2, ForwardEdge(m));
    RegisterEdgeEffect(g3, ReverseEdge(m));
  }

  /** `fillGraph`: visits the markets in order, adding each eligible one. */
  function FillGraph(g: Graph, markets: seq<Market>): (r: Graph)
    ensures r.edges == g.edges
    decreases |markets|
  {
    if |markets| == 0 then g
    else
      var r := FillGraph(g, markets[..|markets| - 1]);
      var m := markets[|markets| - 1];
      if m.active == Some(false) then r
      else if m.base !in AvailableCurrencies then r
      else if m.quote !in AvailableCurrencies then r
      else AddNodeToGraph(r, m)
  }

  lemma {:induction false} FillGraphWellFormed(g: Graph, markets: seq<Market>)
    requires WellFormed(g)
    ensures WellFormed(FillGraph(g, markets))
    decreases |markets|
  {
    if |markets| > 0 {
      FillGraphWellFormed(g, markets[..|markets| - 1]);
      AddNodeToGraphEffect(FillGraph(g, markets[..|markets| - 1]), markets[|markets| - 1]);
    }
  }

  /** Keeps the eligible markets, in order. */
  function EligibleOnly(markets: seq<Market>): (r: seq<Market>)
    ensures forall m :: m in r <==> m in markets && Eligible(m)
    decreases |markets|
  {
    if |markets| == 0 then []
    else
      var rest := EligibleOnly(markets[..|markets| - 1]);
      var m := markets[|markets| - 1];
      assert markets == markets[..|markets| - 1] + [m];
      if Eligible(m) then rest + [m] else rest
  }

  /** Ineligible markets leave no trace: the graph is the one built from the
      eligible markets alone. */
  lemma {:induction false} IneligibleMarketsIgnored(g: Graph, markets: seq<Market>)
    ensures FillGraph(g, markets) == FillGraph(g, EligibleOnly(markets))
    decreases |markets|
  {
    if |markets| > 0 {
      var init := markets[..|markets| - 1];
      var m := markets[|markets| - 1];
      IneligibleMarketsIgnored(g, init);
      var e := EligibleOnly(init);
      if Eligible(m) {
        assert EligibleOnly(markets) == e + [m];
        assert (e + [m])[..|e + [m]| - 1] == e;
      }
    }
  }

  /** The edge `e` is one of the two edges market `m` yields. */
  predicate MadeBy(e: Edge, m: Market) {
    e == ForwardEdge(m) || e == ReverseEdge(m)
  }

  /** Market `m` is eligible and names currency `c`. */
  predicate Lists(m: Market, c: Currency) {
    Eligible(m) && (c == m.base || c == m.quote)
  }

  /** Market `m` is eligible and links `c` to `d`, in either direction. */
  predicate Links(m: Market, c: Currency, d: Currency) {
    Eligible(m) && ((c, d) == (m.base, m.quote) || (c, d) == (m.quote, m.base))
  }

  /** One step of `fillGraph`. */
  function Step(g: Graph, m: Market): Graph {
    if Eligible(m) then AddNodeToGraph(g, m) else g
  }

  lemma FillGraphSnoc(g: Graph, markets: seq<Market>, m: Market)
    ensures FillGraph(g, markets + [m]) == Step(FillGraph(g, markets), m)
  {
    assert (markets + [m])[..|markets|] == markets;
  }

  /** `g` has a node exactly for each currency an eligible market of `ms` names. */
  ghost predicate NodesFrom(g: Graph, ms: seq<Market>) {
    forall c :: c in g.nodes <==> exists m :: m in ms && Lists(m, c)
  }

  /** `g` has an edge c->d exactly when an eligible market of `ms` links them. */
  ghost predicate EdgesFrom(g: Graph, ms: seq<Market>) {
    forall c, d :: HasEdge(g, c, d) <==> exists m :: m in ms && Links(m, c, d)
  }

  /** Every edge of `g` is one an eligible market of `ms` yields. */
  ghost predicate EdgesMadeBy(g: Graph, ms: seq<Market>) {
    forall c, d :: HasEdge(g, c, d) ==> exists m :: m in ms && Eligible(m) && MadeBy(g.nodes[c].edges[d], m)
  }

  /** What one step of `fillGraph` does, stated without the step itself:
      an eligible market registers its two currencies and links them both
      ways with its own edges; every other edge stays as it was. */
  ghost predicate StepOutcome(g: Graph, r: Graph, m: Market) {
    && r.nodes.Keys == g.nodes.Keys + (if Eligible(m) then {m.base, m.quote} else {})
    && (forall c, d :: HasEdge(r, c, d) <==> HasEdge(g, c, d) || Links(m, c, d))
    && (forall c, d :: HasEdge(r, c, d) && Links(m, c, d) ==> MadeBy(r.nodes[c].edges[d], m))
    && (forall c, d :: HasEdge(r, c, d) && !Links(m, c, d) ==> r.nodes[c].edges[d] == g.nodes[c].edges[d])
  }

  lemma StepOutcomeHolds(g: Graph, m: Market)
    ensures StepOutcome(g, Step(g, m), m)
  {
    if Eligible(m) {
      AddNodeOutcome(g, m);
    } else {
      assert Step(g, m) == g;
    }
  }

  lemma AddNodeOutcome(g: Graph, m: Market)
    requires Eligible(m)
    ensures StepOutcome(g, Step(g, m), m)
  {
    var r := AddNodeToGraph(g, m);
    assert Step(g, m) == r;
    AddNodeToGraphEffect(g, m);
    assert forall c, d :: Links(m, c, d) <==> (c, d) == (m.base, m.quote) || (c, d) == (m.quote, m.base);
    forall c, d | HasEdge(r, c, d) && Links(m, c, d) ensures MadeBy(r.nodes[c].edges[d], m) {
      if (c, d) != (m.quote, m.base) {
        assert (c, d) == (m.base, m.quote) && m.base != m.quote;
      }
    }
  }

  lemma StepNodes(g: Graph, r: Graph, ms: seq<Market>, m: Market)
    requires NodesFrom(g, ms) && StepOutcome(g, r, m)
    ensures NodesFrom(r, ms + [m])
  {
    forall c ensures c in r.nodes <==> exists m' :: m' in ms + [m] && Lists(m', c) {
      if c in r.nodes {
        if c in g.nodes {
          var m' :| m' in ms && Lists(m', c);
          assert m' in ms + [m];
        } else {
          assert Lists(m, c) && m in ms + [m];
        }
      }
      if exists m' :: m' in ms + [m] && Lists(m', c) {
        var m' :| m' in ms + [m] && Lists(m', c);
        assert m' in ms || m' == m;
      }
    }
  }

  lemma StepEdges(g: Graph, r: Graph, ms: seq<Market>, m: Market)
    requires EdgesFrom(g, ms) && StepOutcome(g, r, m)
    ensures EdgesFrom(r, ms + [m])
  {
    var ms' := ms + [m];
    forall c, d | HasEdge(r, c, d) ensures exists m' :: m' in ms' && Links(m', c, d) {
      if Links(m, c, d) {
        assert m in ms';
      } else {
        var m' :| m' in ms && Links(m', c, d);
        assert m' in ms';
      }
    }
    forall c, d, m' | m' in ms' && Links(m', c, d) ensures HasEdge(r, c, d) {
      assert m' in ms || m' == m;
    }
  }

  lemma StepMadeBy(g: Graph, r: Graph, ms: seq<Market>, m: Market)
    requires EdgesMadeBy(g, ms) && StepOutcome(g, r, m)
    ensures EdgesMadeBy(r, ms + [m])
  {
    forall c, d | HasEdge(r, c, d)
      ensures exists m' :: m' in ms + [m] && Eligible(m') && MadeBy(r.nodes[c].edges[d], m')
    {
      if Links(m, c, d) {
        assert m in ms + [m];
      } else {
        var m' :| m' in ms && Eligible(m') && MadeBy(g.nodes[c].edges[d], m');
        assert m' in ms + [m];
      }
    }
  }

  /** What the graph built from scratch holds: a node exactly for each
      currency of an eligible market (so only allowed currencies), an edge
      c->d exactly when an eligible market links c and d in either
      direction, and every edge is one of the two edges some eligible market
      yields, with that market's fee. */
  lemma {:induction false} FillGraphContents(markets: seq<Market>)
    ensures var r := FillGraph(EmptyGraph, markets);
            && NodesFrom(r, markets)
            && (forall c :: c in r.nodes ==> c in AvailableCurrencies)
            && EdgesFrom(r, markets)
            && EdgesMadeBy(r, markets)
    decreases |markets|
  {
    var r := FillGraph(EmptyGraph, markets);
    if |markets| > 0 {
      var init := markets[..|markets| - 1];
      var m := markets[|markets| - 1];
      assert markets == init + [m];
      FillGraphContents(init);
      FillGraphSnoc(EmptyGraph, init, m);
      var g := FillGraph(EmptyGraph, init);
      StepOutcomeHolds(g, m);
      StepNodes(g, r, init, m);
      StepEdges(g, r, init, m);
      StepMadeBy(g, r, init, m);
    }
    forall c | c in r.nodes ensures c in AvailableCurrencies {
      var m :| m in markets && Lists(m, c);
    }
  }
}
