/** Routes through the currency graph, referring to edges by key so that
    every route crossing a market sees the same, shared edge state. */
module Paths {
  import opened Common
  import opened Edges
  import opened Graphs

  /** A route: the currencies it visits and the keys of its edges. */
  datatype Path = Path(currencies: seq<Currency>, edges: seq<EdgeKey>)

  /** The shared edge store: one edge per `(from, to)` key. */
  type Store = map<EdgeKey, Edge>

  /** Appends an edge at the end; the earlier edges stay where they were. */
  function AddEdge(p: Path, k: EdgeKey): (r: Path)
    ensures r.currencies == p.currencies
    ensures |r.edges| == |p.edges| + 1
    ensures r.edges[..|p.edges|] == p.edges && r.edges[|p.edges|] == k
  {
    p.(edges := p.edges + [k])
  }

  /** Edge `i` links currency `i` to currency `i + 1`. */
  predicate Shaped(p: Path) {
    && |p.edges| == |p.currencies| - 1
    && forall i :: 0 <= i < |p.edges| ==> p.edges[i] == (p.currencies[i], p.currencies[i + 1])
  }

  /** A shaped route that visits no currency twice crosses no edge twice. */
  lemma SimpleRouteHasDistinctEdges(p: Path)
    requires Shaped(p) && Distinct(p.currencies)
    ensures Distinct(p.edges)
  {
    forall i, j | 0 <= i < j < |p.edges|
      ensures p.edges[i] != p.edges[j]
    {
      assert p.edges[i] == (p.currencies[i], p.currencies[i + 1]);
      assert p.edges[j] == (p.currencies[j], p.currencies[j + 1]);
    }
  }

  /** Every key is in the store and its edge can be quoted. */
  predicate OnStore(store: Store, keys: seq<EdgeKey>) {
    forall i :: 0 <= i < |keys| ==> keys[i] in store && Quotable(store[keys[i]])
  }

  /** The product of a sequence of rates, 1 for none. */
  function Product(rs: seq<real>): real
    decreases |rs|
  {
    if |rs| == 0 then 1.0 else rs[0] * Product(rs[1..])
  }

  /** The rate each edge of the route quotes, in order. */
  function Rates(store: Store, keys: seq<EdgeKey>): (rs: seq<real>)
    requires OnStore(store, keys)
    ensures |rs| == |keys|
    decreases |keys|
  {
    if |keys| == 0 then [] else [Rate(store[keys[0]])] + Rates(store, keys[1..])
  }

  lemma {:induction false} RatesAt(store: Store, keys: seq<EdgeKey>, i: nat)
    requires OnStore(store, keys) && i < |keys|
    ensures Rates(store, keys)[i] == Rate(store[keys[i]])
    decreases |keys|
  {
    if i > 0 {
      RatesAt(store, keys[1..], i - 1);
    }
  }

  /** The route's rate: the product of its edges' rates. */
  function Ratio(store: Store, keys: seq<EdgeKey>): real
    requires OnStore(store, keys)
  {
    Product(Rates(store, keys))
  }

  /** `s'` differs from `s` at most by filled head caches. */
  predicate Touched(s: Store, s': Store) {
    && s'.Keys == s.Keys
    && forall k :: k in s ==> s'[k] == s[k] || s'[k] == Touch(s[k])
  }

  lemma TouchedTransitive(s: Store, s': Store, s'': Store)
    requires Touched(s, s') && Touched(s', s'')
    ensures Touched(s, s'')
  {
    forall k | k in s ensures s''[k] == s[k] || s''[k] == Touch(s[k]) {
      TouchIsInvisible(s[k]);
    }
  }

  lemma TouchOne(s: Store, k: EdgeKey)
    requires k in s
    ensures Touched(s, s[k := Touch(s[k])])
  {
  }

  /** Filled caches change no rate, so they change no route's rate. */
  lemma {:induction false} RatesIgnoreTouches(s: Store, s': Store, keys: seq<EdgeKey>)
    requires Touched(s, s') && OnStore(s, keys)
    ensures OnStore(s', keys)
    ensures Rates(s', keys) == Rates(s, keys)
    decreases |keys|
  {
    forall i | 0 <= i < |keys| ensures Quotable(s'[keys[i]]) && Rate(s'[keys[i]]) == Rate(s[keys[i]]) {
      TouchIsInvisible(s[keys[i]]);
    }
    if |keys| > 0 {
      RatesIgnoreTouches(s, s', keys[1..]);
    }
  }

  /** The `getRatio` value of each edge in order, each read filling that
      edge's cache in the shared store. */
  function GetRates(store: Store, keys: seq<EdgeKey>): (r: (seq<real>, Store))
    requires OnStore(store, keys)
    ensures r.0 == Rates(store, keys)
    ensures Touched(store, r.1)
    ensures forall k :: k in store ==> r.1[k] == if k in keys then Touch(store[k]) else store[k]
    decreases |keys|
  {
    if |keys| == 0 then ([], store)
    else
      var k := keys[0];
      var head := Edges.GetRatio(store[k]);
      var s1 := store[k := head.1];
      TouchOne(store, k);
      RatesIgnoreTouches(store, s1, keys[1..]);
      var tail := GetRates(s1, keys[1..]);
      TouchedTransitive(store, s1, tail.1);
      forall k' | k' in store ensures tail.1[k'] == if k' in keys then Touch(store[k']) else store[k'] {
        TouchIsInvisible(store[k']);
      }
      ([head.0] + tail.0, tail.1)
  }

  /** `Path::getRatio`: the product of the edges' `getRatio` values, taken in
      order; the reads fill the edges' caches and change nothing else. */
  function GetRatio(store: Store, keys: seq<EdgeKey>): (r: (real, Store))
    requires OnStore(store, keys)
    ensures r.0 == Ratio(store, keys)
    ensures |keys| == 0 ==> r.0 == 1.0
    ensures Touched(store, r.1)
    ensures forall k :: k in store ==> r.1[k] == if k in keys then Touch(store[k]) else store[k]
  {
    var (rs, s') := GetRates(store, keys);
    (Product(rs), s')
  }

  /** A single-hop route has exactly its edge's rate. */
  lemma SingleHopRatio(store: Store, k: EdgeKey)
    requires k in store && Quotable(store[k])
    ensures Ratio(store, [k]) == Rate(store[k])
  {
    assert [k][1..] == [];
    var x := Rate(store[k]);
    assert Rates(store, [k]) == [x];
    assert [x][1..] == [];
    assert Product([x]) == x * 1.0;
  }

  /** One zero factor makes the product zero. */
  lemma {:induction false} ZeroFactor(rs: seq<real>, i: nat)
    requires i < |rs| && rs[i] == 0.0
    ensures Product(rs) == 0.0
    decreases |rs|
  {
    if i > 0 {
      ZeroFactor(rs[1..], i - 1);
    }
  }

  /** Non-negative factors give a non-negative product. */
  lemma {:induction false} NonNegativeFactors(rs: seq<real>)
    requires forall i :: 0 <= i < |rs| ==> rs[i] >= 0.0
    ensures Product(rs) >= 0.0
    decreases |rs|
  {
    if |rs| > 0 {
      NonNegativeFactors(rs[1..]);
    }
  }

  /** One edge quoting 0 makes the whole route quote 0. */
  lemma ZeroEdgeZeroRatio(store: Store, keys: seq<EdgeKey>, i: nat)
    requires OnStore(store, keys) && i < |keys| && Rate(store[keys[i]]) == 0.0
    ensures Ratio(store, keys) == 0.0
  {
    RatesAt(store, keys, i);
    ZeroFactor(Rates(store, keys), i);
  }

  /** Non-negative edge rates give a non-negative route rate. */
  lemma NonNegativeRatio(store: Store, keys: seq<EdgeKey>)
    requires OnStore(store, keys)
    requires forall i :: 0 <= i < |keys| ==> Rate(store[keys[i]]) >= 0.0
    ensures Ratio(store, keys) >= 0.0
  {
    forall i | 0 <= i < |keys| ensures Rates(store, keys)[i] >= 0.0 {
      RatesAt(store, keys, i);
    }
    NonNegativeFactors(Rates(store, keys));
  }

  /** With non-negative edge rates, a positive route rate means every edge
      quotes a positive rate. */
  lemma PositiveRatioPositiveEdges(store: Store, keys: seq<EdgeKey>)
    requires OnStore(store, keys)
    requires forall i :: 0 <= i < |keys| ==> Rate(store[keys[i]]) >= 0.0
    requires Ratio(store, keys) > 0.0
    ensures forall i :: 0 <= i < |keys| ==> Rate(store[keys[i]]) > 0.0
  {
    forall i | 0 <= i < |keys| ensures Rate(store[keys[i]]) > 0.0 {
      if Rate(store[keys[i]]) == 0.0 {
        ZeroEdgeZeroRatio(store, keys, i);
      }
    }
  }

  /** `Path::__toString`: the currencies joined with "->". */
  function Label(currencies: seq<Currency>): string
    decreases |currencies|
  {
    if |currencies| == 0 then ""
    else if |currencies| == 1 then currencies[0]
    else currencies[0] + "->" + Label(currencies[1..])
  }

  /** Extending a route by one currency extends its label by "->" and that
      currency; a two-currency route is labelled like its single edge. */
  lemma {:induction false} LabelExtends(currencies: seq<Currency>, c: Currency)
    requires |currencies| > 0
    ensures Label(currencies + [c]) == Label(currencies) + "->" + c
    decreases |currencies|
  {
    if |currencies| > 1 {
      assert (currencies + [c])[1..] == currencies[1..] + [c];
      LabelExtends(currencies[1..], c);
    } else {
      assert (currencies + [c])[1..] == [c];
    }
  }

  lemma TwoCurrencyLabel(e: Edge)
    ensures Label([e.from, e.to]) == ToString(e)
  {
    assert [e.from, e.to][1..] == [e.to];
  }

  /** Every edge of the store is sane. */
  predicate AllSane(store: Store) {
    forall k :: k in store ==> Sane(store[k])
  }
}
