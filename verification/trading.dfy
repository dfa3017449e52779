/** Trading along one path: the capacity probe and the execution that
    `exchange` runs, and the facts that keep them well defined. */
module Trading {
  import opened Common
  import opened Edges
  import opened Graphs
  import opened Paths

  /** The capacity probe can run along `keys` from `inVolume` without
      dividing by zero: every stage receives a non-zero volume and a reverse
      edge never meets a zero price. */
  predicate ProbeSafe(store: Store, keys: seq<EdgeKey>, inVolume: real)
    decreases |keys|
  {
    |keys| == 0 ||
    (&& keys[0] in store
     && inVolume != 0.0
     && Probeable(store[keys[0]])
     && ProbeSafe(store, keys[1..], CalculateVolumeFilling(store[keys[0]], inVolume).0.volume))
  }

  /** The fill fraction the first loop of `exchange` computes: the product
      of the edges' fractions, each edge probed with the previous edge's
      provisional volume. The probe's reads fill caches, which changes no
      value read (see `TouchIsInvisible`), so the values are read from the
      store as it was and the caches are filled by `TouchAll`. */
  function Probe(store: Store, keys: seq<EdgeKey>, inVolume: real): real
    requires ProbeSafe(store, keys, inVolume)
    decreases |keys|
  {
    if |keys| == 0 then 1.0
    else
      var f := CalculateVolumeFilling(store[keys[0]], inVolume).0;
      f.percent * Probe(store, keys[1..], f.volume)
  }

  /** The store after reading the head level of every edge of `keys`. */
  function TouchAll(store: Store, keys: seq<EdgeKey>): (r: Store)
    requires forall j :: 0 <= j < |keys| ==> keys[j] in store
    ensures Touched(store, r)
    ensures forall k :: k in store ==> r[k] == if k in keys then Touch(store[k]) else store[k]
    decreases |keys|
  {
    if |keys| == 0 then store
    else
      var s1 := store[keys[0] := Touch(store[keys[0]])];
      TouchOne(store, keys[0]);
      var r := TouchAll(s1, keys[1..]);
      TouchedTransitive(store, s1, r);
      forall k | k in store ensures r[k] == if k in keys then Touch(store[k]) else store[k] {
        TouchIsInvisible(store[k]);
      }
      r
  }

  /** The execution along `keys` is possible: no edge twice, and each has a
      level to trade against. */
  predicate ExecSafe(store: Store, keys: seq<EdgeKey>) {
    && Distinct(keys)
    && forall j :: 0 <= j < |keys| ==>
         keys[j] in store && |store[keys[j]].orders| > 0 && Probeable(store[keys[j]])
  }

  /** An edge the best route can use: sane and quoting a positive rate. */
  predicate Live(e: Edge) {
    Sane(e) && Quotable(e) && Rate(e) > 0.0
  }

  predicate LiveRoute(store: Store, keys: seq<EdgeKey>) {
    forall j :: 0 <= j < |keys| ==> keys[j] in store && Live(store[keys[j]])
  }

  /** Filled caches change neither sanity nor rates. */
  lemma TouchedEdge(s: Store, s': Store, k: EdgeKey)
    requires Touched(s, s') && k in s && Sane(s[k])
    ensures Sane(s'[k]) && Quotable(s'[k]) && Rate(s'[k]) == Rate(s[k])
    ensures |s'[k].orders| == |s[k].orders| && (Probeable(s'[k]) <==> Probeable(s[k]))
    ensures GetOrder(s'[k]).0 == GetOrder(s[k]).0
  {
    SaneQuotes(s[k]);
    TouchIsInvisible(s[k]);
  }

  lemma LiveUnderTouch(s: Store, s': Store, keys: seq<EdgeKey>)
    requires Touched(s, s') && LiveRoute(s, keys)
    ensures LiveRoute(s', keys)
  {
    forall j | 0 <= j < |keys| ensures keys[j] in s' && Live(s'[keys[j]]) {
      TouchedEdge(s, s', keys[j]);
    }
  }

  lemma SaneUnderTouch(s: Store, s': Store)
    requires Touched(s, s') && AllSane(s)
    ensures AllSane(s')
  {
    forall k | k in s' ensures Sane(s'[k]) {
      TouchedEdge(s, s', k);
    }
  }

  /** A sane store quotes every path that lies on it. */
  lemma SaneStoreQuotes(store: Store, keys: seq<EdgeKey>)
    requires AllSane(store) && forall j :: 0 <= j < |keys| ==> keys[j] in store
    ensures OnStore(store, keys)
    ensures forall j :: 0 <= j < |keys| ==> Rate(store[keys[j]]) >= 0.0
  {
    forall j | 0 <= j < |keys| ensures Quotable(store[keys[j]]) && Rate(store[keys[j]]) >= 0.0 {
      SaneQuotes(store[keys[j]]);
    }
  }

  /** On a sane store, a route quoting above 0 is live on every edge. */
  lemma PositiveRatioLive(store: Store, keys: seq<EdgeKey>)
    requires AllSane(store) && OnStore(store, keys) && Ratio(store, keys) > 0.0
    ensures LiveRoute(store, keys)
  {
    SaneStoreQuotes(store, keys);
    PositiveRatioPositiveEdges(store, keys);
  }

  /** One probe stage on a live edge: no division by zero, a fill fraction
      in (0, 1] and a positive volume for the next stage. */
  lemma LiveStage(e: Edge, inVolume: real)
    requires Live(e) && inVolume > 0.0
    ensures Probeable(e)
    ensures var f := CalculateVolumeFilling(e, inVolume).0;
            0.0 < f.percent <= 1.0 && f.volume > 0.0
  {
    SaneQuotes(e);
    var o := GetOrder(e).0;
    var f := CalculateVolumeFilling(e, inVolume).0;
    assert o.volume * (if e.forward then 1.0 else o.price) > 0.0;
    assert inVolume / (if e.forward then 1.0 else o.price) > 0.0;
    assert f.volume == Min(inVolume / (if e.forward then 1.0 else o.price), o.volume) * e.reminder;
  }

  /** Fractions multiply to a fraction; positive ones to a positive one. */
  lemma FractionProduct(a: real, b: real)
    requires 0.0 <= a <= 1.0 && 0.0 <= b <= 1.0
    ensures 0.0 <= a * b <= 1.0
    ensures a > 0.0 && b > 0.0 ==> a * b > 0.0
  {
    assert a * b <= a * 1.0;
  }

  /** `FractionProduct` for a product already named `c`. */
  lemma FractionBound(a: real, b: real, c: real)
    requires 0.0 <= a <= 1.0 && 0.0 <= b <= 1.0 && c == a * b
    ensures 0.0 <= c <= 1.0
    ensures a > 0.0 && b > 0.0 ==> c > 0.0
  {
    FractionProduct(a, b);
  }

  /** The probe of a route is its first stage's fraction times the probe
      of the rest. */
  lemma ProbeCons(store: Store, keys: seq<EdgeKey>, inVolume: real, f: Filling)
    requires |keys| > 0 && ProbeSafe(store, keys, inVolume)
    requires f == CalculateVolumeFilling(store[keys[0]], inVolume).0
    ensures ProbeSafe(store, keys[1..], f.volume)
    ensures Probe(store, keys, inVolume) == f.percent * Probe(store, keys[1..], f.volume)
  {
  }

  /** Along a live route the probe never divides by zero. */
  lemma {:induction false} LiveProbeSafe(store: Store, keys: seq<EdgeKey>, inVolume: real)
    requires LiveRoute(store, keys) && inVolume > 0.0
    ensures ProbeSafe(store, keys, inVolume)
    decreases |keys|
  {
    if |keys| > 0 {
      LiveStage(store[keys[0]], inVolume);
      var f := CalculateVolumeFilling(store[keys[0]], inVolume).0;
      assert LiveRoute(store, keys[1..]);
      LiveProbeSafe(store, keys[1..], f.volume);
    }
  }

  /** Along a live route the probe reports a fill fraction between 0 and 1. */
  lemma {:induction false} LiveProbe(store: Store, keys: seq<EdgeKey>, inVolume: real)
    requires LiveRoute(store, keys) && inVolume > 0.0
    ensures ProbeSafe(store, keys, inVolume) && 0.0 <= Probe(store, keys, inVolume) <= 1.0
    decreases |keys|
  {
    LiveProbeSafe(store, keys, inVolume);
    if |keys| > 0 {
      LiveStage(store[keys[0]], inVolume);
      var f := CalculateVolumeFilling(store[keys[0]], inVolume).0;
      assert LiveRoute(store, keys[1..]);
      LiveProbe(store, keys[1..], f.volume);
      ProbeCons(store, keys, inVolume, f);
      FractionBound(f.percent, Probe(store, keys[1..], f.volume), Probe(store, keys, inVolume));
    }
  }

  /** Along a live route the probe's fill fraction is never 0: every head
      level the route meets has something to trade. */
  lemma {:induction false} LiveProbePositive(store: Store, keys: seq<EdgeKey>, inVolume: real)
    requires LiveRoute(store, keys) && inVolume > 0.0
    ensures ProbeSafe(store, keys, inVolume) && Probe(store, keys, inVolume) > 0.0
    decreases |keys|
  {
    LiveProbe(store, keys, inVolume);
    if |keys| > 0 {
      LiveStage(store[keys[0]], inVolume);
      var f := CalculateVolumeFilling(store[keys[0]], inVolume).0;
      assert LiveRoute(store, keys[1..]);
      LiveProbePositive(store, keys[1..], f.volume);
      LiveProbe(store, keys[1..], f.volume);
      ProbeCons(store, keys, inVolume, f);
      FractionBound(f.percent, Probe(store, keys[1..], f.volume), Probe(store, keys, inVolume));
    }
  }

  /** A live route that crosses no edge twice can be executed. */
  lemma LiveExecSafe(store: Store, keys: seq<EdgeKey>)
    requires LiveRoute(store, keys) && Distinct(keys)
    ensures ExecSafe(store, keys)
  {
    forall j | 0 <= j < |keys| ensures |store[keys[j]].orders| > 0 && Probeable(store[keys[j]]) {
      SaneQuotes(store[keys[j]]);
    }
  }

  /** The probe's fill fraction for the remaining input along a live route. */
  function FillingPercent(store: Store, keys: seq<EdgeKey>, inVolume: real): (r: real)
    requires LiveRoute(store, keys) && inVolume > 0.0
    ensures 0.0 <= r <= 1.0
  {
    LiveProbe(store, keys, inVolume);
    Probe(store, keys, inVolume)
  }

  /** Accumulated traded totals never decrease from `s` to `s'`. */
  predicate TotalsGrow(s: Store, s': Store) {
    forall k :: k in s && k in s' ==> s'[k].inVolume >= s[k].inVolume && s'[k].outVolume >= s[k].outVolume
  }

  /** `s'` holds the same edges as `s`: each still links the same
      currencies of the same market in the same direction with the same fee;
      only books, caches and totals may differ. */
  predicate SameLinks(s: Store, s': Store) {
    && s'.Keys == s.Keys
    && forall k :: k in s ==>
         && s'[k].from == s[k].from && s'[k].to == s[k].to
         && s'[k].pair == s[k].pair && s'[k].forward == s[k].forward
         && s'[k].reminder == s[k].reminder
  }

  lemma TouchedLinks(s: Store, s': Store)
    requires Touched(s, s') && s'.Keys == s.Keys
    ensures SameLinks(s, s')
  {
  }

  lemma TouchedTotals(s: Store, s': Store)
    requires Touched(s, s')
    ensures TotalsGrow(s, s')
  {
  }

  /** Executing the first edge leaves the rest of the route executable:
      it is a different edge from all of them. */
  lemma ExecSafeTail(store: Store, keys: seq<EdgeKey>, e: Edge)
    requires ExecSafe(store, keys) && |keys| > 0
    ensures ExecSafe(store[keys[0] := e], keys[1..])
  {
    forall j | 0 <= j < |keys[1..]| ensures keys[1..][j] != keys[0] {
      assert keys[1..][j] == keys[j + 1];
    }
  }

  /** Reference definition of the route execution: the first edge executes
      `volume`, the rest of the route executes what it delivered. Yields the
      store afterwards and what the last edge delivered. */
  function Execute(store: Store, keys: seq<EdgeKey>, volume: real): (Store, real)
    requires ExecSafe(store, keys)
    decreases |keys|
  {
    if |keys| == 0 then (store, volume)
    else
      var x := Exchange(store[keys[0]], volume);
      ExecSafeTail(store, keys, x.1);
      Execute(store[keys[0] := x.1], keys[1..], x.0)
  }

  /** The reference execution keeps every edge's links, and touches only
      the route's edges. */
  lemma {:induction false} ExecuteKeepsLinks(store: Store, keys: seq<EdgeKey>, volume: real)
    requires ExecSafe(store, keys)
    ensures SameLinks(store, Execute(store, keys, volume).0)
    ensures forall k :: k in store && k !in keys ==> Execute(store, keys, volume).0[k] == store[k]
    decreases |keys|
  {
    if |keys| > 0 {
      var x := Exchange(store[keys[0]], volume);
      ExecSafeTail(store, keys, x.1);
      var s1 := store[keys[0] := x.1];
      ExecuteKeepsLinks(s1, keys[1..], x.0);
      assert Execute(store, keys, volume) == Execute(s1, keys[1..], x.0);
      forall k | k in store && k !in keys ensures Execute(store, keys, volume).0[k] == store[k] {
        assert k != keys[0] && k !in keys[1..];
      }
    }
  }

  /** Executing a non-negative volume along a route keeps a sane store
      sane, and its traded totals only grow. */
  lemma {:induction false} ExecuteKeepsSane(store: Store, keys: seq<EdgeKey>, volume: real)
    requires ExecSafe(store, keys) && AllSane(store) && volume >= 0.0
    ensures AllSane(Execute(store, keys, volume).0)
    ensures TotalsGrow(store, Execute(store, keys, volume).0)
    decreases |keys|
  {
    if |keys| > 0 {
      var e := store[keys[0]];
      var x := Exchange(e, volume);
      SaneAfterExchange(e, volume);
      ExchangeBounds(e, volume);
      ExecSafeTail(store, keys, x.1);
      var s1 := store[keys[0] := x.1];
      assert AllSane(s1);
      assert TotalsGrow(store, s1);
      ExecuteKeepsSane(s1, keys[1..], x.0);
      assert Execute(store, keys, volume) == Execute(s1, keys[1..], x.0);
    }
  }

  /** The second loop of `exchange`: each edge of the path executes what the
      previous one delivered, which is the reference execution. Edges off
      the path are untouched; a sane store stays sane and its traded totals
      only grow. */
  method ExecRoute(store: Store, keys: seq<EdgeKey>, volume: real) returns (s: Store, out: real)
    requires ExecSafe(store, keys)
    ensures (s, out) == Execute(store, keys, volume)
    ensures SameLinks(store, s)
    ensures forall k :: k in store && k !in keys ==> s[k] == store[k]
    ensures AllSane(store) && volume >= 0.0 ==> AllSane(s) && TotalsGrow(store, s)
  {
    s, out := store, volume;
    var j := 0;
    while j < |keys|
      invariant 0 <= j <= |keys|
      invariant ExecSafe(s, keys[j..]) && Execute(s, keys[j..], out) == Execute(store, keys, volume)
    {
      var k := keys[j];
      var x := Edges.Exchange(s[k], out);
      ExecSafeTail(s, keys[j..], x.1);
      assert keys[j..][1..] == keys[j + 1..];
      s, out := s[k := x.1], x.0;
      j := j + 1;
    }
    assert keys[j..] == [];
    ExecuteKeepsLinks(store, keys, volume);
    if AllSane(store) && volume >= 0.0 {
      ExecuteKeepsSane(store, keys, volume);
    }
  }

  /** What is still to be exchanged after a path absorbed the share `fp` of `amount`. */
  method KeepRest(amount: real, fp: real) returns (rest: real)
    requires amount > 0.0 && 0.0 <= fp <= 1.0
    ensures rest == amount * (1.0 - fp)
    ensures 0.0 <= rest <= amount
    ensures fp > 0.0 ==> rest < amount
    ensures rest == 0.0 <==> fp == 1.0
  {
    rest := amount - amount * fp;
  }

  /** The position of the entry labelled `l`, if any. */
  function IndexOfLabel(result: seq<Path>, l: string): (r: Option<nat>)
    ensures r.Some? ==> r.value < |result| && Label(result[r.value].currencies) == l
    ensures r.None? ==> forall i :: 0 <= i < |result| ==> Label(result[i].currencies) != l
    decreases |result|
  {
    if |result| == 0 then None
    else if Label(result[|result| - 1].currencies) == l then Some(|result| - 1)
    else IndexOfLabel(result[..|result| - 1], l)
  }

  /** No two entries share a label. */
  predicate LabelsDistinct(result: seq<Path>) {
    forall i, j :: 0 <= i < j < |result| ==> Label(result[i].currencies) != Label(result[j].currencies)
  }

  /** The executed-path list is an insertion-ordered table keyed by the
      path's label: a new label is appended at the end, a label already
      present has its entry replaced where it stands. */
  function Record(result: seq<Path>, p: Path): (r: seq<Path>)
    ensures (forall j :: 0 <= j < |result| ==> Label(result[j].currencies) != Label(p.currencies)) ==>
              r == result + [p]
    ensures LabelsDistinct(result) ==>
              forall j :: 0 <= j < |result| && Label(result[j].currencies) == Label(p.currencies) ==>
                r == result[j := p]
    ensures LabelsDistinct(result) ==> LabelsDistinct(r)
    ensures p in r
    ensures forall q :: q in r ==> q in result || q == p
    ensures forall q :: q in result && Label(q.currencies) != Label(p.currencies) ==> q in r
    ensures |r| == |result| + (if IndexOfLabel(result, Label(p.currencies)).None? then 1 else 0)
  {
    match IndexOfLabel(result, Label(p.currencies))
    case Some(i) =>
      var r := result[i := p];
      assert forall q :: q in result && Label(q.currencies) != Label(p.currencies) ==> q in r by {
        forall q | q in result && Label(q.currencies) != Label(p.currencies) ensures q in r {
          var j :| 0 <= j < |result| && result[j] == q;
          assert r[j] == q;
        }
      }
      assert r[i] == p;
      r
    case None => result + [p]
  }

  /** The handler's mutable state during settlement: the shared edge store,
      the sorted paths, the input still to convert and the executed paths. */
  datatype Run = Run(store: Store, paths: seq<Path>, remaining: real, result: seq<Path>)

  /** Path `i` can be traded: it crosses no edge twice, every edge quotes a
      positive rate on a sane book, and there is input left. */
  predicate Tradable(run: Run, i: nat) {
    && i < |run.paths|
    && Distinct(run.paths[i].edges)
    && LiveRoute(run.store, run.paths[i].edges)
    && run.remaining > 0.0
  }

  /** A tradable path can be executed once its head caches are filled. */
  lemma ShareSafe(run: Run, i: nat, probed: Store)
    requires Tradable(run, i)
    requires probed == TouchAll(run.store, run.paths[i].edges)
    ensures ExecSafe(probed, run.paths[i].edges)
  {
    TouchedLinks(run.store, probed);
    LiveUnderTouch(run.store, probed, run.paths[i].edges);
    LiveExecSafe(probed, run.paths[i].edges);
  }

  /** Executing a share along a tradable path leaves the edges off the path
      as they were; a sane store stays sane and its totals only grow. */
  lemma ShareStore(run: Run, i: nat, probed: Store, share: real, s: Store)
    requires Tradable(run, i) && share >= 0.0
    requires probed == TouchAll(run.store, run.paths[i].edges)
    requires ExecSafe(probed, run.paths[i].edges)
    requires s == Execute(probed, run.paths[i].edges, share).0
    ensures SameLinks(run.store, s)
    ensures forall k :: k in run.store && k !in run.paths[i].edges ==> s[k] == run.store[k]
    ensures AllSane(run.store) ==> AllSane(s) && TotalsGrow(run.store, s)
  {
    var keys := run.paths[i].edges;
    TouchedLinks(run.store, probed);
    ExecuteKeepsLinks(probed, keys, share);
    if AllSane(run.store) {
      SaneUnderTouch(run.store, probed);
      TouchedTotals(run.store, probed);
      ExecuteKeepsSane(probed, keys, share);
    }
  }

  /** The trading half of `exchange(path)`: execute the share `fp` of the
      remaining input along path `i` of the already probed store, keep the
      unfilled share and record the path. */
  method ExecuteShare(run: Run, i: nat, fp: real, probed: Store) returns (r: Run)
    requires Tradable(run, i) && 0.0 < fp <= 1.0
    requires probed == TouchAll(run.store, run.paths[i].edges)
    ensures r.remaining == run.remaining * (1.0 - fp)
    ensures 0.0 <= r.remaining < run.remaining
    ensures r.remaining == 0.0 <==> fp == 1.0
    ensures r.paths == run.paths && SameLinks(run.store, r.store)
    ensures r.result == Record(run.result, run.paths[i])
    ensures ExecSafe(probed, run.paths[i].edges)
    ensures r.store == Execute(probed, run.paths[i].edges, run.remaining * fp).0
    ensures forall k :: k in run.store && k !in run.paths[i].edges ==> r.store[k] == run.store[k]
    ensures AllSane(run.store) ==> AllSane(r.store) && TotalsGrow(run.store, r.store)
  {
    var keys := run.paths[i].edges;
    ShareSafe(run, i, probed);
    var share := run.remaining * fp;
    ShareBound(run.remaining, fp, share);
    var executed, delivered := ExecRoute(probed, keys, share);
    ShareStore(run, i, probed, share, executed);
    var rest := KeepRest(run.remaining, fp);
    r := Run(executed, run.paths, rest, Record(run.result, run.paths[i]));
  }

  /** `r` is `run` after a trade along path `i` at fill fraction `fp`: `fp`
      is what the probe gives and is positive, that share of the remaining
      input was executed along the path with its head caches filled, the
      rest is kept, and the path is recorded. */
  ghost predicate Exchanged(run: Run, i: nat, fp: real, r: Run) {
    && Tradable(run, i)
    && fp == FillingPercent(run.store, run.paths[i].edges, run.remaining)
    && fp > 0.0
    && ExecSafe(TouchAll(run.store, run.paths[i].edges), run.paths[i].edges)
    && r.store == Execute(TouchAll(run.store, run.paths[i].edges), run.paths[i].edges, run.remaining * fp).0
    && r.paths == run.paths
    && r.remaining == run.remaining * (1.0 - fp)
    && r.result == Record(run.result, run.paths[i])
  }

  /** A trade consumes a positive share of the input. */
  lemma ExchangedShrinks(run: Run, i: nat, fp: real, r: Run)
    requires Exchanged(run, i, fp, r)
    ensures 0.0 <= r.remaining < run.remaining
    ensures r.paths == run.paths && run.paths[i] in r.result
  {
    RestBelow(run.remaining, fp, r.remaining);
  }

  lemma ShareBound(amount: real, fp: real, share: real)
    requires amount > 0.0 && 0.0 < fp <= 1.0 && share == amount * fp
    ensures 0.0 < share <= amount
  {
    assert amount * fp <= amount * 1.0;
  }

  lemma RestBelow(amount: real, fp: real, rest: real)
    requires amount > 0.0 && 0.0 < fp <= 1.0 && rest == amount * (1.0 - fp)
    ensures 0.0 <= rest < amount
  {
    assert amount * (1.0 - fp) == amount - amount * fp;
  }

  /** The probing half of `exchange(path)`: the fill fraction, and the store
      with the path's head caches filled, which is all the probe changes. */
  method ProbePath(run: Run, i: nat) returns (fp: real, probed: Store)
    requires Tradable(run, i)
    ensures fp == FillingPercent(run.store, run.paths[i].edges, run.remaining)
    ensures probed == TouchAll(run.store, run.paths[i].edges)
    ensures SameLinks(run.store, probed)
    ensures AllSane(run.store) ==> AllSane(probed) && TotalsGrow(run.store, probed)
  {
    fp := FillingPercent(run.store, run.paths[i].edges, run.remaining);
    probed := TouchAll(run.store, run.paths[i].edges);
    TouchedLinks(run.store, probed);
    if AllSane(run.store) {
      SaneUnderTouch(run.store, probed);
      TouchedTotals(run.store, probed);
    }
  }

  /** `exchange(path)`: probe the fill fraction `fp`; give up when it is 0;
      otherwise trade that share of the remaining input along the path. */
  method ExchangePath(run: Run, i: nat) returns (ok: bool, fp: real, r: Run)
    requires Tradable(run, i)
    ensures fp == FillingPercent(run.store, run.paths[i].edges, run.remaining)
    ensures ok <==> fp != 0.0
    ensures ok ==> && r.remaining == run.remaining * (1.0 - fp)
                   && 0.0 <= r.remaining < run.remaining
                   && (r.remaining == 0.0 <==> fp == 1.0)
    ensures r.paths == run.paths && SameLinks(run.store, r.store)
    ensures !ok ==> r == run.(store := TouchAll(run.store, run.paths[i].edges))
    ensures ok ==> r.result == Record(run.result, run.paths[i])
    ensures ok ==> && ExecSafe(TouchAll(run.store, run.paths[i].edges), run.paths[i].edges)
                   && r.store == Execute(TouchAll(run.store, run.paths[i].edges), run.paths[i].edges,
                                         run.remaining * fp).0
    ensures ok <==> Exchanged(run, i, fp, r)
    ensures forall k :: k in run.store && k !in run.paths[i].edges ==> r.store[k] == run.store[k]
    ensures AllSane(run.store) ==> AllSane(r.store) && TotalsGrow(run.store, r.store)
  {
    var probed;
    fp, probed := ProbePath(run, i);
    if fp == 0.0 {
      ok, r := false, run.(store := probed);
    } else {
      ok := true;
      r := ExecuteShare(run, i, fp, probed);
      assert Exchanged(run, i, fp, r);
    }
  }
}
