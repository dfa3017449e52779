/** The settlement loop `calculate`: pick the best-quoting path, trade
    along it, repeat until nothing quotes, the input is used up or a trade
    stalls. */
module Settlement {
  import opened Common
  import opened Edges
  import opened Graphs
  import opened Paths
  import opened Trading

  /** After scanning the first `i` paths, `best` is the first one with the
      strictly greatest positive ratio so far and `maxRatio` its ratio; with
      no positive ratio yet, `maxRatio` is still 0. */
  predicate Leads(store: Store, paths: seq<Path>, i: nat, best: Option<nat>, maxRatio: real)
    requires i <= |paths| && forall j :: 0 <= j < |paths| ==> OnStore(store, paths[j].edges)
  {
    && (best.None? ==> maxRatio == 0.0 && forall j :: 0 <= j < i ==> Ratio(store, paths[j].edges) <= 0.0)
    && (best.Some? ==>
          && best.value < i
          && maxRatio == Ratio(store, paths[best.value].edges) > 0.0
          && (forall j :: 0 <= j < i ==> Ratio(store, paths[j].edges) <= maxRatio)
          && (forall j :: 0 <= j < best.value ==> Ratio(store, paths[j].edges) < maxRatio))
  }

  /** One comparison of the scan keeps `Leads`. */
  lemma LeadsStep(store: Store, paths: seq<Path>, i: nat, best: Option<nat>, maxRatio: real, ratio: real)
    requires i < |paths| && forall j :: 0 <= j < |paths| ==> OnStore(store, paths[j].edges)
    requires Leads(store, paths, i, best, maxRatio)
    requires ratio == Ratio(store, paths[i].edges)
    ensures ratio > maxRatio ==> Leads(store, paths, i + 1, Some(i), ratio)
    ensures ratio <= maxRatio ==> Leads(store, paths, i + 1, best, maxRatio)
  {
  }

  /** Path `i` is the one `calculate` picks on `store`: it quotes above 0,
      no path quotes more, and every earlier path quotes strictly less. */
  ghost predicate IsBest(store: Store, paths: seq<Path>, i: nat) {
    && i < |paths|
    && (forall j :: 0 <= j < |paths| ==> OnStore(store, paths[j].edges))
    && Ratio(store, paths[i].edges) > 0.0
    && (forall j :: 0 <= j < |paths| ==> Ratio(store, paths[j].edges) <= Ratio(store, paths[i].edges))
    && (forall j :: 0 <= j < i ==> Ratio(store, paths[j].edges) < Ratio(store, paths[i].edges))
  }

  /** The pick is unambiguous: ties go to the earliest path. */
  lemma BestIsUnique(store: Store, paths: seq<Path>, i: nat, i': nat)
    requires IsBest(store, paths, i) && IsBest(store, paths, i')
    ensures i == i'
  {
  }

  /** The store after reading the ratio of the first `n` paths in order:
      each read fills the caches of that path's edges. */
  function Scanned(store: Store, paths: seq<Path>, n: nat): (r: Store)
    requires n <= |paths|
    requires forall j :: 0 <= j < n ==> OnStore(store, paths[j].edges)
    ensures Touched(store, r)
  {
    if n == 0 then store
    else
      var s := Scanned(store, paths, n - 1);
      var keys := paths[n - 1].edges;
      assert OnStore(store, keys);
      assert forall t :: 0 <= t < |keys| ==> keys[t] in s;
      var r := TouchAll(s, keys);
      TouchedTransitive(store, s, r);
      r
  }

  /** `calculate`'s scan: the first path with the strictly greatest positive
      ratio, if any path quotes above 0; every ratio read fills caches only. */
  method SelectBest(store: Store, paths: seq<Path>) returns (best: Option<nat>, store': Store)
    requires forall i :: 0 <= i < |paths| ==> OnStore(store, paths[i].edges)
    ensures Touched(store, store')
    ensures store' == Scanned(store, paths, |paths|)
    ensures best.Some? <==> exists i :: IsBest(store, paths, i)
    ensures best.Some? ==> IsBest(store, paths, best.value)
    ensures best.None? <==> forall i :: 0 <= i < |paths| ==> Ratio(store, paths[i].edges) <= 0.0
  {
    var maxRatio := 0.0;
    best, store' := None, store;
    var i := 0;
    while i < |paths|
      invariant 0 <= i <= |paths|
      invariant store' == Scanned(store, paths, i)
      invariant Leads(store, paths, i, best, maxRatio)
    {
      RatesIgnoreTouches(store, store', paths[i].edges);
      var (ratio, next) := Paths.GetRatio(store', paths[i].edges);
      ScanStep(store, paths, i, store', next);
      LeadsStep(store, paths, i, best, maxRatio, ratio);
      if ratio > maxRatio {
        maxRatio := ratio;
        best := Some(i);
      }
      store' := next;
      i := i + 1;
    }
    LeadsAtEnd(store, paths, best, maxRatio);
  }

  /** A scan that has seen every path leads with the pick. */
  lemma LeadsAtEnd(store: Store, paths: seq<Path>, best: Option<nat>, maxRatio: real)
    requires forall j :: 0 <= j < |paths| ==> OnStore(store, paths[j].edges)
    requires Leads(store, paths, |paths|, best, maxRatio)
    ensures best.Some? <==> exists i :: IsBest(store, paths, i)
    ensures best.Some? ==> IsBest(store, paths, best.value)
    ensures best.None? <==> forall i :: 0 <= i < |paths| ==> Ratio(store, paths[i].edges) <= 0.0
  {
    if best.Some? {
      assert IsBest(store, paths, best.value);
    } else {
      forall i': nat | IsBest(store, paths, i') ensures false {
      }
    }
  }

  /** Reading one more path's ratio extends the scan by that path. */
  lemma ScanStep(store: Store, paths: seq<Path>, i: nat, s: Store, next: Store)
    requires i < |paths| && forall j :: 0 <= j < |paths| ==> OnStore(store, paths[j].edges)
    requires s == Scanned(store, paths, i)
    requires next.Keys == s.Keys
    requires forall k :: k in s ==> next[k] == if k in paths[i].edges then Touch(s[k]) else s[k]
    ensures next == Scanned(store, paths, i + 1)
  {
    var t := TouchAll(s, paths[i].edges);
    assert Scanned(store, paths, i + 1) == t;
    forall k | k in next ensures next[k] == t[k] {
    }
    assert next == t;
  }

  /** The path `calculate` picks is never given up on: along a path whose
      every edge quotes a positive rate on a sane book, `exchange` always
      trades, so its `false` outcome cannot stop the loop. */
  lemma TradablePathTrades(run: Run, i: nat)
    requires Tradable(run, i)
    ensures FillingPercent(run.store, run.paths[i].edges, run.remaining) > 0.0
  {
    LiveProbePositive(run.store, run.paths[i].edges, run.remaining);
  }

  /** Why the settlement loop stopped. */
  datatype Stop =
    | NoProfitablePath  // no path quotes a positive ratio any more
    | Stalled           // `exchange` refused the best path
    | Settled           // the whole input has been exchanged
    | FuelSpent         // the iteration bound of the model ran out

  /** Every candidate path crosses each edge at most once and only edges of the store. */
  predicate RoutesOk(store: Store, paths: seq<Path>) {
    forall i :: 0 <= i < |paths| ==>
      Distinct(paths[i].edges) && forall j :: 0 <= j < |paths[i].edges| ==> paths[i].edges[j] in store
  }

  lemma TotalsGrowTransitive(s: Store, s': Store, s'': Store)
    requires s.Keys == s'.Keys == s''.Keys
    requires TotalsGrow(s, s') && TotalsGrow(s', s'')
    ensures TotalsGrow(s, s'')
  {
  }

  /** Every path of a sane store can be quoted. */
  lemma SaneRoutesQuote(store: Store, paths: seq<Path>)
    requires AllSane(store) && RoutesOk(store, paths)
    ensures forall i :: 0 <= i < |paths| ==> OnStore(store, paths[i].edges)
  {
    forall i | 0 <= i < |paths| ensures OnStore(store, paths[i].edges) {
      SaneStoreQuotes(store, paths[i].edges);
    }
  }

  /** A round that found nothing to trade: the scan filled caches and
      changed nothing else. */
  ghost predicate ScanOnly(run: Run, r: Run) {
    && (forall j :: 0 <= j < |run.paths| ==> OnStore(run.store, run.paths[j].edges))
    && r == run.(store := Scanned(run.store, run.paths, |run.paths|))
  }

  /** A round that traded: on the store the scan leaves behind, the best
      path of `run` was exchanged at its probed fill fraction. */
  ghost predicate GreedyStep(run: Run, r: Run) {
    && (forall j :: 0 <= j < |run.paths| ==> OnStore(run.store, run.paths[j].edges))
    && exists i, fp :: IsBest(run.store, run.paths, i)
                    && Exchanged(run.(store := Scanned(run.store, run.paths, |run.paths|)), i, fp, r)
  }

  /** Every trading round strictly consumes input and records its path. */
  lemma GreedyStepShrinks(run: Run, r: Run)
    requires GreedyStep(run, r)
    ensures 0.0 <= r.remaining < run.remaining
    ensures r.paths == run.paths && exists q :: q in r.result && q in run.paths
  {
    var i, fp :| IsBest(run.store, run.paths, i)
                && Exchanged(run.(store := Scanned(run.store, run.paths, |run.paths|)), i, fp, r);
    ExchangedShrinks(run.(store := Scanned(run.store, run.paths, |run.paths|)), i, fp, r);
  }

  /** Consecutive trading rounds, each a `GreedyStep` from the one before. */
  ghost predicate GreedyTrace(trace: seq<Run>) {
    forall j :: 0 <= j < |trace| - 1 ==> GreedyStep(trace[j], trace[j + 1])
  }

  lemma TraceExtend(trace: seq<Run>, next: Run)
    requires |trace| > 0 && GreedyTrace(trace) && GreedyStep(trace[|trace| - 1], next)
    ensures GreedyTrace(trace + [next])
  {
    var t := trace + [next];
    forall j | 0 <= j < |t| - 1 ensures GreedyStep(t[j], t[j + 1]) {
      if j < |trace| - 1 {
        assert t[j] == trace[j] && t[j + 1] == trace[j + 1];
      }
    }
  }

  /** One pass of `calculate`'s loop: scan for the best path, stop when
      none quotes above 0, otherwise exchange along it and stop when that is
      refused or the input is used up. `None` means: go round again. The
      refusal never happens: the best path always trades. */
  method Round(run: Run) returns (r: Run, stop: Option<Stop>)
    requires AllSane(run.store) && RoutesOk(run.store, run.paths)
    requires run.remaining > 0.0
    ensures r.paths == run.paths && SameLinks(run.store, r.store)
    ensures AllSane(r.store) && TotalsGrow(run.store, r.store)
    ensures 0.0 <= r.remaining <= run.remaining
    ensures stop != Some(FuelSpent) && stop != Some(Stalled)
    ensures stop == Some(Settled) <==> r.remaining == 0.0
    ensures stop == Some(NoProfitablePath) <==> !exists i :: IsBest(run.store, run.paths, i)
    ensures stop == Some(NoProfitablePath) ==>
              && ScanOnly(run, r)
              && forall i :: 0 <= i < |r.paths| ==>
                   OnStore(r.store, r.paths[i].edges) && Ratio(r.store, r.paths[i].edges) <= 0.0
    ensures stop != Some(NoProfitablePath) ==> GreedyStep(run, r)
    ensures stop.None? ==> r.remaining < run.remaining
    ensures r.remaining == run.remaining ==> r.result == run.result
    ensures r.remaining < run.remaining ==> exists q :: q in r.result && q in run.paths
    ensures forall q :: q in r.result ==> q in run.result || q in run.paths
    ensures LabelsDistinct(run.result) ==> LabelsDistinct(r.result)
  {
    SaneRoutesQuote(run.store, run.paths);
    var best, probed := SelectBest(run.store, run.paths);
    SaneUnderTouch(run.store, probed);
    TouchedTotals(run.store, probed);
    TouchedLinks(run.store, probed);
    if best.None? {
      forall i | 0 <= i < |run.paths|
        ensures OnStore(probed, run.paths[i].edges) && Ratio(probed, run.paths[i].edges) <= 0.0
      {
        RatesIgnoreTouches(run.store, probed, run.paths[i].edges);
      }
      r, stop := run.(store := probed), Some(NoProfitablePath);
      return;
    }
    var i := best.value;
    RatesIgnoreTouches(run.store, probed, run.paths[i].edges);
    PositiveRatioLive(probed, run.paths[i].edges);
    TradablePathTrades(run.(store := probed), i);
    var ok, fp;
    ok, fp, r := ExchangePath(run.(store := probed), i);
    TotalsGrowTransitive(run.store, probed, r.store);
    if !ok {
      assert false;
      stop := Some(Stalled);
    } else {
      assert IsBest(run.store, run.paths, i) && Exchanged(run.(store := probed), i, fp, r);
      assert run.paths[i] in r.result;
      stop := if r.remaining == 0.0 then Some(Settled) else None;
    }
  }

  /** What `calculate` guarantees when it stops with `stop` in state `r`,
      having started from `run` with `fuel` rounds. */
  ghost predicate Outcome(run: Run, fuel: nat, r: Run, stop: Stop) {
    && r.paths == run.paths && SameLinks(run.store, r.store)
    && AllSane(r.store) && TotalsGrow(run.store, r.store)
    && 0.0 <= r.remaining <= run.remaining
    && stop != Stalled
    && (stop == Settled <==> r.remaining == 0.0)
    && (stop == NoProfitablePath ==>
          forall i :: 0 <= i < |r.paths| ==>
            OnStore(r.store, r.paths[i].edges) && Ratio(r.store, r.paths[i].edges) <= 0.0)
    && (fuel > 0 && stop != NoProfitablePath ==> r.remaining < run.remaining)
    && (exists trace :: Greedy(run, fuel, trace, r, stop))
    && (forall q :: q in r.result ==> q in run.result || q in run.paths)
    && (LabelsDistinct(run.result) ==> LabelsDistinct(r.result))
    && (r.remaining < run.remaining ==> exists q :: q in r.result && q in run.paths)
  }

  /** The loop invariant of `calculate` with `n` rounds left, `trace` the
      rounds so far. */
  ghost predicate Looping(run: Run, fuel: nat, n: nat, r: Run, trace: seq<Run>) {
    && n <= fuel
    && r.paths == run.paths && SameLinks(run.store, r.store)
    && AllSane(r.store) && RoutesOk(r.store, r.paths)
    && TotalsGrow(run.store, r.store)
    && 0.0 < r.remaining <= run.remaining
    && (n < fuel ==> r.remaining < run.remaining)
    && (forall q :: q in r.result ==> q in run.result || q in run.paths)
    && (LabelsDistinct(run.result) ==> LabelsDistinct(r.result))
    && (r.remaining < run.remaining ==> exists q :: q in r.result && q in run.paths)
    && |trace| == fuel - n + 1 && trace[0] == run && trace[|trace| - 1] == r
    && GreedyTrace(trace)
  }

  /** One turn of `calculate`'s loop: a round, then either the loop goes on
      with one round less or it stops with its outcome. */
  method Turn(run: Run, fuel: nat, n: nat, r: Run, ghost trace: seq<Run>)
      returns (r': Run, halt: Option<Stop>, ghost trace': seq<Run>)
    requires n > 0 && Looping(run, fuel, n, r, trace)
    ensures halt.None? ==> Looping(run, fuel, n - 1, r', trace')
    ensures halt.Some? ==> Outcome(run, fuel, r', halt.value)
  {
    r', halt := Round(r);
    TotalsGrowTransitive(run.store, r.store, r'.store);
    trace' := if halt == Some(NoProfitablePath) then trace else trace + [r'];
    TurnFacts(run, fuel, n, r, trace, r', halt);
  }

  /** The two ways a round can end, each keeping the loop invariant or
      giving the outcome. */
  lemma TurnFacts(run: Run, fuel: nat, n: nat, r: Run, trace: seq<Run>, next: Run, halt: Option<Stop>)
    requires n > 0 && Looping(run, fuel, n, r, trace)
    requires AllSane(next.store) && TotalsGrow(run.store, next.store) && SameLinks(r.store, next.store)
    requires halt != Some(FuelSpent) && halt != Some(Stalled)
    requires halt == Some(Settled) <==> next.remaining == 0.0
    requires halt == Some(NoProfitablePath) ==>
               && ScanOnly(r, next)
               && forall i :: 0 <= i < |next.paths| ==>
                    OnStore(next.store, next.paths[i].edges) && Ratio(next.store, next.paths[i].edges) <= 0.0
    requires halt != Some(NoProfitablePath) ==> GreedyStep(r, next)
    requires forall q :: q in next.result ==> q in r.result || q in r.paths
    requires LabelsDistinct(r.result) ==> LabelsDistinct(next.result)
    ensures halt.None? ==> Looping(run, fuel, n - 1, next, trace + [next])
    ensures halt.Some? ==> Outcome(run, fuel, next, halt.value)
  {
    match halt
    case Some(NoProfitablePath) =>
      NoQuoteOutcome(run, fuel, n, r, trace, next);
    case Some(Settled) =>
      TradeStep(run, fuel, n, r, trace, next);
    case None =>
      TradeStep(run, fuel, n, r, trace, next);
  }

  /** A round that finds nothing to trade ends `calculate` with its outcome. */
  lemma NoQuoteOutcome(run: Run, fuel: nat, n: nat, r: Run, trace: seq<Run>, next: Run)
    requires n > 0 && Looping(run, fuel, n, r, trace)
    requires ScanOnly(r, next) && AllSane(next.store) && TotalsGrow(run.store, next.store)
    requires SameLinks(r.store, next.store)
    requires forall i :: 0 <= i < |next.paths| ==>
               OnStore(next.store, next.paths[i].edges) && Ratio(next.store, next.paths[i].edges) <= 0.0
    ensures Outcome(run, fuel, next, NoProfitablePath)
  {
    assert Greedy(run, fuel, trace, next, NoProfitablePath);
  }

  /** A round that trades extends the trace; it ends `calculate` exactly
      when it used up the input. */
  lemma TradeStep(run: Run, fuel: nat, n: nat, r: Run, trace: seq<Run>, next: Run)
    requires n > 0 && Looping(run, fuel, n, r, trace)
    requires GreedyStep(r, next) && AllSane(next.store) && TotalsGrow(run.store, next.store)
    requires SameLinks(r.store, next.store)
    requires forall q :: q in next.result ==> q in r.result || q in r.paths
    requires LabelsDistinct(r.result) ==> LabelsDistinct(next.result)
    ensures next.remaining != 0.0 ==> Looping(run, fuel, n - 1, next, trace + [next])
    ensures next.remaining == 0.0 ==> Outcome(run, fuel, next, Settled)
  {
    GreedyStepShrinks(r, next);
    TraceExtend(trace, next);
    TradeFacts(run, fuel, n, r, trace, next);
  }

  lemma TradeFacts(run: Run, fuel: nat, n: nat, r: Run, trace: seq<Run>, next: Run)
    requires n > 0 && Looping(run, fuel, n, r, trace)
    requires GreedyTrace(trace + [next]) && AllSane(next.store) && TotalsGrow(run.store, next.store)
    requires SameLinks(r.store, next.store) && next.paths == r.paths
    requires 0.0 <= next.remaining < r.remaining && exists q :: q in next.result && q in r.paths
    requires forall q :: q in next.result ==> q in r.result || q in r.paths
    requires LabelsDistinct(r.result) ==> LabelsDistinct(next.result)
    ensures next.remaining != 0.0 ==> Looping(run, fuel, n - 1, next, trace + [next])
    ensures next.remaining == 0.0 ==> Outcome(run, fuel, next, Settled)
  {
    assert Greedy(run, fuel, trace + [next], next, Settled);
  }

  /** Running out of fuel after `fuel` trading rounds is an outcome too. */
  lemma SpentOutcome(run: Run, fuel: nat, r: Run, trace: seq<Run>)
    requires Looping(run, fuel, 0, r, trace)
    ensures Outcome(run, fuel, r, FuelSpent)
  {
    assert Greedy(run, fuel, trace, r, FuelSpent);
  }

  /** `calculate`: repeatedly trade along the best-quoting path until no
      path quotes above 0 or the input is used up; at most `fuel` rounds are
      modelled. The outcome is a chain of greedy rounds from `run`, closed
      by a final scan when nothing quotes any more. */
  method Calculate(run: Run, fuel: nat) returns (r: Run, stop: Stop)
    requires AllSane(run.store) && RoutesOk(run.store, run.paths)
    requires run.remaining > 0.0
    ensures r.paths == run.paths && SameLinks(run.store, r.store)
    ensures AllSane(r.store) && TotalsGrow(run.store, r.store)
    ensures 0.0 <= r.remaining <= run.remaining
    ensures stop != Stalled
    ensures stop == Settled <==> r.remaining == 0.0
    ensures stop == NoProfitablePath ==>
              forall i :: 0 <= i < |r.paths| ==>
                OnStore(r.store, r.paths[i].edges) && Ratio(r.store, r.paths[i].edges) <= 0.0
    ensures fuel > 0 && stop != NoProfitablePath ==> r.remaining < run.remaining
    ensures exists trace :: Greedy(run, fuel, trace, r, stop)
    ensures forall q :: q in r.result ==> q in run.result || q in run.paths
    ensures LabelsDistinct(run.result) ==> LabelsDistinct(r.result)
    ensures r.remaining < run.remaining ==> exists q :: q in r.result && q in run.paths
  {
    r := run;
    ghost var trace := [run];
    var n := fuel;
    while n > 0
      invariant Looping(run, fuel, n, r, trace)
    {
      var halt;
      r, halt, trace := Turn(run, fuel, n, r, trace);
      if halt.Some? {
        stop := halt.value;
        return;
      }
      n := n - 1;
    }
    stop := FuelSpent;
    SpentOutcome(run, fuel, r, trace);
  }

  /** `trace` is the sequence of runs `calculate` passes through from `run`
      within `fuel` rounds, ending in `r`: every step is a greedy trade, a
      halt for lack of a quoting path adds one last scan, and running out of
      fuel means every round traded. */
  ghost predicate Greedy(run: Run, fuel: nat, trace: seq<Run>, r: Run, stop: Stop) {
    && 0 < |trace| <= fuel + 1
    && trace[0] == run
    && GreedyTrace(trace)
    && (if stop == NoProfitablePath then ScanOnly(trace[|trace| - 1], r) else r == trace[|trace| - 1])
    && (stop == FuelSpent ==> |trace| == fuel + 1)
  }
}
