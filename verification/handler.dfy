/** `OrderBookCalculateHandler::call` end to end: build the graph from the
    market list, discover and sort the routes, work out which books are
    needed, bind them to the cached edges and run the settlement loop. The
    market list and the fetched books are inputs; where the handler would
    crash, the model returns a `Failure` naming the cause. */
module Handler {
  import opened Common
  import opened Edges
  import opened Graphs
  import opened Paths
  import opened Network
  import opened Discovery
  import opened Books
  import opened Trading
  import opened Settlement

  /** Why a request ends without a settlement. */
  datatype Failure =
    | SameCurrency               // the one route found has no edge list, and reading it fails
    | UnknownSource              // no eligible market names the source, so its node lookup fails
    | NoRoute                    // nothing was found, so the path list is never set up
    | MissingBook(pair: string)  // the exchange returned no book for this pair

  /** Some eligible market names currency `c`. */
  predicate Listed(markets: seq<Market>, c: Currency) {
    exists m :: m in markets && Lists(m, c)
  }

  /** `paths` is the sorted discovery result for `src -> dst` on `g`: every
      simple route appears, every path is one, shaped along its currencies
      and crossing no edge twice, and fewer hops come first. */
  ghost predicate Discovered(g: Graph, src: Currency, dst: Currency, paths: seq<Path>) {
    && SortedByHops(paths)
    && (forall i :: 0 <= i < |paths| ==>
          && SimpleRoute(g, paths[i].currencies, src, dst)
          && Shaped(paths[i])
          && Distinct(paths[i].edges))
    && (forall route :: SimpleRoute(g, route, src, dst) ==>
          exists i :: 0 <= i < |paths| && paths[i].currencies == route)
  }

  /** `paths` is the discovery result in its exact order: the routes the
      search enumerates, each materialised along its edge keys and kept
      once per enumeration, then stably sorted by hop count. */
  ghost predicate DiscoveryOrder(g: Graph, src: Currency, dst: Currency, paths: seq<Path>) {
    && WellFormed(g) && src in g.nodes
    && exists found: seq<Path> ::
         && |found| == |AllRoutes(g, src, dst)|
         && (forall i :: 0 <= i < |found| ==>
               found[i].currencies == AllRoutes(g, src, dst)[i] && found[i].edges == PathKeys(found[i].currencies))
         && paths == SortByHops(found)
  }

  /** Some simple route from `src` to `dst` crosses an edge whose pair has no book. */
  ghost predicate RouteLacksBook(g: Graph, src: Currency, dst: Currency, books: map<string, Book>) {
    exists route, i ::
      && SimpleRoute(g, route, src, dst)
      && 0 <= i < |route| - 1
      && HasEdge(g, route[i], route[i + 1])
      && GetEdge(g, route[i], route[i + 1]).pair !in books
  }

  /** Some simple route from `src` to `dst` crosses an edge of pair `pair`. */
  ghost predicate PairOnRoute(g: Graph, src: Currency, dst: Currency, pair: string) {
    exists route, i ::
      && SimpleRoute(g, route, src, dst)
      && 0 <= i < |route| - 1
      && HasEdge(g, route[i], route[i + 1])
      && GetEdge(g, route[i], route[i + 1]).pair == pair
  }

  /** Every stored edge is the edge the graph holds for its key. */
  predicate MirrorsGraph(store: Store, g: Graph) {
    forall k :: k in store ==> HasEdge(g, k.0, k.1) && store[k] == GetEdge(g, k.0, k.1)
  }

  /** The store holds exactly the edges the paths use. */
  ghost predicate StoreOfPaths(store: Store, paths: seq<Path>) {
    forall k :: k in store <==> exists p :: p in paths && k in p.edges
  }

  lemma {:induction false} EdgeKeysOfMembers(ps: seq<Path>, k: EdgeKey)
    ensures k in EdgeKeysOf(ps) <==> exists p :: p in ps && k in p.edges
    decreases |ps|
  {
    if |ps| > 0 {
      EdgeKeysOfMembers(ps[1..], k);
      if exists p :: p in ps && k in p.edges {
        var p :| p in ps && k in p.edges;
        if p != ps[0] {
          assert p in ps[1..];
        }
      }
    }
  }

  /** Every edge of a graph built from markets with a fee below 100% is
      fresh: nothing cached, nothing traded, a positive share kept. */
  lemma GraphEdgesFresh(markets: seq<Market>)
    requires forall m :: m in markets ==> m.taker < 1.0
    ensures var g := FillGraph(EmptyGraph, markets);
            forall c, d :: HasEdge(g, c, d) ==> Fresh(g.nodes[c].edges[d])
  {
    FillGraphContents(markets);
    var g := FillGraph(EmptyGraph, markets);
    forall c, d | HasEdge(g, c, d) ensures Fresh(g.nodes[c].edges[d]) {
      var m :| m in markets && Eligible(m) && MadeBy(g.nodes[c].edges[d], m);
    }
  }

  /** A sorted path is one of the materialised routes, so it is a shaped
      simple route crossing no edge twice. */
  lemma SortedRouteShape(g: Graph, src: Currency, dst: Currency, routes: seq<seq<Currency>>,
                         found: seq<Path>, cache: Graph, p: Path)
    requires WellFormed(g) && src in g.nodes && routes == AllRoutes(g, src, dst)
    requires |found| == |routes|
    requires forall i :: 0 <= i < |found| ==> Realises(found[i], routes[i], cache)
    requires p in multiset(found)
    ensures SimpleRoute(g, p.currencies, src, dst) && Shaped(p) && Distinct(p.edges)
  {
    var j :| 0 <= j < |found| && found[j] == p;
    AllRoutesExact(g, src, dst, routes[j]);
    RealisedRouteShape(g, found[j], routes[j], cache, src, dst);
  }

  /** Every simple route is among the sorted paths. */
  lemma SortedRouteFound(g: Graph, src: Currency, dst: Currency, routes: seq<seq<Currency>>,
                         found: seq<Path>, cache: Graph, paths: seq<Path>, route: seq<Currency>)
    requires WellFormed(g) && src in g.nodes && routes == AllRoutes(g, src, dst)
    requires |found| == |routes|
    requires forall i :: 0 <= i < |found| ==> Realises(found[i], routes[i], cache)
    requires multiset(paths) == multiset(found)
    requires SimpleRoute(g, route, src, dst)
    ensures exists i :: 0 <= i < |paths| && paths[i].currencies == route
  {
    AllRoutesExact(g, src, dst, route);
    var j :| 0 <= j < |routes| && routes[j] == route;
    assert found[j] in multiset(paths);
    var i :| 0 <= i < |paths| && paths[i] == found[j];
    assert paths[i].currencies == route;
  }

  /** Sorting the materialised routes keeps each one a shaped simple route
      and loses none of them. */
  lemma SortedRoutes(g: Graph, src: Currency, dst: Currency, found: seq<Path>, cache: Graph)
    requires WellFormed(g) && src in g.nodes
    requires |found| == |AllRoutes(g, src, dst)|
    requires forall i :: 0 <= i < |found| ==> Realises(found[i], AllRoutes(g, src, dst)[i], cache)
    ensures Discovered(g, src, dst, SortByHops(found))
  {
    var routes := AllRoutes(g, src, dst);
    var paths := SortByHops(found);
    SortByHopsCorrect(found);
    forall i | 0 <= i < |paths|
      ensures SimpleRoute(g, paths[i].currencies, src, dst) && Shaped(paths[i]) && Distinct(paths[i].edges)
    {
      assert paths[i] in multiset(found);
      SortedRouteShape(g, src, dst, routes, found, cache, paths[i]);
    }
    forall route | SimpleRoute(g, route, src, dst)
      ensures exists i :: 0 <= i < |paths| && paths[i].currencies == route
    {
      SortedRouteFound(g, src, dst, routes, found, cache, paths, route);
    }
  }

  /** The materialised routes, sorted, are the discovery result in order. */
  lemma SortedOrder(g: Graph, src: Currency, dst: Currency, found: seq<Path>, cache: Graph)
    requires WellFormed(g) && src in g.nodes
    requires |found| == |AllRoutes(g, src, dst)|
    requires forall i :: 0 <= i < |found| ==> Realises(found[i], AllRoutes(g, src, dst)[i], cache)
    ensures DiscoveryOrder(g, src, dst, SortByHops(found))
  {
    forall i | 0 <= i < |found|
      ensures found[i].currencies == AllRoutes(g, src, dst)[i] && found[i].edges == PathKeys(found[i].currencies)
    {
      assert Realises(found[i], AllRoutes(g, src, dst)[i], cache);
    }
  }

  /** The cache discovery leaves behind holds exactly the sorted paths'
      edges, each the fresh edge its origin node stores. */
  lemma CacheOfRoutes(markets: seq<Market>, found: seq<Path>, cache: Graph)
    requires forall m :: m in markets ==> m.taker < 1.0
    requires CacheGrows(FillGraph(EmptyGraph, markets), cache)
    requires cache.edges.Keys == FillGraph(EmptyGraph, markets).edges.Keys + EdgeKeysOf(found)
    ensures StoreOfPaths(cache.edges, SortByHops(found))
    ensures forall k :: k in cache.edges ==> Fresh(cache.edges[k])
  {
    var g := FillGraph(EmptyGraph, markets);
    var paths := SortByHops(found);
    GraphEdgesFresh(markets);
    forall k ensures k in cache.edges <==> exists p :: p in paths && k in p.edges {
      EdgeKeysOfMembers(found, k);
      if exists p :: p in found && k in p.edges {
        var p :| p in found && k in p.edges;
        assert p in multiset(paths);
      }
      if exists p :: p in paths && k in p.edges {
        var p :| p in paths && k in p.edges;
        assert p in multiset(found);
      }
    }
  }

  /** Discovery as `call` runs it: build the graph, enumerate the routes
      from `src` to `dst`, materialise them against the edge cache and sort
      them by hop count. The store is the filled edge cache. */
  method Routes(markets: seq<Market>, src: Currency, dst: Currency) returns (r: Result<(seq<Path>, Store), Failure>)
    requires forall m :: m in markets ==> m.taker < 1.0
    ensures r == Failure(SameCurrency) <==> src == dst
    ensures r == Failure(UnknownSource) <==> src != dst && !Listed(markets, src)
    ensures r == Failure(NoRoute) <==>
              src != dst && Listed(markets, src) && forall p :: !SimpleRoute(FillGraph(EmptyGraph, markets), p, src, dst)
    ensures r.Failure? ==> !r.error.MissingBook?
    ensures r.Success? ==>
              && Discovered(FillGraph(EmptyGraph, markets), src, dst, r.value.0)
              && DiscoveryOrder(FillGraph(EmptyGraph, markets), src, dst, r.value.0)
              && StoreOfPaths(r.value.1, r.value.0)
              && MirrorsGraph(r.value.1, FillGraph(EmptyGraph, markets))
              && forall k :: k in r.value.1 ==> Fresh(r.value.1[k])
  {
    var g := FillGraph(EmptyGraph, markets);
    EmptyGraphWellFormed();
    FillGraphWellFormed(EmptyGraph, markets);
    FillGraphContents(markets);
    assert src in g.nodes <==> Listed(markets, src);
    if src == dst {
      return Failure(SameCurrency);
    }
    if src !in g.nodes {
      return Failure(UnknownSource);
    }
    var found, cache := DiscoverPaths(g, src, dst);
    if |found| == 0 {
      forall p ensures !SimpleRoute(g, p, src, dst) {
        AllRoutesExact(g, src, dst, p);
      }
      return Failure(NoRoute);
    }
    AllRoutesExact(g, src, dst, AllRoutes(g, src, dst)[0]);
    SortedRoutes(g, src, dst, found, cache);
    CacheOfRoutes(markets, found, cache);
    SortedOrder(g, src, dst, found, cache);
    r := Success((SortByHops(found), cache.edges));
  }

  /** Over the discovered paths, a cached edge lacks its book exactly when
      some simple route crosses an edge whose pair has no book. */
  lemma MissingBookOnRoute(g: Graph, src: Currency, dst: Currency, paths: seq<Path>, store: Store,
                           books: map<string, Book>)
    requires Discovered(g, src, dst, paths) && StoreOfPaths(store, paths) && MirrorsGraph(store, g)
    ensures (exists k :: k in store && store[k].pair !in books) <==> RouteLacksBook(g, src, dst, books)
  {
    if k :| k in store && store[k].pair !in books {
      StoredEdgeOnRoute(g, src, dst, paths, store, books, k);
    }
    if RouteLacksBook(g, src, dst, books) {
      var route, i :| && SimpleRoute(g, route, src, dst) && 0 <= i < |route| - 1
                      && HasEdge(g, route[i], route[i + 1])
                      && GetEdge(g, route[i], route[i + 1]).pair !in books;
      RouteEdgeStored(g, src, dst, paths, store, route, i);
    }
  }

  /** A stored edge lies on one of the discovered routes. */
  lemma StoredEdgeOnRoute(g: Graph, src: Currency, dst: Currency, paths: seq<Path>, store: Store,
                          books: map<string, Book>, k: EdgeKey)
    requires Discovered(g, src, dst, paths) && StoreOfPaths(store, paths) && MirrorsGraph(store, g)
    requires k in store && store[k].pair !in books
    ensures RouteLacksBook(g, src, dst, books)
  {
    var p :| p in paths && k in p.edges;
    var a :| 0 <= a < |paths| && paths[a] == p;
    var j :| 0 <= j < |p.edges| && p.edges[j] == k;
    assert SimpleRoute(g, p.currencies, src, dst) && Shaped(p);
    assert k == (p.currencies[j], p.currencies[j + 1]);
  }

  /** The pair of a stored edge is crossed by one of the discovered routes. */
  lemma StoredPairOnRoute(g: Graph, src: Currency, dst: Currency, paths: seq<Path>, store: Store, k: EdgeKey)
    requires Discovered(g, src, dst, paths) && StoreOfPaths(store, paths) && MirrorsGraph(store, g)
    requires k in store
    ensures PairOnRoute(g, src, dst, store[k].pair)
  {
    var p :| p in paths && k in p.edges;
    var a :| 0 <= a < |paths| && paths[a] == p;
    var j :| 0 <= j < |p.edges| && p.edges[j] == k;
    assert SimpleRoute(g, p.currencies, src, dst) && Shaped(p);
    assert k == (p.currencies[j], p.currencies[j + 1]);
  }

  /** Every edge of a simple route is stored. */
  lemma RouteEdgeStored(g: Graph, src: Currency, dst: Currency, paths: seq<Path>, store: Store,
                        route: seq<Currency>, i: nat)
    requires Discovered(g, src, dst, paths) && StoreOfPaths(store, paths)
    requires SimpleRoute(g, route, src, dst) && i < |route| - 1
    ensures (route[i], route[i + 1]) in store
  {
    var a :| 0 <= a < |paths| && paths[a].currencies == route;
    assert Shaped(paths[a]);
    assert paths[a].edges[i] == (route[i], route[i + 1]);
    assert paths[a] in paths;
  }

  /** The position of the first pair the exchange returned no book for. */
  function FirstMissing(pairs: seq<string>, books: map<string, Book>): (r: Option<nat>)
    ensures r.None? <==> forall i :: 0 <= i < |pairs| ==> pairs[i] in books
    ensures r.Some? ==>
              && r.value < |pairs| && pairs[r.value] !in books
              && forall i :: 0 <= i < r.value ==> pairs[i] in books
  {
    if |pairs| == 0 then None
    else if pairs[0] !in books then Some(0)
    else
      match FirstMissing(pairs[1..], books)
      case None => None
      case Some(i) => Some(i + 1)
  }

  /** Every cached edge's pair was requested, so with no book missing every
      cached edge finds its book. */
  lemma CachedPairsFetched(store: Store, paths: seq<Path>, books: map<string, Book>)
    requires StoreOfPaths(store, paths) && PathsOnStore(store, paths)
    requires forall i :: 0 <= i < |PairList(store, paths)| ==> PairList(store, paths)[i] in books
    ensures forall k :: k in store ==> store[k].pair in books
  {
    var pairs := PairList(store, paths);
    forall k | k in store ensures store[k].pair in books {
      var p :| p in paths && k in p.edges;
      var i :| 0 <= i < |paths| && paths[i] == p;
      var j :| 0 <= j < |p.edges| && p.edges[j] == k;
      PathEdgePairRequested(store, paths, i, j);
      assert store[k].pair in Elements(pairs);
    }
  }

  /** `pair` is the first pair, in request order, the exchange returned no
      book for. */
  ghost predicate ReportsFirstMissing(cache: Store, paths: seq<Path>, books: map<string, Book>, pair: string) {
    && PathsOnStore(cache, paths)
    && FirstMissing(PairList(cache, paths), books).Some?
    && pair == PairList(cache, paths)[FirstMissing(PairList(cache, paths), books).value]
  }

  /** `getPairListForLoadOrders`, the book fetch and `fillEdges`: request
      every pair the paths use and bind each cached edge to its side of the
      pair's book; fails when the exchange returned no book for a requested
      pair. */
  method BindBooks(paths: seq<Path>, cache: Store, books: map<string, Book>) returns (r: Result<Store, Failure>)
    requires StoreOfPaths(cache, paths) && forall k :: k in cache ==> Fresh(cache[k])
    requires forall p :: p in books ==> BookOk(books[p].bids) && BookOk(books[p].asks)
    ensures r.Failure? ==> r.error.MissingBook? && r.error.pair !in books
    ensures r.Failure? ==> ReportsFirstMissing(cache, paths, books, r.error.pair)
    ensures r.Failure? ==> exists k :: k in cache && cache[k].pair == r.error.pair
    ensures r.Failure? <==> exists k :: k in cache && cache[k].pair !in books
    ensures r.Success? ==>
              && r.value.Keys == cache.Keys
              && AllSane(r.value)
              && (forall k :: k in cache ==>
                    && cache[k].pair in books
                    && r.value[k] == cache[k].(orders := Side(books[cache[k].pair], cache[k].forward)))
              && r.value == FillEdges(cache, books)
  {
    assert PathsOnStore(cache, paths) by {
      forall i, j | 0 <= i < |paths| && 0 <= j < |paths[i].edges|
        ensures paths[i].edges[j] in cache
      {
        assert paths[i] in paths && paths[i].edges[j] in paths[i].edges;
      }
    }
    var pairs := PairList(cache, paths);
    var missing := FirstMissing(pairs, books);
    if missing.Some? {
      RequestedPairHasEdge(cache, paths, pairs[missing.value]);
      var i, j :| 0 <= i < |paths| && 0 <= j < |paths[i].edges| && cache[paths[i].edges[j]].pair == pairs[missing.value];
      assert paths[i].edges[j] in cache;
      return Failure(MissingBook(pairs[missing.value]));
    }
    CachedPairsFetched(cache, paths, books);
    FilledStoreIsSane(cache, books);
    r := Success(FillEdges(cache, books));
  }

  /** `run` and `stop` are where the settlement loop gets within `fuel`
      rounds when it starts with `amount` on `paths` over the edges of
      `cache` bound to `books`: a chain of greedy rounds. */
  ghost predicate SettledFrom(cache: Store, books: map<string, Book>, paths: seq<Path>, amount: real,
                              fuel: nat, run: Run, stop: Stop) {
    && (forall k :: k in cache ==> cache[k].pair in books)
    && exists trace :: Greedy(Run(FillEdges(cache, books), paths, amount, []), fuel, trace, run, stop)
  }

  /** The second half of `call`: bind the books and settle `amount` along
      the paths. */
  method Settle(ghost g: Graph, ghost src: Currency, ghost dst: Currency,
                paths: seq<Path>, cache: Store, books: map<string, Book>, amount: real, fuel: nat)
    returns (r: Result<(Run, Stop), Failure>)
    requires amount > 0.0
    requires Discovered(g, src, dst, paths) && DiscoveryOrder(g, src, dst, paths) && MirrorsGraph(cache, g)
    requires StoreOfPaths(cache, paths) && forall k :: k in cache ==> Fresh(cache[k])
    requires forall i :: 0 <= i < |paths| ==> Distinct(paths[i].edges)
    requires forall p :: p in books ==> BookOk(books[p].bids) && BookOk(books[p].asks)
    ensures r.Failure? ==> r.error.MissingBook? && r.error.pair !in books
    ensures r.Failure? ==> MissingReported(g, src, dst, books, r.error.pair)
    ensures r.Failure? <==> exists k :: k in cache && cache[k].pair !in books
    ensures r.Success? ==>
              var run, stop := r.value.0, r.value.1;
              && run.paths == paths && run.store.Keys == cache.Keys
              && (forall k :: k in run.store ==> run.store[k].pair == cache[k].pair && cache[k].pair in books)
              && AllSane(run.store)
              && 0.0 <= run.remaining <= amount
              && (stop == Settled <==> run.remaining == 0.0)
              && (stop == NoProfitablePath ==>
                    forall i :: 0 <= i < |run.paths| ==>
                      OnStore(run.store, run.paths[i].edges) && Ratio(run.store, run.paths[i].edges) <= 0.0)
              && (forall q :: q in run.result ==> q in run.paths)
              && LabelsDistinct(run.result)
              && (run.remaining < amount ==> |run.result| > 0)
              && stop != Stalled
              && SettledFrom(cache, books, paths, amount, fuel, run, stop)
  {
    var bound := BindBooks(paths, cache, books);
    if bound.Failure? {
      MissingPairReported(g, src, dst, books, paths, cache, bound.error.pair);
      return Failure(bound.error);
    }
    var store := bound.value;
    assert RoutesOk(store, paths) by {
      forall i, j | 0 <= i < |paths| && 0 <= j < |paths[i].edges|
        ensures paths[i].edges[j] in store
      {
        assert paths[i] in paths && paths[i].edges[j] in paths[i].edges;
      }
    }
    var run, stop := Calculate(Run(store, paths, amount, []), fuel);
    r := Success((run, stop));
  }

  /** What `call` reports for a missing book: the pair lies on a simple
      route from `src` to `dst`, and it is the first pair in request order
      with no book, the requests being those of the discovered paths over
      the graph's edges. */
  ghost predicate MissingReported(g: Graph, src: Currency, dst: Currency, books: map<string, Book>, pair: string) {
    && PairOnRoute(g, src, dst, pair)
    && exists paths, cache :: && DiscoveryOrder(g, src, dst, paths)
                              && StoreOfPaths(cache, paths)
                              && MirrorsGraph(cache, g)
                              && ReportsFirstMissing(cache, paths, books, pair)
  }

  /** The reported pair is the pair of a cached edge. */
  lemma ReportedPairStored(cache: Store, paths: seq<Path>, books: map<string, Book>, pair: string)
    requires ReportsFirstMissing(cache, paths, books, pair)
    ensures exists k :: k in cache && cache[k].pair == pair
  {
    var pairs := PairList(cache, paths);
    ElementAt(pairs, FirstMissing(pairs, books).value);
    RequestedPairHasEdge(cache, paths, pair);
    var i, j :| 0 <= i < |paths| && 0 <= j < |paths[i].edges| && cache[paths[i].edges[j]].pair == pair;
    assert paths[i].edges[j] in cache;
  }

  /** A missing pair reported while binding the discovered paths lies on a
      simple route and is the first missing one in request order. */
  lemma MissingPairReported(g: Graph, src: Currency, dst: Currency, books: map<string, Book>,
                            paths: seq<Path>, cache: Store, pair: string)
    requires Discovered(g, src, dst, paths) && DiscoveryOrder(g, src, dst, paths)
    requires StoreOfPaths(cache, paths) && MirrorsGraph(cache, g)
    requires ReportsFirstMissing(cache, paths, books, pair)
    ensures MissingReported(g, src, dst, books, pair)
  {
    ReportedPairStored(cache, paths, books, pair);
    var k :| k in cache && cache[k].pair == pair;
    StoredPairOnRoute(g, src, dst, paths, cache, k);
  }

  /** `call`: graph, routes, book requests, binding, settlement. On
      success the run holds the sorted paths, the traded edge store, the
      unexchanged rest of `amount` and the paths traded along. */
  method Call(markets: seq<Market>, books: map<string, Book>, src: Currency, dst: Currency,
              amount: real, fuel: nat)
    returns (r: Result<(Run, Stop), Failure>)
    requires amount > 0.0
    requires forall m :: m in markets ==> m.taker < 1.0
    requires forall p :: p in books ==> BookOk(books[p].bids) && BookOk(books[p].asks)
    ensures r == Failure(SameCurrency) <==> src == dst
    ensures r == Failure(UnknownSource) <==> src != dst && !Listed(markets, src)
    ensures r == Failure(NoRoute) <==>
              src != dst && Listed(markets, src) && forall p :: !SimpleRoute(FillGraph(EmptyGraph, markets), p, src, dst)
    ensures r.Failure? && r.error.MissingBook? ==> r.error.pair !in books
    ensures r.Failure? && r.error.MissingBook? ==> MissingReported(FillGraph(EmptyGraph, markets), src, dst, books, r.error.pair)
    ensures r.Failure? && r.error.MissingBook? <==>
              src != dst && Listed(markets, src) && RouteLacksBook(FillGraph(EmptyGraph, markets), src, dst, books)
    ensures r.Success? ==>
              var run, stop := r.value.0, r.value.1;
              && Discovered(FillGraph(EmptyGraph, markets), src, dst, run.paths)
              && DiscoveryOrder(FillGraph(EmptyGraph, markets), src, dst, run.paths)
              && StoreOfPaths(run.store, run.paths)
              && (forall k :: k in run.store ==> run.store[k].pair in books)
              && AllSane(run.store)
              && 0.0 <= run.remaining <= amount
              && (stop == Settled <==> run.remaining == 0.0)
              && (stop == NoProfitablePath ==>
                    forall i :: 0 <= i < |run.paths| ==>
                      OnStore(run.store, run.paths[i].edges) && Ratio(run.store, run.paths[i].edges) <= 0.0)
              && (forall q :: q in run.result ==> q in run.paths)
              && LabelsDistinct(run.result)
              && (run.remaining < amount ==> |run.result| > 0)
              && stop != Stalled
              && exists cache :: && MirrorsGraph(cache, FillGraph(EmptyGraph, markets))
                                 && StoreOfPaths(cache, run.paths)
                                 && SettledFrom(cache, books, run.paths, amount, fuel, run, stop)
  {
    var routes := Routes(markets, src, dst);
    if routes.Failure? {
      return Failure(routes.error);
    }
    var paths, cache := routes.value.0, routes.value.1;
    MissingBookOnRoute(FillGraph(EmptyGraph, markets), src, dst, paths, cache, books);
    r := Settle(FillGraph(EmptyGraph, markets), src, dst, paths, cache, books, amount, fuel);
    if r.Success? {
      assert MirrorsGraph(cache, FillGraph(EmptyGraph, markets)) && StoreOfPaths(cache, r.value.0.paths);
    }
  }
}
