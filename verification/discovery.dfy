/** Enumerating the simple routes between two currencies, materialising them
    against the shared edge cache, and ordering them by hop count. */
module Discovery {
  import opened Common
  import opened Edges
  import opened Graphs
  import opened Paths

  /** How many registered currencies the partial route has not visited yet. */
  function Unvisited(g: Graph, path: seq<Currency>): nat {
    |g.nodes.Keys - Elements(path)|
  }

  lemma VisitingShrinks(g: Graph, path: seq<Currency>, c: Currency)
    ensures c in g.nodes && c !in path ==> Unvisited(g, path + [c]) < Unvisited(g, path)
  {
    if c in g.nodes && c !in path {
      var later := g.nodes.Keys - Elements(path + [c]);
      assert Elements(path + [c]) == Elements(path) + {c};
      assert later + {c} == g.nodes.Keys - Elements(path);
      assert c !in later;
    }
  }

  /** `findPaths`: depth-first, following the current node's edges in the
      order it stores them, skipping currencies already on the route; a route
      is recorded when it reaches `end`. */
  function FindPaths(g: Graph, current: Currency, end: Currency, path: seq<Currency>): seq<seq<Currency>>
    requires WellFormed(g)
    requires current == end || current in g.nodes
    decreases Unvisited(g, path), 1, 0
  {
    if current == end then [path]
    else
      assert NodeWellFormed(g, current);
      Explore(g, current, g.nodes[current].dests, end, path)
  }

  /** The loop over the current node's edges, from the given destination on. */
  function Explore(g: Graph, current: Currency, dests: seq<Currency>, end: Currency,
                   path: seq<Currency>): seq<seq<Currency>>
    requires WellFormed(g) && current in g.nodes
    requires forall d :: d in dests ==> d in g.nodes[current].edges
    decreases Unvisited(g, path), 0, |dests|
  {
    if |dests| == 0 then []
    else
      assert NodeWellFormed(g, current);
      var to := g.nodes[current].edges[dests[0]].to;
      VisitingShrinks(g, path, to);
      var here := if to in path then [] else FindPaths(g, to, end, path + [to]);
      here + Explore(g, current, dests[1..], end, path)
  }

  /** Consecutive currencies of `p` from index `from` on are linked by edges. */
  ghost predicate Linked(g: Graph, p: seq<Currency>, from: int) {
    forall i :: 0 <= from <= i < |p| - 1 ==> HasEdge(g, p[i], p[i + 1])
  }

  /** `p` continues the partial route `path` as a simple route to `end`. */
  ghost predicate Continues(g: Graph, p: seq<Currency>, path: seq<Currency>, end: Currency) {
    && 0 < |path| <= |p|
    && p[..|path|] == path
    && p[|p| - 1] == end
    && Distinct(p)
    && Linked(g, p, |path| - 1)
  }

  /** The routes discovery starts from. */
  ghost predicate Start(g: Graph, current: Currency, end: Currency, path: seq<Currency>) {
    && WellFormed(g)
    && (current == end || current in g.nodes)
    && |path| > 0 && path[|path| - 1] == current
    && Distinct(path)
  }

  /** What well-formedness says about one stored edge of a node. */
  lemma StoredEdge(g: Graph, current: Currency, d: Currency)
    requires WellFormed(g) && current in g.nodes && d in g.nodes[current].edges
    ensures g.nodes[current].edges[d].to == d && d in g.nodes && HasEdge(g, current, d)
  {
    assert NodeWellFormed(g, current);
  }

  lemma DistinctSnoc<T>(s: seq<T>, x: T)
    requires Distinct(s) && x !in s
    ensures Distinct(s + [x])
  {
    var s' := s + [x];
    forall i, j | 0 <= i < j < |s'| ensures s'[i] != s'[j] {
      if j == |s| { assert s'[i] == s[i]; }
    }
  }

  /** A continuation of the route one step further is a continuation of the
      route itself, when that step is an edge. */
  lemma ContinuesBack(g: Graph, p: seq<Currency>, path: seq<Currency>, to: Currency, end: Currency)
    requires |path| > 0 && HasEdge(g, path[|path| - 1], to)
    requires Continues(g, p, path + [to], end)
    ensures Continues(g, p, path, end)
  {
    assert p[..|path|] == p[..|path| + 1][..|path|];
    assert p[|path| - 1] == path[|path| - 1] && p[|path|] == to;
  }

  /** Soundness: every recorded route continues the partial one as a simple,
      edge-linked route ending at `end`. */
  lemma {:induction false} FindPathsSound(g: Graph, current: Currency, end: Currency, path: seq<Currency>)
    requires Start(g, current, end, path)
    ensures forall p :: p in FindPaths(g, current, end, path) ==> Continues(g, p, path, end)
    decreases Unvisited(g, path), 1, 0
  {
    if current != end {
      assert NodeWellFormed(g, current);
      ExploreSound(g, current, g.nodes[current].dests, end, path);
    }
  }

  lemma {:induction false} ExploreSound(g: Graph, current: Currency, dests: seq<Currency>, end: Currency,
                                        path: seq<Currency>)
    requires Start(g, current, end, path) && current in g.nodes
    requires forall d :: d in dests ==> d in g.nodes[current].edges
    ensures forall p :: p in Explore(g, current, dests, end, path) ==> Continues(g, p, path, end)
    decreases Unvisited(g, path), 0, |dests|
  {
    if |dests| > 0 {
      var to := dests[0];
      StoredEdge(g, current, to);
      VisitingShrinks(g, path, to);
      if to !in path {
        var path' := path + [to];
        DistinctSnoc(path, to);
        FindPathsSound(g, to, end, path');
        forall p | p in FindPaths(g, to, end, path') ensures Continues(g, p, path, end) {
          ContinuesBack(g, p, path, to, end);
        }
      }
      ExploreSound(g, current, dests[1..], end, path);
    }
  }

  /** A simple route that has already reached its end stops there. */
  lemma ContinuesAtEnd(g: Graph, p: seq<Currency>, path: seq<Currency>, end: Currency)
    requires Continues(g, p, path, end) && path[|path| - 1] == end
    ensures p == path
  {
    assert |p| == |path| by {
      if |p| > |path| { assert p[|path| - 1] == p[|p| - 1]; }
    }
    assert p == p[..|path|];
  }

  /** A longer continuation takes one more edge, to a currency not yet visited. */
  lemma ContinuesForward(g: Graph, p: seq<Currency>, path: seq<Currency>, end: Currency)
    requires Continues(g, p, path, end) && |p| > |path|
    ensures HasEdge(g, path[|path| - 1], p[|path|])
    ensures p[|path|] !in path
    ensures Continues(g, p, path + [p[|path|]], end)
  {
    var next := p[|path|];
    assert p[|path| - 1] == path[|path| - 1];
    forall i | 0 <= i < |path| ensures path[i] != next {
      assert path[i] == p[i];
    }
    assert p[..|path| + 1] == path + [next];
  }

  /** Completeness: every simple, edge-linked route that continues the
      partial one to `end` is recorded. */
  lemma {:induction false} FindPathsComplete(g: Graph, current: Currency, end: Currency,
                                             path: seq<Currency>, p: seq<Currency>)
    requires Start(g, current, end, path)
    requires Continues(g, p, path, end)
    ensures p in FindPaths(g, current, end, path)
    decreases Unvisited(g, path), 1, 0
  {
    if current == end {
      ContinuesAtEnd(g, p, path, end);
    } else {
      ContinuesForward(g, p, path, end);
      var next := p[|path|];
      assert NodeWellFormed(g, current);
      VisitingShrinks(g, path, next);
      DistinctSnoc(path, next);
      FindPathsComplete(g, next, end, path + [next], p);
      ExploreReaches(g, current, g.nodes[current].dests, end, path, next);
    }
  }

  /** Exploring a node's edges records everything found behind each
      destination not yet on the route. */
  lemma {:induction false} ExploreReaches(g: Graph, current: Currency, dests: seq<Currency>, end: Currency,
                                          path: seq<Currency>, next: Currency)
    requires WellFormed(g) && current in g.nodes
    requires forall d :: d in dests ==> d in g.nodes[current].edges
    requires next in dests && next !in path
    ensures forall p :: p in FindPaths(g, next, end, path + [next]) ==> p in Explore(g, current, dests, end, path)
    decreases |dests|
  {
    assert NodeWellFormed(g, current);
    VisitingShrinks(g, path, next);
    if dests[0] != next {
      ExploreReaches(g, current, dests[1..], end, path, next);
    }
  }

  /** Every route from `src` to `dst` that visits no currency twice and
      follows registered edges is discovered, and nothing else is. */
  ghost predicate SimpleRoute(g: Graph, p: seq<Currency>, src: Currency, dst: Currency) {
    && |p| > 0 && p[0] == src && p[|p| - 1] == dst
    && Distinct(p)
    && Linked(g, p, 0)
  }

  /** The routes the handler starts discovery with: from `[src]`. */
  function AllRoutes(g: Graph, src: Currency, dst: Currency): seq<seq<Currency>>
    requires WellFormed(g) && (src == dst || src in g.nodes)
  {
    FindPaths(g, src, dst, [src])
  }

  lemma AllRoutesExact(g: Graph, src: Currency, dst: Currency, p: seq<Currency>)
    requires WellFormed(g) && (src == dst || src in g.nodes)
    ensures p in AllRoutes(g, src, dst) <==> SimpleRoute(g, p, src, dst)
  {
    assert Start(g, src, dst, [src]);
    if p in AllRoutes(g, src, dst) {
      FindPathsSound(g, src, dst, [src]);
      assert p[..1] == [src];
    }
    if SimpleRoute(g, p, src, dst) {
      assert p[..1] == [src];
      FindPathsComplete(g, src, dst, [src], p);
    }
  }

  /** Consecutive currencies of `currencies` are all linked by edges. */
  function PathKeys(currencies: seq<Currency>): (ks: seq<EdgeKey>)
    ensures |ks| == if |currencies| == 0 then 0 else |currencies| - 1
    ensures forall i :: 0 <= i < |ks| ==> ks[i] == (currencies[i], currencies[i + 1])
  {
    seq(if |currencies| == 0 then 0 else |currencies| - 1, i requires 0 <= i < |currencies| - 1 =>
      (currencies[i], currencies[i + 1]))
  }

  /** `g'` is `g` with possibly more cache entries, each the edge its origin
      node stores; the nodes and the entries already cached are unchanged. */
  predicate CacheGrows(g: Graph, g': Graph) {
    && g'.nodes == g.nodes
    && g.edges.Keys <= g'.edges.Keys
    && (forall k :: k in g.edges ==> g'.edges[k] == g.edges[k])
    && (forall k :: k in g'.edges && k !in g.edges ==>
          HasEdge(g, k.0, k.1) && g'.edges[k] == g.nodes[k.0].edges[k.1])
  }

  lemma CacheGrowsTransitive(g0: Graph, g1: Graph, g2: Graph)
    requires CacheGrows(g0, g1) && CacheGrows(g1, g2)
    ensures CacheGrows(g0, g2)
  {
  }

  lemma CacheGrowsMirrors(g: Graph, g': Graph)
    requires CacheGrows(g, g')
    ensures CacheMirrorsNodes(g) ==> CacheMirrorsNodes(g')
  {
  }

  /** Caches the graph's edge `from -> to` under its key, unless that key
      is already cached. */
  function CacheEdge(g: Graph, from: Currency, to: Currency): (r: Graph)
    requires HasEdge(g, from, to)
    ensures CacheGrows(g, r)
    ensures r.edges.Keys == g.edges.Keys + {(from, to)}
  {
    if (from, to) in g.edges then g
    else g.(edges := g.edges[(from, to) := GetEdge(g, from, to)])
  }

  /** Every edge key the paths refer to. */
  function EdgeKeysOf(paths: seq<Path>): set<EdgeKey> {
    if |paths| == 0 then {} else Elements(paths[0].edges) + EdgeKeysOf(paths[1..])
  }

  lemma {:induction false} EdgeKeysOfSnoc(paths: seq<Path>, p: Path)
    ensures EdgeKeysOf(paths + [p]) == EdgeKeysOf(paths) + Elements(p.edges)
    decreases |paths|
  {
    if |paths| == 0 {
      assert ([] + [p])[1..] == [];
    } else {
      assert (paths + [p])[1..] == paths[1..] + [p];
      EdgeKeysOfSnoc(paths[1..], p);
    }
  }

  /** One more pair extends the key prefix by that pair's key. */
  lemma KeysStep(currencies: seq<Currency>, i: nat, edges: seq<EdgeKey>)
    requires i < |currencies| - 1 && edges == PathKeys(currencies)[..i]
    ensures edges + [(currencies[i], currencies[i + 1])] == PathKeys(currencies)[..i + 1]
    ensures Elements(edges + [(currencies[i], currencies[i + 1])]) == Elements(edges) + {(currencies[i], currencies[i + 1])}
  {
  }

  /** After caching the edges of the first `i` hops of `currencies`: the
      cache grew from `g` by exactly those edges. */
  ghost predicate Caching(g: Graph, g': Graph, currencies: seq<Currency>, i: nat, edges: seq<EdgeKey>) {
    && Linked(g, currencies, 0)
    && i <= |PathKeys(currencies)|
    && edges == PathKeys(currencies)[..i]
    && CacheGrows(g, g')
    && g'.edges.Keys == g.edges.Keys + Elements(edges)
  }

  /** Caching the next hop keeps `Caching` one hop further on. */
  lemma CacheStep(g: Graph, g': Graph, currencies: seq<Currency>, i: nat, edges: seq<EdgeKey>)
    requires i < |currencies| - 1 && Caching(g, g', currencies, i, edges)
    ensures HasEdge(g', currencies[i], currencies[i + 1])
    ensures Caching(g, CacheEdge(g', currencies[i], currencies[i + 1]), currencies, i + 1, edges + [(currencies[i], currencies[i + 1])])
  {
    var from, to := currencies[i], currencies[i + 1];
    assert HasEdge(g, from, to);
    var next := CacheEdge(g', from, to);
    CacheGrowsTransitive(g, g', next);
    KeysStep(currencies, i, edges);
  }

  /** `createPath`: walks the currencies pairwise; each edge comes from the
      graph's shared edge cache, which is filled from the origin node the
      first time a pair is asked for and reused afterwards. */
  method CreatePath(g: Graph, currencies: seq<Currency>) returns (p: Path, g': Graph)
    requires Linked(g, currencies, 0)
    ensures p.currencies == currencies && p.edges == PathKeys(currencies)
    ensures |currencies| > 0 ==> Shaped(p)
    ensures CacheGrows(g, g')
    ensures g'.edges.Keys == g.edges.Keys + Elements(p.edges)
  {
    p := Path(currencies, []);
    g' := g;
    var pairs := |currencies| - 1;
    var i := 0;
    while i < pairs
      invariant 0 <= i <= if pairs < 0 then 0 else pairs
      invariant p.currencies == currencies
      invariant Caching(g, g', currencies, i, p.edges)
    {
      var from, to := currencies[i], currencies[i + 1];
      CacheStep(g, g', currencies, i, p.edges);
      g' := CacheEdge(g', from, to);
      p := Paths.AddEdge(p, (from, to));
      i := i + 1;
    }
    assert p.edges == PathKeys(currencies);
  }

  /** `p` is the materialised form of `route`, and the cache holds every
      edge it refers to. */
  predicate Realises(p: Path, route: seq<Currency>, cache: Graph) {
    && p.currencies == route
    && p.edges == PathKeys(route)
    && Elements(p.edges) <= cache.edges.Keys
  }

  /** A materialised simple route is shaped and crosses no edge twice. */
  lemma RealisedRouteShape(g: Graph, p: Path, route: seq<Currency>, cache: Graph, src: Currency, dst: Currency)
    requires Realises(p, route, cache) && SimpleRoute(g, route, src, dst)
    ensures Shaped(p) && Distinct(p.edges)
    ensures |p.edges| == 0 <==> src == dst
  {
    SimpleRouteHasDistinctEdges(p);
    if |p.edges| == 0 {
      assert route == [src];
    }
  }

  /** Discovery as the handler runs it: every simple route from `src` to
      `dst`, in search order, each materialised against the edge cache. */
  method DiscoverPaths(g: Graph, src: Currency, dst: Currency) returns (paths: seq<Path>, g': Graph)
    requires WellFormed(g) && (src == dst || src in g.nodes)
    ensures |paths| == |AllRoutes(g, src, dst)|
    ensures forall i :: 0 <= i < |paths| ==> Realises(paths[i], AllRoutes(g, src, dst)[i], g')
    ensures CacheGrows(g, g')
    ensures g'.edges.Keys == g.edges.Keys + EdgeKeysOf(paths)
  {
    var routes := AllRoutes(g, src, dst);
    paths, g' := [], g;
    var i := 0;
    while i < |routes|
      invariant 0 <= i <= |routes| && |paths| == i
      invariant forall j :: 0 <= j < i ==> Realises(paths[j], routes[j], g')
      invariant CacheGrows(g, g')
      invariant g'.edges.Keys == g.edges.Keys + EdgeKeysOf(paths)
    {
      AllRoutesExact(g, src, dst, routes[i]);
      var p, next := CreatePath(g', routes[i]);
      CacheGrowsTransitive(g, g', next);
      EdgeKeysOfSnoc(paths, p);
      var paths' := paths + [p];
      forall j | 0 <= j < i + 1
        ensures Realises(paths'[j], routes[j], next)
      {
        if j < i {
          assert paths'[j] == paths[j];
        }
      }
      g' := next;
      paths := paths';
      i := i + 1;
    }
  }

  /** The number of edges of a path, the sort key. */
  function Hops(p: Path): nat {
    |p.edges|
  }

  predicate SortedByHops(ps: seq<Path>) {
    forall i, j :: 0 <= i < j < |ps| ==> Hops(ps[i]) <= Hops(ps[j])
  }

  /** The paths with exactly `n` hops, in their order in `ps`. */
  function WithHops(ps: seq<Path>, n: nat): (r: seq<Path>)
    ensures |r| <= |ps|
  {
    if |ps| == 0 then []
    else (if Hops(ps[0]) == n then [ps[0]] else []) + WithHops(ps[1..], n)
  }

  /** Puts `p` in front of the first path with at least as many hops. */
  function InsertByHops(p: Path, ps: seq<Path>): (r: seq<Path>)
    ensures |r| == |ps| + 1
    ensures multiset(r) == multiset(ps) + multiset{p}
  {
    if |ps| == 0 || Hops(p) <= Hops(ps[0]) then [p] + ps
    else
      assert ps == [ps[0]] + ps[1..];
      [ps[0]] + InsertByHops(p, ps[1..])
  }

  lemma {:induction false} InsertKeepsSorted(p: Path, ps: seq<Path>)
    requires SortedByHops(ps)
    ensures SortedByHops(InsertByHops(p, ps))
    decreases |ps|
  {
    if |ps| > 0 && Hops(p) > Hops(ps[0]) {
      InsertKeepsSorted(p, ps[1..]);
      var rest := InsertByHops(p, ps[1..]);
      forall q | q in rest ensures Hops(ps[0]) <= Hops(q) {
        assert q in multiset(rest);
        assert q == p || q in multiset(ps[1..]);
      }
      var r := [ps[0]] + rest;
      forall i, j | 0 <= i < j < |r| ensures Hops(r[i]) <= Hops(r[j]) {
        if i == 0 { assert r[j] in rest; }
      }
    }
  }

  /** Inserting `p` places it before every path with the same hop count. */
  lemma {:induction false} InsertIsStable(p: Path, ps: seq<Path>, n: nat)
    ensures WithHops(InsertByHops(p, ps), n) == (if Hops(p) == n then [p] else []) + WithHops(ps, n)
    decreases |ps|
  {
    var r := InsertByHops(p, ps);
    var hp := if Hops(p) == n then [p] else [];
    if |ps| == 0 || Hops(p) <= Hops(ps[0]) {
      assert r[0] == p && r[1..] == ps;
    } else {
      var hq := if Hops(ps[0]) == n then [ps[0]] else [];
      InsertIsStable(p, ps[1..], n);
      assert r[0] == ps[0] && r[1..] == InsertByHops(p, ps[1..]);
      assert hp == [] || hq == [];
      calc {
        WithHops(r, n);
        hq + WithHops(r[1..], n);
        hq + (hp + WithHops(ps[1..], n));
        hp + (hq + WithHops(ps[1..], n));
        hp + WithHops(ps, n);
      }
    }
  }

  /** `usort` by hop count; PHP's sort is stable, so paths with equal hop
      counts keep their discovery order. */
  function SortByHops(ps: seq<Path>): (r: seq<Path>)
    ensures multiset(r) == multiset(ps)
  {
    if |ps| == 0 then []
    else
      assert ps == [ps[0]] + ps[1..];
      InsertByHops(ps[0], SortByHops(ps[1..]))
  }

  lemma {:induction false} SortByHopsCorrect(ps: seq<Path>)
    ensures SortedByHops(SortByHops(ps))
    ensures forall n: nat :: WithHops(SortByHops(ps), n) == WithHops(ps, n)
    decreases |ps|
  {
    if |ps| > 0 {
      SortByHopsCorrect(ps[1..]);
      InsertKeepsSorted(ps[0], SortByHops(ps[1..]));
      forall n: nat ensures WithHops(SortByHops(ps), n) == WithHops(ps, n) {
        InsertIsStable(ps[0], SortByHops(ps[1..]), n);
      }
    }
  }
}
