# Currency-routing core of the order-book calculator

This project models the exchange-routing core of the order-book calculator in
`app/Services/Exchange/`. Given a list of exchange markets and an amount of a
source currency, the handler does the following:

- builds a directed graph. Each eligible market contributes a forward edge
  base→quote, which sells into the bids, and a reverse edge quote→base, which
  buys from the asks. Each edge is weighted by the market's `1 - taker` fee
  retention (the *reminder*).
- enumerates every simple route from the source to the destination currency,
  depth first in insertion order.
- sorts the routes by hop count, keeping equal-length routes in order.
- works out which order books the routes need and binds each cached edge to
  its book side.
- settles greedily. It repeatedly picks the route with the best head-of-book
  ratio, probes how much of the remaining amount its head levels can absorb,
  and executes that share along the route. It stops when nothing is
  profitable or nothing is left. The code's third exit, a route whose probe
  fills nothing, is never taken.

The model is purely functional:

- Objects that PHP mutates in place are values.
  - An `Edge` carries its book side, its memoised head order (`order`, an
    `Option`) and its traded totals.
  - Every edge operation returns the changed edge next to its result.
- The graph's edge cache (`Graph::$edges`) becomes a `Store`, a map from
  `(from, to)` keys to edges.
  - Paths hold keys into the store, so an execution on one path is seen by
    every other path that shares the edge, just as PHP's shared objects are.
- Reading a head level fills the cache. The model keeps that effect explicit
  (`Touch`, `Touched`) and proves it never changes a quote.
- Prices, volumes and fees are `real`s.
- The market list and the fetched books are inputs.
- Where the PHP code would crash (see "Left out"), `Handler.Call` returns a
  `Failure` that names the cause.

Modules, following the source classes:

| module | file | models |
|---|---|---|
| `Common` | common.dfy | `Option`, `Result`, `Min`, distinctness |
| `Orders` | order.dfy | `Order` |
| `Edges` | edge.dfy | `Edge`: ratio, probe, exchange, head cache |
| `Graphs` | graph.dfy | `Node`, `Graph` |
| `Paths` | path.dfy | `Path`: ratio product, label |
| `Network` | network.dfy | `fillGraph`, `addNodeToGraph`, allow-list |
| `Discovery` | discovery.dfy | `findPaths`, `createPath`, `sortFoundPathsByLength` |
| `Books` | books.dfy | `getPairListForLoadOrders`, `fillEdges` |
| `Trading` | trading.dfy | `exchange` (one route) |
| `Settlement` | settlement.dfy | `calculate` (the loop) |
| `Handler` | handler.dfy | `call` end to end |

The probe and the execution of an edge disagree in one place, and the model
keeps both as written:

- On a forward edge, the second value of `calculateVolumeFilling` is the
  filled volume times the reminder (Edge.php:80). `exchange` returns the
  filled volume times the price and the reminder (Edge.php:98). The probe
  leaves out the price factor.
- On a reverse edge the two agree.
- Example: price 2, ample depth, reminder 0.999, input 10. The probe reports
  9.99, while `exchange` returns 19.98.
- `Edges.DeepHeadScenario` states both numbers, and `Edges.ProbeVersusExchange`
  states the general relation.

## Model

| member | source | states |
|---|---|---|
| Orders.Order.IsEmpty | app/Services/Exchange/Order.php:12-15 | The model of `isEmpty`: a level is empty when its volume is exactly 0.0. `Orders.EmptinessIsZeroVolume` states what that means. |
| Orders.EmptinessIsZeroVolume | app/Services/Exchange/Order.php:12-15 | An order is empty exactly when its volume is zero, whatever its price. The `[0, 0]` sentinel is empty. A negative leftover volume is not empty. |
| Edges.NewEdge | app/Services/Exchange/Edge.php:21-30 | A new edge links its two currencies with the given reminder and direction. Its pair is base/quote in both directions. It has no book, no cached head and zero totals. |
| Edges.MarketDirectionsSharePair | app/Services/Exchange/Edge.php:21-30 | A market's forward edge base→quote and its reverse edge quote→base carry the same pair symbol `base/quote`. |
| Edges.ToString | app/Services/Exchange/Edge.php:132-135 | The edge label is the source currency, the arrow `->`, then the target currency. |
| Edges.SetData | app/Services/Exchange/Edge.php:36-39 | Binding a book replaces the order list and nothing else, so a head cached earlier stays as it was. |
| Edges.SetDataKeepsCoherence | app/Services/Exchange/Edge.php:36-39 | Binding a book to an edge with nothing cached makes its next head read return the book's first level, or the empty sentinel for an empty book. |
| Edges.GetOrder | app/Services/Exchange/Edge.php:64-67 | A head read returns the cached order if there is one, otherwise the first level, and caches what it returned. On a coherent edge this is the first level of the book. |
| Edges.TouchIsInvisible | app/Services/Exchange/Edge.php:64-67 | Filling the head cache is idempotent, never changes what a later head read returns, and touches no other field. |
| Edges.GetRatio | app/Services/Exchange/Edge.php:46-57 | The ratio is 0 for an empty head. Otherwise it is price × reminder on a forward edge and reminder ÷ price on a reverse edge. With a positive reminder and a non-negative price it is positive exactly when the head is non-empty with a positive price. The read caches the head. |
| Edges.CalculateVolumeFilling | app/Services/Exchange/Edge.php:75-83 | For a positive input, the probe's percent lies in [0, 1]. It is 1 exactly when the head depth, in source units, covers the input, and 0 exactly when the depth is 0. |
| Edges.Fill | app/Services/Exchange/Edge.php:91-103 | The arithmetic of `exchange` against the head level. A forward edge fills min(input, volume), spends the fill and receives fill × price × reminder. A reverse edge fills min(input / price, volume), spends fill × price and receives fill × reminder. `Edges.ExchangeBounds`, `Edges.ProbeVersusExchange` and `Edges.ExchangeRealisesRatio` state its properties. |
| Edges.ReduceOrderVolume | app/Services/Exchange/Edge.php:118-127 | Taking volume off the head either leaves the positive remainder at the same price with the rest unchanged, or pops the level and clears the cache when nothing positive remains. |
| Edges.Exchange | app/Services/Exchange/Edge.php:91-110 | An execution returns the amount received and adds what it spends and receives to the edge's totals. It reduces or pops the head level, keeps the edge's endpoints, pair, direction and fee, and keeps the cache coherent. |
| Edges.ExchangeBounds | app/Services/Exchange/Edge.php:91-110 | The filled volume never exceeds the head volume. The amount spent never exceeds the input. Nothing moved is negative, so the totals never decrease. |
| Edges.ProbeVersusExchange | app/Services/Exchange/Edge.php:75-110 | From one state, the probe's percent times the input is what the execution spends. On a reverse edge the probe's volume is what the execution returns; on a forward edge it is that amount divided by the price. |
| Edges.ExchangeRealisesRatio | app/Services/Exchange/Edge.php:46-110 | When the head level covers the input, the execution returns exactly input × the edge's quoted ratio. |
| Edges.SaneQuotes | app/Services/Exchange/Edge.php:46-57 | A well-formed edge quotes a non-negative ratio. A positive quote implies a non-empty head level with positive price and volume. |
| Edges.SaneAfterExchange | app/Services/Exchange/Edge.php:91-127 | Executing a non-negative amount keeps an edge well formed: coherent cache, positive prices, non-negative volumes and totals. |
| Edges.DeepHeadScenario | app/Services/Exchange/Edge.php:75-110 | Price 2, volume 50, reminder 0.999, input 10: the probe reports a full fill and 9.99. The execution spends 10, returns 19.98 and leaves 40 on the level. |
| Edges.ShallowHeadScenario | app/Services/Exchange/Edge.php:75-127 | With only 5 on the head level, the probe reports one half. The execution pops the level and clears the cache, so the next read sees the second level. |
| Graphs.NewNode | app/Services/Exchange/Node.php:10-12 | A new node is for its currency and has no outgoing edges. |
| Graphs.AddEdge | app/Services/Exchange/Node.php:20-23 | Adding an edge stores it under its target currency, replacing any earlier edge there while keeping that key's position, and leaves all other targets alone. |
| Graphs.EmptyGraphWellFormed | app/Services/Exchange/Graph.php:8-11 | The initial graph has no nodes, no cached edges and is well formed. |
| Graphs.GetNodeInstance | app/Services/Exchange/Graph.php:19-22 | Returns the node already stored for the currency, otherwise creates, stores and returns a new one. Other nodes and the edge cache are unchanged. |
| Graphs.GetNodeInstanceMemoises | app/Services/Exchange/Graph.php:19-22 | Asking again for the same currency returns the same node and leaves the graph unchanged. |
| Graphs.GetNodeInstanceKeepsEdges | app/Services/Exchange/Graph.php:19-22 | Node creation adds or changes no edges and keeps the graph well formed. |
| Graphs.GetNode | app/Services/Exchange/Graph.php:28-31 | In a well-formed graph the node found for a currency is that currency's node. Each of its edges leaves that currency and is stored under its own target. |
| Graphs.GetEdge | app/Services/Exchange/Graph.php:38-41 | In a well-formed graph the edge found for `(from, to)` runs from `from` to `to`, and `to` has a node. |
| Graphs.RegisterEdge | app/Services/Exchange/Node.php:20-23 | The model of `Node::addEdge` as `addNodeToGraph` calls it on the origin node. The origin node gets the edge under its target currency, every other node is unchanged, and the node set and edge cache stay the same. |
| Graphs.RegisterEdgeEffect | app/Services/Exchange/Node.php:20-23 | Registering an edge on its source node adds exactly that link and keeps every other link and the graph's well-formedness. |
| Paths.AddEdge | app/Services/Exchange/Path.php:18-21 | Appending keeps the currencies and the earlier edges and puts the new edge last. |
| Paths.SimpleRouteHasDistinctEdges | app/Services/Exchange/Path.php:7-12 | A path built along a route with no repeated currency never uses the same edge twice. |
| Paths.GetRatio | app/Services/Exchange/Path.php:28-36 | The path ratio is the product of the edges' quoted ratios, and 1 for a path with no edges. PHP never reaches that case: a zero-hop path's edge list is uninitialised and `getRatio` fails (see the `Handler.Call` line under Left out). The reads only fill head caches. |
| Paths.RatesIgnoreTouches | app/Services/Exchange/Path.php:28-36 | Filling head caches never changes any edge's quote, so ratios read in any order agree. |
| Paths.SingleHopRatio | app/Services/Exchange/Path.php:28-36 | A one-edge path's ratio is that edge's ratio. |
| Paths.ZeroEdgeZeroRatio | app/Services/Exchange/Path.php:28-36 | A path with a zero-quoting edge has ratio 0. |
| Paths.NonNegativeRatio | app/Services/Exchange/Path.php:28-36 | Non-negative edge quotes give a non-negative path ratio. |
| Paths.PositiveRatioPositiveEdges | app/Services/Exchange/Path.php:28-36 | With non-negative quotes, a positive path ratio means every edge on it quotes positively. |
| Paths.Label | app/Services/Exchange/Path.php:41-44 | The model of `Path::__toString`: the currencies joined by `->`. `Paths.LabelExtends` and `Paths.TwoCurrencyLabel` state its shape. |
| Paths.LabelExtends | app/Services/Exchange/Path.php:41-44 | Extending a route by one currency extends its label by `->` and that currency. |
| Paths.TwoCurrencyLabel | app/Services/Exchange/Path.php:41-44 | The label of a one-hop route equals the label of its edge. |
| Network.Eligible | app/Services/Exchange/OrderBookCalculateHandler.php:70-79 | The three `continue` guards of `fillGraph`. A market is skipped when it is flagged inactive, and a missing flag counts as active. It is also skipped when its base or its quote is not on the allow-list. `Network.EligibleOnly` states it. |
| Network.ForwardEdge | app/Services/Exchange/OrderBookCalculateHandler.php:95-97 | The base→quote edge of a market, forward, with reminder 1 − taker. |
| Network.ReverseEdge | app/Services/Exchange/OrderBookCalculateHandler.php:95-98 | The quote→base edge of a market, reverse, with the same reminder. |
| Network.FillGraph | app/Services/Exchange/OrderBookCalculateHandler.php:68-82 | The model of `fillGraph`: `addNodeToGraph` over the eligible markets, in list order. It never touches the edge cache. Its result is stated in `Network.FillGraphWellFormed` and `Network.FillGraphContents`. |
| Network.AddNodeToGraph | app/Services/Exchange/OrderBookCalculateHandler.php:90-102 | Adding a market registers both its currencies as nodes and leaves the edge cache alone. |
| Network.AddNodeToGraphEffect | app/Services/Exchange/OrderBookCalculateHandler.php:90-102 | A market yields its forward edge on the base node and its reverse edge on the quote node. The reverse edge wins when base equals quote. No other link changes. |
| Network.EligibleOnly | app/Services/Exchange/OrderBookCalculateHandler.php:68-82 | The filtered market list holds exactly the markets that are not flagged inactive and have both currencies on the allow-list. |
| Network.IneligibleMarketsIgnored | app/Services/Exchange/OrderBookCalculateHandler.php:68-82 | Building from all markets gives the same graph as building from the eligible ones only. |
| Network.FillGraphWellFormed | app/Services/Exchange/OrderBookCalculateHandler.php:68-82 | Filling keeps the graph well formed: nodes keyed by their currency, edges keyed by their target and leaving their node. |
| Network.FillGraphContents | app/Services/Exchange/OrderBookCalculateHandler.php:15-102 | The filled graph has a node exactly for each currency an eligible market names, all on the allow-list. It has an edge c→d exactly when an eligible market joins c and d. Every edge is one an eligible market yields, with that market's fee. |
| Network.StepOutcomeHolds | app/Services/Exchange/OrderBookCalculateHandler.php:70-81 | One market step registers an eligible market's currencies and links, and leaves every other edge as it was. An ineligible market changes nothing. |
| Discovery.FindPaths | app/Services/Exchange/OrderBookCalculateHandler.php:112-127 | The model of `findPaths`: a route ending at the destination is recorded; otherwise the search goes on from the current node. `Discovery.FindPathsSound`, `Discovery.FindPathsComplete` and `Discovery.AllRoutesExact` state what it finds. |
| Discovery.Explore | app/Services/Exchange/OrderBookCalculateHandler.php:120-126 | The `foreach` over the current node's edges in stored order. It skips a currency already on the route and recurses on the others, concatenating the routes found in that order. |
| Discovery.VisitingShrinks | app/Services/Exchange/OrderBookCalculateHandler.php:120-125 | Each recursive step visits a new graph currency, so the number of unvisited currencies falls and the search terminates. |
| Discovery.FindPathsSound | app/Services/Exchange/OrderBookCalculateHandler.php:112-127 | Every route the search reports extends the current prefix along graph edges, with no repeated currency, to the destination. |
| Discovery.FindPathsComplete | app/Services/Exchange/OrderBookCalculateHandler.php:112-127 | Every such extension of the current prefix is reported. |
| Discovery.AllRoutesExact | app/Services/Exchange/OrderBookCalculateHandler.php:112-127 | A sequence is among the routes found from the source exactly when it is a simple route from the source to the destination. |
| Discovery.PathKeys | app/Services/Exchange/OrderBookCalculateHandler.php:238-244 | The edge keys of a route are its consecutive currency pairs, one fewer than its currencies. |
| Discovery.CacheEdge | app/Services/Exchange/OrderBookCalculateHandler.php:242 | Looking up an edge through the cache adds exactly that key and keeps every edge already cached. |
| Discovery.CreatePath | app/Services/Exchange/OrderBookCalculateHandler.php:234-247 | A path is built over the route's currencies along its consecutive-pair edges, and the cache grows by exactly those edges. |
| Discovery.RealisedRouteShape | app/Services/Exchange/OrderBookCalculateHandler.php:234-247 | A path built from a simple route is shaped along its currencies and uses no edge twice. It has no edges exactly when source and destination coincide. |
| Discovery.DiscoverPaths | app/Services/Exchange/OrderBookCalculateHandler.php:112-127 | One path is built per route found, in discovery order, and the cache grows by exactly the edges they use. |
| Discovery.SortByHops | app/Services/Exchange/OrderBookCalculateHandler.php:134-140 | The model of the `usort` by edge count. The result is a permutation of the input; `Discovery.SortByHopsCorrect` proves it sorted and stable. |
| Discovery.InsertKeepsSorted | app/Services/Exchange/OrderBookCalculateHandler.php:134-140 | Inserting a path after every path with at most its hop count keeps a list sorted by hops. |
| Discovery.InsertIsStable | app/Services/Exchange/OrderBookCalculateHandler.php:134-140 | Insertion keeps the relative order of paths with equal hop counts, with the inserted path first among its length. |
| Discovery.SortByHopsCorrect | app/Services/Exchange/OrderBookCalculateHandler.php:134-140 | The sorted list is ordered by hop count, is a permutation of the input, and keeps each hop count's paths in their original order. |
| Books.AddPair | app/Services/Exchange/OrderBookCalculateHandler.php:167 | Recording a pair adds it if new and keeps earlier pairs in place without duplicates. |
| Books.CollectPathPairs | app/Services/Exchange/OrderBookCalculateHandler.php:162-172 | Collecting over the paths keeps the list built so far as a prefix. It adds no duplicates and adds exactly the pairs the paths' edges use. |
| Books.PairList | app/Services/Exchange/OrderBookCalculateHandler.php:162-172 | The request list has no duplicates and holds exactly the pairs of the edges on the found paths. |
| Books.PathEdgePairRequested | app/Services/Exchange/OrderBookCalculateHandler.php:162-172 | The pair of every edge on every found path is requested. |
| Books.RequestedPairHasEdge | app/Services/Exchange/OrderBookCalculateHandler.php:162-172 | Conversely, every requested pair is the pair of some edge on some found path. |
| Books.FillEdges | app/Services/Exchange/OrderBookCalculateHandler.php:147-155 | Each cached edge gets its pair's bids if forward and asks if reverse, and nothing else about it changes. |
| Books.FilledStoreIsSane | app/Services/Exchange/OrderBookCalculateHandler.php:147-155 | Binding well-formed books to fresh edges gives a store where every edge is well formed. |
| Trading.Probe | app/Services/Exchange/OrderBookCalculateHandler.php:207-212 | The first loop of `exchange`: the product of each edge's filling percent, with each edge probing the volume the previous one passed on. `Trading.LiveProbe` and `Trading.LiveProbePositive` state its range. |
| Trading.FillingPercent | app/Services/Exchange/OrderBookCalculateHandler.php:207-212 | The fill fraction of the remaining input along a live route lies between 0 and 1. |
| Trading.ProbePath | app/Services/Exchange/OrderBookCalculateHandler.php:207-215 | Probing yields `Trading.FillingPercent` of the remaining input. Its only effect on the store is to fill the path's head caches. Links stay fixed, a well-formed store stays well formed, and totals do not fall. |
| Trading.TouchAll | app/Services/Exchange/OrderBookCalculateHandler.php:209-212 | The probe pass fills exactly the head caches of the route's edges and changes nothing else. |
| Trading.LiveProbe | app/Services/Exchange/OrderBookCalculateHandler.php:207-212 | On a route whose edges all quote positively, the probe's compound filling percent lies in [0, 1]. |
| Trading.LiveProbePositive | app/Services/Exchange/OrderBookCalculateHandler.php:207-212 | On such a route, with a positive amount, the compound filling percent is positive. |
| Trading.PositiveRatioLive | app/Services/Exchange/OrderBookCalculateHandler.php:182-189 | A route chosen for its positive ratio has every edge quoting positively, which makes the probe and execution well defined. |
| Trading.Execute | app/Services/Exchange/OrderBookCalculateHandler.php:217-220 | The reference for the second loop of `exchange`: the first edge executes the volume, and each later edge executes what the previous one delivered. `Trading.ExecRoute` is proved equal to it. |
| Trading.ExecRoute | app/Services/Exchange/OrderBookCalculateHandler.php:217-220 | The execution loop produces the reference execution `Trading.Execute`: each edge executes what the previous edge delivered, starting from the given volume. It changes only that route's edges, keeps every edge's endpoints, pair and fee, keeps the store well formed and never decreases any edge's totals. |
| Trading.ExecuteKeepsLinks | app/Services/Exchange/OrderBookCalculateHandler.php:218-220 | The reference execution keeps every edge's endpoints, pair, direction and fee, and leaves edges off the route untouched. |
| Trading.ExecuteKeepsSane | app/Services/Exchange/OrderBookCalculateHandler.php:218-220 | Executing a non-negative volume along a route keeps every edge well formed and never decreases any edge's totals. |
| Trading.KeepRest | app/Services/Exchange/OrderBookCalculateHandler.php:221 | The amount left is amount × (1 − percent). It never exceeds the amount and shrinks when the percent is positive. It reaches zero exactly when the percent is 1. |
| Trading.IndexOfLabel | app/Services/Exchange/OrderBookCalculateHandler.php:223 | Finds the result entry whose route label matches, or reports that none does. |
| Trading.Record | app/Services/Exchange/OrderBookCalculateHandler.php:223 | Recording a traded path keys it by its label. A label not yet present is appended at the end. With distinct labels, the entry carrying the label is replaced at its own position. Other entries stay, and labels stay distinct. |
| Trading.ExecuteShare | app/Services/Exchange/OrderBookCalculateHandler.php:216-223 | Trading a share of the amount leaves amount × (1 − share) and records the route. The store is the reference execution `Trading.Execute` of amount × share along the route, run on the store with the route's head caches filled. |
| Trading.ExchangePath | app/Services/Exchange/OrderBookCalculateHandler.php:205-226 | Trading a route succeeds exactly when the probe's compound percent is non-zero, and success is exactly `Trading.Exchanged`. The store is then the reference execution of amount × percent along the route, from the store with its head caches filled. The rest is amount × (1 − percent), strictly smaller, and zero exactly when the percent is 1. The route is recorded. On refusal only head caches change. The store stays well formed and totals never decrease. |
| Trading.Exchanged | app/Services/Exchange/OrderBookCalculateHandler.php:205-226 | A successful `exchange`. The fraction is what the probe gives and is positive. That share of the remaining input is executed as `Trading.Execute` on the store with the head caches filled. The rest is kept and the path is recorded under its label. |
| Trading.ExchangedShrinks | app/Services/Exchange/OrderBookCalculateHandler.php:216-223 | A trade consumes a positive share of the amount and records its route. |
| Settlement.TradablePathTrades | app/Services/Exchange/OrderBookCalculateHandler.php:189 | Once a positive-ratio route is chosen and something remains, the probe never reports zero, so `exchange` does not refuse. |
| Settlement.SelectBest | app/Services/Exchange/OrderBookCalculateHandler.php:180-188 | No route is picked exactly when every ratio is at most 0. Otherwise the pick is `Settlement.IsBest`: a positive ratio that no route exceeds and that every earlier route falls short of, so the first best route wins. The store after the scan has the head caches of every route's edges filled and nothing else changed. |
| Settlement.BestIsUnique | app/Services/Exchange/OrderBookCalculateHandler.php:180-188 | At most one route is the best pick, so ties go to the earliest route. |
| Settlement.GreedyStepShrinks | app/Services/Exchange/OrderBookCalculateHandler.php:179-223 | Every trading round consumes a positive share of the amount and records one of the found paths. |
| Settlement.Round | app/Services/Exchange/OrderBookCalculateHandler.php:179-195 | One iteration finds nothing profitable exactly when no route is the best pick. In that case only the scan's head caches change and every ratio is at most 0. Otherwise it is a `Settlement.GreedyStep`: the best pick is traded exactly as `Trading.Exchanged` describes, on the store the scan left. It never stalls. It stops as settled exactly when nothing is left. |
| Settlement.Calculate | app/Services/Exchange/OrderBookCalculateHandler.php:177-197 | The outcome is `Settlement.Greedy`: a chain of greedy rounds from the start, closed by one last scan when nothing is profitable. Running out of fuel means every round traded. The loop never stalls. With any fuel it ends with less than it started with unless nothing was profitable. It keeps the store well formed and edge links fixed. It ends settled exactly when nothing is left, and unprofitable only when every ratio is at most 0. The result holds only found paths, keyed by distinct labels, and is non-empty once anything was traded. |
| Handler.FirstMissing | app/Services/Exchange/OrderBookCalculateHandler.php:255-264 | Finds the first requested pair with no book, or reports that every pair has one. |
| Handler.Routes | app/Services/Exchange/OrderBookCalculateHandler.php:44-48 | Discovery fails exactly in these cases: the same source and destination; a source no eligible market names; or no simple route. Otherwise the paths are exactly the simple routes. By `Handler.DiscoveryOrder` they come in the search's enumeration order, one path per route found, stably sorted by hops. The store holds exactly their edges, all fresh. |
| Handler.BindBooks | app/Services/Exchange/OrderBookCalculateHandler.php:50-55 | Binding fails exactly when some cached edge's pair has no book. The failure names a cached edge's pair, and by `Handler.ReportsFirstMissing` it is the first pair in request order with no book. Otherwise every cached edge gets its pair's side and the store is well formed. |
| Handler.Settle | app/Services/Exchange/OrderBookCalculateHandler.php:50-58 | It is given the graph and route ends the paths were discovered from, as ghost arguments. Settling fails exactly when binding does, and the failure is `Handler.MissingReported`. Otherwise the run is `Handler.SettledFrom`: a chain of greedy rounds starting from the whole amount on the bound store, with no result yet. It never stalls, and the loop's guarantees hold. |
| Handler.MissingBookOnRoute | app/Services/Exchange/OrderBookCalculateHandler.php:147-172 | Over the discovered paths, some cached edge lacks its book exactly when some simple route crosses an edge whose pair has no book. |
| Handler.StoredPairOnRoute | app/Services/Exchange/OrderBookCalculateHandler.php:44-55 | The pair of every cached edge is crossed by some simple route from source to destination. |
| Handler.ReportedPairStored | app/Services/Exchange/OrderBookCalculateHandler.php:50-55 | The first missing requested pair is the pair of a cached edge. |
| Handler.MissingPairReported | app/Services/Exchange/OrderBookCalculateHandler.php:44-55 | A pair reported missing while binding the discovered paths satisfies `Handler.MissingReported`. |
| Handler.Call | app/Services/Exchange/OrderBookCalculateHandler.php:44-61 | The whole request fails exactly as discovery does. Otherwise it names a missing book exactly when some simple route crosses a pair with no book. The pair it names is `Handler.MissingReported`: a pair some simple route from source to destination crosses, and the first pair in request order with no book. On success the paths are the sorted simple routes in discovery order, and every edge's pair was fetched. The run is a chain of greedy rounds from the whole amount on the graph's edges bound to their books. It never stalls, and the loop's guarantees hold. |

## Left out

- HTTP layer, request validation, `dd`/`json_encode` output and the `showResult`/`showPath` report formatting are not modelled. They format output and do not decide anything.
- `load_markets` and `fetchOrderBooks`/`AsyncExchange` are external calls. The market list and the map of fetched books are inputs to `Handler.Call`, and fetch concurrency is not modelled.
- Prices, volumes and fees are exact reals, not IEEE doubles. Rounding, and PHP's `=== 0.0` on a value that merely underflows, are not modelled.
- `in_array` is PHP's loose comparison. The model compares currency strings exactly, so numeric-looking symbols that PHP would equate are treated as different.
- Settlement.Calculate: the `while (true)` loop is bounded by a `fuel` parameter. Running out of fuel stops with `FuelSpent`. No bound on the number of rounds is proved, because real arithmetic alone does not guarantee the amount ever reaches zero.
- Settlement.Round: PHP breaks out of the loop when `exchange` refuses a route (OrderBookCalculateHandler.php:189). The model keeps that branch. `Settlement.TradablePathTrades` proves it unreachable from a well-formed store, so `Stalled` is never returned.
- Handler.Call: where PHP crashes, the model returns a `Failure`. These are: reading the uninitialised edge list of the zero-hop route when source equals destination; the `getNode` type error for an unknown source; the uninitialised path list when no route exists; and the missing-index warning or crash when a book was not fetched.
- Handler.Call: for a missing book it reports the first missing pair in request order. PHP would fail on the first cached edge whose pair is absent, in cache order.
- Handler.Call requires `amount > 0`. The request validation outside this core rejects anything else, and a zero amount would make PHP divide by zero in the probe.
- Handler.Call requires every market's taker fee to be below 1. A fee of 1 or more gives a non-positive reminder, and the model's guarantees about ratios assume a positive one.
- Handler.Call requires every fetched book level to have a positive price and a non-negative volume. A zero ask price would make PHP divide by zero in `getRatio` of a reverse edge.
- Graph node copies: after `createPath`, PHP's nodes and the edge cache share the same edge objects. The model keeps the cache as the one mutable store used from binding onward; nothing reads node edges after discovery.
- Edges.CalculateVolumeFilling: on a forward edge the probe's second value leaves out the price factor that `exchange` applies (Edge.php:80 against Edge.php:98). The model keeps this as written. That value is the input of the next edge's probe, so on a multi-hop route the compound percent is computed from it too.
