/** Which order books the handler fetches, and binding the fetched books to
    the cached edges. */
module Books {
  import opened Common
  import opened Orders
  import opened Edges
  import opened Graphs
  import opened Paths

  /** One market's order book as fetched: bids best first, asks best first. */
  datatype Book = Book(bids: seq<Order>, asks: seq<Order>)

  /** Every edge key of every path is in the store. */
  predicate PathsOnStore(store: Store, paths: seq<Path>) {
    forall i, j :: 0 <= i < |paths| && 0 <= j < |paths[i].edges| ==> paths[i].edges[j] in store
  }

  /** The pair labels of the edges behind `keys`. */
  function PairsOf(store: Store, keys: seq<EdgeKey>): set<string>
    requires forall j :: 0 <= j < |keys| ==> keys[j] in store
  {
    if |keys| == 0 then {} else {store[keys[0]].pair} + PairsOf(store, keys[1..])
  }

  /** The pair labels of every edge of every path. */
  function PathsPairs(store: Store, paths: seq<Path>): set<string>
    requires PathsOnStore(store, paths)
  {
    if |paths| == 0 then {} else PairsOf(store, paths[0].edges) + PathsPairs(store, paths[1..])
  }

  /** Adds a pair label unless it is already listed, so the list keeps each
      label once, in the order labels were first seen. */
  function AddPair(acc: seq<string>, pair: string): (r: seq<string>)
    ensures Distinct(acc) ==> Distinct(r)
    ensures |acc| <= |r| <= |acc| + 1 && r[..|acc|] == acc
    ensures Elements(r) == Elements(acc) + {pair}
  {
    if pair in acc then acc else acc + [pair]
  }

  function CollectPairs(acc: seq<string>, store: Store, keys: seq<EdgeKey>): (r: seq<string>)
    requires forall j :: 0 <= j < |keys| ==> keys[j] in store
    ensures Distinct(acc) ==> Distinct(r)
    ensures |acc| <= |r| && r[..|acc|] == acc
    ensures Elements(r) == Elements(acc) + PairsOf(store, keys)
    decreases |keys|
  {
    if |keys| == 0 then acc
    else
      var acc' := AddPair(acc, store[keys[0]].pair);
      var r := CollectPairs(acc', store, keys[1..]);
      assert r[..|acc|] == r[..|acc'|][..|acc|];
      r
  }

  function CollectPathPairs(acc: seq<string>, store: Store, paths: seq<Path>): (r: seq<string>)
    requires PathsOnStore(store, paths)
    ensures Distinct(acc) ==> Distinct(r)
    ensures |acc| <= |r| && r[..|acc|] == acc
    ensures Elements(r) == Elements(acc) + PathsPairs(store, paths)
    decreases |paths|
  {
    if |paths| == 0 then acc
    else
      PathsOnStoreSplit(store, paths);
      var acc' := CollectPairs(acc, store, paths[0].edges);
      var r := CollectPathPairs(acc', store, paths[1..]);
      ExtendsTwice(acc, acc', r, PairsOf(store, paths[0].edges), PathsPairs(store, paths[1..]));
      r
  }

  /** Two collection passes, each extending its input list, compose. */
  lemma ExtendsTwice(acc: seq<string>, acc': seq<string>, r: seq<string>, s1: set<string>, s2: set<string>)
    requires Distinct(acc) ==> Distinct(acc')
    requires |acc| <= |acc'| && acc'[..|acc|] == acc
    requires Elements(acc') == Elements(acc) + s1
    requires Distinct(acc') ==> Distinct(r)
    requires |acc'| <= |r| && r[..|acc'|] == acc'
    requires Elements(r) == Elements(acc') + s2
    ensures Distinct(acc) ==> Distinct(r)
    ensures |acc| <= |r| && r[..|acc|] == acc
    ensures Elements(r) == Elements(acc) + (s1 + s2)
  {
    assert r[..|acc|] == r[..|acc'|][..|acc|];
  }

  lemma PathsOnStoreSplit(store: Store, paths: seq<Path>)
    requires PathsOnStore(store, paths) && |paths| > 0
    ensures forall j :: 0 <= j < |paths[0].edges| ==> paths[0].edges[j] in store
    ensures PathsOnStore(store, paths[1..])
  {
    forall i, j | 0 <= i < |paths[1..]| && 0 <= j < |paths[1..][i].edges|
      ensures paths[1..][i].edges[j] in store
    {
      assert paths[1..][i] == paths[i + 1];
    }
  }

  /** `getPairListForLoadOrders`: each pair the paths trade on, once, in the
      order the paths first use it. */
  function PairList(store: Store, paths: seq<Path>): (r: seq<string>)
    requires PathsOnStore(store, paths)
    ensures Distinct(r)
    ensures Elements(r) == PathsPairs(store, paths)
  {
    CollectPathPairs([], store, paths)
  }

  /** The pair of every edge a path uses is requested. */
  lemma {:induction false} PathEdgePairRequested(store: Store, paths: seq<Path>, i: nat, j: nat)
    requires PathsOnStore(store, paths)
    requires i < |paths| && j < |paths[i].edges|
    ensures store[paths[i].edges[j]].pair in PathsPairs(store, paths)
    decreases i
  {
    if i == 0 {
      PairOfKeyRequested(store, paths[0].edges, j);
    } else {
      assert paths[i] == paths[1..][i - 1];
      PathEdgePairRequested(store, paths[1..], i - 1, j);
    }
  }

  /** Only pairs that some path edge uses are requested. */
  lemma {:induction false} RequestedPairHasEdge(store: Store, paths: seq<Path>, pair: string)
    requires PathsOnStore(store, paths) && pair in PathsPairs(store, paths)
    ensures exists i, j :: 0 <= i < |paths| && 0 <= j < |paths[i].edges| && store[paths[i].edges[j]].pair == pair
    decreases |paths|
  {
    PathsOnStoreSplit(store, paths);
    if pair in PairsOf(store, paths[0].edges) {
      var j := KeyOfPair(store, paths[0].edges, pair);
      assert store[paths[0].edges[j]].pair == pair;
    } else {
      RequestedPairHasEdge(store, paths[1..], pair);
      var i, j :| 0 <= i < |paths[1..]| && 0 <= j < |paths[1..][i].edges| && store[paths[1..][i].edges[j]].pair == pair;
      assert paths[1..][i] == paths[i + 1];
    }
  }

  /** The position of a key behind one of the collected pairs. */
  lemma {:induction false} KeyOfPair(store: Store, keys: seq<EdgeKey>, pair: string) returns (j: nat)
    requires forall j' :: 0 <= j' < |keys| ==> keys[j'] in store
    requires pair in PairsOf(store, keys)
    ensures j < |keys| && store[keys[j]].pair == pair
    decreases |keys|
  {
    if store[keys[0]].pair == pair {
      j := 0;
    } else {
      var j' := KeyOfPair(store, keys[1..], pair);
      j := j' + 1;
    }
  }

  lemma {:induction false} PairOfKeyRequested(store: Store, keys: seq<EdgeKey>, j: nat)
    requires forall j' :: 0 <= j' < |keys| ==> keys[j'] in store
    requires j < |keys|
    ensures store[keys[j]].pair in PairsOf(store, keys)
    decreases j
  {
    if j > 0 {
      PairOfKeyRequested(store, keys[1..], j - 1);
    }
  }

  /** The side of a book an edge trades against: a forward edge sells base,
      so it takes the bids; a reverse edge buys base, so it takes the asks. */
  function Side(b: Book, forward: bool): seq<Order> {
    if forward then b.bids else b.asks
  }

  /** `fillEdges`: every cached edge gets its pair's book side. */
  function FillEdges(store: Store, books: map<string, Book>): (r: Store)
    requires forall k :: k in store ==> store[k].pair in books
    ensures r.Keys == store.Keys
    ensures forall k :: k in store ==>
              && r[k].orders == Side(books[store[k].pair], store[k].forward)
              && r[k].(orders := store[k].orders) == store[k]
  {
    map k | k in store :: SetData(store[k], Side(books[store[k].pair], store[k].forward))
  }

  /** An edge as the graph creates it: nothing cached, nothing traded, a
      positive share kept after the fee. */
  predicate Fresh(e: Edge) {
    e.order == None && e.reminder > 0.0 && e.inVolume == 0.0 && e.outVolume == 0.0
  }

  /** Binding well-formed books to fresh edges yields a sane store. */
  lemma FilledStoreIsSane(store: Store, books: map<string, Book>)
    requires forall k :: k in store ==> store[k].pair in books && Fresh(store[k])
    requires forall p :: p in books ==> BookOk(books[p].bids) && BookOk(books[p].asks)
    ensures AllSane(FillEdges(store, books))
  {
    var r := FillEdges(store, books);
    forall k | k in r ensures Sane(r[k]) {
      SetDataKeepsCoherence(store[k], Side(books[store[k].pair], store[k].forward));
    }
  }
}
