/** Currency vertices and the registry that memoises them. */
module Graphs {
  import opened Common
  import opened Edges

  /** A currency vertex. `edges` holds at most one outgoing edge per
      destination; `dests` lists the destinations in the order the node's
      edge table iterates them (first insertion; an overwrite keeps its slot). */
  datatype Node = Node(currency: Currency, dests: seq<Currency>, edges: map<Currency, Edge>)

  /** A fresh node has no edges. */
  function NewNode(currency: Currency): (n: Node)
    ensures n.currency == currency && n.edges == map[] && n.dests == []
  {
    Node(currency, [], map[])
  }

  /** The iteration order lists every destination exactly once. */
  predicate NodeOk(n: Node) {
    && Distinct(n.dests)
    && (forall d :: d in n.dests ==> d in n.edges)
    && (forall d :: d in n.edges ==> d in n.dests)
  }

  /** Every edge of `n` leaves `n`'s currency and is stored under its own
      destination. */
  predicate EdgesLeave(n: Node) {
    forall d :: d in n.edges ==> n.edges[d].from == n.currency && n.edges[d].to == d
  }

  /** Stores `e` under its destination currency, replacing any earlier edge
      to the same destination; every other entry stays as it was. */
  function AddEdge(n: Node, e: Edge): (r: Node)
    ensures r.currency == n.currency
    ensures e.to in r.edges && r.edges[e.to] == e
    ensures forall d :: d != e.to ==> (d in r.edges <==> d in n.edges)
    ensures forall d :: d != e.to && d in n.edges ==> r.edges[d] == n.edges[d]
    ensures r.dests == if e.to in n.edges then n.dests else n.dests + [e.to]
    ensures NodeOk(n) ==> NodeOk(r)
  {
    Node(n.currency, if e.to in n.edges then n.dests else n.dests + [e.to], n.edges[e.to := e])
  }

  /** An edge is addressed by its origin and destination currencies. */
  type EdgeKey = (Currency, Currency)

  /** `nodes` is keyed by currency; `edges` caches the edges paths use. */
  datatype Graph = Graph(nodes: map<Currency, Node>, edges: map<EdgeKey, Edge>)

  /** Both tables start empty. */
  const EmptyGraph: Graph := Graph(map[], map[])

  /** The node under key `c` is the node of `c`, its iteration order is
      sound, and each of its edges leaves `c`, is stored under its
      destination, and lands on a registered node. */
  predicate NodeWellFormed(g: Graph, c: Currency)
    requires c in g.nodes
  {
    var n := g.nodes[c];
    && n.currency == c
    && NodeOk(n)
    && forall d :: d in n.edges ==> n.edges[d].from == c && n.edges[d].to == d && d in g.nodes
  }

  predicate WellFormed(g: Graph) {
    forall c :: c in g.nodes ==> NodeWellFormed(g, c)
  }

  lemma EmptyGraphWellFormed()
    ensures EmptyGraph.nodes == map[] && EmptyGraph.edges == map[]
    ensures WellFormed(EmptyGraph)
  {
  }

  /** Returns the node of `c`, creating and registering it on first use. */
  function GetNodeInstance(g: Graph, c: Currency): (r: (Node, Graph))
    ensures r.1.nodes.Keys == g.nodes.Keys + {c}
    ensures c in r.1.nodes && r.1.nodes[c] == r.0
    ensures c in g.nodes ==> r == (g.nodes[c], g)
    ensures c !in g.nodes ==> r.0 == NewNode(c)
    ensures forall d :: d in g.nodes ==> r.1.nodes[d] == g.nodes[d]
    ensures r.1.edges == g.edges
  {
    if c in g.nodes then (g.nodes[c], g)
    else
      var n := NewNode(c);
      (n, g.(nodes := g.nodes[c := n]))
  }

  /** Registering a node adds no edge and keeps the graph well formed; the
      node returned carries the requested currency. */
  lemma GetNodeInstanceKeepsEdges(g: Graph, c: Currency)
    ensures var g' := GetNodeInstance(g, c).1;
            && (forall a, b :: HasEdge(g', a, b) <==> HasEdge(g, a, b))
            && (forall a, b :: HasEdge(g, a, b) ==> g'.nodes[a].edges[b] == g.nodes[a].edges[b])
    ensures WellFormed(g) ==> WellFormed(GetNodeInstance(g, c).1) && GetNodeInstance(g, c).0.currency == c
  {
    var g' := GetNodeInstance(g, c).1;
    if WellFormed(g) {
      forall d | d in g'.nodes ensures NodeWellFormed(g', d) {
        if d in g.nodes {
          assert NodeWellFormed(g, d);
        }
      }
    }
  }

  /** A second request for the same currency returns the same node and
      registers nothing new. */
  lemma GetNodeInstanceMemoises(g: Graph, c: Currency)
    ensures var (n, g') := GetNodeInstance(g, c);
            GetNodeInstance(g', c) == (n, g')
  {
  }

  /** The registered node of `c`; `c` must be registered. */
  function GetNode(g: Graph, c: Currency): (n: Node)
    requires c in g.nodes
    ensures WellFormed(g) ==> n.currency == c && NodeOk(n) && EdgesLeave(n)
  {
    assert WellFormed(g) ==> NodeWellFormed(g, c);
    g.nodes[c]
  }

  /** The graph has an edge from `from` to `to`. */
  predicate HasEdge(g: Graph, from: Currency, to: Currency) {
    from in g.nodes && to in g.nodes[from].edges
  }

  /** The edge `from` stores under destination `to`. */
  function GetEdge(g: Graph, from: Currency, to: Currency): (e: Edge)
    requires HasEdge(g, from, to)
    ensures WellFormed(g) ==> e.from == from && e.to == to && to in g.nodes
  {
    assert WellFormed(g) ==> NodeWellFormed(g, from);
    GetNode(g, from).edges[to]
  }

  /** Every cached edge is the very edge its origin node stores. */
  predicate CacheMirrorsNodes(g: Graph) {
    forall k :: k in g.edges ==> HasEdge(g, k.0, k.1) && g.edges[k] == g.nodes[k.0].edges[k.1]
  }

  /** Adds `e` to the registered node of its origin currency. */
  function RegisterEdge(g: Graph, e: Edge): (r: Graph)
    requires e.from in g.nodes
    ensures r.edges == g.edges && r.nodes.Keys == g.nodes.Keys
    ensures r.nodes[e.from] == AddEdge(g.nodes[e.from], e)
    ensures forall c :: c in g.nodes && c != e.from ==> r.nodes[c] == g.nodes[c]
  {
    g.(nodes := g.nodes[e.from := AddEdge(g.nodes[e.from], e)])
  }

  /** Registering `e` adds or replaces exactly the edge `e.from -> e.to`;
      it keeps the graph well formed when `e` lands on a registered node. */
  lemma RegisterEdgeEffect(g: Graph, e: Edge)
    requires e.from in g.nodes
    ensures var r := RegisterEdge(g, e);
            && HasEdge(r, e.from, e.to) && r.nodes[e.from].edges[e.to] == e
            && (forall a, b :: (a, b) != (e.from, e.to) ==> (HasEdge(r, a, b) <==> HasEdge(g, a, b)))
            && (forall a, b :: (a, b) != (e.from, e.to) && HasEdge(g, a, b) ==>
                  r.nodes[a].edges[b] == g.nodes[a].edges[b])
    ensures WellFormed(g) && e.to in g.nodes ==> WellFormed(RegisterEdge(g, e))
  {
    var r := RegisterEdge(g, e);
    if WellFormed(g) && e.to in g.nodes {
      forall c | c in r.nodes ensures NodeWellFormed(r, c) {
        assert NodeWellFormed(g, c);
      }
    }
  }
}
