/** Deadlock detection by depth-first search of the wait-for graph (txn/lock_manager.go). */
module Deadlock {
  import opened Locks

  type Graph = map<TxnId, seq<TxnId>>

  ghost predicate Edge(g: Graph, a: TxnId, b: TxnId) { a in g && b in g[a] }

  ghost predicate Walk(g: Graph, p: seq<TxnId>) {
    p != [] && forall i {:trigger WalkAt(g, p, i)} :: 0 <= i < |p| - 1 ==> WalkAt(g, p, i)
  }

  lemma {:induction false} WalkOne(g: Graph, u: TxnId)
    ensures Walk(g, [u])
  {}

  ghost predicate WalkAt(g: Graph, p: seq<TxnId>, i: int)
    requires 0 <= i < |p| - 1
  {
    Edge(g, p[i], p[i + 1])
  }

  /** A walk that comes back to where it has been. */
  ghost predicate Returns(g: Graph, p: seq<TxnId>) {
    Walk(g, p) && |p| >= 2 && exists i :: 0 <= i < |p| - 1 && p[i] == p[|p| - 1]
  }

  /** From `x` one gets into a cycle. */
  ghost predicate ReachesCycle(g: Graph, x: TxnId) {
    exists p :: Returns(g, p) && p[0] == x
  }

  /** `x` is on a cycle. */
  ghost predicate OnCycle(g: Graph, x: TxnId) {
    exists p :: Walk(g, p) && |p| >= 2 && p[0] == p[|p| - 1] == x
  }

  ghost predicate HasCycle(g: Graph) {
    exists p :: Walk(g, p) && |p| >= 2 && p[0] == p[|p| - 1]
  }

  lemma {:induction false} WalkSuffix(g: Graph, p: seq<TxnId>, k: nat)
    requires Walk(g, p) && k < |p|
    ensures Walk(g, p[k..])
  {
    forall i | 0 <= i < |p[k..]| - 1 ensures WalkAt(g, p[k..], i) {
      assert WalkAt(g, p, k + i);
    }
  }

  lemma {:induction false} WalkAppend(g: Graph, p: seq<TxnId>, y: TxnId)
    requires Walk(g, p) && Edge(g, p[|p| - 1], y)
    ensures Walk(g, p + [y])
  {
    forall i | 0 <= i < |p| ensures WalkAt(g, p + [y], i) {
      if i < |p| - 1 { assert WalkAt(g, p, i); }
    }
  }

  lemma {:induction false} WalkPrepend(g: Graph, x: TxnId, p: seq<TxnId>)
    requires Walk(g, p) && Edge(g, x, p[0])
    ensures Walk(g, [x] + p)
  {
    forall i | 0 <= i < |p| ensures WalkAt(g, [x] + p, i) {
      if i > 0 { assert WalkAt(g, p, i - 1); }
    }
  }

  lemma {:induction false} ReachesBack(g: Graph, x: TxnId, y: TxnId)
    requires Edge(g, x, y) && ReachesCycle(g, y)
    ensures ReachesCycle(g, x)
  {
    var p :| Returns(g, p) && p[0] == y;
    var i :| 0 <= i < |p| - 1 && p[i] == p[|p| - 1];
    WalkPrepend(g, x, p);
    var q := [x] + p;
    assert q[i + 1] == q[|q| - 1];
    assert Returns(g, q) && q[0] == x;
  }

  /** Reaching a cycle and there being one are the same, for the graph as a whole. */
  lemma {:induction false} CycleExists(g: Graph)
    ensures HasCycle(g) <==> exists x :: ReachesCycle(g, x)
  {
    if HasCycle(g) {
      var p :| Walk(g, p) && |p| >= 2 && p[0] == p[|p| - 1];
      assert Returns(g, p);
      assert ReachesCycle(g, p[0]);
    }
    if x :| ReachesCycle(g, x) {
      var p :| Returns(g, p) && p[0] == x;
      var i :| 0 <= i < |p| - 1 && p[i] == p[|p| - 1];
      WalkSuffix(g, p, i);
      var q := p[i..];
      assert Walk(g, q) && |q| >= 2 && q[0] == q[|q| - 1];
    }
  }

  // ----- finished nodes -----

  /** Every node comes after all the nodes it points at. */
  ghost predicate Topological(g: Graph, order: seq<TxnId>) {
    forall i, b {:trigger Edge(g, order[i], b)} :: 0 <= i < |order| && Edge(g, order[i], b) ==> b in order[..i]
  }

  /** How far along the order a node first comes. */
  ghost function Position(order: seq<TxnId>, x: TxnId): (n: nat)
    requires x in order
    ensures n < |order| && order[n] == x && x !in order[..n]
  {
    if x in order[..|order| - 1] then Position(order[..|order| - 1], x) else |order| - 1
  }

  lemma {:induction false} PositionFalls(g: Graph, order: seq<TxnId>, a: TxnId, b: TxnId)
    requires Topological(g, order) && a in order && Edge(g, a, b)
    ensures b in order && Position(order, b) < Position(order, a)
  {
    var n := Position(order, a);
    assert Edge(g, order[n], b);
    var k :| 0 <= k < n && order[k] == b;
    assert order[Position(order, b)] == b;
  }

  lemma {:induction false} WalkFalls(g: Graph, order: seq<TxnId>, p: seq<TxnId>, i: nat, j: nat)
    requires Topological(g, order) && Walk(g, p) && p[0] in order && i < j < |p|
    ensures p[i] in order && p[j] in order && Position(order, p[j]) < Position(order, p[i])
    decreases j
  {
    if j > 1 && i < j - 1 {
      WalkFalls(g, order, p, i, j - 1);
    } else if i > 0 {
      WalkFalls(g, order, p, i - 1, i);
    }
    assert WalkAt(g, p, j - 1);
    PositionFalls(g, order, p[j - 1], p[j]);
  }

  lemma {:induction false} TopologicalAcyclic(g: Graph, order: seq<TxnId>)
    requires Topological(g, order) && forall a :: a in g ==> a in order
    ensures !HasCycle(g)
  {
    if HasCycle(g) {
      var p :| Walk(g, p) && |p| >= 2 && p[0] == p[|p| - 1];
      assert WalkAt(g, p, 0);
      WalkFalls(g, order, p, 0, |p| - 1);
      assert false;
    }
  }

  /** Following edges down the order one arrives at a node without any. */
  lemma {:induction false} SinkBelow(g: Graph, order: seq<TxnId>, a: TxnId) returns (z: TxnId, last: TxnId)
    requires Topological(g, order) && a in order && a in g && forall x :: x in g ==> g[x] != []
    ensures z !in g && Edge(g, last, z)
    decreases Position(order, a)
  {
    var b := g[a][0];
    assert Edge(g, a, b);
    PositionFalls(g, order, a, b);
    if b in g {
      z, last := SinkBelow(g, order, b);
    } else {
      z, last := b, a;
    }
  }

  // ----- the search -----

  /** `stack` is the path of nodes being explored; a node marked as on the stack is on it, or doomed anyway. */
  ghost predicate Marked(g: Graph, nodes: set<TxnId>, visited: set<TxnId>, inStack: set<TxnId>, victims: seq<TxnId>,
                         order: seq<TxnId>, stack: seq<TxnId>)
  {
    && (forall a, b :: Edge(g, a, b) ==> a in nodes && b in nodes)
    && visited <= nodes
    && (forall x :: x in visited <==> x in order || x in inStack)
    && (forall x :: x in order ==> x !in inStack)
    && Topological(g, order)
    && (forall x :: x in stack ==> x in inStack)
    && (forall x :: x in inStack ==> x in stack || ReachesCycle(g, x))
    && (forall x :: x in victims ==> ReachesCycle(g, x))
    && (victims == [] ==> forall x :: x in inStack ==> x in stack)
    && (victims != [] ==> OnCycle(g, victims[0]))
    && (stack != [] ==> Walk(g, stack))
  }

  lemma {:induction false} Enter(g: Graph, nodes: set<TxnId>, visited: set<TxnId>, inStack: set<TxnId>,
                                 victims: seq<TxnId>,
                                 order: seq<TxnId>, stack: seq<TxnId>, u: TxnId)
    requires Marked(g, nodes, visited, inStack, victims, order, stack) && u !in visited && u in nodes
    requires stack != [] ==> Edge(g, stack[|stack| - 1], u)
    ensures Marked(g, nodes, visited + {u}, inStack + {u}, victims, order, stack + [u])
    ensures u !in stack && u !in inStack && (stack != [] ==> Walk(g, stack))
  {
    hide ReachesCycle, Walk, Topological, Edge, OnCycle;
    if stack == [] { WalkOne(g, u); } else { WalkAppend(g, stack, u); }
    assert stack == [] ==> stack + [u] == [u];
  }

  lemma {:induction false} Leave(g: Graph, nodes: set<TxnId>, visited: set<TxnId>, inStack: set<TxnId>,
                                 victims: seq<TxnId>,
                                 order: seq<TxnId>, stack: seq<TxnId>, u: TxnId, neighbors: seq<TxnId>)
    requires Marked(g, nodes, visited, inStack, victims, order, stack + [u]) && u in nodes && u !in stack
    requires stack != [] ==> Walk(g, stack)
    requires neighbors == (if u in g then g[u] else []) && forall v <- neighbors :: v in order
    ensures Marked(g, nodes, visited, inStack - {u}, victims, order + [u], stack)
  {
    hide ReachesCycle, Walk, Topological, Edge, OnCycle;
    LeaveTopological(g, order, u, neighbors);
  }

  /** A cycle was found below the top of the stack. */
  lemma {:induction false} Doomed(g: Graph, nodes: set<TxnId>, visited: set<TxnId>, inStack: set<TxnId>,
                                  victims: seq<TxnId>,
                                  order: seq<TxnId>, stack: seq<TxnId>, u: TxnId)
    requires Marked(g, nodes, visited, inStack, victims, order, stack + [u]) && ReachesCycle(g, u) && victims != []
    requires stack != [] ==> Walk(g, stack)
    ensures Marked(g, nodes, visited, inStack, victims, order, stack)
  {
    hide ReachesCycle, Walk, Topological, Edge, OnCycle;
  }


  class Search {
    const graph: Graph
    /** Holds every node there is. */
    ghost const nodes: set<TxnId>
    var visited: set<TxnId>
    var inStack: set<TxnId>
    var victims: seq<TxnId>
    /** Nodes left without finding a cycle, in the order in which they were left. */
    ghost var order: seq<TxnId>

    constructor (graph: Graph, ghost nodes: set<TxnId>)
      requires forall a, b :: Edge(graph, a, b) ==> a in nodes && b in nodes
      ensures this.graph == graph && this.nodes == nodes && visited == {} && inStack == {} && victims == []
              && order == []
      ensures Valid([])
    {
      this.graph, this.nodes, visited, inStack, victims, order := graph, nodes, {}, {}, [], [];
    }

    ghost predicate Valid(stack: seq<TxnId>)
      reads this
    {
      Marked(graph, nodes, visited, inStack, victims, order, stack)
    }

    /** Explores a node; true when a cycle has been found below it. */
    method Dfs(u: TxnId, ghost stack: seq<TxnId>) returns (found: bool)
      requires Valid(stack) && u !in visited && u in nodes
      requires stack != [] ==> Edge(graph, stack[|stack| - 1], u)
      modifies this
      ensures old(visited) <= visited && u in visited
      ensures Valid(stack)
      ensures !found ==> victims == old(victims) && inStack == old(inStack) && u in order
      ensures found ==> victims != [] && ReachesCycle(graph, u)
      decreases nodes - visited, 0
    {
      hide Marked, ReachesCycle, Edge, OnCycle;
      Enter(graph, nodes, visited, inStack, victims, order, stack, u);
      visited, inStack := visited + {u}, inStack + {u};
      var neighbors := if u in graph then graph[u] else [];
      found := Neighbors(u, neighbors, stack + [u]);
      if found {
        Doomed(graph, nodes, visited, inStack, victims, order, stack, u);
      } else {
        Leave(graph, nodes, visited, inStack, victims, order, stack, u, neighbors);
        inStack := inStack - {u};
        order := order + [u];
      }
    }

    /** The loop over a node's neighbours. */
    method Neighbors(u: TxnId, neighbors: seq<TxnId>, ghost path: seq<TxnId>) returns (found: bool)
      requires Valid(path) && path != [] && path[|path| - 1] == u && u in visited
               && neighbors == if u in graph then graph[u] else []
      modifies this
      ensures old(visited) <= visited && Valid(path)
      ensures !found ==> victims == old(victims) && inStack == old(inStack) && forall v <- neighbors :: v in order
      ensures found ==> victims != [] && ReachesCycle(graph, u)
      decreases nodes - visited, 1
    {
      hide ReachesCycle, OnCycle;
      var i := 0;
      while i < |neighbors|
        invariant 0 <= i <= |neighbors|
        invariant Valid(path) && old(visited) <= visited
        invariant victims == old(victims) && inStack == old(inStack)
        invariant forall k :: 0 <= k < i ==> neighbors[k] in order
      {
        var v := neighbors[i];
        assert Edge(graph, u, v);
        if v !in visited {
          var below := Dfs(v, path);
          if below {
            ReachesBack(graph, u, v);
            return true;
          }
        } else if v in inStack {
          BackEdge(path, v);
          assert victims != [] ==> (victims + [u])[0] == victims[0];
          victims := victims + [u];
          return true;
        }
        i := i + 1;
      }
      return false;
    }

    /** An edge to a node marked as on the stack leads into a cycle. */
    lemma {:induction false} BackEdge(path: seq<TxnId>, v: TxnId)
      requires Valid(path) && path != [] && v in inStack && Edge(graph, path[|path| - 1], v)
      ensures ReachesCycle(graph, path[|path| - 1]) && (victims == [] ==> OnCycle(graph, path[|path| - 1]))
    {
      var u := path[|path| - 1];
      if v in path {
        var k :| 0 <= k < |path| && path[k] == v;
        WalkSuffix(graph, path, k);
        WalkPrepend(graph, u, path[k..]);
        var q := [u] + path[k..];
        assert q[0] == q[|q| - 1];
        assert Returns(graph, q);
      } else {
        ReachesBack(graph, u, v);
      }
    }
  }

  lemma {:induction false} LeaveTopological(g: Graph, order: seq<TxnId>, u: TxnId, neighbors: seq<TxnId>)
    requires Topological(g, order) && neighbors == (if u in g then g[u] else [])
    requires forall v <- neighbors :: v in order
    ensures Topological(g, order + [u])
  {
    var now := order + [u];
    forall i, b | 0 <= i < |now| && Edge(g, now[i], b) ensures b in now[..i] {
      if i < |order| {
        assert Edge(g, order[i], b);
        assert now[..i] == order[..i];
      } else {
        assert now[..i] == order;
      }
    }
  }

  // ----- from locks to the graph -----

  /** `a` waits in the queue of a table that `b` holds. */
  ghost predicate BlocksIn(e: Entry, n: nat, a: TxnId, b: TxnId)
    requires n <= |e.waiters|
  {
    b in e.holders && exists i :: 0 <= i < n && e.waiters[i].txn == a
  }

  ghost predicate Blocks(locks: map<Table, Entry>, tables: set<Table>, a: TxnId, b: TxnId) {
    exists table :: table in tables && table in locks && BlocksIn(locks[table], |locks[table].waiters|, a, b)
  }

  method Keys(m: map<TxnId, Mode>) returns (ks: seq<TxnId>)
    ensures forall k :: k in ks <==> k in m
  {
    ks := [];
    var left := m.Keys;
    while left != {}
      invariant left <= m.Keys && forall k :: k in ks <==> k in m && k !in left
      decreases left
    {
      var k :| k in left;
      ks := ks + [k];
      left := left - {k};
    }
  }

  /** Adds the edges of one table's queue. */
  method AddTable(g: Graph, e: Entry) returns (r: Graph)
    requires forall x :: x in g ==> g[x] != []
    ensures forall a, b :: Edge(r, a, b) <==> Edge(g, a, b) || BlocksIn(e, |e.waiters|, a, b)
    ensures forall x :: x in r ==> r[x] != []
  {
    var hs := Keys(e.holders);
    r := g;
    for i := 0 to |e.waiters|
      invariant forall a, b :: Edge(r, a, b) <==> Edge(g, a, b) || BlocksIn(e, i, a, b)
      invariant forall x :: x in r ==> r[x] != []
    {
      var w, old_r := e.waiters[i].txn, r;
      if hs != [] { r := r[w := (if w in r then r[w] else []) + hs]; }
      forall a, b ensures Edge(r, a, b) <==> Edge(g, a, b) || BlocksIn(e, i + 1, a, b) {
        assert Edge(old_r, a, b) <==> Edge(g, a, b) || BlocksIn(e, i, a, b);
        assert BlocksIn(e, i + 1, a, b) <==> BlocksIn(e, i, a, b) || (b in e.holders && a == w);
        assert hs == [] || hs[0] in e.holders;
        assert b in e.holders ==> hs != [];
      }
    }
  }

  /** The wait-for graph: an edge from every waiter to every holder of the table it waits for. */
  method WaitForGraph(locks: map<Table, Entry>) returns (g: Graph)
    ensures forall a, b :: Edge(g, a, b) <==> Blocks(locks, locks.Keys, a, b)
    ensures forall x :: x in g ==> g[x] != []
  {
    g := map[];
    var left := locks.Keys;
    ghost var done: set<Table> := {};
    while left != {}
      invariant left <= locks.Keys && done == locks.Keys - left
      invariant forall a, b :: Edge(g, a, b) <==> Blocks(locks, done, a, b)
      invariant forall x :: x in g ==> g[x] != []
      decreases left
    {
      var table :| table in left;
      ghost var g0, done0 := g, done;
      g := AddTable(g, locks[table]);
      left := left - {table};
      done := done + {table};
      forall a, b ensures Edge(g, a, b) <==> Blocks(locks, done, a, b) {
        assert Edge(g0, a, b) <==> Blocks(locks, done0, a, b);
        if Blocks(locks, done, a, b) {
          var x :| x in done && x in locks && BlocksIn(locks[x], |locks[x].waiters|, a, b);
        }
      }
    }
    assert done == locks.Keys;
  }

  ghost predicate Waiting(locks: map<Table, Entry>, t: TxnId) {
    exists table :: WaitsFor(locks, t, table)
  }

  ghost function AllNodes(g: Graph): set<TxnId> {
    g.Keys + set a, b | a in g && b in g[a] :: b
  }

  /** Transactions each of which waits for the next, the last being the first. */
  ghost predicate Ring(locks: map<Table, Entry>, p: seq<TxnId>) {
    && |p| >= 2 && p[0] == p[|p| - 1]
    && forall i {:trigger RingAt(locks, p, i)} :: 0 <= i < |p| - 1 ==> RingAt(locks, p, i)
  }

  ghost predicate RingAt(locks: map<Table, Entry>, p: seq<TxnId>, i: int)
    requires 0 <= i < |p| - 1
  {
    Blocks(locks, locks.Keys, p[i], p[i + 1])
  }

  lemma {:induction false} RingsAreCycles(locks: map<Table, Entry>, g: Graph)
    requires forall a, b :: Edge(g, a, b) <==> Blocks(locks, locks.Keys, a, b)
    ensures forall p :: Ring(locks, p) <==> Walk(g, p) && |p| >= 2 && p[0] == p[|p| - 1]
  {
    hide Edge, Blocks;
    forall p | |p| >= 2 && p[0] == p[|p| - 1] ensures Ring(locks, p) <==> Walk(g, p) {
      forall i | 0 <= i < |p| - 1 ensures RingAt(locks, p, i) <==> WalkAt(g, p, i) {}
    }
  }

  /**
    * Victims are found if and only if transactions wait for each other in a ring.
    * The first one is in a ring, and every one leads into a cycle of the wait-for
    * graph. With none found, nodes can be put in an order in which everyone comes
    * after those it waits for.
    */
  method DetectDeadlock(locks: map<Table, Entry>) returns (victims: seq<TxnId>, ghost g: Graph, ghost order: seq<TxnId>)
    ensures victims == [] <==> forall p :: !Ring(locks, p)
    ensures victims != [] ==> exists p :: Ring(locks, p) && p[0] == victims[0]
    ensures forall a, b :: Edge(g, a, b) <==> Blocks(locks, locks.Keys, a, b)
    ensures forall x :: x in g ==> g[x] != []
    ensures victims == [] <==> !HasCycle(g)
    ensures (victims != [] ==> OnCycle(g, victims[0])) && forall v :: v in victims ==> ReachesCycle(g, v)
    ensures victims == [] ==> Topological(g, order) && forall x :: x in g ==> x in order
  {
    var graph := WaitForGraph(locks);
    g := graph;
    var search := new Search(graph, AllNodes(graph));
    var left := graph.Keys;
    while left != {}
      invariant search.graph == graph && search.nodes == AllNodes(graph)
      invariant search.Valid([]) && left <= graph.Keys
      invariant forall x :: x in graph && x !in left ==> x in search.visited
      decreases left
    {
      var t :| t in left;
      if t !in search.visited {
        var found := search.Dfs(t, []);
      }
      left := left - {t};
    }
    victims, order := search.victims, search.order;
    CycleExists(graph);
    RingsAreCycles(locks, graph);
    if victims == [] {
      TopologicalAcyclic(graph, order);
    } else {
      assert victims[0] in victims;
    }
  }

  /** No victim although somebody waits: then somebody who is waited for is not waiting, and can go on. */
  lemma {:induction false} SomebodyRuns(locks: map<Table, Entry>, g: Graph, order: seq<TxnId>, t: TxnId,
                                        table: Table) returns (runner: TxnId)
    requires LocksOk(locks) && WaitsFor(locks, t, table)
    requires forall a, b :: Edge(g, a, b) <==> Blocks(locks, locks.Keys, a, b)
    requires Topological(g, order) && (forall x :: x in g ==> x in order && g[x] != [])
    ensures !Waiting(locks, runner)
    ensures exists x, w :: WaitsFor(locks, w, x) && Holds(locks, runner, x)
  {
    var b := WaiterHasHolder(locks, t, table);
    assert Edge(g, t, b);
    var last;
    runner, last := SinkBelow(g, order, t);
    var x :| x in locks && BlocksIn(locks[x], |locks[x].waiters|, last, runner);
    assert WaitsFor(locks, last, x) && Holds(locks, runner, x);
    if Waiting(locks, runner) {
      var y :| WaitsFor(locks, runner, y);
      var c := WaiterHasHolder(locks, runner, y);
      assert false;
    }
  }

  lemma {:induction false} WaiterHasHolder(locks: map<Table, Entry>, t: TxnId, table: Table) returns (b: TxnId)
    requires LocksOk(locks) && WaitsFor(locks, t, table)
    ensures Blocks(locks, locks.Keys, t, b)
  {
    var e := locks[table];
    assert EntryOk(e) && e.waiters != [];
    assert e.holders != map[];
    b :| b in e.holders;
    assert BlocksIn(e, |e.waiters|, t, b);
  }
}
