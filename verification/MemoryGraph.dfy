/** Depth-bounded breadth-first search over the memory graph, proved against walks. */
module MemoryGraph {

  type Path = string
  datatype Edge = Edge(from: Path, to: Path)

  /** Edges are undirected; self-loops and duplicates are allowed. */
  ghost predicate Adjacent(edges: seq<Edge>, a: Path, b: Path) {
    exists i :: 0 <= i < |edges| && Joins(edges[i], a, b)
  }

  predicate Joins(e: Edge, a: Path, b: Path) { (e.from == a && e.to == b) || (e.from == b && e.to == a) }

  /** A walk from its first node to its last, of length one less than its node count. */
  ghost predicate IsWalk(edges: seq<Edge>, w: seq<Path>) {
    w != [] && forall i :: 0 < i < |w| ==> Adjacent(edges, w[i - 1], w[i])
  }

  ghost predicate WalkTo(edges: seq<Edge>, from: Path, to: Path, w: seq<Path>) {
    IsWalk(edges, w) && w[0] == from && w[|w| - 1] == to
  }

  /** `n` is the length of a shortest walk. */
  ghost predicate IsDistance(edges: seq<Edge>, from: Path, to: Path, n: nat) {
    && (exists w :: WalkTo(edges, from, to, w) && |w| == n + 1)
    && (forall w :: WalkTo(edges, from, to, w) ==> n + 1 <= |w|)
  }

  function Bound(maxDepth: int): nat { if maxDepth < 0 then 0 else maxDepth }

  function Nodes(edges: seq<Edge>): set<Path> {
    (set i | 0 <= i < |edges| :: edges[i].from) + (set i | 0 <= i < |edges| :: edges[i].to)
  }

  // ---- Adjacency ----------------------------------------------------------

  function Neighbors(adjacency: map<Path, set<Path>>, a: Path): set<Path> {
    if a in adjacency then adjacency[a] else {}
  }

  ghost predicate Represents(adjacency: map<Path, set<Path>>, edges: seq<Edge>) {
    forall a, b :: b in Neighbors(adjacency, a) <==> Adjacent(edges, a, b)
  }

  function Link(adjacency: map<Path, set<Path>>, a: Path, b: Path): map<Path, set<Path>> {
    adjacency[a := Neighbors(adjacency, a) + {b}]
  }

  method BuildAdjacency(edges: seq<Edge>) returns (adjacency: map<Path, set<Path>>)
    ensures Represents(adjacency, edges)
  {
    adjacency := map[];
    for i := 0 to |edges|
      invariant Represents(adjacency, edges[..i])
    {
      LinkRepresents(adjacency, edges, i);
      adjacency := Link(Link(adjacency, edges[i].from, edges[i].to), edges[i].to, edges[i].from);
    }
    assert edges[..|edges|] == edges;
  }

  lemma {:induction false} LinkRepresents(adjacency: map<Path, set<Path>>, edges: seq<Edge>, i: nat)
    requires i < |edges| && Represents(adjacency, edges[..i])
    ensures var e := edges[i]; Represents(Link(Link(adjacency, e.from, e.to), e.to, e.from), edges[..i + 1])
  {
    var e := edges[i];
    var linked := Link(Link(adjacency, e.from, e.to), e.to, e.from);
    AdjacentNext(edges, i);
    forall a, b ensures b in Neighbors(linked, a) <==> Adjacent(edges[..i + 1], a, b) {
      assert b in Neighbors(linked, a) <==> b in Neighbors(adjacency, a) || Joins(e, a, b);
    }
  }

  lemma {:induction false} AdjacentNext(edges: seq<Edge>, i: nat)
    requires i < |edges|
    ensures forall a, b :: Adjacent(edges[..i + 1], a, b) <==> Adjacent(edges[..i], a, b) || Joins(edges[i], a, b)
  {
    var next := edges[..i + 1];
    forall a, b
      ensures Adjacent(next, a, b) <==> Adjacent(edges[..i], a, b) || Joins(edges[i], a, b)
    {
      if Adjacent(edges[..i], a, b) {
        var k :| 0 <= k < i && Joins(edges[..i][k], a, b);
        assert Joins(next[k], a, b);
      }
      if Joins(edges[i], a, b) { assert Joins(next[i], a, b); }
      if Adjacent(next, a, b) {
        var k :| 0 <= k <= i && Joins(next[k], a, b);
        if k < i { assert Joins(edges[..i][k], a, b); }
      }
    }
  }

  lemma {:induction false} NeighborIsNode(edges: seq<Edge>, a: Path, b: Path)
    requires Adjacent(edges, a, b)
    ensures b in Nodes(edges)
  {
  }

  // ---- The search ---------------------------------------------------------

  /** Every recorded depth is the length of some walk. */
  ghost predicate Walked(edges: seq<Edge>, selected: Path, depths: map<Path, nat>) {
    forall p :: p in depths ==> exists w :: WalkTo(edges, selected, p, w) && |w| == depths[p] + 1
  }

  /** A node that has left the queue has recorded its neighbours one step further at most. */
  ghost predicate Expanded(edges: seq<Edge>, depths: map<Path, nat>, maxDepth: int, p: Path)
    requires p in depths
  {
    depths[p] < maxDepth ==> forall b :: Adjacent(edges, p, b) ==> b in depths && depths[b] <= depths[p] + 1
  }

  /** The queue holds recorded nodes in order of depth, nobody is more than one deeper than
      its front, and everybody else is expanded. */
  ghost predicate QueueOk(edges: seq<Edge>, depths: map<Path, nat>, maxDepth: int, queue: seq<Path>) {
    && (forall i :: 0 <= i < |queue| ==> queue[i] in depths)
    && (forall i, j :: 0 <= i < j < |queue| ==> depths[queue[i]] <= depths[queue[j]])
    && (queue != [] ==> forall p :: p in depths ==> depths[p] <= depths[queue[0]] + 1)
    && (forall p :: p in depths && p !in queue ==> Expanded(edges, depths, maxDepth, p))
  }

  lemma {:induction false} WalkExtend(edges: seq<Edge>, from: Path, a: Path, b: Path, w: seq<Path>)
    requires WalkTo(edges, from, a, w) && Adjacent(edges, a, b)
    ensures WalkTo(edges, from, b, w + [b]) && |w + [b]| == |w| + 1
  {
  }

  /** Once the queue is empty, no walk within the bound escapes or is shorter. */
  lemma {:induction false} WalkRecorded(
    edges: seq<Edge>, selected: Path, depths: map<Path, nat>, maxDepth: int, w: seq<Path>)
    requires selected in depths && depths[selected] == 0
    requires forall p :: p in depths ==> Expanded(edges, depths, maxDepth, p)
    requires IsWalk(edges, w) && w[0] == selected && |w| - 1 <= Bound(maxDepth)
    ensures w[|w| - 1] in depths && depths[w[|w| - 1]] <= |w| - 1
    decreases |w|
  {
    if 1 < |w| {
      var n := |w| - 1;
      assert Adjacent(edges, w[n - 1], w[n]);
      WalkRecorded(edges, selected, depths, maxDepth, w[..n]);
      assert Expanded(edges, depths, maxDepth, w[n - 1]);
    }
  }

  /** Exactly the nodes within the bound, each with its distance. */
  method NeighborhoodByDepth(selected: Path, edges: seq<Edge>, maxDepth: int) returns (depths: map<Path, nat>)
    ensures forall p :: p in depths ==> depths[p] <= Bound(maxDepth) && IsDistance(edges, selected, p, depths[p])
    ensures forall p, n: nat :: IsDistance(edges, selected, p, n) && n <= Bound(maxDepth) ==> p in depths
  {
    var adjacency := BuildAdjacency(edges);
    depths := map[selected := 0];
    var queue := [selected];
    ghost var all := Nodes(edges) + {selected};
    assert WalkTo(edges, selected, selected, [selected]);
    while queue != []
      invariant SearchOk(edges, selected, depths, maxDepth, all)
      invariant QueueOk(edges, depths, maxDepth, queue)
      decreases all - depths.Keys, |queue|
    {
      var path := queue[0];
      var depth := depths[path];
      if depth >= maxDepth {
        DropFront(edges, depths, maxDepth, queue);
        queue := queue[1..];
      } else {
        depths, queue := Expand(edges, selected, maxDepth, Neighbors(adjacency, path), depths, queue, all);
      }
    }
    Conclude(edges, selected, depths, maxDepth, all);
  }

  /** Only nodes within the bound are recorded, each reached by a walk of its depth. */
  ghost predicate SearchOk(edges: seq<Edge>, selected: Path, depths: map<Path, nat>, maxDepth: int, all: set<Path>) {
    && selected in depths && depths[selected] == 0
    && Nodes(edges) <= all && depths.Keys <= all
    && (forall p :: p in depths ==> depths[p] <= Bound(maxDepth))
    && Walked(edges, selected, depths)
  }

  lemma {:induction false} DropFront(edges: seq<Edge>, depths: map<Path, nat>, maxDepth: int, queue: seq<Path>)
    requires queue != [] && QueueOk(edges, depths, maxDepth, queue)
    requires Expanded(edges, depths, maxDepth, queue[0])
    ensures QueueOk(edges, depths, maxDepth, queue[1..])
  {
    var rest := queue[1..];
    forall p | p in depths && p !in rest ensures Expanded(edges, depths, maxDepth, p) {
      if p != queue[0] { assert p !in queue; }
    }
  }

  /** `depths` is `depths0` with the nodes `added`, all at depth `d`. */
  ghost predicate Grown(depths0: map<Path, nat>, depths: map<Path, nat>, d: nat, added: seq<Path>) {
    && depths0.Keys <= depths.Keys && (forall p :: p in depths0 ==> depths[p] == depths0[p])
    && (forall p :: p in depths && p !in depths0 ==> depths[p] == d && p in added)
    && (forall i :: 0 <= i < |added| ==> added[i] in depths && added[i] !in depths0)
  }

  /** Records the neighbours that have no depth yet, in the order met. */
  method RecordNeighbors(depths0: map<Path, nat>, neighbors: set<Path>, d: nat)
    returns (depths: map<Path, nat>, added: seq<Path>)
    ensures Grown(depths0, depths, d, added) && depths.Keys == depths0.Keys + neighbors
  {
    depths, added := depths0, [];
    var rest := neighbors;
    while rest != {}
      invariant rest <= neighbors && depths.Keys == depths0.Keys + (neighbors - rest)
      invariant Grown(depths0, depths, d, added)
    {
      var b :| b in rest;
      rest := rest - {b};
      if b !in depths {
        depths := depths[b := d];
        added := added + [b];
      }
    }
  }

  /** One turn: the front leaves the queue, its unrecorded neighbours join it. */
  method Expand(ghost edges: seq<Edge>, ghost selected: Path, ghost maxDepth: int, neighbors: set<Path>,
                depths0: map<Path, nat>, queue0: seq<Path>, ghost all: set<Path>)
    returns (depths: map<Path, nat>, queue: seq<Path>)
    requires queue0 != [] && QueueOk(edges, depths0, maxDepth, queue0) && depths0[queue0[0]] < maxDepth
    requires forall b :: b in neighbors <==> Adjacent(edges, queue0[0], b)
    requires SearchOk(edges, selected, depths0, maxDepth, all)
    ensures SearchOk(edges, selected, depths, maxDepth, all) && QueueOk(edges, depths, maxDepth, queue)
    ensures all - depths.Keys < all - depths0.Keys || (depths.Keys == depths0.Keys && |queue| < |queue0|)
  {
    var added;
    depths, added := RecordNeighbors(depths0, neighbors, depths0[queue0[0]] + 1);
    queue := queue0[1..] + added;
    ExpandWalks(edges, selected, depths0, depths, queue0[0], added, all);
    ExpandQueue(edges, depths0, depths, maxDepth, queue0, added);
    GrownProgress(depths0, depths, depths0[queue0[0]] + 1, added, all);
  }

  lemma {:induction false} GrownProgress(
    depths0: map<Path, nat>, depths: map<Path, nat>, d: nat, added: seq<Path>, all: set<Path>)
    requires Grown(depths0, depths, d, added) && depths.Keys <= all
    ensures if added == [] then depths.Keys == depths0.Keys else all - depths.Keys < all - depths0.Keys
  {
    if added != [] {
      assert added[0] in all - depths0.Keys && added[0] !in all - depths.Keys;
    }
  }

  lemma {:induction false} ExpandWalks(
    edges: seq<Edge>, selected: Path, depths0: map<Path, nat>, depths: map<Path, nat>,
                    path: Path, added: seq<Path>, all: set<Path>)
    requires path in depths0 && Walked(edges, selected, depths0) && depths0.Keys <= all && Nodes(edges) <= all
    requires Grown(depths0, depths, depths0[path] + 1, added)
    requires forall b :: b in depths && b !in depths0 ==> Adjacent(edges, path, b)
    ensures Walked(edges, selected, depths) && depths.Keys <= all
  {
    var w :| WalkTo(edges, selected, path, w) && |w| == depths0[path] + 1;
    forall b | b in depths
      ensures b in all && exists w :: WalkTo(edges, selected, b, w) && |w| == depths[b] + 1
    {
      if b !in depths0 {
        NeighborIsNode(edges, path, b);
        WalkExtend(edges, selected, path, b, w);
      }
    }
  }

  lemma {:induction false} ExpandQueue(edges: seq<Edge>, depths0: map<Path, nat>, depths: map<Path, nat>, maxDepth: int,
                    queue0: seq<Path>, added: seq<Path>)
    requires queue0 != [] && QueueOk(edges, depths0, maxDepth, queue0)
    requires Grown(depths0, depths, depths0[queue0[0]] + 1, added)
    requires forall b :: Adjacent(edges, queue0[0], b) ==> b in depths
    ensures QueueOk(edges, depths, maxDepth, queue0[1..] + added)
  {
    var queue := queue0[1..] + added;
    forall p | p in depths && p !in queue ensures Expanded(edges, depths, maxDepth, p) {
      assert p !in added && p !in queue0[1..];
      if p != queue0[0] {
        assert p !in queue0;
        assert Expanded(edges, depths0, maxDepth, p);
      }
    }
  }

  lemma {:induction false} Conclude(
    edges: seq<Edge>, selected: Path, depths: map<Path, nat>, maxDepth: int, all: set<Path>)
    requires SearchOk(edges, selected, depths, maxDepth, all) && QueueOk(edges, depths, maxDepth, [])
    ensures forall p :: p in depths ==> depths[p] <= Bound(maxDepth) && IsDistance(edges, selected, p, depths[p])
    ensures forall p, n: nat :: IsDistance(edges, selected, p, n) && n <= Bound(maxDepth) ==> p in depths
  {
    forall p, w | p in depths && WalkTo(edges, selected, p, w) ensures depths[p] + 1 <= |w| {
      if |w| - 1 <= Bound(maxDepth) { WalkRecorded(edges, selected, depths, maxDepth, w); }
    }
    forall p, n: nat | IsDistance(edges, selected, p, n) && n <= Bound(maxDepth) ensures p in depths {
      var w :| WalkTo(edges, selected, p, w) && |w| == n + 1;
      WalkRecorded(edges, selected, depths, maxDepth, w);
    }
  }
}
