/** The projection of `blocks` edges: Kahn's algorithm over the active subgraph, and the concrete
    cycle it shows when it refuses. */
module Dag {
  import opened Words
  import opened Tables

  /** A capsule id, ordered as its text. */
  datatype Id = Id(name: string)

  datatype Kind = Blocks | Supersedes | Witnesses | Other

  datatype Relation = Relation(kind: Kind, from: Id, to: Id)

  /** `self._universe`, `_dead`, `_done`, `_blockers`, set once by the projection. */
  datatype Projection = Projection(universe: set<Id>, dead: set<Id>, done: set<Id>, blockers: map<Id, set<Id>>)

  datatype Outcome = Accepted(dag: Projection) | Refused(cycle: seq<Id>, entangled: seq<Id>)

  // ---- what the edges say ----------------------------------------------------

  function Universe(edges: seq<Relation>): (u: set<Id>)
    ensures forall e | e in edges && e.kind == Blocks :: e.from in u && e.to in u
    ensures forall i | i in u :: exists e :: e in edges && e.kind == Blocks && (e.from == i || e.to == i)
  {
    (set e | e in edges && e.kind == Blocks :: e.from) + (set e | e in edges && e.kind == Blocks :: e.to)
  }

  function DeadIds(edges: seq<Relation>, extraDead: set<Id>): set<Id> {
    extraDead + set e | e in edges && e.kind == Supersedes :: e.to
  }

  /** `closed_task_ids`: an incoming edge of a closing kind. */
  function ClosedIds(edges: seq<Relation>): set<Id> {
    set e | e in edges && (e.kind == Witnesses || e.kind == Supersedes) :: e.to
  }

  /** Neither dead nor done: what the projection still has to order. */
  function ActiveIds(edges: seq<Relation>, extraDead: set<Id>): set<Id> {
    Universe(edges) - DeadIds(edges, extraDead) - ClosedIds(edges)
  }

  predicate BlocksEdge(edges: seq<Relation>, a: Id, b: Id) {
    Relation(Blocks, a, b) in edges
  }

  // ---- graphs ----------------------------------------------------------------

  /** The active nodes and, for each, the active nodes that block it. */
  datatype Graph = Graph(nodes: set<Id>, preds: map<Id, set<Id>>) {
    ghost predicate Valid() {
      preds.Keys == nodes && forall i | i in nodes :: preds[i] <= nodes
    }
  }

  ghost predicate Distinct<T>(s: seq<T>) {
    forall i, j | 0 <= i < j < |s| :: s[i] != s[j]
  }

  /** Each node blocks the next, and the last blocks the first. */
  ghost predicate IsCycle(g: Graph, c: seq<Id>) {
    && c != []
    && (forall i | 0 <= i < |c| :: c[i] in g.nodes && c[i] in g.preds)
    && (forall i | 0 <= i < |c| - 1 :: c[i] in g.preds[c[i + 1]])
    && c[|c| - 1] in g.preds[c[0]]
  }

  ghost predicate Cyclic(g: Graph) {
    exists c :: IsCycle(g, c)
  }

  /** Every member is blocked from inside the set. */
  ghost predicate SelfBlocking(g: Graph, s: set<Id>) {
    s <= g.nodes && forall i | i in s && i in g.preds :: g.preds[i] * s != {}
  }

  ghost predicate IsGreatestSelfBlocking(g: Graph, leftover: set<Id>) {
    SelfBlocking(g, leftover) && forall s: set<Id> | SelfBlocking(g, s) :: s <= leftover
  }

  lemma CycleIsSelfBlocking(g: Graph, c: seq<Id>)
    requires g.Valid() && IsCycle(g, c)
    ensures SelfBlocking(g, set i | i in c) && (set i | i in c) != {}
  {
    assert c[0] in (set i | i in c);
    forall x | x in c
      ensures g.preds[x] * (set i | i in c) != {}
    {
      var k :| 0 <= k < |c| && c[k] == x;
      var b := if k == 0 then c[|c| - 1] else c[k - 1];
      assert b in g.preds[x] * (set i | i in c);
    }
  }

  lemma {:induction false} DistinctFits(s: seq<Id>, bound: set<Id>)
    requires Distinct(s) && forall i | 0 <= i < |s| :: s[i] in bound
    ensures |s| <= |bound|
  {
    if s != [] {
      var last := s[|s| - 1];
      DistinctFits(s[..|s| - 1], bound - {last});
    }
  }

  /** The least of a set: `min(leftover)`, or the first of `sorted(...)`. */
  function MinId(s: set<Id>): (m: Id)
    requires s != {}
    ensures m in s && forall x | x in s && x != m :: Less(m.name, x.name)
  {
    var names := set x | x in s :: x.name;
    var some: Id :| some in s;
    assert some.name in names;
    Id(LeastWord(names))
  }

  // ---- the concrete cycle ----------------------------------------------------

  /** Walking blockers backwards: each node of the path is blocked by the one after it. */
  ghost predicate BackwardPath(g: Graph, path: seq<Id>) {
    && (forall i | 0 <= i < |path| :: path[i] in g.nodes && path[i] in g.preds)
    && (forall i | 0 <= i < |path| - 1 :: path[i + 1] in g.preds[path[i]])
  }

  function Reversed(s: seq<Id>): (r: seq<Id>)
    ensures |r| == |s| && forall i | 0 <= i < |s| :: r[i] == s[|s| - 1 - i]
  {
    seq(|s|, i requires 0 <= i < |s| => s[|s| - 1 - i])
  }

  /** A path whose last node is blocked by its `j`-th closes a cycle, read forward. */
  lemma PathCloses(g: Graph, path: seq<Id>, j: nat)
    requires BackwardPath(g, path) && Distinct(path) && j < |path|
    requires path[j] in g.preds[path[|path| - 1]]
    ensures IsCycle(g, [path[j]] + Reversed(path[j + 1..])) && Distinct([path[j]] + Reversed(path[j + 1..]))
    ensures forall x | x in [path[j]] + Reversed(path[j + 1..]) :: x in path
  {
    var tail := path[j + 1..];
    var c := [path[j]] + Reversed(tail);
    assert forall i | 0 < i < |c| :: c[i] == path[|path| - i];
    forall i | 0 <= i < |c| - 1
      ensures c[i] in g.preds[c[i + 1]]
    {
      assert c[i + 1] == path[|path| - 1 - i];
    }
  }

  lemma RotationCycles(g: Graph, c: seq<Id>, k: nat)
    requires IsCycle(g, c) && Distinct(c) && k < |c|
    ensures IsCycle(g, c[k..] + c[..k]) && Distinct(c[k..] + c[..k])
    ensures (c[k..] + c[..k])[0] == c[k]
    ensures forall x | x in c[k..] + c[..k] :: x in c
  {
    var r := c[k..] + c[..k];
    assert forall i | 0 <= i < |c| :: r[i] == if i < |c| - k then c[i + k] else c[i + k - |c|];
  }

  function IndexOf(c: seq<Id>, x: Id): (k: nat)
    requires x in c
    ensures k < |c| && c[k] == x
  {
    if c[0] == x then 0 else 1 + IndexOf(c[1..], x)
  }

  /** Distinct ids, each blocking the next, the least first. */
  ghost predicate IsSimpleCycle(g: Graph, c: seq<Id>) {
    IsCycle(g, c) && Distinct(c) && forall i | 0 < i < |c| :: Less(c[0].name, c[i].name)
  }

  /** In order, the ids that some set blocking itself holds: no order can ever resolve them. */
  ghost predicate IsEntangled(g: Graph, ids: seq<Id>) {
    && (forall i, j | 0 <= i < j < |ids| :: Less(ids[i].name, ids[j].name))
    && (forall i :: i in ids <==> exists s: set<Id> :: SelfBlocking(g, s) && i in s)
  }

  /** The closed part of the path, forward, from its least id. */
  method ReadCycle(g: Graph, path: seq<Id>, j: nat) returns (cycle: seq<Id>)
    requires BackwardPath(g, path) && Distinct(path) && j < |path|
    requires path[j] in g.preds[path[|path| - 1]]
    ensures IsSimpleCycle(g, cycle) && forall i | i in cycle :: i in path
  {
    PathCloses(g, path, j);
    var open := [path[j]] + Reversed(path[j + 1..]);
    var ids := set i | i in open;
    assert open[0] in ids;
    var pivot := IndexOf(open, MinId(ids));
    RotationCycles(g, open, pivot);
    cycle := open[pivot..] + open[..pivot];
    forall i | 0 < i < |cycle|
      ensures Less(cycle[0].name, cycle[i].name)
    {
      assert cycle[i] in cycle && cycle[i] in ids;
    }
  }

  lemma PathGrows(g: Graph, path: seq<Id>, prev: Id, leftover: set<Id>)
    requires BackwardPath(g, path) && Distinct(path) && path != [] && prev !in path
    requires prev in g.nodes && prev in g.preds && prev in g.preds[path[|path| - 1]]
    requires prev in leftover && forall i | i in path :: i in leftover
    ensures BackwardPath(g, path + [prev]) && Distinct(path + [prev])
    ensures |path| + 1 <= |leftover|
  {
    DistinctFits(path + [prev], leftover);
  }

  ghost predicate Positions(path: seq<Id>, pos: map<Id, nat>) {
    && (forall i {:trigger pos[i]} | i in pos :: pos[i] < |path| && path[pos[i]] == i)
    && (forall i | i in path :: i in pos)
  }

  lemma PositionsGrow(path: seq<Id>, pos: map<Id, nat>, prev: Id)
    requires Positions(path, pos) && prev !in pos
    ensures Positions(path + [prev], pos[prev := |path|])
  {
  }

  /** `_find_cycle`: one simple cycle of the leftover, forward, its least id first. The walk always
      finds a blocker and always closes within `len(leftover)` steps. */
  method FindCycle(g: Graph, leftover: set<Id>) returns (cycle: seq<Id>)
    requires g.Valid() && SelfBlocking(g, leftover) && leftover != {}
    ensures IsSimpleCycle(g, cycle) && (forall i | i in cycle :: i in leftover) && Cyclic(g)
  {
    var start := MinId(leftover);
    var path := [start];
    var pos: map<Id, nat> := map[start := 0];
    var cur := start;
    var step := 0;
    while step < |leftover| + 1
      invariant 0 <= step <= |leftover| && |path| == step + 1
      invariant BackwardPath(g, path) && Distinct(path) && cur == path[step]
      invariant forall i | i in path :: i in leftover
      invariant Positions(path, pos)
    {
      assert cur in path;
      var inside := g.preds[cur] * leftover;
      var prev := MinId(inside);
      if prev in pos {
        cycle := ReadCycle(g, path, pos[prev]);
        return;
      }
      PathGrows(g, path, prev, leftover);
      PositionsGrow(path, pos, prev);
      pos := pos[prev := |path|];
      path := path + [prev];
      cur := prev;
      step := step + 1;
    }
  }

  /** `sorted(ids)`. */
  function SortedIds(s: set<Id>): (r: seq<Id>)
    ensures Distinct(r)
    ensures forall i, j | 0 <= i < j < |r| :: Less(r[i].name, r[j].name)
    ensures forall x :: x in r <==> x in s
    decreases |s|
  {
    if s == {} then []
    else
      var m := MinId(s);
      var rest := SortedIds(s - {m});
      LeastFirst(m, rest, s);
      [m] + rest
  }

  lemma LeastFirst(m: Id, rest: seq<Id>, s: set<Id>)
    requires m in s && forall x | x in s && x != m :: Less(m.name, x.name)
    requires Distinct(rest)
    requires forall i, j | 0 <= i < j < |rest| :: Less(rest[i].name, rest[j].name)
    requires forall x :: x in rest <==> x in s - {m}
    ensures Distinct([m] + rest)
    ensures forall i, j | 0 <= i < j < |[m] + rest| :: Less(([m] + rest)[i].name, ([m] + rest)[j].name)
    ensures forall x :: x in [m] + rest <==> x in s
  {
    forall i | 0 <= i < |rest|
      ensures Less(m.name, rest[i].name) && rest[i] != m
    {
      assert rest[i] in rest;
    }
  }

  // ---- Kahn's algorithm ------------------------------------------------------

  function Targets(out: map<Id, seq<Id>>, i: Id): seq<Id> {
    if i in out then out[i] else []
  }

  /** `outgoing`: each blocker's targets, each once. */
  ghost predicate IsOutgoing(g: Graph, done: set<Id>, out: map<Id, seq<Id>>) {
    forall s ::
      Distinct(Targets(out, s)) && forall t :: t in Targets(out, s) <==> t in done && t in g.preds && s in g.preds[t]
  }

  method Outgoing(g: Graph) returns (out: map<Id, seq<Id>>)
    requires g.Valid()
    ensures IsOutgoing(g, g.nodes, out)
  {
    out := map[];
    var todo := g.nodes;
    while todo != {}
      invariant todo <= g.nodes
      invariant IsOutgoing(g, g.nodes - todo, out)
      decreases todo
    {
      var target :| target in todo;
      out := AddTarget(g, g.nodes - todo, out, target);
      assert g.nodes - (todo - {target}) == (g.nodes - todo) + {target};
      todo := todo - {target};
    }
    assert g.nodes - todo == g.nodes;
  }

  method AddTarget(g: Graph, ghost done: set<Id>, before: map<Id, seq<Id>>, target: Id) returns (out: map<Id, seq<Id>>)
    requires g.Valid() && target in g.nodes && target !in done && IsOutgoing(g, done, before)
    ensures IsOutgoing(g, done + {target}, out)
  {
    out := before;
    var sources := g.preds[target];
    var left := sources;
    while left != {}
      invariant left <= sources
      invariant forall s ::
        Targets(out, s) == if s in sources - left then Targets(before, s) + [target] else Targets(before, s)
      decreases left
    {
      var source :| source in left;
      out := out[source := Targets(out, source) + [target]];
      left := left - {source};
    }
    assert sources - left == sources;
    forall s
      ensures Distinct(Targets(out, s))
      ensures forall t :: t in Targets(out, s) <==> t in done + {target} && t in g.preds && s in g.preds[t]
    {
      assert Distinct(Targets(before, s)) && target !in Targets(before, s);
    }
  }

  /** `len` of a set, as a count of its members one at a time. */
  ghost function Size(s: set<Id>): nat {
    if s == {} then 0 else var x :| x in s; 1 + Size(s - {x})
  }

  lemma {:induction false} SizeIsCardinality(s: set<Id>)
    ensures Size(s) == |s|
  {
    if s != {} {
      var x :| x in s && Size(s) == 1 + Size(s - {x});
      SizeIsCardinality(s - {x});
    }
  }

  /** The blockers that Kahn has not removed yet. */
  ghost function Held(g: Graph, removed: set<Id>, i: Id): nat
    requires i in g.preds
  {
    Size(g.preds[i] - removed)
  }

  /** The counters and the queue between two pops; `late` are the targets not yet decremented. */
  ghost predicate Counted(g: Graph, removed: set<Id>, late: set<Id>, indegree: map<Id, int>, queue: seq<Id>)
    requires g.Valid()
  {
    && indegree.Keys == g.nodes
    && (forall i {:trigger indegree[i]} | i in indegree :: indegree[i] == Held(g, removed, i) + Late(late, i))
    && Distinct(queue)
    && (forall i {:trigger i in queue} :: i in queue <==> i in indegree && i !in removed && indegree[i] == 0)
  }

  function Late(late: set<Id>, i: Id): int {
    if i in late then 1 else 0
  }

  lemma RemoveOne(g: Graph, removed: set<Id>, node: Id, i: Id)
    requires i in g.preds && node !in removed
    ensures Held(g, removed, i) == Held(g, removed + {node}, i) + if node in g.preds[i] then 1 else 0
  {
    var before := g.preds[i] - removed;
    var after := g.preds[i] - (removed + {node});
    SizeIsCardinality(before);
    SizeIsCardinality(after);
    if node in g.preds[i] {
      assert before == after + {node};
    } else {
      assert before == after;
    }
  }

  lemma NodeLeaves(g: Graph, removed: set<Id>, late: set<Id>, indegree: map<Id, int>, queue: seq<Id>, node: Id)
    requires g.Valid() && Counted(g, removed, {}, indegree, queue + [node])
    requires forall i :: i in late <==> i in g.nodes && node in g.preds[i]
    ensures node in g.nodes && node !in removed && g.preds[node] <= removed
    ensures Counted(g, removed + {node}, late, indegree, queue)
  {
    var queue0 := queue + [node];
    assert queue0[|queue|] == node && node in queue0;
    NoneHeld(g, removed, node);
    forall i | i in indegree
      ensures indegree[i] == Held(g, removed + {node}, i) + Late(late, i)
    {
      RemoveOne(g, removed, node, i);
    }
    forall i | 0 <= i < |queue|
      ensures queue[i] != node
    {
      assert queue0[i] != queue0[|queue|];
    }
    assert forall i :: i in queue0 <==> i in queue || i == node;
    forall i, j | 0 <= i < j < |queue|
      ensures queue[i] != queue[j]
    {
      assert queue0[i] != queue0[j];
    }
  }

  lemma InitialCounts(g: Graph, indegree: map<Id, int>, queue: seq<Id>)
    requires g.Valid() && indegree.Keys == g.nodes && Distinct(queue)
    requires forall i | i in indegree :: indegree[i] == |g.preds[i]|
    requires forall i :: i in queue <==> i in g.nodes && |g.preds[i]| == 0
    ensures Counted(g, {}, {}, indegree, queue)
  {
    forall i | i in indegree
      ensures indegree[i] == Held(g, {}, i)
    {
      SizeIsCardinality(g.preds[i]);
      assert g.preds[i] - {} == g.preds[i];
    }
  }

  lemma NoneHeld(g: Graph, removed: set<Id>, i: Id)
    requires i in g.preds
    ensures Held(g, removed, i) == 0 <==> g.preds[i] <= removed
  {
    var rest := g.preds[i] - removed;
    SizeIsCardinality(rest);
    if g.preds[i] <= removed {
      assert rest == {};
    } else {
      var b: Id :| b in g.preds[i] && b !in removed;
      assert b in rest;
    }
  }

  lemma TargetCounts(g: Graph, removed: set<Id>, late: set<Id>, indegree: map<Id, int>, queue: seq<Id>, target: Id)
    requires g.Valid() && Counted(g, removed, late, indegree, queue)
    requires target in late && late <= g.nodes && late !! removed
    ensures
      var indegree' := indegree[target := indegree[target] - 1];
      var queue' := if indegree'[target] == 0 then queue + [target] else queue;
      Counted(g, removed, late - {target}, indegree', queue')
  {
    assert target !in queue;
  }

  lemma TailOf(targets: seq<Id>, k: nat, late: set<Id>)
    requires Distinct(targets) && k < |targets|
    requires forall i :: i in late <==> i in targets[k..]
    ensures targets[k] in late
    ensures forall i :: i in late - {targets[k]} <==> i in targets[k + 1..]
  {
    assert targets[k..] == [targets[k]] + targets[k + 1..];
    assert targets[k] !in targets[k + 1..];
  }

  /** One pop: the node leaves the graph and its targets count one blocker less. */
  method Pop(g: Graph, ghost removed: set<Id>, out: map<Id, seq<Id>>, indegree0: map<Id, int>, queue0: seq<Id>)
    returns (node: Id, indegree: map<Id, int>, queue: seq<Id>)
    requires g.Valid() && IsOutgoing(g, g.nodes, out) && queue0 != []
    requires Counted(g, removed, {}, indegree0, queue0)
    requires forall i | i in removed :: i in g.preds && g.preds[i] <= removed
    ensures node in g.nodes && node !in removed && g.preds[node] <= removed
    ensures Counted(g, removed + {node}, {}, indegree, queue)
  {
    node := queue0[|queue0| - 1];
    queue := queue0[..|queue0| - 1];
    indegree := indegree0;
    assert queue0 == queue + [node];
    var targets := Targets(out, node);
    ghost var late := set i | i in targets;
    NodeLeaves(g, removed, late, indegree, queue, node);
    var k := 0;
    while k < |targets|
      invariant 0 <= k <= |targets|
      invariant forall i :: i in late <==> i in targets[k..]
      invariant late <= g.nodes && late !! removed + {node}
      invariant Counted(g, removed + {node}, late, indegree, queue)
    {
      var target := targets[k];
      TailOf(targets, k, late);
      TargetCounts(g, removed + {node}, late, indegree, queue, target);
      indegree := indegree[target := indegree[target] - 1];
      if indegree[target] == 0 {
        queue := queue + [target];
      }
      late := late - {target};
      k := k + 1;
    }
    assert late == {};
  }

  lemma FreeNode(g: Graph, removed: set<Id>, node: Id)
    requires node in g.preds && g.preds[node] <= removed
    requires forall s: set<Id> | SelfBlocking(g, s) :: s !! removed
    ensures forall s: set<Id> | SelfBlocking(g, s) :: s !! removed + {node}
  {
    forall s: set<Id> | SelfBlocking(g, s)
      ensures s !! removed + {node}
    {
      assert g.preds[node] * s == {};
    }
  }

  method Start(g: Graph) returns (indegree: map<Id, int>, queue: seq<Id>)
    requires g.Valid()
    ensures Counted(g, {}, {}, indegree, queue)
  {
    indegree := map i | i in g.nodes :: |g.preds[i]|;
    queue := SortedIds(set i | i in g.nodes && |g.preds[i]| == 0);
    InitialCounts(g, indegree, queue);
  }

  /** Kahn's algorithm: what is left is the greatest self-blocking set. */
  method Kahn(g: Graph) returns (leftover: set<Id>)
    requires g.Valid()
    ensures IsGreatestSelfBlocking(g, leftover)
  {
    var out := Outgoing(g);
    var indegree, queue := Start(g);
    ghost var removed: set<Id> := {};
    while queue != []
      invariant removed <= g.nodes
      invariant Counted(g, removed, {}, indegree, queue)
      invariant forall i | i in removed :: i in g.preds && g.preds[i] <= removed
      invariant forall s: set<Id> | SelfBlocking(g, s) :: s !! removed
      decreases g.nodes - removed
    {
      var node;
      node, indegree, queue := Pop(g, removed, out, indegree, queue);
      FreeNode(g, removed, node);
      removed := removed + {node};
    }
    leftover := set i | i in g.nodes && indegree[i] > 0;
    LeftoverBlocksItself(g, removed, indegree, leftover);
  }

  lemma LeftoverBlocksItself(g: Graph, removed: set<Id>, indegree: map<Id, int>, leftover: set<Id>)
    requires g.Valid() && Counted(g, removed, {}, indegree, [])
    requires forall i | i in removed :: i in g.preds && g.preds[i] <= removed
    requires leftover == set i | i in g.nodes && indegree[i] > 0
    ensures leftover == g.nodes - removed
    ensures SelfBlocking(g, leftover)
  {
    forall i | i in g.nodes
      ensures i in leftover <==> i !in removed
    {
      NoneHeld(g, removed, i);
      assert i in indegree && i !in [];
    }
    forall i | i in leftover
      ensures g.preds[i] * leftover != {}
    {
      NoneHeld(g, removed, i);
      var b: Id :| b in g.preds[i] && b !in removed;
      assert b in g.preds[i] * leftover;
    }
  }

  // ---- the projection --------------------------------------------------------

  /** The sources that still hold `i`: a dead or done blocker blocks nobody. */
  function Blockers(edges: seq<Relation>, extraDead: set<Id>, i: Id): (b: set<Id>)
    ensures forall x :: x in b <==> BlocksEdge(edges, x, i) && x in ActiveIds(edges, extraDead)
  {
    set e | e in edges && e.kind == Blocks && e.to == i && e.from in ActiveIds(edges, extraDead) :: e.from
  }

  function ActiveGraph(edges: seq<Relation>, extraDead: set<Id>): (g: Graph)
    ensures g.Valid()
  {
    var nodes := ActiveIds(edges, extraDead);
    Graph(nodes, map i | i in nodes :: Blockers(edges, extraDead, i))
  }

  function Get(blockers: map<Id, set<Id>>, i: Id): set<Id> {
    if i in blockers then blockers[i] else {}
  }

  ghost predicate IsProjection(edges: seq<Relation>, extraDead: set<Id>, d: Projection) {
    && d.universe == Universe(edges) && d.dead == DeadIds(edges, extraDead)
    && d.done == ClosedIds(edges) * d.universe - d.dead
    && forall i :: Get(d.blockers, i) == Blockers(edges, extraDead, i)
  }

  lemma UniverseMore(edges: seq<Relation>, e: Relation)
    ensures Universe(edges + [e]) == if e.kind == Blocks then Universe(edges) + {e.from, e.to} else Universe(edges)
  {
    assert forall x :: x in edges + [e] <==> x in edges || x == e;
    forall i
      ensures i in Universe(edges + [e]) <==> i in Universe(edges) || (e.kind == Blocks && (i == e.from || i == e.to))
    {
      if i in Universe(edges) {
        var x :| x in edges && x.kind == Blocks && (x.from == i || x.to == i);
        assert x in edges + [e];
      }
    }
  }

  lemma DeadMore(edges: seq<Relation>, e: Relation, extraDead: set<Id>)
    ensures DeadIds(edges + [e], extraDead)
      == if e.kind == Supersedes then DeadIds(edges, extraDead) + {e.to} else DeadIds(edges, extraDead)
  {
    assert forall x :: x in edges + [e] <==> x in edges || x == e;
  }

  /** The first pass: who appears in a `blocks` edge, who is superseded. */
  method UniverseAndDead(edges: seq<Relation>, extraDead: set<Id>) returns (universe: set<Id>, dead: set<Id>)
    ensures universe == Universe(edges) && dead == DeadIds(edges, extraDead)
  {
    universe, dead := {}, extraDead;
    var k := 0;
    while k < |edges|
      invariant 0 <= k <= |edges|
      invariant universe == Universe(edges[..k]) && dead == DeadIds(edges[..k], extraDead)
    {
      var e := edges[k];
      TakeOneMore(edges, k);
      UniverseMore(edges[..k], e);
      DeadMore(edges[..k], e, extraDead);
      if e.kind == Blocks {
        universe := universe + {e.from} + {e.to};
      } else if e.kind == Supersedes {
        dead := dead + {e.to};
      }
      k := k + 1;
    }
    assert edges[..|edges|] == edges;
  }

  ghost predicate Collected(edges: seq<Relation>, live: set<Id>, blockers: map<Id, set<Id>>) {
    forall i, x :: x in Get(blockers, i) <==> BlocksEdge(edges, x, i) && x in live
  }

  lemma CollectOne(edges: seq<Relation>, e: Relation, live: set<Id>, blockers: map<Id, set<Id>>)
    requires Collected(edges, live, blockers)
    ensures Collected(edges + [e], live,
      if e.kind == Blocks && e.from in live then blockers[e.to := Get(blockers, e.to) + {e.from}] else blockers)
  {
    var after :=
      if e.kind == Blocks && e.from in live then blockers[e.to := Get(blockers, e.to) + {e.from}] else blockers;
    forall i, x
      ensures x in Get(after, i) <==> BlocksEdge(edges + [e], x, i) && x in live
    {
      assert BlocksEdge(edges + [e], x, i) <==> BlocksEdge(edges, x, i) || e == Relation(Blocks, x, i);
      assert x in Get(blockers, i) <==> BlocksEdge(edges, x, i) && x in live;
    }
  }

  /** The second pass: the unresolved sources of each target. */
  method CollectBlockers(edges: seq<Relation>, extraDead: set<Id>, dead: set<Id>, done: set<Id>)
    returns (blockers: map<Id, set<Id>>)
    requires dead == DeadIds(edges, extraDead) && done == ClosedIds(edges) * Universe(edges) - dead
    ensures Collected(edges, ActiveIds(edges, extraDead), blockers)
  {
    ghost var live := ActiveIds(edges, extraDead);
    blockers := map[];
    var k := 0;
    while k < |edges|
      invariant 0 <= k <= |edges|
      invariant Collected(edges[..k], live, blockers)
    {
      var e := edges[k];
      TakeOneMore(edges, k);
      assert e in edges;
      CollectOne(edges[..k], e, live, blockers);
      if e.kind == Blocks && e.from !in dead && e.from !in done {
        blockers := blockers[e.to := Get(blockers, e.to) + {e.from}];
      }
      k := k + 1;
    }
    assert edges[..|edges|] == edges;
  }

  lemma LeftoverIsEntangled(g: Graph, leftover: set<Id>)
    requires IsGreatestSelfBlocking(g, leftover)
    ensures IsEntangled(g, SortedIds(leftover))
  {
  }

  /** `Dag.project_excluding`: refused exactly when the active subgraph has a cycle, and then with
      one simple cycle of it, least id first, and every id no order can resolve. */
  method ProjectExcluding(edges: seq<Relation>, extraDead: set<Id>) returns (r: Outcome)
    ensures r.Refused? <==> Cyclic(ActiveGraph(edges, extraDead))
    ensures r.Accepted? ==> IsProjection(edges, extraDead, r.dag)
    ensures r.Refused? ==> IsSimpleCycle(ActiveGraph(edges, extraDead), r.cycle)
    ensures r.Refused? ==> IsEntangled(ActiveGraph(edges, extraDead), r.entangled)
  {
    var d := Collect(edges, extraDead);
    GraphIsActive(edges, extraDead, d);
    r := Resolve(d, GraphOf(d));
  }

  /** Kahn's verdict on the active graph. */
  method Resolve(d: Projection, g: Graph) returns (r: Outcome)
    requires g.Valid()
    ensures r.Refused? <==> Cyclic(g)
    ensures r.Accepted? ==> r.dag == d
    ensures r.Refused? ==> IsSimpleCycle(g, r.cycle) && IsEntangled(g, r.entangled)
  {
    var leftover := Unresolved(g);
    if leftover == {} {
      r := Accepted(d);
    } else {
      var cycle := FindCycle(g, leftover);
      r := Refused(cycle, SortedIds(leftover));
    }
  }

  /** What Kahn leaves, and what it means: nothing when there is no cycle, else every entangled id. */
  method Unresolved(g: Graph) returns (leftover: set<Id>)
    requires g.Valid()
    ensures leftover == {} ==> !Cyclic(g)
    ensures leftover != {} ==> SelfBlocking(g, leftover) && IsEntangled(g, SortedIds(leftover))
  {
    leftover := Kahn(g);
    if leftover == {} {
      NoLeftoverNoCycle(g, leftover);
    } else {
      LeftoverIsEntangled(g, leftover);
    }
  }

  method Collect(edges: seq<Relation>, extraDead: set<Id>) returns (d: Projection)
    ensures IsProjection(edges, extraDead, d)
  {
    var universe, dead := UniverseAndDead(edges, extraDead);
    var done := ClosedIds(edges) * universe - dead;
    var blockers := CollectBlockers(edges, extraDead, dead, done);
    d := Projection(universe, dead, done, blockers);
    forall i
      ensures Get(d.blockers, i) == Blockers(edges, extraDead, i)
    {
    }
  }

  function GraphOf(d: Projection): Graph {
    var active := d.universe - d.dead - d.done;
    Graph(active, map i | i in active :: Get(d.blockers, i))
  }

  lemma GraphIsActive(edges: seq<Relation>, extraDead: set<Id>, d: Projection)
    requires IsProjection(edges, extraDead, d)
    ensures GraphOf(d) == ActiveGraph(edges, extraDead)
  {
  }

  lemma NoLeftoverNoCycle(g: Graph, leftover: set<Id>)
    requires g.Valid() && leftover == {} && IsGreatestSelfBlocking(g, leftover)
    ensures !Cyclic(g)
  {
    forall c | IsCycle(g, c)
      ensures false
    {
      CycleIsSelfBlocking(g, c);
    }
  }

  // ---- what an accepted projection promises ----------------------------------

  function Ready(d: Projection): seq<Id> {
    SortedIds(set i | i in d.universe && i !in d.dead && i !in d.done && Get(d.blockers, i) == {})
  }

  /** The ready ids are exactly the active ones that nothing active blocks. */
  lemma ReadyIsUnblocked(edges: seq<Relation>, extraDead: set<Id>, d: Projection, i: Id)
    requires IsProjection(edges, extraDead, d)
    ensures i in Ready(d) <==>
      && i in ActiveIds(edges, extraDead)
      && forall x | BlocksEdge(edges, x, i) :: x !in ActiveIds(edges, extraDead)
  {
    assert Get(d.blockers, i) == {} <==> forall x: Id :: x !in Blockers(edges, extraDead, i);
  }

  lemma NothingReady(edges: seq<Relation>, extraDead: set<Id>, d: Projection, i: Id)
    requires IsProjection(edges, extraDead, d) && Ready(d) == [] && i in ActiveIds(edges, extraDead)
    ensures Blockers(edges, extraDead, i) * ActiveIds(edges, extraDead) != {}
  {
    ReadyIsUnblocked(edges, extraDead, d, i);
    var b: Id :| BlocksEdge(edges, b, i) && b in ActiveIds(edges, extraDead);
    assert b in Blockers(edges, extraDead, i) * ActiveIds(edges, extraDead);
  }

  /** Work never deadlocks: an accepted projection with anything active has something ready. */
  lemma SomethingIsReady(edges: seq<Relation>, extraDead: set<Id>, d: Projection)
    requires IsProjection(edges, extraDead, d) && !Cyclic(ActiveGraph(edges, extraDead))
    requires ActiveIds(edges, extraDead) != {}
    ensures Ready(d) != []
  {
    if Ready(d) == [] {
      var g := ActiveGraph(edges, extraDead);
      forall i | i in g.nodes
        ensures g.preds[i] * g.nodes != {}
      {
        NothingReady(edges, extraDead, d, i);
      }
      var c := CycleInside(g);
      assert false;
    }
  }

  lemma CycleInside(g: Graph) returns (c: seq<Id>)
    requires g.Valid() && g.nodes != {} && SelfBlocking(g, g.nodes)
    ensures IsCycle(g, c)
  {
    var start: Id :| start in g.nodes;
    var path := [start];
    while true
      invariant path != [] && BackwardPath(g, path) && Distinct(path)
      invariant forall i | i in path :: i in g.nodes
      decreases |g.nodes| - |path|
    {
      var cur := path[|path| - 1];
      assert cur in path;
      var prev: Id :| prev in g.preds[cur] * g.nodes;
      if prev in path {
        var j :| 0 <= j < |path| && path[j] == prev;
        PathCloses(g, path, j);
        return [path[j]] + Reversed(path[j + 1..]);
      }
      PathGrows(g, path, prev, g.nodes);
      path := path + [prev];
    }
  }

  /** The id is the source or the target of a `blocks` edge. */
  predicate Ends(edges: seq<Relation>, i: Id) {
    exists e :: e in edges && e.kind == Blocks && (e.from == i || e.to == i)
  }

  predicate Superseded(edges: seq<Relation>, i: Id) {
    exists e :: e in edges && e.kind == Supersedes && e.to == i
  }

  predicate Witnessed(edges: seq<Relation>, i: Id) {
    exists e :: e in edges && e.kind == Witnesses && e.to == i
  }

  /** No edge closes the id and it is not dead besides. */
  predicate Open(edges: seq<Relation>, extraDead: set<Id>, i: Id) {
    !Witnessed(edges, i) && !Superseded(edges, i) && i !in extraDead
  }

  lemma ClosedIff(edges: seq<Relation>, i: Id)
    ensures i in ClosedIds(edges) <==> Witnessed(edges, i) || Superseded(edges, i)
  {
  }

  /** An id is active exactly if it ends a `blocks` edge and is neither witnessed, nor superseded, nor dead besides. */
  lemma ActiveIff(edges: seq<Relation>, extraDead: set<Id>, i: Id)
    ensures i in ActiveIds(edges, extraDead) <==>
      Ends(edges, i) && Open(edges, extraDead, i)
  {
  }

  /** Where a projection puts an id, by the edges that touch it: every end of a `blocks` edge is dead, done or active,
      and it is done exactly if witnessed and not dead. */
  lemma PlacedByEdges(edges: seq<Relation>, extraDead: set<Id>, d: Projection, i: Id)
    requires IsProjection(edges, extraDead, d)
    ensures i in d.universe <==> Ends(edges, i)
    ensures i in d.dead <==> Superseded(edges, i) || i in extraDead
    ensures i in d.done <==> Ends(edges, i) && Witnessed(edges, i) && !Superseded(edges, i) && i !in extraDead
    ensures forall x :: x in Get(d.blockers, i) <==>
      BlocksEdge(edges, x, i) && Open(edges, extraDead, x)
  {
    forall x
      ensures x in Get(d.blockers, i) <==>
        BlocksEdge(edges, x, i) && Open(edges, extraDead, x)
    {
      ActiveIff(edges, extraDead, x);
      assert x in Blockers(edges, extraDead, i) <==> BlocksEdge(edges, x, i) && x in ActiveIds(edges, extraDead);
      if BlocksEdge(edges, x, i) {
        assert Ends(edges, x);
      }
    }
  }

  /** An id is ready exactly if it is open and each of its blockers is witnessed, superseded or dead besides. */
  lemma ReadyIff(edges: seq<Relation>, extraDead: set<Id>, d: Projection, i: Id)
    requires IsProjection(edges, extraDead, d)
    ensures i in Ready(d) <==>
      && Ends(edges, i) && Open(edges, extraDead, i)
      && forall x | BlocksEdge(edges, x, i) :: !Open(edges, extraDead, x)
  {
    ReadyIsUnblocked(edges, extraDead, d, i);
    ActiveIff(edges, extraDead, i);
    forall x | BlocksEdge(edges, x, i)
      ensures x in ActiveIds(edges, extraDead) <==> Open(edges, extraDead, x)
    {
      ActiveIff(edges, extraDead, x);
      assert Ends(edges, x);
    }
  }

  /** Witnessing every blocker of an open id, and not the id, makes it ready. */
  lemma WitnessingReadies(edges: seq<Relation>, more: seq<Relation>, extraDead: set<Id>, d: Projection, i: Id)
    requires i in ActiveIds(edges, extraDead)
    requires forall e | e in more :: e.kind == Witnesses && e.to != i
    requires forall x | BlocksEdge(edges, x, i) :: Witnessed(more, x)
    requires IsProjection(edges + more, extraDead, d)
    ensures i in Ready(d)
  {
    ActiveIff(edges, extraDead, i);
    ReadyIff(edges + more, extraDead, d, i);
    forall x | BlocksEdge(edges + more, x, i)
      ensures Witnessed(edges + more, x)
    {
      assert BlocksEdge(edges, x, i);
    }
    var e :| e in edges && e.kind == Blocks && (e.from == i || e.to == i);
    assert e in edges + more;
  }

  function NextOf(c: seq<Id>, k: nat): Id
    requires k < |c|
  {
    if k + 1 < |c| then c[k + 1] else c[0]
  }

  ghost predicate BlocksIn(g: Graph, a: Id, b: Id) {
    a in g.nodes && b in g.nodes && b in g.preds && a in g.preds[b]
  }

  lemma CycleByNext(g: Graph, c: seq<Id>)
    requires g.Valid()
    ensures IsCycle(g, c) <==> c != [] && forall k | 0 <= k < |c| :: BlocksIn(g, c[k], NextOf(c, k))
  {
    if c != [] && forall k | 0 <= k < |c| :: BlocksIn(g, c[k], NextOf(c, k)) {
      forall k | 0 <= k < |c| - 1
        ensures c[k] in g.preds[c[k + 1]]
      {
        assert BlocksIn(g, c[k], NextOf(c, k));
      }
      assert BlocksIn(g, c[|c| - 1], NextOf(c, |c| - 1));
    }
  }

  lemma BlocksInIff(edges: seq<Relation>, extraDead: set<Id>, a: Id, b: Id)
    ensures BlocksIn(ActiveGraph(edges, extraDead), a, b) <==>
      BlocksEdge(edges, a, b) && Open(edges, extraDead, a) && Open(edges, extraDead, b)
  {
    ActiveIff(edges, extraDead, a);
    ActiveIff(edges, extraDead, b);
    if BlocksEdge(edges, a, b) {
      assert Ends(edges, a) && Ends(edges, b);
    }
  }

  /** The cycles that refuse a projection are those of `blocks` edges between open ids. */
  lemma CycleIff(edges: seq<Relation>, extraDead: set<Id>, c: seq<Id>)
    ensures IsCycle(ActiveGraph(edges, extraDead), c) <==>
      && c != [] && (forall k | 0 <= k < |c| :: BlocksEdge(edges, c[k], NextOf(c, k)))
      && (forall k | 0 <= k < |c| :: Open(edges, extraDead, c[k]))
  {
    var g := ActiveGraph(edges, extraDead);
    CycleByNext(g, c);
    forall k | 0 <= k < |c|
      ensures BlocksIn(g, c[k], NextOf(c, k)) <==>
        && BlocksEdge(edges, c[k], NextOf(c, k))
        && Open(edges, extraDead, c[k]) && Open(edges, extraDead, NextOf(c, k))
    {
      BlocksInIff(edges, extraDead, c[k], NextOf(c, k));
    }
  }

  /** One edge that witnesses a member dissolves the cycle. */
  lemma WitnessingDissolves(edges: seq<Relation>, e: Relation, extraDead: set<Id>, c: seq<Id>)
    requires e.kind == Witnesses && e.to in c
    ensures !IsCycle(ActiveGraph(edges + [e], extraDead), c)
  {
    var k :| 0 <= k < |c| && c[k] == e.to;
    assert Witnessed(edges + [e], c[k]) by {
      assert e in edges + [e];
    }
    CycleIff(edges + [e], extraDead, c);
  }

  /** The edges a closing only adds to: the same `blocks` edges, more closings. */
  ghost predicate OnlyCloses(edges: seq<Relation>, more: seq<Relation>) {
    && (forall a, b :: BlocksEdge(edges, a, b) <==> BlocksEdge(more, a, b))
    && ClosedIds(edges) <= ClosedIds(more)
    && (forall e | e in edges && e.kind == Supersedes :: e in more)
  }

  /** Witnessing or superseding never turns an accepted projection into a refusal. */
  lemma ClosingNeverRefuses(edges: seq<Relation>, more: seq<Relation>, extraDead: set<Id>)
    requires OnlyCloses(edges, more) && !Cyclic(ActiveGraph(edges, extraDead))
    ensures !Cyclic(ActiveGraph(more, extraDead))
  {
    var g, g' := ActiveGraph(edges, extraDead), ActiveGraph(more, extraDead);
    assert forall i | i in Universe(more) :: i in Universe(edges) by {
      forall i | i in Universe(more)
        ensures i in Universe(edges)
      {
        var e :| e in more && e.kind == Blocks && (e.from == i || e.to == i);
        assert BlocksEdge(more, e.from, e.to);
      }
    }
    assert g'.nodes <= g.nodes;
    forall c | IsCycle(g', c)
      ensures IsCycle(g, c)
    {
    }
  }

  /** In particular appending one `witnesses` or `supersedes` edge. */
  lemma OneClosingNeverRefuses(edges: seq<Relation>, e: Relation, extraDead: set<Id>)
    requires e.kind == Witnesses || e.kind == Supersedes
    requires !Cyclic(ActiveGraph(edges, extraDead))
    ensures !Cyclic(ActiveGraph(edges + [e], extraDead))
  {
    ClosingNeverRefuses(edges, edges + [e], extraDead);
  }
}
