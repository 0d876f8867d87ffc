/** Growing a set of task ids along the DAG topology before a clear
    (internal/api/resources.go, expandTaskIDs): depth-first walks that share one visited map
    across all seeds and both directions. An unknown dependency, or an unknown seed, is an id
    like any other here. */
module Expansion {
  import opened StringOrder
  import opened TaskGraph
  import opened TopoSort

  datatype Direction = Upstream | Downstream

  /** One step of a walk: to a declared dependency, or to a task that declares one. */
  predicate Hop(g: Graph, dir: Direction, u: string, v: string)
  {
    if dir.Upstream? then u in g && v in g[u] else v in g && u in g[v]
  }

  // ---- paths that avoid what is already marked ---------------------------------------------

  predicate FreshHop(g: Graph, dir: Direction, marked: set<string>, u: string, v: string)
  {
    Hop(g, dir, u, v) && v !in marked
  }

  /** A way from u to v, of at least one hop, whose nodes after u are all unmarked. */
  predicate FreshWay(g: Graph, dir: Direction, marked: set<string>, p: seq<string>, u: string, v: string)
  {
    && |p| >= 2 && p[0] == u && p[|p| - 1] == v
    && forall i :: 0 <= i < |p| - 1 ==> FreshHop(g, dir, marked, p[i], p[i + 1])
  }

  ghost predicate ReachesFresh(g: Graph, dir: Direction, marked: set<string>, u: string, v: string)
  {
    exists p :: FreshWay(g, dir, marked, p, u, v)
  }

  /** v lies above (or below) u. */
  ghost predicate Beyond(g: Graph, dir: Direction, u: string, v: string)
  {
    ReachesFresh(g, dir, {}, u, v)
  }

  ghost predicate ClosedAt(g: Graph, dir: Direction, x: string, within: set<string>)
  {
    forall y :: Hop(g, dir, x, y) ==> y in within
  }

  /** What a walk from `id` leaves marked, said without the walk. */
  ghost predicate Walked(g: Graph, dir: Direction, id: string, before: set<string>, after: set<string>)
  {
    && before <= after
    && ClosedAt(g, dir, id, after)
    && (forall x :: x in after && x !in before ==> ClosedAt(g, dir, x, after) && ReachesFresh(g, dir, before, id, x))
  }

  lemma FreshStep(g: Graph, dir: Direction, marked: set<string>, u: string, v: string)
    requires FreshHop(g, dir, marked, u, v)
    ensures ReachesFresh(g, dir, marked, u, v)
  {
    assert FreshWay(g, dir, marked, [u, v], u, v);
  }

  /** One hop, then a path that avoids even more. */
  lemma FreshThen(g: Graph, dir: Direction, marked: set<string>, more: set<string>, u: string, w: string, v: string)
    requires FreshHop(g, dir, marked, u, w) && marked <= more && ReachesFresh(g, dir, more, w, v)
    ensures ReachesFresh(g, dir, marked, u, v)
  {
    var p :| FreshWay(g, dir, more, p, w, v);
    var q := [u] + p;
    forall i | 0 <= i < |q| - 1 ensures FreshHop(g, dir, marked, q[i], q[i + 1]) {
      if i > 0 { assert FreshHop(g, dir, more, p[i - 1], p[i]); }
    }
    assert FreshWay(g, dir, marked, q, u, v);
  }

  lemma FreshIsBeyond(g: Graph, dir: Direction, marked: set<string>, u: string, v: string)
    requires ReachesFresh(g, dir, marked, u, v)
    ensures Beyond(g, dir, u, v)
  {
    var p :| FreshWay(g, dir, marked, p, u, v);
    forall i | 0 <= i < |p| - 1 ensures FreshHop(g, dir, {}, p[i], p[i + 1]) {
      assert FreshHop(g, dir, marked, p[i], p[i + 1]);
    }
    assert FreshWay(g, dir, {}, p, u, v);
  }

  // ---- the walk ------------------------------------------------------------------------------

  type Adjacency = map<string, seq<string>>

  function Nexts(adj: Adjacency, id: string): seq<string>
  {
    if id in adj then adj[id] else []
  }

  ghost function Targets(adj: Adjacency): set<string>
  {
    set id, i | id in adj && 0 <= i < |adj[id]| :: adj[id][i]
  }

  /** The adjacency lists are the hops of one direction. */
  ghost predicate Lists(adj: Adjacency, g: Graph, dir: Direction)
  {
    forall u, v :: v in Nexts(adj, u) <==> Hop(g, dir, u, v)
  }

  /** Part way through a node's neighbours. */
  ghost predicate Walking(g: Graph, dir: Direction, id: string, before: set<string>, now: set<string>)
  {
    && before <= now
    && (forall x :: x in now && x !in before ==> ClosedAt(g, dir, x, now) && ReachesFresh(g, dir, before, id, x))
  }

  lemma WalkOn(g: Graph, dir: Direction, id: string, before: set<string>, now: set<string>, next: string, after: set<string>)
    requires Walking(g, dir, id, before, now) && Hop(g, dir, id, next) && next !in now
    requires Walked(g, dir, next, now + {next}, after)
    ensures Walking(g, dir, id, before, after)
  {
    FreshStep(g, dir, before, id, next);
    forall x | x in after && x !in before ensures ClosedAt(g, dir, x, after) && ReachesFresh(g, dir, before, id, x) {
      if x in now {
        assert ClosedAt(g, dir, x, now);
      } else if x != next {
        FreshThen(g, dir, before, now + {next}, id, next, x);
      }
    }
  }

  method Walk(id: string, adj: Adjacency, before: set<string>, ghost g: Graph, ghost dir: Direction) returns (result: set<string>)
    requires Lists(adj, g, dir)
    ensures Walked(g, dir, id, before, result)
    decreases Targets(adj) - before
  {
    result := before;
    var nexts := Nexts(adj, id);
    for j := 0 to |nexts|
      invariant Walking(g, dir, id, before, result)
      invariant forall i :: 0 <= i < j ==> nexts[i] in result
    {
      var next := nexts[j];
      if next !in result {
        assert next in Nexts(adj, id) && adj[id][j] in Targets(adj);
        ghost var now := result;
        result := Walk(next, adj, result + {next}, g, dir);
        WalkOn(g, dir, id, before, now, next, result);
      }
    }
  }

  lemma {:induction false} FreshPathMarked(g: Graph, dir: Direction, id: string, before: set<string>, after: set<string>, p: seq<string>, v: string, k: nat)
    requires Walked(g, dir, id, before, after) && FreshWay(g, dir, before, p, id, v) && 1 <= k < |p|
    ensures p[k] in after && p[k] !in before
  {
    if k > 1 { FreshPathMarked(g, dir, id, before, after, p, v, k - 1); }
    assert FreshHop(g, dir, before, p[k - 1], p[k - 1 + 1]);
  }

  /** A walk marks exactly the nodes a fresh path reaches. */
  lemma WalkedExactly(g: Graph, dir: Direction, id: string, before: set<string>, after: set<string>)
    requires Walked(g, dir, id, before, after)
    ensures forall v :: v in after <==> v in before || ReachesFresh(g, dir, before, id, v)
  {
    forall v, p | FreshWay(g, dir, before, p, id, v) ensures v in after {
      FreshPathMarked(g, dir, id, before, after, p, v, |p| - 1);
    }
  }

  // ---- what the expansion returns --------------------------------------------------------------

  /** Every id the spec mentions. */
  ghost function Mentioned(g: Graph): set<string>
  {
    g.Keys + set id, i | id in g && 0 <= i < |g[id]| :: g[id][i]
  }

  lemma HopMentioned(g: Graph, dir: Direction, u: string, v: string)
    requires Hop(g, dir, u, v)
    ensures v in Mentioned(g)
  {
    if dir.Upstream? { var i :| 0 <= i < |g[u]| && g[u][i] == v; }
  }

  /** The marks after one walk: everything a fresh path reaches joins them. */
  ghost function Grow(g: Graph, dir: Direction, on: bool, before: set<string>, id: string): set<string>
  {
    if on then before + set v | v in Mentioned(g) && ReachesFresh(g, dir, before, id, v) else before
  }

  /** The marks after all seeds, each walked up and then down. */
  ghost function Expand(g: Graph, seeds: seq<string>, up: bool, down: bool): set<string>
  {
    if seeds == [] then {}
    else
      var s := seeds[|seeds| - 1];
      var marked := Expand(g, seeds[..|seeds| - 1], up, down) + {s};
      Grow(g, Downstream, down, Grow(g, Upstream, up, marked, s), s)
  }

  lemma WalkedIsGrow(g: Graph, dir: Direction, id: string, before: set<string>, after: set<string>)
    requires Walked(g, dir, id, before, after)
    ensures after == Grow(g, dir, true, before, id)
  {
    WalkedExactly(g, dir, id, before, after);
    forall v | ReachesFresh(g, dir, before, id, v) ensures v in Mentioned(g) {
      var p :| FreshWay(g, dir, before, p, id, v);
      assert FreshHop(g, dir, before, p[|p| - 2], p[|p| - 2 + 1]);
      HopMentioned(g, dir, p[|p| - 2], v);
    }
  }

  lemma FreshExtend(g: Graph, dir: Direction, marked: set<string>, u: string, x: string, y: string)
    requires ReachesFresh(g, dir, marked, u, x) && FreshHop(g, dir, marked, x, y)
    ensures ReachesFresh(g, dir, marked, u, y)
  {
    var p :| FreshWay(g, dir, marked, p, u, x);
    var q := p + [y];
    forall i | 0 <= i < |q| - 1 ensures FreshHop(g, dir, marked, q[i], q[i + 1]) {
      if i < |p| - 1 { assert FreshHop(g, dir, marked, p[i], p[i + 1]); }
    }
    assert FreshWay(g, dir, marked, q, u, y);
  }

  lemma GrowIsWalked(g: Graph, dir: Direction, before: set<string>, id: string)
    ensures Walked(g, dir, id, before, Grow(g, dir, true, before, id))
  {
    var after := Grow(g, dir, true, before, id);
    forall y | Hop(g, dir, id, y) ensures y in after {
      HopMentioned(g, dir, id, y);
      if y !in before { FreshStep(g, dir, before, id, y); }
    }
    forall x | x in after && x !in before ensures ClosedAt(g, dir, x, after) {
      forall y | Hop(g, dir, x, y) ensures y in after {
        HopMentioned(g, dir, x, y);
        if y !in before { FreshExtend(g, dir, before, id, x, y); }
      }
    }
  }

  // ---- the method -----------------------------------------------------------------------------

  /** Both adjacency maps, in one pass over the tasks. */
  method BuildAdjacency(tasks: seq<TaskSpec>) returns (deps: Adjacency, children: Adjacency)
    requires DistinctIds(tasks)
    ensures Lists(deps, GraphOf(tasks), Upstream) && Lists(children, GraphOf(tasks), Downstream)
  {
    deps, children := map[], map[];
    for i := 0 to |tasks|
      invariant deps == ReadUpTo(tasks, i)
      invariant forall u, v :: v in Nexts(children, u) <==> Hop(ReadUpTo(tasks, i), Downstream, u, v)
    {
      var t := tasks[i];
      ReadUpToNew(tasks, i);
      deps := deps[t.taskID := t.dependsOn];
      children := AddChildren(t, children);
    }
    ReadUpToAll(tasks);
  }

  ghost function ReadUpTo(tasks: seq<TaskSpec>, i: nat): Graph
    requires i <= |tasks|
  {
    if i == 0 then map[] else ReadUpTo(tasks, i - 1)[tasks[i - 1].taskID := tasks[i - 1].dependsOn]
  }

  lemma {:induction false} ReadUpToIs(tasks: seq<TaskSpec>, i: nat)
    requires i <= |tasks|
    ensures ReadUpTo(tasks, i) == GraphOf(tasks[..i])
  {
    if i > 0 {
      ReadUpToIs(tasks, i - 1);
      assert tasks[..i][..i - 1] == tasks[..i - 1] && tasks[..i][i - 1] == tasks[i - 1];
    }
  }

  lemma ReadUpToAll(tasks: seq<TaskSpec>)
    ensures ReadUpTo(tasks, |tasks|) == GraphOf(tasks)
  {
    ReadUpToIs(tasks, |tasks|);
    assert tasks[..|tasks|] == tasks;
  }

  lemma ReadUpToNew(tasks: seq<TaskSpec>, i: nat)
    requires DistinctIds(tasks) && i < |tasks|
    ensures tasks[i].taskID !in ReadUpTo(tasks, i)
  {
    ReadUpToIs(tasks, i);
    ByIdFinds(tasks[..i]);
    forall k | 0 <= k < i ensures Ids(tasks[..i])[k] != tasks[i].taskID { assert Ids(tasks)[k] != Ids(tasks)[i]; }
  }

  method AddChildren(t: TaskSpec, children0: Adjacency) returns (children: Adjacency)
    ensures forall u, v :: v in Nexts(children, u) <==> v in Nexts(children0, u) || (v == t.taskID && u in t.dependsOn)
  {
    children := children0;
    for j := 0 to |t.dependsOn|
      invariant forall u, v :: v in Nexts(children, u) <==> v in Nexts(children0, u) || (v == t.taskID && u in t.dependsOn[..j])
    {
      var d := t.dependsOn[j];
      assert t.dependsOn[..j + 1] == t.dependsOn[..j] + [d];
      children := children[d := Nexts(children, d) + [t.taskID]];
    }
    assert t.dependsOn[..|t.dependsOn|] == t.dependsOn;
  }

  method ExpandTaskIDs(tasks: seq<TaskSpec>, seeds: seq<string>, includeUpstream: bool, includeDownstream: bool)
    returns (result: set<string>)
    requires DistinctIds(tasks)
    ensures result == Expand(GraphOf(tasks), seeds, includeUpstream, includeDownstream)
  {
    ghost var g := GraphOf(tasks);
    var deps, children := BuildAdjacency(tasks);
    result := {};
    for i := 0 to |seeds|
      invariant result == Expand(g, seeds[..i], includeUpstream, includeDownstream)
    {
      var s := seeds[i];
      assert seeds[..i + 1][..i] == seeds[..i] && seeds[..i + 1][i] == s;
      result := result + {s};
      if includeUpstream {
        ghost var before := result;
        result := Walk(s, deps, result, g, Upstream);
        WalkedIsGrow(g, Upstream, s, before, result);
      }
      if includeDownstream {
        ghost var before := result;
        result := Walk(s, children, result, g, Downstream);
        WalkedIsGrow(g, Downstream, s, before, result);
      }
    }
    assert seeds[..|seeds|] == seeds;
  }

  // ---- soundness and completeness --------------------------------------------------------------

  /** v lies beyond one of the seeds. */
  ghost predicate BeyondSeeds(g: Graph, dir: Direction, seeds: seq<string>, v: string)
  {
    exists i :: 0 <= i < |seeds| && Beyond(g, dir, seeds[i], v)
  }

  /** Why an id is in the result, and how far the walk went on from it. */
  ghost predicate Justified(g: Graph, seeds: seq<string>, up: bool, down: bool, result: set<string>, x: string)
  {
    || (x in seeds && (up ==> ClosedAt(g, Upstream, x, result)) && (down ==> ClosedAt(g, Downstream, x, result)))
    || (up && BeyondSeeds(g, Upstream, seeds, x) && ClosedAt(g, Upstream, x, result))
    || (down && BeyondSeeds(g, Downstream, seeds, x) && ClosedAt(g, Downstream, x, result))
  }

  lemma BeyondMoreSeeds(g: Graph, dir: Direction, seeds: seq<string>, s: string, v: string)
    requires BeyondSeeds(g, dir, seeds, v) || Beyond(g, dir, s, v)
    ensures BeyondSeeds(g, dir, seeds + [s], v)
  {
    if BeyondSeeds(g, dir, seeds, v) {
      var i :| 0 <= i < |seeds| && Beyond(g, dir, seeds[i], v);
      assert (seeds + [s])[i] == seeds[i];
    } else {
      assert (seeds + [s])[|seeds|] == s;
    }
  }

  lemma JustifiedLater(g: Graph, seeds: seq<string>, s: string, up: bool, down: bool, result: set<string>, after: set<string>, x: string)
    requires Justified(g, seeds, up, down, result, x) && result <= after
    ensures Justified(g, seeds + [s], up, down, after, x)
  {
    if BeyondSeeds(g, Upstream, seeds, x) { BeyondMoreSeeds(g, Upstream, seeds, s, x); }
    if BeyondSeeds(g, Downstream, seeds, x) { BeyondMoreSeeds(g, Downstream, seeds, s, x); }
  }

  lemma JustifyOne(g: Graph, seeds: seq<string>, s: string, up: bool, down: bool)
    requires forall x :: x in Expand(g, seeds, up, down) ==> Justified(g, seeds, up, down, Expand(g, seeds, up, down), x)
    ensures Expand(g, seeds, up, down) + {s} <= Expand(g, seeds + [s], up, down)
    ensures (up ==> ClosedAt(g, Upstream, s, Expand(g, seeds + [s], up, down)))
         && (down ==> ClosedAt(g, Downstream, s, Expand(g, seeds + [s], up, down)))
    ensures forall x :: x in Expand(g, seeds + [s], up, down) ==>
              Justified(g, seeds + [s], up, down, Expand(g, seeds + [s], up, down), x)
  {
    var more := seeds + [s];
    assert more[..|more| - 1] == seeds;
    var was := Expand(g, seeds, up, down);
    var above := Grow(g, Upstream, up, was + {s}, s);
    var all := Grow(g, Downstream, down, above, s);
    GrowIsWalked(g, Upstream, was + {s}, s);
    GrowIsWalked(g, Downstream, above, s);
    forall x | x in all ensures Justified(g, more, up, down, all, x) {
      if x in was {
        JustifiedLater(g, seeds, s, up, down, was, all, x);
      } else if x == s {
        assert s in more;
      } else if x in above {
        FreshIsBeyond(g, Upstream, was + {s}, s, x);
        BeyondMoreSeeds(g, Upstream, seeds, s, x);
      } else {
        FreshIsBeyond(g, Downstream, above, s, x);
        BeyondMoreSeeds(g, Downstream, seeds, s, x);
      }
    }
  }

  /** Every seed is in the result, with all it hops to. */
  ghost predicate SeedsDone(g: Graph, seeds: seq<string>, up: bool, down: bool, result: set<string>)
  {
    forall s :: s in seeds ==>
      && s in result
      && (up ==> ClosedAt(g, Upstream, s, result))
      && (down ==> ClosedAt(g, Downstream, s, result))
  }

  lemma {:induction false} AllJustified(g: Graph, seeds: seq<string>, up: bool, down: bool)
    ensures SeedsDone(g, seeds, up, down, Expand(g, seeds, up, down))
    ensures forall x :: x in Expand(g, seeds, up, down) ==> Justified(g, seeds, up, down, Expand(g, seeds, up, down), x)
  {
    if seeds != [] {
      var before, s := seeds[..|seeds| - 1], seeds[|seeds| - 1];
      assert seeds == before + [s];
      AllJustified(g, before, up, down);
      JustifyOne(g, before, s, up, down);
    }
  }

  /** Asked for: a seed, or beyond one in a requested direction. */
  ghost predicate Wanted(g: Graph, seeds: seq<string>, up: bool, down: bool, x: string)
  {
    x in seeds || (up && BeyondSeeds(g, Upstream, seeds, x)) || (down && BeyondSeeds(g, Downstream, seeds, x))
  }

  /** On every graph, with any seeds and flags, the result holds the seeds and nothing that was
      not asked for. */
  lemma ExpandSound(g: Graph, seeds: seq<string>, up: bool, down: bool, x: string)
    ensures x in Expand(g, seeds, up, down) ==> Wanted(g, seeds, up, down, x)
    ensures x in seeds ==> x in Expand(g, seeds, up, down)
  {
    AllJustified(g, seeds, up, down);
  }

  /** Not a seed, and above one seed and below one. */
  ghost predicate Between(g: Graph, seeds: seq<string>, x: string)
  {
    x !in seeds && BeyondSeeds(g, Upstream, seeds, x) && BeyondSeeds(g, Downstream, seeds, x)
  }

  ghost predicate NoneBetween(g: Graph, seeds: seq<string>)
  {
    forall x :: !Between(g, seeds, x)
  }

  lemma PrefixBeyond(g: Graph, dir: Direction, p: seq<string>, u: string, v: string, k: nat)
    requires FreshWay(g, dir, {}, p, u, v) && 1 <= k < |p|
    ensures Beyond(g, dir, u, p[k])
  {
    var q := p[..k + 1];
    forall i | 0 <= i < |q| - 1 ensures FreshHop(g, dir, {}, q[i], q[i + 1]) { assert FreshHop(g, dir, {}, p[i], p[i + 1]); }
    assert FreshWay(g, dir, {}, q, u, p[k]);
  }

  lemma {:induction false} PathMarked(g: Graph, seeds: seq<string>, up: bool, down: bool, dir: Direction, s: nat, p: seq<string>, v: string, k: nat)
    requires s < |seeds| && FreshWay(g, dir, {}, p, seeds[s], v) && k < |p|
    requires if dir.Upstream? then up else down
    requires up && down ==> NoneBetween(g, seeds)
    ensures p[k] in Expand(g, seeds, up, down)
  {
    AllJustified(g, seeds, up, down);
    if k == 0 {
      assert p[0] in seeds;
    } else {
      PathMarked(g, seeds, up, down, dir, s, p, v, k - 1);
      var x := p[k - 1];
      assert FreshHop(g, dir, {}, p[k - 1], p[k - 1 + 1]);
      if k > 1 {
        PrefixBeyond(g, dir, p, seeds[s], v, k - 1);
        assert BeyondSeeds(g, dir, seeds, x);
      } else {
        assert x in seeds;
      }
      assert !Between(g, seeds, x) || !(up && down);
      assert ClosedAt(g, dir, x, Expand(g, seeds, up, down));
    }
  }

  /** The result is exactly what was asked for: in one direction on any graph with any seeds,
      and in both as long as nothing but a seed lies between two seeds. */
  lemma ExpandExact(g: Graph, seeds: seq<string>, up: bool, down: bool)
    requires up && down ==> NoneBetween(g, seeds)
    ensures forall x :: x in Expand(g, seeds, up, down) <==> Wanted(g, seeds, up, down, x)
  {
    forall x ensures x in Expand(g, seeds, up, down) <==> Wanted(g, seeds, up, down, x) {
      ExpandSound(g, seeds, up, down, x);
      forall s, p, dir | 0 <= s < |seeds| && FreshWay(g, dir, {}, p, seeds[s], x) && (if dir.Upstream? then up else down)
        ensures x in Expand(g, seeds, up, down)
      {
        PathMarked(g, seeds, up, down, dir, s, p, x, |p| - 1);
      }
    }
  }

  // ---- one seed on an acyclic graph --------------------------------------------------------------

  /** A walk down from s to x and one up from s to x close a cycle. */
  lemma UpAndDownIsCycle(g: Graph, s: string, x: string)
    requires Beyond(g, Upstream, s, x) && Beyond(g, Downstream, s, x)
    ensures OnCycle(g, s)
  {
    var p :| FreshWay(g, Downstream, {}, p, s, x);
    var q :| FreshWay(g, Upstream, {}, q, s, x);
    assert FreshHop(g, Upstream, {}, q[0], q[0 + 1]);
    assert FreshHop(g, Downstream, {}, p[|p| - 2], p[|p| - 2 + 1]);
    var n := |q| - 1;
    var back := seq(n, i requires 0 <= i < n => q[n - 1 - i]);
    var loop := p + back;
    forall i | 0 <= i < |loop| - 1 ensures Edge(g, loop[i], loop[i + 1]) {
      if i < |p| - 1 {
        assert FreshHop(g, Downstream, {}, p[i], p[i + 1]);
        if i > 0 { assert FreshHop(g, Downstream, {}, p[i - 1], p[i - 1 + 1]); }
      } else {
        var j := n - 1 - (i + 1 - |p|);
        assert FreshHop(g, Upstream, {}, q[j], q[j + 1]);
        if j + 1 < n { assert FreshHop(g, Upstream, {}, q[j + 1], q[j + 1 + 1]); }
      }
    }
    assert Connects(g, loop, s, s);
  }

  /** With one seed on an acyclic graph, both directions give exactly the seed, its ancestors
      and its descendants. */
  lemma SingleSeedExact(g: Graph, s: string)
    requires Acyclic(g)
    ensures forall x :: x in Expand(g, [s], true, true) <==> x == s || Beyond(g, Upstream, s, x) || Beyond(g, Downstream, s, x)
  {
    forall x ensures !Between(g, [s], x) {
      if Between(g, [s], x) { UpAndDownIsCycle(g, s, x); }
    }
    ExpandExact(g, [s], true, true);
    forall x, dir ensures BeyondSeeds(g, dir, [s], x) <==> Beyond(g, dir, s, x) {
      if Beyond(g, dir, s, x) { assert [s][0] == s; }
    }
  }

  // ---- what lies between two seeds ------------------------------------------------------------------

  function Opposite(dir: Direction): Direction
  {
    if dir.Upstream? then Downstream else Upstream
  }

  ghost predicate Exact(g: Graph, seeds: seq<string>)
  {
    forall v :: v in Expand(g, seeds, true, true) <==> Wanted(g, seeds, true, true, v)
  }

  /** Going in this direction from the seeds, x is the only way to its neighbour y, and y lies in
      no other direction. Neither is a seed. */
  ghost predicate OnlyVia(g: Graph, dir: Direction, seeds: seq<string>, x: string, y: string)
  {
    && x !in seeds && y !in seeds && Hop(g, dir, x, y)
    && !BeyondSeeds(g, Opposite(dir), seeds, y)
    && (forall u :: Hop(g, dir, u, y) && (u in seeds || BeyondSeeds(g, dir, seeds, u)) ==> u == x)
  }

  /** A node a fresh way newly reaches is entered from the way's start or from another such node. */
  lemma LastHop(g: Graph, dir: Direction, marked: set<string>, u: string, v: string) returns (w: string)
    requires ReachesFresh(g, dir, marked, u, v)
    ensures Hop(g, dir, w, v) && v !in marked && (w == u || ReachesFresh(g, dir, marked, u, w))
  {
    var p :| FreshWay(g, dir, marked, p, u, v);
    w := p[|p| - 2];
    assert FreshHop(g, dir, marked, p[|p| - 2], p[|p| - 2 + 1]);
    if |p| > 2 {
      var q := p[..|p| - 1];
      forall i | 0 <= i < |q| - 1 ensures FreshHop(g, dir, marked, q[i], q[i + 1]) {
        assert FreshHop(g, dir, marked, p[i], p[i + 1]);
      }
      assert FreshWay(g, dir, marked, q, u, w);
    }
  }

  /** A walk from a seed that newly marks y goes in y's direction, and newly marks x. */
  lemma GrowsVia(g: Graph, seeds: seq<string>, dir: Direction, x: string, y: string,
                 walk: Direction, before: set<string>, s: string)
    requires OnlyVia(g, dir, seeds, x, y) && s in seeds
    requires y !in before && y in Grow(g, walk, true, before, s)
    ensures walk == dir && x !in before && x in Grow(g, walk, true, before, s)
  {
    var w := LastHop(g, walk, before, s, y);
    FreshIsBeyond(g, walk, before, s, y);
    var i :| 0 <= i < |seeds| && seeds[i] == s;
    assert BeyondSeeds(g, walk, seeds, y) by { assert Beyond(g, walk, seeds[i], y); }
    if w != s {
      FreshIsBeyond(g, walk, before, s, w);
      assert BeyondSeeds(g, walk, seeds, w) by { assert Beyond(g, walk, seeds[i], w); }
      var u := LastHop(g, walk, before, s, w);
      HopMentioned(g, walk, u, w);
    }
  }

  /** x is marked before its neighbours above and below, and only one of these ever is. */
  predicate HalfMarked(marked: set<string>, x: string, y: string, z: string)
  {
    (y in marked || z in marked ==> x in marked) && !(y in marked && z in marked)
  }

  lemma GrowHalves(g: Graph, seeds: seq<string>, dir: Direction, before: set<string>, s: string, x: string, y: string, z: string)
    requires OnlyVia(g, Upstream, seeds, x, y) && OnlyVia(g, Downstream, seeds, x, z)
    requires s in seeds && HalfMarked(before, x, y, z)
    ensures HalfMarked(Grow(g, dir, true, before, s), x, y, z)
  {
    var after := Grow(g, dir, true, before, s);
    if y in after && y !in before { GrowsVia(g, seeds, Upstream, x, y, dir, before, s); }
    if z in after && z !in before { GrowsVia(g, seeds, Downstream, x, z, dir, before, s); }
  }

  /** On any graph and in any order of the seeds, one of the two is always missed: the walk that
      marks x goes on in its own direction only, and no later walk passes x. */
  lemma {:induction false} BetweenMisses(g: Graph, all: seq<string>, seeds: seq<string>, x: string, y: string, z: string)
    requires OnlyVia(g, Upstream, all, x, y) && OnlyVia(g, Downstream, all, x, z) && seeds <= all
    ensures HalfMarked(Expand(g, seeds, true, true), x, y, z)
    decreases |seeds|
  {
    if seeds != [] {
      var before, s := seeds[..|seeds| - 1], seeds[|seeds| - 1];
      BetweenMisses(g, all, before, x, y, z);
      assert s == all[|seeds| - 1];
      var marked := Expand(g, before, true, true) + {s};
      GrowHalves(g, all, Upstream, marked, s, x, y, z);
      GrowHalves(g, all, Downstream, Grow(g, Upstream, true, marked, s), s, x, y, z);
    }
  }

  // ---- one neighbour, some order -----------------------------------------------------------------

  lemma MeetsBothWays(g: Graph, dir: Direction, s: string, x: string)
    requires Acyclic(g) && Beyond(g, dir, s, x)
    ensures !Beyond(g, Opposite(dir), s, x)
  {
    if Beyond(g, Opposite(dir), s, x) { UpAndDownIsCycle(g, s, x); }
  }

  /** On an acyclic graph, when x lies on the other side of the first seed, that seed's walk marks
      x, and y, to be reached only through x, is missed whatever seeds follow. */
  lemma {:induction false} FirstSeedMisses(g: Graph, all: seq<string>, seeds: seq<string>, dir: Direction, x: string, y: string)
    requires Acyclic(g) && OnlyVia(g, dir, all, x, y) && 1 <= |seeds| && seeds <= all
    requires Beyond(g, Opposite(dir), all[0], x)
    ensures x in Expand(g, seeds, true, true) && y !in Expand(g, seeds, true, true)
    decreases |seeds|
  {
    var before, s := seeds[..|seeds| - 1], seeds[|seeds| - 1];
    assert s == all[|seeds| - 1];
    if |seeds| == 1 {
      assert seeds == [all[0]];
      SingleSeedExact(g, all[0]);
      MeetsBothWays(g, Opposite(dir), all[0], x);
      assert Beyond(g, Opposite(dir), all[0], y) ==> BeyondSeeds(g, Opposite(dir), all, y);
      NotBeyondFirst(g, all, dir, x, y);
    } else {
      FirstSeedMisses(g, all, before, dir, x, y);
      var marked := Expand(g, before, true, true) + {s};
      var above := Grow(g, Upstream, true, marked, s);
      if y in above { GrowsVia(g, all, dir, x, y, Upstream, marked, s); }
      if y in Grow(g, Downstream, true, above, s) && y !in above { GrowsVia(g, all, dir, x, y, Downstream, above, s); }
    }
  }

  lemma NotBeyondFirst(g: Graph, all: seq<string>, dir: Direction, x: string, y: string)
    requires OnlyVia(g, dir, all, x, y) && all != [] && !Beyond(g, dir, all[0], x)
    ensures !Beyond(g, dir, all[0], y)
  {
    if Beyond(g, dir, all[0], y) {
      var w := LastHop(g, dir, {}, all[0], y);
      if w != all[0] { assert BeyondSeeds(g, dir, all, w); }
    }
  }

  /** Whatever lies between two seeds has one neighbour, above or below, only it leads to. */
  ghost predicate Exposed(g: Graph, seeds: seq<string>)
  {
    forall x :: Between(g, seeds, x) ==> exists dir, y :: OnlyVia(g, dir, seeds, x, y)
  }

  lemma BeyondOn(g: Graph, dir: Direction, seeds: seq<string>, x: string, y: string)
    requires BeyondSeeds(g, dir, seeds, x) && Hop(g, dir, x, y)
    ensures BeyondSeeds(g, dir, seeds, y)
  {
    var i :| 0 <= i < |seeds| && Beyond(g, dir, seeds[i], x);
    FreshExtend(g, dir, {}, seeds[i], x, y);
  }

  ghost predicate SameSeeds(seeds: seq<string>, other: seq<string>)
  {
    forall s :: s in seeds <==> s in other
  }

  lemma BeyondSame(g: Graph, dir: Direction, seeds: seq<string>, other: seq<string>, v: string)
    requires SameSeeds(seeds, other) && BeyondSeeds(g, dir, seeds, v)
    ensures BeyondSeeds(g, dir, other, v)
  {
    var i :| 0 <= i < |seeds| && Beyond(g, dir, seeds[i], v);
    assert seeds[i] in other;
    var j :| 0 <= j < |other| && other[j] == seeds[i];
  }

  lemma OnlyViaSame(g: Graph, dir: Direction, seeds: seq<string>, other: seq<string>, x: string, y: string)
    requires SameSeeds(seeds, other) && OnlyVia(g, dir, seeds, x, y)
    ensures OnlyVia(g, dir, other, x, y)
  {
    if BeyondSeeds(g, Opposite(dir), other, y) { BeyondSame(g, Opposite(dir), other, seeds, y); }
    forall u | Hop(g, dir, u, y) && (u in other || BeyondSeeds(g, dir, other, u)) ensures u == x {
      if BeyondSeeds(g, dir, other, u) { BeyondSame(g, dir, other, seeds, u); }
    }
  }

  lemma NoneBetweenSame(g: Graph, seeds: seq<string>, other: seq<string>)
    requires SameSeeds(seeds, other) && NoneBetween(g, seeds)
    ensures NoneBetween(g, other)
  {
    forall x ensures Between(g, other, x) ==> Between(g, seeds, x) {
      if Between(g, other, x) {
        BeyondSame(g, Upstream, other, seeds, x);
        BeyondSame(g, Downstream, other, seeds, x);
      }
    }
  }

  /** The same seeds with the i-th one first. */
  function Fronted(seeds: seq<string>, i: nat): (other: seq<string>)
    requires i < |seeds|
    ensures other != [] && other[0] == seeds[i]
    ensures multiset(other) == multiset(seeds)
  {
    assert seeds == seeds[..i] + [seeds[i]] + seeds[i + 1..];
    [seeds[i]] + seeds[..i] + seeds[i + 1..]
  }

  lemma SameOrder(seeds: seq<string>, other: seq<string>)
    requires multiset(seeds) == multiset(other)
    ensures SameSeeds(seeds, other)
  {
    forall s ensures s in seeds <==> s in other { assert s in multiset(seeds) <==> s in multiset(other); }
  }

  ghost predicate ExactInEveryOrder(g: Graph, seeds: seq<string>)
  {
    forall other :: multiset(other) == multiset(seeds) ==> Exact(g, other)
  }

  /** On an acyclic graph both directions are exact in every order of the seeds exactly when
      nothing lies between two seeds, as soon as whatever does has one neighbour of its own. */
  lemma BothDirectionsExactIff(g: Graph, seeds: seq<string>)
    requires Acyclic(g) && Exposed(g, seeds)
    ensures ExactInEveryOrder(g, seeds) <==> NoneBetween(g, seeds)
  {
    if NoneBetween(g, seeds) {
      forall other | multiset(other) == multiset(seeds) ensures Exact(g, other) {
        SameOrder(seeds, other);
        NoneBetweenSame(g, seeds, other);
        ExpandExact(g, other, true, true);
      }
    } else {
      var x :| Between(g, seeds, x);
      var dir, y :| OnlyVia(g, dir, seeds, x, y);
      SomeOrderMisses(g, seeds, dir, x, y);
    }
  }

  lemma SomeOrderMisses(g: Graph, seeds: seq<string>, dir: Direction, x: string, y: string)
    requires Acyclic(g) && Between(g, seeds, x) && OnlyVia(g, dir, seeds, x, y)
    ensures !ExactInEveryOrder(g, seeds)
  {
    var i :| 0 <= i < |seeds| && Beyond(g, Opposite(dir), seeds[i], x);
    var other := Fronted(seeds, i);
    SameOrder(seeds, other);
    OnlyViaSame(g, dir, seeds, other, x, y);
    BeyondOn(g, dir, seeds, x, y);
    BeyondSame(g, dir, seeds, other, y);
    FirstSeedMisses(g, other, other, dir, x, y);
    assert Wanted(g, other, true, true, y) && !Exact(g, other);
  }

  // ---- exactness seed by seed --------------------------------------------------------------------

  /** Every seed so far was followed by exactly what was asked for. */
  ghost predicate ExactThroughout(g: Graph, seeds: seq<string>)
  {
    Exact(g, seeds) && (seeds != [] ==> ExactThroughout(g, seeds[..|seeds| - 1]))
  }

  /** A way from s to v that meets no relative of the earlier seeds: none of them, nothing above
      and nothing below one. */
  ghost predicate ClearWay(g: Graph, dir: Direction, earlier: seq<string>, s: string, p: seq<string>, v: string)
  {
    FreshWay(g, dir, {}, p, s, v) && forall k :: 1 <= k < |p| ==> !Wanted(g, earlier, true, true, p[k])
  }

  ghost predicate ReachesClear(g: Graph, dir: Direction, earlier: seq<string>, s: string, v: string)
  {
    exists p :: ClearWay(g, dir, earlier, s, p, v)
  }

  /** If v is a relative of s and not of an earlier seed, it can be reached clear of those. */
  ghost predicate ClearAt(g: Graph, dir: Direction, earlier: seq<string>, s: string, v: string)
  {
    Beyond(g, dir, s, v) && !Wanted(g, earlier, true, true, v) ==> ReachesClear(g, dir, earlier, s, v)
  }

  ghost predicate ClearOf(g: Graph, earlier: seq<string>, s: string)
  {
    forall dir, v :: ClearAt(g, dir, earlier, s, v)
  }

  ghost predicate ClearThroughout(g: Graph, seeds: seq<string>)
  {
    seeds != [] ==> ClearOf(g, seeds[..|seeds| - 1], seeds[|seeds| - 1]) && ClearThroughout(g, seeds[..|seeds| - 1])
  }

  lemma ReverseWay(g: Graph, dir: Direction, p: seq<string>, u: string, v: string)
    requires FreshWay(g, dir, {}, p, u, v)
    ensures Beyond(g, Opposite(dir), v, u)
  {
    var n := |p|;
    var q := seq(n, i requires 0 <= i < n => p[n - 1 - i]);
    forall i | 0 <= i < |q| - 1 ensures FreshHop(g, Opposite(dir), {}, q[i], q[i + 1]) {
      assert FreshHop(g, dir, {}, p[n - 2 - i], p[n - 2 - i + 1]);
    }
    assert FreshWay(g, Opposite(dir), {}, q, v, u);
  }

  lemma NotBeyondSelf(g: Graph, dir: Direction, s: string)
    requires Acyclic(g)
    ensures !Beyond(g, dir, s, s)
  {
    if Beyond(g, dir, s, s) {
      var p :| FreshWay(g, dir, {}, p, s, s);
      ReverseWay(g, dir, p, s, s);
      UpAndDownIsCycle(g, s, s);
    }
  }

  /** After an exact start, a walk from s marks v in its direction exactly along a clear way. */
  lemma ClearIsFresh(g: Graph, earlier: seq<string>, s: string, dir: Direction, marked: set<string>, p: seq<string>, v: string)
    requires Acyclic(g)
    requires forall x :: x in marked <==> Wanted(g, earlier, true, true, x) || x == s || (dir.Downstream? && x in marked && Beyond(g, Upstream, s, x))
    ensures ClearWay(g, dir, earlier, s, p, v) ==> FreshWay(g, dir, marked, p, s, v)
    ensures FreshWay(g, dir, marked, p, s, v) ==> ClearWay(g, dir, earlier, s, p, v)
  {
    if ClearWay(g, dir, earlier, s, p, v) {
      forall i | 0 <= i < |p| - 1 ensures FreshHop(g, dir, marked, p[i], p[i + 1]) {
        assert FreshHop(g, dir, {}, p[i], p[i + 1]);
        PrefixBeyond(g, dir, p, s, v, i + 1);
        NotBeyondSelf(g, dir, s);
        if dir.Downstream? { MeetsBothWays(g, Downstream, s, p[i + 1]); }
      }
    }
    if FreshWay(g, dir, marked, p, s, v) {
      forall i | 0 <= i < |p| - 1 ensures FreshHop(g, dir, {}, p[i], p[i + 1]) { assert FreshHop(g, dir, marked, p[i], p[i + 1]); }
      forall k | 1 <= k < |p| ensures !Wanted(g, earlier, true, true, p[k]) { assert FreshHop(g, dir, marked, p[k - 1], p[k - 1 + 1]); }
    }
  }

  lemma ReachesAlong(g: Graph, earlier: seq<string>, s: string, dir: Direction, marked: set<string>, v: string)
    requires Acyclic(g)
    requires forall x :: x in marked <==> Wanted(g, earlier, true, true, x) || x == s || (dir.Downstream? && x in marked && Beyond(g, Upstream, s, x))
    ensures v in Grow(g, dir, true, marked, s) <==> v in marked || ReachesClear(g, dir, earlier, s, v)
  {
    forall p ensures ClearWay(g, dir, earlier, s, p, v) <==> FreshWay(g, dir, marked, p, s, v) {
      ClearIsFresh(g, earlier, s, dir, marked, p, v);
    }
    if p :| FreshWay(g, dir, marked, p, s, v) {
      var w := LastHop(g, dir, marked, s, v);
      HopMentioned(g, dir, w, v);
    }
  }

  /** What one more seed adds to an exact start. */
  lemma AddsClear(g: Graph, earlier: seq<string>, s: string, v: string)
    requires Acyclic(g) && Exact(g, earlier)
    ensures v in Expand(g, earlier + [s], true, true)
            <==> Wanted(g, earlier, true, true, v) || v == s
                 || ReachesClear(g, Upstream, earlier, s, v) || ReachesClear(g, Downstream, earlier, s, v)
  {
    var more := earlier + [s];
    assert more[..|more| - 1] == earlier;
    var marked := Expand(g, earlier, true, true) + {s};
    var above := Grow(g, Upstream, true, marked, s);
    ReachesAlong(g, earlier, s, Upstream, marked, v);
    forall x | x in above && x !in marked ensures Beyond(g, Upstream, s, x) {
      FreshIsBeyond(g, Upstream, marked, s, x);
    }
    ReachesAlong(g, earlier, s, Downstream, above, v);
  }

  lemma WantedMore(g: Graph, earlier: seq<string>, s: string, v: string)
    ensures Wanted(g, earlier + [s], true, true, v)
            <==> Wanted(g, earlier, true, true, v) || v == s || Beyond(g, Upstream, s, v) || Beyond(g, Downstream, s, v)
  {
    var more := earlier + [s];
    forall dir | BeyondSeeds(g, dir, earlier, v) || Beyond(g, dir, s, v) ensures BeyondSeeds(g, dir, more, v) {
      BeyondMoreSeeds(g, dir, earlier, s, v);
    }
    forall dir | BeyondSeeds(g, dir, more, v) ensures BeyondSeeds(g, dir, earlier, v) || Beyond(g, dir, s, v) {
      var i :| 0 <= i < |more| && Beyond(g, dir, more[i], v);
      if i < |earlier| { assert Beyond(g, dir, earlier[i], v); }
    }
  }

  lemma ClearEither(g: Graph, earlier: seq<string>, s: string, v: string)
    requires Acyclic(g)
    ensures forall dir :: ReachesClear(g, dir, earlier, s, v) ==> Beyond(g, dir, s, v)
    ensures !(Beyond(g, Upstream, s, v) && Beyond(g, Downstream, s, v))
    ensures v == s ==> !Beyond(g, Upstream, s, v) && !Beyond(g, Downstream, s, v)
  {
    NotBeyondSelf(g, Upstream, s);
    NotBeyondSelf(g, Downstream, s);
    if Beyond(g, Upstream, s, v) { MeetsBothWays(g, Upstream, s, v); }
  }

  lemma ExactAt(g: Graph, earlier: seq<string>, s: string, v: string)
    requires Acyclic(g) && Exact(g, earlier)
    ensures (v in Expand(g, earlier + [s], true, true) <==> Wanted(g, earlier + [s], true, true, v))
            <==> ClearAt(g, Upstream, earlier, s, v) && ClearAt(g, Downstream, earlier, s, v)
  {
    AddsClear(g, earlier, s, v);
    WantedMore(g, earlier, s, v);
    ClearEither(g, earlier, s, v);
  }

  lemma ExactStep(g: Graph, earlier: seq<string>, s: string)
    requires Acyclic(g) && Exact(g, earlier)
    ensures Exact(g, earlier + [s]) <==> ClearOf(g, earlier, s)
  {
    var more := earlier + [s];
    if Exact(g, more) {
      forall dir, v ensures ClearAt(g, dir, earlier, s, v) {
        ExactAt(g, earlier, s, v);
        assert v in Expand(g, more, true, true) <==> Wanted(g, more, true, true, v);
        assert dir == Upstream || dir == Downstream;
      }
    }
    if ClearOf(g, earlier, s) {
      forall v ensures v in Expand(g, more, true, true) <==> Wanted(g, more, true, true, v) {
        ExactAt(g, earlier, s, v);
        assert ClearAt(g, Upstream, earlier, s, v) && ClearAt(g, Downstream, earlier, s, v);
      }
    }
  }

  /** On every acyclic graph, with any seeds in any order: the expansion in both directions is
      exact after every seed if and only if each seed's relatives that are not relatives of an
      earlier seed can be reached from it clear of those. */
  lemma {:induction false} ExactThroughoutIff(g: Graph, seeds: seq<string>)
    requires Acyclic(g)
    ensures ExactThroughout(g, seeds) <==> ClearThroughout(g, seeds)
    decreases |seeds|
  {
    if seeds != [] {
      var before, s := seeds[..|seeds| - 1], seeds[|seeds| - 1];
      ExactThroughoutIff(g, before);
      assert before + [s] == seeds;
      if ExactThroughout(g, before) { ExactStep(g, before, s); }
    } else {
      ExpandExact(g, seeds, false, false);
    }
  }

  /** For two seeds that is the exact condition of the result itself. */
  lemma TwoSeedsExactIff(g: Graph, a: string, b: string)
    requires Acyclic(g)
    ensures Exact(g, [a, b]) <==> ClearOf(g, [a], b)
  {
    SingleSeedExact(g, a);
    forall v ensures Wanted(g, [a], true, true, v) <==> v == a || Beyond(g, Upstream, a, v) || Beyond(g, Downstream, a, v) {
      WantedMore(g, [], a, v);
      assert [] + [a] == [a];
    }
    ExactStep(g, [a], b);
    assert [a] + [b] == [a, b];
  }

  // ---- two seeds, both directions ------------------------------------------------------------------

  /** Edges a to x, y to x and x to b; seeds a and b. The walk down from a marks x, so the walk
      up from b stops there, and y above it is missed. */
  lemma SharedMarksMissATask()
    ensures var g: Graph := map["a" := [], "y" := [], "x" := ["a", "y"], "b" := ["x"]];
            && Acyclic(g)
            && BeyondSeeds(g, Upstream, ["a", "b"], "y")
            && "y" !in Expand(g, ["a", "b"], true, true)
  {
    var g: Graph := map["a" := [], "y" := [], "x" := ["a", "y"], "b" := ["x"]];
    RankedAcyclic(g, map["a" := 0, "y" := 0, "x" := 1, "b" := 2]);
    SharedMarksExposed();
    BeyondOn(g, Upstream, ["a", "b"], "x", "y");
    FirstSeedMisses(g, ["a", "b"], ["a", "b"], Upstream, "x", "y");
  }

  /** The graph of the example, whose task between the seeds has one neighbour of its own, above. */
  lemma SharedMarksExposed()
    ensures var g: Graph := map["a" := [], "y" := [], "x" := ["a", "y"], "b" := ["x"]];
            && Exposed(g, ["a", "b"]) && Between(g, ["a", "b"], "x")
            && OnlyVia(g, Upstream, ["a", "b"], "x", "y") && Beyond(g, Downstream, "a", "x")
  {
    var g: Graph := map["a" := [], "y" := [], "x" := ["a", "y"], "b" := ["x"]];
    var seeds := ["a", "b"];
    assert g["x"][0] == "a" && g["x"][1] == "y" && g["b"][0] == "x";
    FreshStep(g, Upstream, {}, "b", "x");
    FreshStep(g, Downstream, {}, "a", "x");
    assert Beyond(g, Upstream, seeds[1], "x") && Beyond(g, Downstream, seeds[0], "x");
    forall s ensures !Beyond(g, Downstream, s, "y") && !Beyond(g, Downstream, s, "a") {
      if Beyond(g, Downstream, s, "y") { var w := LastHop(g, Downstream, {}, s, "y"); }
      if Beyond(g, Downstream, s, "a") { var w := LastHop(g, Downstream, {}, s, "a"); }
    }
    assert OnlyVia(g, Upstream, seeds, "x", "y");
    forall v | Between(g, seeds, v) ensures v == "x" {
      var i :| 0 <= i < |seeds| && Beyond(g, Downstream, seeds[i], v);
      var w := LastHop(g, Downstream, {}, seeds[i], v);
    }
  }

  // ---- a later seed repairs a miss ------------------------------------------------------------------

  /** The same graph with a task c that also depends on y. */
  const REPAIRED: Graph := map["a" := [], "y" := [], "x" := ["a", "y"], "b" := ["x"], "c" := ["y"]]

  lemma RepairedMisses()
    ensures Acyclic(REPAIRED) && "y" !in Expand(REPAIRED, ["a", "b"], true, true)
    ensures BeyondSeeds(REPAIRED, Upstream, ["a", "b"], "y")
  {
    var g, seeds := REPAIRED, ["a", "b"];
    RankedAcyclic(g, map["a" := 0, "y" := 0, "x" := 1, "b" := 2, "c" := 1]);
    assert g["x"][0] == "a" && g["x"][1] == "y" && g["b"][0] == "x" && g["c"][0] == "y";
    FreshStep(g, Upstream, {}, "b", "x");
    FreshStep(g, Downstream, {}, "a", "x");
    assert Beyond(g, Upstream, seeds[1], "x") && Beyond(g, Downstream, seeds[0], "x");
    BeyondOn(g, Upstream, seeds, "x", "y");
    forall s ensures !Beyond(g, Downstream, s, "y") {
      if Beyond(g, Downstream, s, "y") { var w := LastHop(g, Downstream, {}, s, "y"); }
    }
    forall s ensures !Beyond(g, Upstream, s, "c") {
      if Beyond(g, Upstream, s, "c") { var w := LastHop(g, Upstream, {}, s, "c"); }
    }
    assert OnlyVia(g, Upstream, seeds, "x", "y");
    FirstSeedMisses(g, seeds, seeds, Upstream, "x", "y");
  }

  /** After a and b the expansion misses y, and the third seed c reaches it: exact at the end, and
      not throughout. */
  lemma LaterSeedRepairs()
    ensures Acyclic(REPAIRED) && !Exact(REPAIRED, ["a", "b"]) && Exact(REPAIRED, ["a", "b", "c"])
    ensures !ExactThroughout(REPAIRED, ["a", "b", "c"])
  {
    var g, seeds := REPAIRED, ["a", "b", "c"];
    RepairedMisses();
    assert Wanted(g, ["a", "b"], true, true, "y");
    assert seeds[..2] == ["a", "b"];
    var all := Expand(g, seeds, true, true);
    RepairedHoldsAll();
    forall v ensures v in all <==> Wanted(g, seeds, true, true, v) {
      ExpandSound(g, seeds, true, true, v);
      forall dir | BeyondSeeds(g, dir, seeds, v) ensures v in all {
        var i :| 0 <= i < |seeds| && Beyond(g, dir, seeds[i], v);
        var w := LastHop(g, dir, {}, seeds[i], v);
        RepairedIds(dir, w, v);
      }
    }
  }

  lemma RepairedHoldsAll()
    ensures {"a", "b", "c", "x", "y"} <= Expand(REPAIRED, ["a", "b", "c"], true, true)
  {
    var g, seeds := REPAIRED, ["a", "b", "c"];
    AllJustified(g, seeds, true, true);
    assert seeds[0] == "a" && seeds[1] == "b" && seeds[2] == "c" && g["x"][0] == "a" && g["c"][0] == "y";
    assert Hop(g, Downstream, "a", "x") && Hop(g, Upstream, "c", "y");
  }

  lemma RepairedIds(dir: Direction, w: string, v: string)
    requires Hop(REPAIRED, dir, w, v)
    ensures v in {"a", "b", "c", "x", "y"}
  {
  }

  /** A graph whose edges climb some ranking has no cycle. */
  lemma RankedAcyclic(g: Graph, rank: map<string, int>)
    requires g.Keys <= rank.Keys && forall u, v :: Edge(g, u, v) ==> rank[u] < rank[v]
    ensures Acyclic(g)
  {
    forall u, p | Connects(g, p, u, u) && |p| >= 2 ensures false { PathClimbs(g, rank, p, |p| - 1); }
  }

  lemma {:induction false} PathClimbs(g: Graph, rank: map<string, int>, p: seq<string>, k: nat)
    requires g.Keys <= rank.Keys && forall u, v :: Edge(g, u, v) ==> rank[u] < rank[v]
    requires IsPath(g, p) && 1 <= k < |p|
    ensures p[k] in g && rank[p[0]] < rank[p[k]]
  {
    assert Edge(g, p[k - 1], p[k - 1 + 1]);
    if k > 1 { PathClimbs(g, rank, p, k - 1); }
  }
}
