/** The topological sort of the grid and graph views (internal/api/ui_structure.go,
    topoSortTasks): Kahn's algorithm over in-degrees and child lists, with a sorted ready
    list and a fallback that appends whatever a cycle kept back.

    Task ids are distinct, as spec validation demands (internal/domain/graph.go). */
module TopoSort {
  import opened StringOrder
  import opened TaskGraph

  datatype TaskSpec = TaskSpec(taskID: string, taskType: string, dependsOn: seq<string>)

  function Ids(tasks: seq<TaskSpec>): (ids: seq<string>)
    ensures |ids| == |tasks| && forall i :: 0 <= i < |tasks| ==> ids[i] == tasks[i].taskID
  {
    seq(|tasks|, i requires 0 <= i < |tasks| => tasks[i].taskID)
  }

  ghost predicate DistinctIds(tasks: seq<TaskSpec>)
  {
    NoDup(Ids(tasks))
  }

  /** Every task under its id, the last one winning. */
  function ById(tasks: seq<TaskSpec>): map<string, TaskSpec>
  {
    if tasks == [] then map[] else ById(tasks[..|tasks| - 1])[tasks[|tasks| - 1].taskID := tasks[|tasks| - 1]]
  }

  function GraphOf(tasks: seq<TaskSpec>): Graph
  {
    var byID := ById(tasks);
    map id | id in byID :: byID[id].dependsOn
  }

  lemma {:induction false} ByIdFinds(tasks: seq<TaskSpec>)
    ensures ById(tasks).Keys == Elems(Ids(tasks))
    ensures forall id :: id in ById(tasks) ==> ById(tasks)[id] in tasks && ById(tasks)[id].taskID == id
    ensures DistinctIds(tasks) ==> forall i :: 0 <= i < |tasks| ==> ById(tasks)[tasks[i].taskID] == tasks[i]
  {
    if tasks != [] {
      var before, last := tasks[..|tasks| - 1], tasks[|tasks| - 1];
      ByIdFinds(before);
      assert tasks == before + [last];
      assert Ids(tasks) == Ids(before) + [last.taskID];
      assert Elems(Ids(tasks)) == Elems(Ids(before)) + {last.taskID};
      if DistinctIds(tasks) {
        assert DistinctIds(before);
        forall i | 0 <= i < |tasks| ensures ById(tasks)[tasks[i].taskID] == tasks[i] {
          if i < |before| { assert before[i] == tasks[i] && Ids(tasks)[i] != Ids(tasks)[|before|]; }
        }
      }
    }
  }

  // ---- what the sort returns -----------------------------------------------------------

  /** The ids not among `done`, in declaration order. */
  function Remainder(ids: seq<string>, done: seq<string>): seq<string>
  {
    if ids == [] then []
    else (if ids[0] in done then [] else [ids[0]]) + Remainder(ids[1..], done)
  }

  ghost function TopoOrder(tasks: seq<TaskSpec>): seq<string>
  {
    var sorted := Greedy(GraphOf(tasks), []);
    sorted + Remainder(Ids(tasks), sorted)
  }

  // ---- in-degrees and children -----------------------------------------------------------

  /** How many entries of a depends_on list are among `live`, repetitions counted. */
  function Pending(deps: seq<string>, live: set<string>): nat
  {
    if deps == [] then 0 else (if deps[0] in live then 1 else 0) + Pending(deps[1..], live)
  }

  lemma {:induction false} PendingAppend(deps: seq<string>, d: string, live: set<string>)
    ensures Pending(deps + [d], live) == Pending(deps, live) + if d in live then 1 else 0
  {
    if deps != [] {
      assert (deps + [d])[1..] == deps[1..] + [d];
      PendingAppend(deps[1..], d, live);
    }
  }

  lemma {:induction false} PendingZero(deps: seq<string>, live: set<string>)
    ensures Pending(deps, live) == 0 <==> forall i :: 0 <= i < |deps| ==> deps[i] !in live
  {
    if deps != [] {
      PendingZero(deps[1..], live);
      assert forall i :: 1 <= i < |deps| ==> deps[i] == deps[1..][i - 1];
    }
  }

  lemma {:induction false} PendingDrop(deps: seq<string>, live: set<string>, v: string)
    requires v in live
    ensures Pending(deps, live - {v}) + multiset(deps)[v] == Pending(deps, live)
  {
    if deps != [] {
      PendingDrop(deps[1..], live, v);
      assert deps == [deps[0]] + deps[1..];
    }
  }

  function Children(children: map<string, seq<string>>, id: string): seq<string>
  {
    if id in children then children[id] else []
  }

  ghost predicate Degrees(seen: Graph, indeg: map<string, int>)
  {
    indeg.Keys == seen.Keys && forall id :: id in seen ==> indeg[id] == Pending(seen[id], seen.Keys)
  }

  /** How often `dep` is named by `ch`, in the part of the graph read so far. */
  function Named(seen: Graph, dep: string, ch: string): nat
  {
    if ch in seen then multiset(seen[ch])[dep] else 0
  }

  ghost predicate Families(seen: Graph, children: map<string, seq<string>>)
  {
    forall dep, ch :: dep in seen ==> multiset(Children(children, dep))[ch] == Named(seen, dep, ch)
  }

  /** The counters agree with the part of the graph read so far. */
  ghost predicate Counted(seen: Graph, indeg: map<string, int>, children: map<string, seq<string>>)
  {
    Degrees(seen, indeg) && Families(seen, children)
  }

  function Grown(seen: Graph, id: string, dep: string): Graph
    requires id in seen
  {
    seen[id := seen[id] + [dep]]
  }

  lemma DegreesGrow(seen: Graph, indeg: map<string, int>, id: string, dep: string)
    requires Degrees(seen, indeg) && id in seen
    ensures Degrees(Grown(seen, id, dep), if dep in seen then indeg[id := indeg[id] + 1] else indeg)
  {
    PendingAppend(seen[id], dep, seen.Keys);
    assert Grown(seen, id, dep).Keys == seen.Keys;
  }

  lemma NamedGrows(seen: Graph, id: string, dep: string, d: string, ch: string)
    requires id in seen
    ensures Named(Grown(seen, id, dep), d, ch) == Named(seen, d, ch) + if ch == id && d == dep then 1 else 0
  {
  }

  lemma FamiliesGrow(seen: Graph, children: map<string, seq<string>>, id: string, dep: string)
    requires Families(seen, children) && id in seen
    ensures Families(Grown(seen, id, dep), if dep in seen then children[dep := Children(children, dep) + [id]] else children)
  {
    var after := if dep in seen then children[dep := Children(children, dep) + [id]] else children;
    forall d, ch | d in seen ensures multiset(Children(after, d))[ch] == Named(Grown(seen, id, dep), d, ch) {
      NamedGrows(seen, id, dep, d, ch);
      assert multiset(Children(children, d))[ch] == Named(seen, d, ch);
    }
  }

  /** The inner loop: one task's dependencies. */
  method CountTask(t: TaskSpec, indeg0: map<string, int>, children0: map<string, seq<string>>, ghost seen: Graph)
    returns (indeg: map<string, int>, children: map<string, seq<string>>)
    requires Counted(seen, indeg0, children0) && t.taskID in seen && seen[t.taskID] == []
    ensures Counted(seen[t.taskID := t.dependsOn], indeg, children)
  {
    indeg, children := indeg0, children0;
    ghost var now := seen;
    for j := 0 to |t.dependsOn|
      invariant now == seen[t.taskID := t.dependsOn[..j]]
      invariant Counted(now, indeg, children)
    {
      var dep := t.dependsOn[j];
      assert t.dependsOn[..j + 1] == t.dependsOn[..j] + [dep];
      DegreesGrow(now, indeg, t.taskID, dep);
      FamiliesGrow(now, children, t.taskID, dep);
      now := Grown(now, t.taskID, dep);
      if dep in indeg {
        indeg := indeg[t.taskID := indeg[t.taskID] + 1];
        children := children[dep := Children(children, dep) + [t.taskID]];
      }
    }
    assert t.dependsOn[..|t.dependsOn|] == t.dependsOn;
  }

  /** The graph with only the first tasks' dependencies read. */
  ghost function ReadSoFar(tasks: seq<TaskSpec>, i: nat): (read: Graph)
    requires i <= |tasks|
  {
    if i == 0 then map id | id in GraphOf(tasks) :: []
    else ReadSoFar(tasks, i - 1)[tasks[i - 1].taskID := tasks[i - 1].dependsOn]
  }

  lemma GraphAt(tasks: seq<TaskSpec>, k: nat)
    requires DistinctIds(tasks) && k < |tasks|
    ensures tasks[k].taskID in GraphOf(tasks) && GraphOf(tasks)[tasks[k].taskID] == tasks[k].dependsOn
  {
    ByIdFinds(tasks);
    assert Ids(tasks)[k] == tasks[k].taskID;
  }

  lemma GraphFrom(tasks: seq<TaskSpec>, id: string) returns (k: nat)
    requires id in GraphOf(tasks)
    ensures k < |tasks| && tasks[k].taskID == id
  {
    ByIdFinds(tasks);
    k :| 0 <= k < |tasks| && tasks[k] == ById(tasks)[id];
  }

  lemma {:induction false} ReadKeys(tasks: seq<TaskSpec>, i: nat)
    requires DistinctIds(tasks) && i <= |tasks|
    ensures ReadSoFar(tasks, i).Keys == GraphOf(tasks).Keys
  {
    if i > 0 {
      ReadKeys(tasks, i - 1);
      GraphAt(tasks, i - 1);
    }
  }

  lemma {:induction false} ReadSoFarAt(tasks: seq<TaskSpec>, i: nat, k: nat)
    requires DistinctIds(tasks) && i <= |tasks| && k < |tasks|
    ensures tasks[k].taskID in ReadSoFar(tasks, i)
    ensures ReadSoFar(tasks, i)[tasks[k].taskID] == if k < i then tasks[k].dependsOn else []
  {
    if i == 0 {
      GraphAt(tasks, k);
    } else {
      ReadSoFarAt(tasks, i - 1, k);
      assert k != i - 1 ==> Ids(tasks)[k] != Ids(tasks)[i - 1];
    }
  }

  lemma ReadAll(tasks: seq<TaskSpec>)
    requires DistinctIds(tasks)
    ensures ReadSoFar(tasks, |tasks|) == GraphOf(tasks)
  {
    ReadKeys(tasks, |tasks|);
    forall id | id in GraphOf(tasks) ensures ReadSoFar(tasks, |tasks|)[id] == GraphOf(tasks)[id] {
      var k := GraphFrom(tasks, id);
      ReadSoFarAt(tasks, |tasks|, k);
      GraphAt(tasks, k);
    }
  }

  method CountEdges(tasks: seq<TaskSpec>)
    returns (indeg: map<string, int>, children: map<string, seq<string>>)
    requires DistinctIds(tasks)
    ensures Counted(GraphOf(tasks), indeg, children)
  {
    indeg, children := map id | id in ById(tasks) :: 0, map[];
    for i := 0 to |tasks|
      invariant Counted(ReadSoFar(tasks, i), indeg, children)
    {
      ReadSoFarAt(tasks, i, i);
      indeg, children := CountTask(tasks[i], indeg, children, ReadSoFar(tasks, i));
    }
    ReadAll(tasks);
  }

  // ---- the main loop -----------------------------------------------------------------------

  /** In-degrees and the ready list, after `done` was emitted. */
  ghost predicate Tracks(g: Graph, done: seq<string>, indeg: map<string, int>, ready: seq<string>)
  {
    && indeg.Keys == g.Keys
    && (forall x :: x in Rest(g, done) ==> indeg[x] == Pending(g[x], Rest(g, done)))
    && NoDup(ready) && Elems(ready) == Ready(g, done)
  }

  lemma PendingReady(g: Graph, done: seq<string>, x: string)
    requires x in Rest(g, done)
    ensures Pending(g[x], Rest(g, done)) == 0 <==> x in Ready(g, done)
  {
    PendingZero(g[x], Rest(g, done));
  }

  /** Part way through the children of `id`, which was just emitted. */
  ghost predicate Releasing(g: Graph, done: seq<string>, id: string, kids: seq<string>, j: nat,
                            indeg: map<string, int>, ready: seq<string>)
    requires j <= |kids|
  {
    && indeg.Keys == g.Keys
    && (forall x :: x in Rest(g, done) && x != id ==> indeg[x] == Pending(g[x], Rest(g, done)) - multiset(kids[..j])[x])
    && NoDup(ready)
    && (forall x :: x in ready <==> x in Rest(g, done) && x != id && indeg[x] == 0)
  }

  /** A child still to be visited is waiting, with that many decrements to come. */
  lemma KidsWait(g: Graph, done: seq<string>, id: string, kids: seq<string>, j: nat, x: string)
    requires IsOrder(g, done) && id in Ready(g, done) && j < |kids| && x == kids[j]
    requires forall ch :: multiset(kids)[ch] == Named(g, id, ch)
    ensures x in Rest(g, done) && x != id
    ensures Pending(g[x], Rest(g, done)) - multiset(kids[..j])[x] >= 1
  {
    assert kids == kids[..j] + [kids[j]] + kids[j + 1..];
    assert multiset(kids)[x] >= multiset(kids[..j])[x] + 1;
    assert x in g && id in g[x];
    var i :| 0 <= i < |g[x]| && g[x][i] == id;
    forall k | 0 <= k < |done| ensures done[k] != x { assert UpsIn(g, done[k], done[..k]); }
    PendingDrop(g[x], Rest(g, done), id);
  }

  method Release(kids: seq<string>, indeg0: map<string, int>, ready0: seq<string>, ghost g: Graph, ghost done: seq<string>, ghost id: string)
    returns (indeg: map<string, int>, ready: seq<string>)
    requires IsOrder(g, done) && id in Ready(g, done) && (forall ch :: multiset(kids)[ch] == Named(g, id, ch))
    requires Releasing(g, done, id, kids, 0, indeg0, ready0)
    ensures Releasing(g, done, id, kids, |kids|, indeg, ready)
  {
    indeg, ready := indeg0, ready0;
    for j := 0 to |kids|
      invariant Releasing(g, done, id, kids, j, indeg, ready)
    {
      var ch := kids[j];
      KidsWait(g, done, id, kids, j, ch);
      assert kids[..j + 1] == kids[..j] + [ch];
      indeg := indeg[ch := indeg[ch] - 1];
      if indeg[ch] == 0 {
        ready := ready + [ch];
      }
    }
  }

  lemma ReleaseStarts(g: Graph, done: seq<string>, ready: seq<string>, kids: seq<string>, indeg: map<string, int>)
    requires Tracks(g, done, indeg, ready) && ready != []
    ensures ready[0] in Ready(g, done) && Releasing(g, done, ready[0], kids, 0, indeg, ready[1..])
  {
    assert ready[0] in Elems(ready);
    assert multiset(kids[..0]) == multiset{};
    forall x ensures x in ready[1..] <==> x in Rest(g, done) && x != ready[0] && indeg[x] == 0 {
      TailHolds(ready, x);
      assert x in ready <==> x in Elems(ready);
      if x in Rest(g, done) { PendingReady(g, done, x); }
    }
  }

  lemma TailHolds(s: seq<string>, x: string)
    requires s != [] && NoDup(s)
    ensures x in s[1..] <==> x in s && x != s[0]
    ensures NoDup(s[1..])
  {
    if x in s && x != s[0] {
      var i :| 0 <= i < |s| && s[i] == x;
      assert s[1..][i - 1] == x;
    }
  }

  lemma ReleaseEnds(g: Graph, done: seq<string>, id: string, kids: seq<string>, indeg: map<string, int>, ready: seq<string>)
    requires id in Ready(g, done) && (forall ch :: multiset(kids)[ch] == Named(g, id, ch))
    requires Releasing(g, done, id, kids, |kids|, indeg, ready)
    ensures Tracks(g, done + [id], indeg, ready)
  {
    var more := done + [id];
    assert kids[..|kids|] == kids;
    assert Rest(g, more) == Rest(g, done) - {id} by { assert Elems(more) == Elems(done) + {id}; }
    forall x | x in Rest(g, more) ensures indeg[x] == Pending(g[x], Rest(g, more)) && (x in ready <==> x in Ready(g, more)) {
      PendingDrop(g[x], Rest(g, done), id);
      PendingReady(g, more, x);
    }
    assert Elems(ready) == Ready(g, more);
  }

  lemma {:induction false} NoDupCounts(s: seq<string>)
    ensures NoDup(s) <==> forall x :: x in multiset(s) ==> multiset(s)[x] == 1
  {
    if s != [] {
      var rest := s[1..];
      NoDupCounts(rest);
      assert s == [s[0]] + rest;
      if NoDup(s) {
        forall i | 0 <= i < |rest| ensures rest[i] != s[0] { assert s[i + 1] == rest[i]; }
        assert NoDup(rest) by {
          forall i, j | 0 <= i < j < |rest| ensures rest[i] != rest[j] { assert s[i + 1] == rest[i] && s[j + 1] == rest[j]; }
        }
      } else {
        var i, j :| 0 <= i < j < |s| && s[i] == s[j];
        if i == 0 {
          assert s[j] == rest[j - 1];
          assert s[0] in multiset(rest);
          assert multiset(s)[s[0]] >= 2;
        } else {
          assert s[i] == rest[i - 1] && s[j] == rest[j - 1];
          assert !NoDup(rest);
          var x :| x in multiset(rest) && multiset(rest)[x] != 1;
          assert multiset(s)[x] >= 2;
        }
      }
    }
  }

  lemma SortTracks(g: Graph, done: seq<string>, indeg: map<string, int>, ready: seq<string>)
    requires Tracks(g, done, indeg, ready)
    ensures Tracks(g, done, indeg, Sort(ready)) && Sorted(Sort(ready))
  {
    SortSorts(ready);
    NoDupCounts(ready);
    NoDupCounts(Sort(ready));
    forall x ensures x in Sort(ready) <==> x in ready {
      assert x in multiset(ready) <==> x in multiset(Sort(ready));
    }
  }

  /** The tasks with no known upstream, in declaration order. */
  method Sources(ids: seq<string>, indeg: map<string, int>) returns (ready: seq<string>)
    requires NoDup(ids) && Elems(ids) <= indeg.Keys
    ensures NoDup(ready) && forall x :: x in ready <==> x in ids && indeg[x] == 0
  {
    ready := [];
    for i := 0 to |ids|
      invariant NoDup(ready) && forall x :: x in ready <==> x in ids[..i] && indeg[x] == 0
    {
      assert ids[i] in Elems(ids) && ids[..i + 1] == ids[..i] + [ids[i]];
      if indeg[ids[i]] == 0 { ready := ready + [ids[i]]; }
    }
    assert ids[..|ids|] == ids;
  }

  lemma SourcesTrack(g: Graph, indeg: map<string, int>, ready: seq<string>)
    requires Degrees(g, indeg) && NoDup(ready)
    requires forall x :: x in ready <==> x in g && indeg[x] == 0
    ensures Tracks(g, [], indeg, ready)
  {
    assert Rest(g, []) == g.Keys;
    forall x | x in g ensures x in ready <==> x in Ready(g, []) { PendingReady(g, [], x); }
  }

  /** The head of the sorted ready list is the greedy choice. */
  lemma HeadIsLeast(g: Graph, done: seq<string>, ready: seq<string>)
    requires IsOrder(g, done) && ready != [] && Sorted(ready) && Elems(ready) == Ready(g, done)
    ensures IsLeast(ready[0], Ready(g, done))
    ensures IsOrder(g, done + [ready[0]]) && Greedy(g, done + [ready[0]]) == Greedy(g, done)
    ensures |Rest(g, done + [ready[0]])| < |Rest(g, done)|
  {
    assert ready[0] in Elems(ready);
    forall x | x in Ready(g, done) ensures Le(ready[0], x) {
      var i :| 0 <= i < |ready| && ready[i] == x;
      LeTotal(x, x);
    }
    LeastUnique(ready[0], Ready(g, done));
    GreedyStep(g, done);
  }

  /** The greedy order goes on from `done` to `goal`. */
  ghost predicate Toward(g: Graph, done: seq<string>, goal: seq<string>)
  {
    IsOrder(g, done) && Greedy(g, done) == goal
  }

  lemma HeadToward(g: Graph, done: seq<string>, ready: seq<string>, goal: seq<string>)
    requires Toward(g, done, goal) && ready != [] && Sorted(ready) && Elems(ready) == Ready(g, done)
    ensures ready[0] in Ready(g, done) && Toward(g, done + [ready[0]], goal)
    ensures |Rest(g, done + [ready[0]])| < |Rest(g, done)|
  {
    HeadIsLeast(g, done, ready);
  }

  /** One turn of the main loop: takes the head, lowers the in-degrees below it and sorts what
      is ready then. */
  method Emit(ready0: seq<string>, indeg0: map<string, int>, children: map<string, seq<string>>,
              ghost g: Graph, ghost done: seq<string>)
    returns (id: string, indeg: map<string, int>, ready: seq<string>)
    requires IsOrder(g, done) && Families(g, children) && Tracks(g, done, indeg0, ready0) && ready0 != []
    ensures id == ready0[0] && Tracks(g, done + [id], indeg, ready) && Sorted(ready)
  {
    id := ready0[0];
    ReleaseStarts(g, done, ready0, Children(children, id), indeg0);
    indeg, ready := Release(Children(children, id), indeg0, ready0[1..], g, done, id);
    ReleaseEnds(g, done, id, Children(children, id), indeg, ready);
    SortTracks(g, done + [id], indeg, ready);
    ready := Sort(ready);
  }

  /** Tasks filed under their own ids. */
  predicate Filed(byID: map<string, TaskSpec>)
  {
    forall id :: id in byID ==> byID[id].taskID == id
  }

  /** Every task of `out` is the one filed under its id. */
  predicate FromFile(byID: map<string, TaskSpec>, out: seq<TaskSpec>)
  {
    forall i :: 0 <= i < |out| ==> out[i].taskID in byID && out[i] == byID[out[i].taskID]
  }

  lemma FileAppend(byID: map<string, TaskSpec>, out: seq<TaskSpec>, id: string)
    requires Filed(byID) && FromFile(byID, out) && id in byID
    ensures FromFile(byID, out + [byID[id]]) && Ids(out + [byID[id]]) == Ids(out) + [id]
  {
  }

  /** The main loop emits the greedy order of the graph. */
  method Kahn(byID: map<string, TaskSpec>, indeg0: map<string, int>, children: map<string, seq<string>>, ready0: seq<string>, ghost g: Graph)
    returns (out: seq<TaskSpec>)
    requires Filed(byID) && (forall id :: id in g ==> id in byID)
    requires Families(g, children) && Tracks(g, [], indeg0, ready0) && Sorted(ready0)
    ensures Ids(out) == Greedy(g, []) && FromFile(byID, out)
  {
    var indeg, ready := indeg0, ready0;
    out := [];
    ghost var done, goal := [], Greedy(g, []);
    while |ready| > 0
      invariant Ids(out) == done && FromFile(byID, out)
      invariant Toward(g, done, goal)
      invariant Tracks(g, done, indeg, ready) && Sorted(ready)
      decreases |Rest(g, done)|
    {
      HeadToward(g, done, ready, goal);
      var id;
      id, indeg, ready := Emit(ready, indeg, children, g, done);
      FileAppend(byID, out, id);
      out := out + [byID[id]];
      done := done + [id];
    }
    assert Elems(ready) == {};
  }

  lemma {:induction false} RemainderSplits(ids: seq<string>, i: nat, done: seq<string>)
    requires i < |ids|
    ensures Remainder(ids[..i + 1], done) == Remainder(ids[..i], done) + if ids[i] in done then [] else [ids[i]]
  {
    if i > 0 {
      assert ids[..i + 1][1..] == ids[1..][..i] && ids[..i][1..] == ids[1..][..i - 1];
      RemainderSplits(ids[1..], i - 1, done);
    }
  }

  /** The fallback: what the main loop kept back, in declaration order. */
  method AppendRemainder(ids: seq<string>, byID: map<string, TaskSpec>, sorted: seq<TaskSpec>) returns (out: seq<TaskSpec>)
    requires Filed(byID) && Elems(ids) <= byID.Keys && FromFile(byID, sorted)
    ensures Ids(out) == Ids(sorted) + Remainder(ids, Ids(sorted)) && FromFile(byID, out)
  {
    var seen := Ids(sorted);
    out := sorted;
    for i := 0 to |ids|
      invariant Ids(out) == seen + Remainder(ids[..i], seen) && FromFile(byID, out)
    {
      RemainderSplits(ids, i, seen);
      assert ids[i] in Elems(ids);
      if ids[i] !in seen {
        FileAppend(byID, out, ids[i]);
        out := out + [byID[ids[i]]];
      }
    }
    assert ids[..|ids|] == ids;
  }

  lemma {:induction false} NoDupSize(s: seq<string>)
    requires NoDup(s)
    ensures |Elems(s)| == |s|
  {
    if s != [] {
      var rest, last := s[..|s| - 1], s[|s| - 1];
      NoDupSize(rest);
      assert s == rest + [last] && last !in Elems(rest);
      assert Elems(s) == Elems(rest) + {last};
    }
  }

  lemma SubsetSize(a: set<string>, b: set<string>)
    requires a <= b && |a| >= |b|
    ensures a == b
  {
    if a != b {
      var x :| x in b && x !in a;
      assert |a + {x}| == |a| + 1 && a + {x} <= b;
      CardinalityLe(a + {x}, b);
    }
  }

  lemma {:induction false} CardinalityLe(a: set<string>, b: set<string>)
    requires a <= b
    ensures |a| <= |b|
  {
    if a != {} {
      var x :| x in a;
      CardinalityLe(a - {x}, b - {x});
    }
  }

  lemma {:induction false} RemainderEmpty(ids: seq<string>, done: seq<string>)
    requires forall i :: 0 <= i < |ids| ==> ids[i] in done
    ensures Remainder(ids, done) == []
  {
    if ids != [] { RemainderEmpty(ids[1..], done); }
  }

  /** When the main loop emitted as many tasks as there are, it kept none back. */
  lemma NothingKeptBack(ids: seq<string>, done: seq<string>)
    requires NoDup(ids) && NoDup(done) && Elems(done) <= Elems(ids) && |done| >= |ids|
    ensures Remainder(ids, done) == []
  {
    NoDupSize(ids);
    NoDupSize(done);
    SubsetSize(Elems(done), Elems(ids));
    forall i | 0 <= i < |ids| ensures ids[i] in done { assert ids[i] in Elems(ids); }
    RemainderEmpty(ids, done);
  }

  lemma GreedyWithin(g: Graph)
    ensures NoDup(Greedy(g, [])) && Elems(Greedy(g, [])) <= g.Keys
  {
  }

  lemma FileOfTasks(tasks: seq<TaskSpec>)
    ensures Filed(ById(tasks)) && Elems(Ids(tasks)) == ById(tasks).Keys == GraphOf(tasks).Keys
  {
    ByIdFinds(tasks);
  }

  /** Everything up to the fallback. */
  method KahnPhase(tasks: seq<TaskSpec>, byID: map<string, TaskSpec>) returns (out: seq<TaskSpec>)
    requires DistinctIds(tasks) && byID == ById(tasks)
    ensures Ids(out) == Greedy(GraphOf(tasks), []) && FromFile(byID, out)
  {
    FileOfTasks(tasks);
    ghost var g := GraphOf(tasks);
    var indeg, children := CountEdges(tasks);
    var ready := Sources(Ids(tasks), indeg);
    assert forall x :: x in ready <==> x in g && indeg[x] == 0 by {
      forall x ensures x in Ids(tasks) <==> x in g { assert x in Ids(tasks) <==> x in Elems(Ids(tasks)); }
    }
    SourcesTrack(g, indeg, ready);
    SortTracks(g, [], indeg, ready);
    out := Kahn(byID, indeg, children, Sort(ready), g);
  }

  /** The task specs, each as it was given, in the order of their ids. */
  method TopoSortTasks(tasks: seq<TaskSpec>) returns (out: seq<TaskSpec>)
    requires DistinctIds(tasks)
    ensures Ids(out) == TopoOrder(tasks) && |out| == |tasks|
    ensures forall t :: t in out <==> t in tasks
  {
    FileOfTasks(tasks);
    GreedyWithin(GraphOf(tasks));
    out := KahnPhase(tasks, ById(tasks));
    if |out| < |tasks| {
      out := AppendRemainder(Ids(tasks), ById(tasks), out);
    } else {
      NothingKeptBack(Ids(tasks), Ids(out));
    }
    SpecsPermute(tasks, out);
  }

  lemma SpecsPermute(tasks: seq<TaskSpec>, out: seq<TaskSpec>)
    requires DistinctIds(tasks) && Ids(out) == TopoOrder(tasks) && FromFile(ById(tasks), out)
    ensures |out| == |tasks| && forall t :: t in out <==> t in tasks
  {
    ByIdFinds(tasks);
    OrderPermutes(tasks);
    NoDupSize(Ids(out));
    NoDupSize(Ids(tasks));
    forall i | 0 <= i < |out| ensures out[i] in tasks { assert out[i] == ById(tasks)[out[i].taskID]; }
    forall i | 0 <= i < |tasks| ensures tasks[i] in out {
      assert Ids(tasks)[i] in Elems(Ids(out));
      var k :| 0 <= k < |out| && Ids(out)[k] == tasks[i].taskID;
      assert out[k] == tasks[i];
    }
  }

  // ---- what the order promises -----------------------------------------------------------

  lemma {:induction false} RemainderExact(ids: seq<string>, done: seq<string>)
    ensures forall x :: x in Remainder(ids, done) <==> x in ids && x !in done
    ensures NoDup(ids) ==> NoDup(Remainder(ids, done))
  {
    if ids != [] {
      RemainderExact(ids[1..], done);
      assert ids == [ids[0]] + ids[1..];
      if NoDup(ids) {
        assert forall i :: 0 <= i < |ids| - 1 ==> ids[i + 1] == ids[1..][i];
        assert NoDup(ids[1..]) && ids[0] !in ids[1..];
      }
    }
  }

  /** On every graph the sort returns each task exactly once. */
  lemma OrderPermutes(tasks: seq<TaskSpec>)
    requires DistinctIds(tasks)
    ensures NoDup(TopoOrder(tasks)) && Elems(TopoOrder(tasks)) == Elems(Ids(tasks))
  {
    FileOfTasks(tasks);
    var g, ids := GraphOf(tasks), Ids(tasks);
    var sorted := Greedy(g, []);
    GreedyWithin(g);
    RemainderExact(ids, sorted);
    var rest := Remainder(ids, sorted);
    forall i, j | 0 <= i < |sorted| && 0 <= j < |rest| ensures sorted[i] != rest[j] { assert rest[j] in rest; }
    forall x ensures x in Elems(sorted + rest) <==> x in Elems(ids) {
      assert x in sorted ==> x in Elems(sorted);
    }
  }

  /** On every graph the Kahn phase emits exactly the tasks no cycle reaches, each after all
      its known upstreams, and the rest follow in declaration order. */
  lemma KahnEmitsTheAcyclicPart(tasks: seq<TaskSpec>)
    requires DistinctIds(tasks)
    ensures var g, sorted := GraphOf(tasks), Greedy(GraphOf(tasks), []);
            && IsOrder(g, sorted)
            && (forall id :: id in g ==> (id in sorted <==> !FromCycle(g, id)))
            && TopoOrder(tasks) == sorted + Remainder(Ids(tasks), sorted)
            && (forall id :: id in Remainder(Ids(tasks), sorted) <==> id in g && FromCycle(g, id))
  {
    var g, sorted := GraphOf(tasks), Greedy(GraphOf(tasks), []);
    FileOfTasks(tasks);
    GreedyTasks(g);
    RemainderExact(Ids(tasks), sorted);
    forall id ensures id in Ids(tasks) <==> id in g { assert id in Ids(tasks) <==> id in Elems(Ids(tasks)); }
  }

  /** On an acyclic graph the result is the least of all topological orders of the tasks. */
  lemma AcyclicIsLeast(tasks: seq<TaskSpec>, p: seq<string>)
    requires DistinctIds(tasks) && Acyclic(GraphOf(tasks))
    requires IsOrder(GraphOf(tasks), p) && Elems(p) == Elems(Ids(tasks))
    ensures IsOrder(GraphOf(tasks), TopoOrder(tasks)) && LexLe(TopoOrder(tasks), p)
  {
    AcyclicIsGreedy(tasks);
    OrderPermutes(tasks);
    NoDupSize(p);
    NoDupSize(TopoOrder(tasks));
    GreedyIsLeast(GraphOf(tasks), p);
  }

  /** And the only one that is. */
  lemma OnlyLeast(tasks: seq<TaskSpec>, o: seq<string>)
    requires DistinctIds(tasks) && Acyclic(GraphOf(tasks))
    requires IsOrder(GraphOf(tasks), o) && Elems(o) == Elems(Ids(tasks))
    requires forall p :: IsOrder(GraphOf(tasks), p) && Elems(p) == Elems(Ids(tasks)) ==> LexLe(o, p)
    ensures o == TopoOrder(tasks)
  {
    AcyclicIsLeast(tasks, o);
    OrderPermutes(tasks);
    assert Elems(TopoOrder(tasks)) == Elems(Ids(tasks));
    LexAntisymmetric(o, TopoOrder(tasks));
  }

  lemma AcyclicIsGreedy(tasks: seq<TaskSpec>)
    requires DistinctIds(tasks) && Acyclic(GraphOf(tasks))
    ensures TopoOrder(tasks) == Greedy(GraphOf(tasks), [])
  {
    FileOfTasks(tasks);
    GreedyTasks(GraphOf(tasks));
    forall i | 0 <= i < |tasks| ensures Ids(tasks)[i] in Greedy(GraphOf(tasks), []) {
      assert Ids(tasks)[i] in Elems(Ids(tasks));
    }
    RemainderEmpty(Ids(tasks), Greedy(GraphOf(tasks), []));
  }

  /** Neither the declaration order of an acyclic task set nor the order or repetition of its
      dependencies changes the result. */
  lemma OrderIndependent(tasks: seq<TaskSpec>, other: seq<TaskSpec>)
    requires DistinctIds(tasks) && DistinctIds(other)
    requires SameEdges(GraphOf(tasks), GraphOf(other)) && Acyclic(GraphOf(tasks))
    ensures TopoOrder(tasks) == TopoOrder(other)
  {
    SameAcyclic(GraphOf(tasks), GraphOf(other));
    AcyclicIsGreedy(tasks);
    AcyclicIsGreedy(other);
    SameGreedy(GraphOf(tasks), GraphOf(other), []);
  }

  // ---- the fallback's order ----------------------------------------------------------------

  predicate DeclaredInOrder(ids: seq<string>, done: seq<string>)
  {
    forall i, j :: 0 <= i < j < |ids| && ids[i] !in done && ids[j] !in done ==> Le(ids[i], ids[j])
  }

  lemma SortedCons(x: string, s: seq<string>)
    ensures Sorted([x] + s) <==> Sorted(s) && forall y :: y in s ==> Le(x, y)
  {
    var all := [x] + s;
    assert all[0] == x && forall i :: 1 <= i < |all| ==> all[i] == s[i - 1];
    if Sorted(all) {
      forall y | y in s ensures Le(x, y) {
        var i :| 0 <= i < |s| && s[i] == y;
        assert Le(all[0], all[i + 1]);
      }
      forall i, j | 0 <= i < j < |s| ensures Le(s[i], s[j]) { assert Le(all[i + 1], all[j + 1]); }
    } else {
      var i, j :| 0 <= i < j < |all| && !Le(all[i], all[j]);
      assert all[j] == s[j - 1] && s[j - 1] in s;
      if i > 0 { assert all[i] == s[i - 1] && !Sorted(s); }
    }
  }

  lemma DeclaredCons(x: string, rest: seq<string>, done: seq<string>)
    ensures DeclaredInOrder([x] + rest, done) <==>
            DeclaredInOrder(rest, done) && (x !in done ==> forall y :: y in rest && y !in done ==> Le(x, y))
  {
    var all := [x] + rest;
    assert all[0] == x && forall i :: 1 <= i < |all| ==> all[i] == rest[i - 1];
    if DeclaredInOrder(all, done) {
      forall y | x !in done && y in rest && y !in done ensures Le(x, y) {
        var i :| 0 <= i < |rest| && rest[i] == y;
        assert Le(all[0], all[i + 1]);
      }
      forall i, j | 0 <= i < j < |rest| && rest[i] !in done && rest[j] !in done ensures Le(rest[i], rest[j]) {
        assert Le(all[i + 1], all[j + 1]);
      }
    } else {
      var i, j :| 0 <= i < j < |all| && all[i] !in done && all[j] !in done && !Le(all[i], all[j]);
      assert all[j] == rest[j - 1];
    }
  }

  lemma {:induction false} FilteredSortedIff(ids: seq<string>, done: seq<string>)
    ensures Sorted(Remainder(ids, done)) <==> DeclaredInOrder(ids, done)
  {
    if ids != [] {
      FilteredSortedIff(ids[1..], done);
      RemainderExact(ids[1..], done);
      assert ids == [ids[0]] + ids[1..];
      DeclaredCons(ids[0], ids[1..], done);
      SortedCons(ids[0], Remainder(ids[1..], done));
      if ids[0] in done { assert Remainder(ids, done) == Remainder(ids[1..], done); }
    }
  }

  /** The ids downstream of a cycle appear in id order. */
  ghost predicate CyclicInIdOrder(g: Graph, ids: seq<string>)
  {
    forall i, j :: 0 <= i < j < |ids| && FromCycle(g, ids[i]) && FromCycle(g, ids[j]) ==> Le(ids[i], ids[j])
  }

  /** The order turns at place k from tasks no cycle reaches to tasks one does. */
  ghost predicate TurnsAt(g: Graph, order: seq<string>, k: nat)
  {
    && k <= |order|
    && (forall i :: 0 <= i < k ==> !FromCycle(g, order[i]))
    && (forall i :: k <= i < |order| ==> FromCycle(g, order[i]))
  }

  lemma TurnBetween(g: Graph, sorted: seq<string>, rest: seq<string>)
    requires (forall id :: id in sorted ==> !FromCycle(g, id)) && (forall id :: id in rest ==> FromCycle(g, id))
    ensures TurnsAt(g, sorted + rest, |sorted|)
  {
  }

  lemma OneTurn(g: Graph, order: seq<string>, j: nat, k: nat)
    requires TurnsAt(g, order, j) && TurnsAt(g, order, k)
    ensures j == k
  {
    forall m: nat, n: nat | m < n && TurnsAt(g, order, m) ensures !TurnsAt(g, order, n) {
      if n <= |order| { assert FromCycle(g, order[m]); }
    }
  }

  lemma SameCyclic(g: Graph, ids: seq<string>, done: seq<string>)
    requires forall i :: 0 <= i < |ids| ==> (ids[i] !in done <==> FromCycle(g, ids[i]))
    ensures DeclaredInOrder(ids, done) <==> CyclicInIdOrder(g, ids)
  {
  }

  /** On every graph the result has one place where it turns. */
  lemma TurnOf(tasks: seq<TaskSpec>) returns (k: nat)
    requires DistinctIds(tasks)
    ensures TurnsAt(GraphOf(tasks), TopoOrder(tasks), k)
    ensures TopoOrder(tasks)[k..] == Remainder(Ids(tasks), Greedy(GraphOf(tasks), []))
  {
    KahnEmitsTheAcyclicPart(tasks);
    OrderWithin(GraphOf(tasks), Greedy(GraphOf(tasks), []));
    k := |Greedy(GraphOf(tasks), [])|;
    TurnBetween(GraphOf(tasks), Greedy(GraphOf(tasks), []), Remainder(Ids(tasks), Greedy(GraphOf(tasks), [])));
  }

  lemma OrderWithin(g: Graph, o: seq<string>)
    requires IsOrder(g, o)
    ensures forall id :: id in o ==> id in g
  {
  }

  lemma CyclicKeptBack(tasks: seq<TaskSpec>, i: nat)
    requires DistinctIds(tasks) && i < |Ids(tasks)|
    ensures Ids(tasks)[i] !in Greedy(GraphOf(tasks), []) <==> FromCycle(GraphOf(tasks), Ids(tasks)[i])
  {
    FileOfTasks(tasks);
    GreedyTasks(GraphOf(tasks));
    assert Ids(tasks)[i] in Elems(Ids(tasks));
  }

  /** The cyclic remainder comes out in id order exactly when the tasks downstream of a cycle
      were declared so. */
  lemma RemainderSortedIff(tasks: seq<TaskSpec>, k: nat)
    requires DistinctIds(tasks) && TurnsAt(GraphOf(tasks), TopoOrder(tasks), k)
    ensures Sorted(TopoOrder(tasks)[k..]) <==> CyclicInIdOrder(GraphOf(tasks), Ids(tasks))
  {
    var turn := TurnOf(tasks);
    OneTurn(GraphOf(tasks), TopoOrder(tasks), turn, k);
    FilteredSortedIff(Ids(tasks), Greedy(GraphOf(tasks), []));
    forall i | 0 <= i < |Ids(tasks)|
      ensures Ids(tasks)[i] !in Greedy(GraphOf(tasks), []) <==> FromCycle(GraphOf(tasks), Ids(tasks)[i])
    {
      CyclicKeptBack(tasks, i);
    }
    SameCyclic(GraphOf(tasks), Ids(tasks), Greedy(GraphOf(tasks), []));
  }

  /** Two tasks that depend on themselves, declared b before a, stay that way. */
  lemma RemainderNeedNotBeSorted()
    ensures var tasks := [TaskSpec("b", "", ["b"]), TaskSpec("a", "", ["a"])];
            DistinctIds(tasks) && TopoOrder(tasks) == ["b", "a"] && !Sorted(TopoOrder(tasks))
  {
    var b, a := TaskSpec("b", "", ["b"]), TaskSpec("a", "", ["a"]);
    var tasks := [b, a];
    assert Ids(tasks) == ["b", "a"];
    assert tasks[..1] == [b] && [b][..0] == [];
    assert ById([b]) == map["b" := b];
    assert ById(tasks) == map["b" := b, "a" := a];
    var g := GraphOf(tasks);
    assert g["b"][0] == "b" && g["a"][0] == "a";
    assert Ready(g, []) == {};
    assert Remainder(["a"], []) == ["a"];
    assert ["b", "a"][1..] == ["a"];
  }
}
