/** The task graph of a DAG spec: ids with their declared dependencies. A dependency may
    repeat, name its own task, or name no task at all; an unknown one is no edge. */
module TaskGraph {
  import opened StringOrder

  /** Each task id with its depends_on list. */
  type Graph = map<string, seq<string>>

  predicate Edge(g: Graph, up: string, down: string)
  {
    up in g && down in g && up in g[down]
  }

  // ---- paths and cycles --------------------------------------------------------------

  predicate IsPath(g: Graph, p: seq<string>)
  {
    |p| >= 1 && p[0] in g && forall i :: 0 <= i < |p| - 1 ==> Edge(g, p[i], p[i + 1])
  }

  predicate Connects(g: Graph, p: seq<string>, u: string, v: string)
  {
    IsPath(g, p) && p[0] == u && p[|p| - 1] == v
  }

  /** v is u or depends on it, directly or not. */
  ghost predicate Reaches(g: Graph, u: string, v: string)
  {
    exists p :: Connects(g, p, u, v)
  }

  ghost predicate OnCycle(g: Graph, u: string)
  {
    exists p :: Connects(g, p, u, u) && |p| >= 2
  }

  ghost predicate FromCycle(g: Graph, v: string)
  {
    exists u :: OnCycle(g, u) && Reaches(g, u, v)
  }

  ghost predicate Acyclic(g: Graph)
  {
    forall u :: !OnCycle(g, u)
  }

  // ---- orders ------------------------------------------------------------------------

  predicate NoDup(s: seq<string>)
  {
    forall i, j :: 0 <= i < j < |s| ==> s[i] != s[j]
  }

  /** Every known upstream of v is in `done`. */
  predicate UpsIn(g: Graph, v: string, done: seq<string>)
    requires v in g
  {
    forall i :: 0 <= i < |g[v]| && g[v][i] in g ==> g[v][i] in done
  }

  /** Some tasks, each once and each after all its known upstreams. */
  ghost predicate IsOrder(g: Graph, o: seq<string>)
  {
    NoDup(o) && forall k :: 0 <= k < |o| ==> o[k] in g && UpsIn(g, o[k], o[..k])
  }

  /** Tasks that could come next. */
  ghost function Ready(g: Graph, done: seq<string>): set<string>
  {
    set v | v in g && v !in done && UpsIn(g, v, done)
  }

  ghost predicate LexLe(a: seq<string>, b: seq<string>)
  {
    a == b || exists i :: 0 <= i < |a| && i < |b| && a[..i] == b[..i] && Lt(a[i], b[i])
  }

  /** No two lists come before each other, so a least one is the only one. */
  lemma LexAntisymmetric(a: seq<string>, b: seq<string>)
    requires LexLe(a, b) && LexLe(b, a)
    ensures a == b
  {
    if a != b {
      var i :| 0 <= i < |a| && i < |b| && a[..i] == b[..i] && Lt(a[i], b[i]);
      var j :| 0 <= j < |b| && j < |a| && b[..j] == a[..j] && Lt(b[j], a[j]);
      LtIs(a[i], b[i]);
    }
  }

  lemma OrderExtends(g: Graph, o: seq<string>, v: string)
    requires IsOrder(g, o) && v in Ready(g, o)
    ensures IsOrder(g, o + [v])
  {
    var more := o + [v];
    forall k | 0 <= k < |more| ensures more[k] in g && UpsIn(g, more[k], more[..k]) {
      assert more[..k] == o[..k];
      if k == |o| { assert o[..k] == o; }
    }
  }

  /** Along a path into an order, one only moves to earlier places. */
  lemma {:induction false} PathGoesBack(g: Graph, o: seq<string>, p: seq<string>, k: nat) returns (j: nat)
    requires IsOrder(g, o) && IsPath(g, p) && k < |o| && p[|p| - 1] == o[k]
    ensures j <= k && o[j] == p[0] && (|p| >= 2 ==> j < k)
  {
    if |p| == 1 {
      j := k;
    } else {
      var u := p[|p| - 2];
      assert Edge(g, u, p[|p| - 1]) && UpsIn(g, o[k], o[..k]);
      var i :| 0 <= i < |g[o[k]]| && g[o[k]][i] == u;
      assert u in o[..k];
      var m :| 0 <= m < k && o[m] == u;
      j := PathGoesBack(g, o, p[..|p| - 1], m);
    }
  }

  /** Nothing in an order lies downstream of a cycle. */
  lemma OrderAvoidsCycles(g: Graph, o: seq<string>, v: string)
    requires IsOrder(g, o) && v in o
    ensures !FromCycle(g, v)
  {
    var k :| 0 <= k < |o| && o[k] == v;
    forall u, p, q | Connects(g, p, u, u) && |p| >= 2 && Connects(g, q, u, v) ensures false {
      var j := PathGoesBack(g, o, q, k);
      var i := PathGoesBack(g, o, p, j);
    }
  }

  ghost function Elems(s: seq<string>): set<string>
  {
    set x | x in s
  }

  /** The tasks not yet among `done`. */
  ghost function Rest(g: Graph, done: seq<string>): set<string>
  {
    g.Keys - Elems(done)
  }

  lemma RestShrinks(g: Graph, done: seq<string>, v: string)
    requires v in Rest(g, done)
    ensures |Rest(g, done + [v])| < |Rest(g, done)| && |Rest(g, [v] + done)| < |Rest(g, done)|
    ensures Elems([v] + done) == Elems(done) + {v}
  {
    assert Elems(done + [v]) == Elems(done) + {v} && Elems([v] + done) == Elems(done) + {v};
    assert Rest(g, done + [v]) == Rest(g, done) - {v} && Rest(g, [v] + done) == Rest(g, done) - {v};
  }

  lemma PathPrepend(g: Graph, u: string, p: seq<string>)
    requires IsPath(g, p) && Edge(g, u, p[0])
    ensures IsPath(g, [u] + p)
  {
    var longer := [u] + p;
    forall m | 0 <= m < |longer| - 1 ensures Edge(g, longer[m], longer[m + 1]) {
      if m > 0 { assert Edge(g, p[m - 1], p[m]); }
    }
  }

  lemma WaitsFor(g: Graph, done: seq<string>, v: string) returns (u: string)
    requires Ready(g, done) == {} && v in Rest(g, done)
    ensures u in Rest(g, done) && Edge(g, u, v)
  {
    assert v !in Ready(g, done);
    var i :| 0 <= i < |g[v]| && g[v][i] in g && g[v][i] !in done;
    u := g[v][i];
  }

  lemma ClosesLoop(g: Graph, p: seq<string>, j: nat)
    requires IsPath(g, p) && 0 < j < |p| && p[j] == p[0]
    ensures Connects(g, p[..j + 1], p[0], p[0])
  {
    var loop := p[..j + 1];
    forall m | 0 <= m < |loop| - 1 ensures Edge(g, loop[m], loop[m + 1]) {
      assert Edge(g, p[m], p[m + 1]);
    }
  }

  /** A task that waits for another waiting one, which waits for another, finds a cycle and
      a way back from it. */
  lemma {:induction false} WaitingFindsCycle(g: Graph, done: seq<string>, p: seq<string>)
    returns (u: string, loop: seq<string>, way: seq<string>)
    requires Ready(g, done) == {} && IsPath(g, p) && Elems(p) <= Rest(g, done)
    ensures Connects(g, loop, u, u) && |loop| >= 2 && Connects(g, way, u, p[|p| - 1])
    decreases |Rest(g, p)|
  {
    assert p[0] in Elems(p);
    u := WaitsFor(g, done, p[0]);
    way := [u] + p;
    assert IsPath(g, way) by { PathPrepend(g, u, p); }
    assert way[|way| - 1] == p[|p| - 1];
    if u in p {
      var j :| 0 <= j < |p| && p[j] == u;
      loop := way[..j + 2];
      ClosesLoop(g, way, j + 1);
    } else {
      RestShrinks(g, p, u);
      u, loop, way := WaitingFindsCycle(g, done, way);
    }
  }

  /** An order that nothing can extend holds exactly the tasks no cycle reaches. */
  lemma FullOrder(g: Graph, o: seq<string>, v: string)
    requires IsOrder(g, o) && Ready(g, o) == {} && v in g
    ensures v in o <==> !FromCycle(g, v)
  {
    if v in o {
      OrderAvoidsCycles(g, o, v);
    } else {
      assert Elems([v]) == {v};
      var u, loop, way := WaitingFindsCycle(g, o, [v]);
      assert OnCycle(g, u) && Reaches(g, u, v);
    }
  }

  // ---- the greedy order --------------------------------------------------------------

  ghost function Greedy(g: Graph, done: seq<string>): (o: seq<string>)
    requires IsOrder(g, done)
    ensures IsOrder(g, o) && done <= o && Ready(g, o) == {}
    decreases |Rest(g, done)|
  {
    if Ready(g, done) == {} then done
    else
      var v := Least(Ready(g, done));
      OrderExtends(g, done, v);
      RestShrinks(g, done, v);
      Greedy(g, done + [v])
  }

  lemma GreedyStep(g: Graph, done: seq<string>)
    requires IsOrder(g, done) && Ready(g, done) != {}
    ensures var more := done + [Least(Ready(g, done))];
            IsOrder(g, more) && Greedy(g, done) == Greedy(g, more) && |Rest(g, more)| < |Rest(g, done)|
  {
    var v := Least(Ready(g, done));
    OrderExtends(g, done, v);
    RestShrinks(g, done, v);
  }

  lemma StartsWith(s: seq<string>, done: seq<string>, v: string)
    requires done + [v] <= s
    ensures s[|done|] == v && s[..|done|] == done
  {
    assert s[|done|] == (done + [v])[|done|];
  }

  /** Wherever the greedy order stands, its next task is the least that could come next. */
  lemma {:induction false} GreedyTakesLeast(g: Graph, done: seq<string>, k: nat)
    requires IsOrder(g, done) && |done| <= k < |Greedy(g, done)|
    ensures IsLeast(Greedy(g, done)[k], Ready(g, Greedy(g, done)[..k]))
    decreases |Rest(g, done)|
  {
    assert Ready(g, done) != {};
    var v := Least(Ready(g, done));
    GreedyStep(g, done);
    if k == |done| {
      StartsWith(Greedy(g, done), done, v);
    } else {
      GreedyTakesLeast(g, done + [v], k);
    }
  }

  /** The first place where two sequences part. */
  lemma {:induction false} FirstDifference(a: seq<string>, b: seq<string>) returns (i: nat)
    ensures i <= |a| && i <= |b| && a[..i] == b[..i]
    ensures i < |a| && i < |b| ==> a[i] != b[i]
    ensures i == |a| || i == |b| || a[i] != b[i]
  {
    i := 0;
    while i < |a| && i < |b| && a[i] == b[i]
      invariant i <= |a| && i <= |b| && a[..i] == b[..i]
    {
      i := i + 1;
    }
  }

  /** The greedy order is the least of all orders of the same tasks. */
  lemma GreedyIsLeast(g: Graph, p: seq<string>)
    requires IsOrder(g, p) && |p| == |Greedy(g, [])|
    ensures LexLe(Greedy(g, []), p)
  {
    var o := Greedy(g, []);
    var i := FirstDifference(o, p);
    if i < |o| {
      assert p[i] in Ready(g, p[..i]);
      GreedyTakesLeast(g, [], i);
    } else {
      assert o[..i] == o && p[..i] == p;
    }
  }

  /** The greedy order holds exactly the tasks no cycle reaches. */
  lemma GreedyTasks(g: Graph)
    ensures forall v :: v in g ==> (v in Greedy(g, []) <==> !FromCycle(g, v))
    ensures Acyclic(g) ==> Elems(Greedy(g, [])) == g.Keys
  {
    var o := Greedy(g, []);
    forall v | v in g ensures v in o <==> !FromCycle(g, v) { FullOrder(g, o, v); }
  }

  // ---- what an order depends on --------------------------------------------------------

  /** The same tasks and edges, however the dependencies are listed. */
  ghost predicate SameEdges(g: Graph, h: Graph)
  {
    g.Keys == h.Keys && forall u, v :: Edge(g, u, v) <==> Edge(h, u, v)
  }

  lemma SameAcyclic(g: Graph, h: Graph)
    requires SameEdges(g, h) && Acyclic(g)
    ensures Acyclic(h)
  {
    forall u ensures OnCycle(h, u) ==> OnCycle(g, u) {
      if p :| Connects(h, p, u, u) && |p| >= 2 { assert Connects(g, p, u, u); }
    }
  }

  lemma SameReady(g: Graph, h: Graph, done: seq<string>)
    requires SameEdges(g, h)
    ensures Ready(g, done) == Ready(h, done)
  {
    forall v | v in g ensures UpsIn(g, v, done) <==> UpsIn(h, v, done) {
      forall i | 0 <= i < |g[v]| && g[v][i] in g && UpsIn(h, v, done) ensures g[v][i] in done {
        assert Edge(h, g[v][i], v);
      }
      forall i | 0 <= i < |h[v]| && h[v][i] in h && UpsIn(g, v, done) ensures h[v][i] in done {
        assert Edge(g, h[v][i], v);
      }
    }
  }

  lemma {:induction false} SameGreedy(g: Graph, h: Graph, done: seq<string>)
    requires SameEdges(g, h) && IsOrder(g, done) && IsOrder(h, done)
    ensures Greedy(g, done) == Greedy(h, done)
    decreases |Rest(g, done)|
  {
    SameReady(g, h, done);
    if Ready(g, done) != {} {
      GreedyStep(g, done);
      GreedyStep(h, done);
      SameGreedy(g, h, done + [Least(Ready(g, done))]);
    }
  }
}
