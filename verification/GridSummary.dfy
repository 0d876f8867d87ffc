/** The grid's per-run, per-task summaries (internal/api/ui_summaries.go,
    aggregateSummaries). Times are integers; the zero time is 0. */
module GridSummary {
  import opened Wrappers

  type Time = int

  datatype TaskInstance = TaskInstance(
    runID: string, taskID: string, tryNumber: int, state: string, startedAt: Option<Time>, endedAt: Option<Time>)

  datatype TaskAgg = TaskAgg(taskID: string, tryMax: int, state: string, minStart: Option<Time>, maxEnd: Option<Time>)

  type ByRun = map<string, map<string, TaskAgg>>

  function Earliest(cur: Option<Time>, candidate: Option<Time>): Option<Time>
  {
    if candidate.None? then cur
    else if cur.None? || candidate.value < cur.value then candidate
    else cur
  }

  function LatestOf(cur: Option<Time>, candidate: Option<Time>): Option<Time>
  {
    if candidate.None? then cur
    else if cur.None? || candidate.value > cur.value then candidate
    else cur
  }

  function MaxTime(cur: Time, candidate: Option<Time>): Time
  {
    if candidate.Some? && candidate.value > cur then candidate.value else cur
  }

  /** One instance folded into its task's aggregate. */
  function Fold(a: TaskAgg, ti: TaskInstance): TaskAgg
  {
    var newer := ti.tryNumber >= a.tryMax;
    TaskAgg(a.taskID, if newer then ti.tryNumber else a.tryMax, if newer then ti.state else a.state,
            Earliest(a.minStart, ti.startedAt), LatestOf(a.maxEnd, ti.endedAt))
  }

  function Fresh(taskID: string): TaskAgg
  {
    TaskAgg(taskID, -1, "", None, None)
  }

  // ---- the group-by specification --------------------------------------------------------------

  predicate Of(ti: TaskInstance, run: string, task: string)
  {
    ti.runID == run && ti.taskID == task
  }

  /** The instances of one task in one run, in input order. */
  function Group(tis: seq<TaskInstance>, run: string, task: string): seq<TaskInstance>
  {
    if tis == [] then []
    else Group(tis[..|tis| - 1], run, task) + if Of(tis[|tis| - 1], run, task) then [tis[|tis| - 1]] else []
  }

  function FoldAll(task: string, group: seq<TaskInstance>): TaskAgg
  {
    if group == [] then Fresh(task) else Fold(FoldAll(task, group[..|group| - 1]), group[|group| - 1])
  }

  /** Exactly the groups that occur are there, each folded in input order, and no empty run. */
  ghost predicate GroupsBy(byRun: ByRun, tis: seq<TaskInstance>)
  {
    && NoEmptyRun(byRun)
    && (forall run, task :: Has(byRun, run, task) <==> Group(tis, run, task) != [])
    && (forall run, task :: Has(byRun, run, task) ==> byRun[run][task] == FoldAll(task, Group(tis, run, task)))
  }

  predicate NoEmptyRun(byRun: ByRun)
  {
    forall run :: run in byRun ==> byRun[run] != map[]
  }

  predicate Has(byRun: ByRun, run: string, task: string)
  {
    run in byRun && task in byRun[run]
  }

  function Latest(tis: seq<TaskInstance>): Time
  {
    if tis == [] then 0
    else MaxTime(MaxTime(Latest(tis[..|tis| - 1]), tis[|tis| - 1].startedAt), tis[|tis| - 1].endedAt)
  }

  /** The maps with one more instance folded into its run and task. */
  function WithInstance(byRun: ByRun, ti: TaskInstance): ByRun
  {
    var tasks := if ti.runID in byRun then byRun[ti.runID] else map[];
    var agg := if ti.taskID in tasks then tasks[ti.taskID] else Fresh(ti.taskID);
    byRun[ti.runID := tasks[ti.taskID := Fold(agg, ti)]]
  }

  lemma GroupsGrow(byRun: ByRun, tis: seq<TaskInstance>, ti: TaskInstance, after: ByRun)
    requires GroupsBy(byRun, tis) && after == WithInstance(byRun, ti)
    ensures GroupsBy(after, tis + [ti])
  {
    var more := tis + [ti];
    assert more[..|more| - 1] == tis;
    assert ti.taskID in after[ti.runID];
    forall run, task
      ensures Has(after, run, task) <==> Group(more, run, task) != []
      ensures Has(after, run, task) ==> after[run][task] == FoldAll(task, Group(more, run, task))
    {
      var group := Group(tis, run, task);
      assert Has(byRun, run, task) <==> group != [];
      if Of(ti, run, task) {
        assert Group(more, run, task) == group + [ti];
        assert (group + [ti])[..|group|] == group;
      } else {
        assert Group(more, run, task) == group;
      }
    }
  }

  lemma LatestGrows(tis: seq<TaskInstance>, ti: TaskInstance)
    ensures Latest(tis + [ti]) == MaxTime(MaxTime(Latest(tis), ti.startedAt), ti.endedAt)
  {
    assert (tis + [ti])[..|tis|] == tis;
  }

  /** The body of the loop: one instance updates its aggregate in place. */
  method AddInstance(byRun: ByRun, ti: TaskInstance) returns (after: ByRun)
    ensures after == WithInstance(byRun, ti)
  {
    var tasks := if ti.runID in byRun then byRun[ti.runID] else map[];
    var a := if ti.taskID in tasks then tasks[ti.taskID] else Fresh(ti.taskID);
    if ti.tryNumber >= a.tryMax { a := a.(tryMax := ti.tryNumber, state := ti.state); }
    a := a.(minStart := Earliest(a.minStart, ti.startedAt));
    a := a.(maxEnd := LatestOf(a.maxEnd, ti.endedAt));
    after := byRun[ti.runID := tasks[ti.taskID := a]];
  }

  /** One pass over the instances. */
  method AggregateSummaries(tis: seq<TaskInstance>) returns (byRun: ByRun, latest: Time, count: nat)
    ensures GroupsBy(byRun, tis) && latest == Latest(tis) && count == |tis|
  {
    byRun, latest, count := map[], 0, |tis|;
    for i := 0 to |tis|
      invariant GroupsBy(byRun, tis[..i]) && latest == Latest(tis[..i])
    {
      var ti := tis[i];
      assert tis[..i + 1] == tis[..i] + [ti];
      GroupsGrow(byRun, tis[..i], ti, WithInstance(byRun, ti));
      byRun := AddInstance(byRun, ti);
      LatestGrows(tis[..i], ti);
      latest := MaxTime(MaxTime(latest, ti.startedAt), ti.endedAt);
    }
    assert tis[..|tis|] == tis;
  }

  // ---- what a folded group is --------------------------------------------------------------------

  /** The highest try decides: its number, and the state of the last instance that has it. */
  ghost predicate IsLatestTry(a: TaskAgg, group: seq<TaskInstance>)
  {
    && (forall i :: 0 <= i < |group| ==> group[i].tryNumber <= a.tryMax)
    && ((a.tryMax == -1 && a.state == "" && forall i :: 0 <= i < |group| ==> group[i].tryNumber < -1)
        || exists i :: DecidedBy(a, group, i))
  }

  predicate DecidedBy(a: TaskAgg, group: seq<TaskInstance>, i: int)
  {
    && 0 <= i < |group| && group[i].tryNumber == a.tryMax && group[i].state == a.state
    && forall j :: i < j < |group| ==> group[j].tryNumber != a.tryMax
  }

  ghost predicate IsLeastStart(t: Option<Time>, group: seq<TaskInstance>)
  {
    && (t.Some? ==> exists i :: 0 <= i < |group| && group[i].startedAt == t)
    && (forall i :: 0 <= i < |group| && group[i].startedAt.Some? ==> t.Some? && t.value <= group[i].startedAt.value)
  }

  ghost predicate IsGreatestEnd(t: Option<Time>, group: seq<TaskInstance>)
  {
    && (t.Some? ==> exists i :: 0 <= i < |group| && group[i].endedAt == t)
    && (forall i :: 0 <= i < |group| && group[i].endedAt.Some? ==> t.Some? && t.value >= group[i].endedAt.value)
  }

  ghost predicate Summarizes(a: TaskAgg, task: string, group: seq<TaskInstance>)
  {
    a.taskID == task && IsLatestTry(a, group) && IsLeastStart(a.minStart, group) && IsGreatestEnd(a.maxEnd, group)
  }

  lemma TryStep(a: TaskAgg, group: seq<TaskInstance>, ti: TaskInstance)
    requires IsLatestTry(a, group) && a.tryMax >= -1
    ensures IsLatestTry(Fold(a, ti), group + [ti]) && Fold(a, ti).tryMax >= -1
  {
    var more := group + [ti];
    if ti.tryNumber >= a.tryMax {
      assert DecidedBy(Fold(a, ti), more, |group|);
    } else if exists i :: DecidedBy(a, group, i) {
      var i :| DecidedBy(a, group, i);
      assert DecidedBy(Fold(a, ti), more, i);
    }
  }

  lemma StartStep(t: Option<Time>, group: seq<TaskInstance>, ti: TaskInstance)
    requires IsLeastStart(t, group)
    ensures IsLeastStart(Earliest(t, ti.startedAt), group + [ti])
  {
    var more := group + [ti];
    assert more[|group|] == ti;
    if t.Some? {
      var i :| 0 <= i < |group| && group[i].startedAt == t;
      assert more[i].startedAt == t;
    }
  }

  lemma EndStep(t: Option<Time>, group: seq<TaskInstance>, ti: TaskInstance)
    requires IsGreatestEnd(t, group)
    ensures IsGreatestEnd(LatestOf(t, ti.endedAt), group + [ti])
  {
    var more := group + [ti];
    assert more[|group|] == ti;
    if t.Some? {
      var i :| 0 <= i < |group| && group[i].endedAt == t;
      assert more[i].endedAt == t;
    }
  }

  /** A folded group has the state of its highest try, its least start and its greatest end. */
  lemma {:induction false} FoldSummarizes(task: string, group: seq<TaskInstance>)
    ensures Summarizes(FoldAll(task, group), task, group) && FoldAll(task, group).tryMax >= -1
  {
    if group != [] {
      var before, ti := group[..|group| - 1], group[|group| - 1];
      FoldSummarizes(task, before);
      assert group == before + [ti];
      var a := FoldAll(task, before);
      TryStep(a, before, ti);
      StartStep(a.minStart, before, ti);
      EndStep(a.maxEnd, before, ti);
    }
  }

  // ---- independence of the input order -------------------------------------------------------------

  /** One instance per try, and no try number below zero. */
  predicate DistinctTries(group: seq<TaskInstance>)
  {
    && (forall i :: 0 <= i < |group| ==> group[i].tryNumber >= 0)
    && (forall i, j :: 0 <= i < j < |group| ==> group[i].tryNumber != group[j].tryNumber)
  }

  lemma SameElement(a: seq<TaskInstance>, b: seq<TaskInstance>, i: nat) returns (j: nat)
    requires multiset(a) == multiset(b) && i < |a|
    ensures j < |b| && b[j] == a[i]
  {
    assert a[i] in multiset(a);
    assert a[i] in multiset(b);
    j :| 0 <= j < |b| && b[j] == a[i];
  }

  /** Half of uniqueness: what summarizes one arrangement is bounded by the other's. */
  lemma SummaryLe(a: TaskAgg, x: seq<TaskInstance>, b: TaskAgg, y: seq<TaskInstance>, task: string)
    requires Summarizes(a, task, x) && Summarizes(b, task, y) && multiset(x) == multiset(y)
    ensures a.minStart.Some? ==> b.minStart.Some? && b.minStart.value <= a.minStart.value
    ensures a.maxEnd.Some? ==> b.maxEnd.Some? && b.maxEnd.value >= a.maxEnd.value
    ensures (exists i :: DecidedBy(a, x, i)) ==> a.tryMax <= b.tryMax
  {
    if a.minStart.Some? {
      var i :| 0 <= i < |x| && x[i].startedAt == a.minStart;
      var j := SameElement(x, y, i);
    }
    if a.maxEnd.Some? {
      var i :| 0 <= i < |x| && x[i].endedAt == a.maxEnd;
      var j := SameElement(x, y, i);
    }
    if exists i :: DecidedBy(a, x, i) {
      var i :| DecidedBy(a, x, i);
      var j := SameElement(x, y, i);
    }
  }

  /** With distinct non-negative tries a summary does not depend on the arrangement. */
  lemma SummaryUnique(a: TaskAgg, x: seq<TaskInstance>, b: TaskAgg, y: seq<TaskInstance>, task: string)
    requires Summarizes(a, task, x) && Summarizes(b, task, y) && multiset(x) == multiset(y)
    requires DistinctTries(x) && DistinctTries(y) && x != []
    ensures a == b
  {
    SummaryLe(a, x, b, y, task);
    SummaryLe(b, y, a, x, task);
    var j := SameElement(x, y, 0);
    assert x[0].tryNumber >= 0;
    var i :| DecidedBy(a, x, i);
    var k :| DecidedBy(b, y, k);
    var m := SameElement(x, y, i);
  }

  lemma {:induction false} GroupMultiset(x: seq<TaskInstance>, run: string, task: string, ti: TaskInstance)
    ensures multiset(Group(x, run, task))[ti] == if Of(ti, run, task) then multiset(x)[ti] else 0
  {
    if x != [] {
      GroupMultiset(x[..|x| - 1], run, task, ti);
      assert x == x[..|x| - 1] + [x[|x| - 1]];
    }
  }

  /** At most one instance per run, task and try, and no try number below zero. */
  ghost predicate OneInstancePerTry(all: multiset<TaskInstance>)
  {
    && (forall a :: a in all ==> all[a] == 1 && a.tryNumber >= 0)
    && (forall a, b :: a in all && b in all && Of(a, b.runID, b.taskID) && a.tryNumber == b.tryNumber ==> a == b)
  }

  lemma TwoPlaces(s: seq<TaskInstance>, i: nat, j: nat)
    requires i < j < |s| && s[i] == s[j]
    ensures multiset(s)[s[i]] >= 2
  {
    assert s == s[..j] + s[j..];
    assert s[i] in multiset(s[..j]) && s[j..][0] == s[j];
  }

  lemma GroupTries(x: seq<TaskInstance>, run: string, task: string)
    requires OneInstancePerTry(multiset(x))
    ensures DistinctTries(Group(x, run, task))
  {
    var g := Group(x, run, task);
    forall i | 0 <= i < |g| ensures g[i] in multiset(x) && Of(g[i], run, task) && multiset(g)[g[i]] == 1 {
      assert g[i] in multiset(g);
      GroupMultiset(x, run, task, g[i]);
    }
    forall i, j | 0 <= i < j < |g| ensures g[i].tryNumber != g[j].tryNumber {
      if g[i] == g[j] { TwoPlaces(g, i, j); }
    }
  }

  /** With distinct non-negative try numbers per run and task, the aggregation of every
      permutation of the input is the same. */
  lemma OrderDoesNotMatter(x: seq<TaskInstance>, y: seq<TaskInstance>, run: string, task: string)
    requires multiset(x) == multiset(y) && OneInstancePerTry(multiset(x))
    ensures FoldAll(task, Group(x, run, task)) == FoldAll(task, Group(y, run, task))
    ensures Group(x, run, task) == [] <==> Group(y, run, task) == []
  {
    var gx, gy := Group(x, run, task), Group(y, run, task);
    forall ti ensures multiset(gx)[ti] == multiset(gy)[ti] {
      GroupMultiset(x, run, task, ti);
      GroupMultiset(y, run, task, ti);
    }
    assert multiset(gx) == multiset(gy);
    assert |gx| == |multiset(gx)| == |gy|;
    FoldSummarizes(task, gx);
    FoldSummarizes(task, gy);
    GroupTries(x, run, task);
    GroupTries(y, run, task);
    if gx != [] { SummaryUnique(FoldAll(task, gx), gx, FoldAll(task, gy), gy, task); }
  }

  /** The greatest timestamp of all, or the zero time when none is later. */
  lemma {:induction false} LatestIsGreatest(tis: seq<TaskInstance>)
    ensures Latest(tis) >= 0
    ensures forall i :: 0 <= i < |tis| ==>
              (tis[i].startedAt.Some? ==> tis[i].startedAt.value <= Latest(tis)) && (tis[i].endedAt.Some? ==> tis[i].endedAt.value <= Latest(tis))
    ensures Latest(tis) > 0 ==> exists i :: 0 <= i < |tis| && (tis[i].startedAt == Some(Latest(tis)) || tis[i].endedAt == Some(Latest(tis)))
  {
    if tis != [] {
      var before := tis[..|tis| - 1];
      LatestIsGreatest(before);
      assert forall i :: 0 <= i < |before| ==> before[i] == tis[i];
      if Latest(tis) == Latest(before) && Latest(tis) > 0 {
        var i :| 0 <= i < |before| && (before[i].startedAt == Some(Latest(before)) || before[i].endedAt == Some(Latest(before)));
        assert tis[i] == before[i];
      } else if Latest(tis) > 0 {
        assert tis[|tis| - 1].startedAt == Some(Latest(tis)) || tis[|tis| - 1].endedAt == Some(Latest(tis));
      }
    }
  }

  ghost predicate Included(a: ByRun, b: ByRun)
  {
    forall run, task :: Has(a, run, task) ==> Has(b, run, task) && a[run][task] == b[run][task]
  }

  lemma RunIncluded(a: ByRun, b: ByRun, run: string)
    requires NoEmptyRun(a) && Included(a, b) && run in a
    ensures run in b && forall task :: task in a[run] ==> task in b[run] && a[run][task] == b[run][task]
  {
    assert exists task :: task in a[run];
    forall task | task in a[run] ensures Has(b, run, task) && a[run][task] == b[run][task] { assert Has(a, run, task); }
  }

  lemma EachOther(a: ByRun, b: ByRun)
    requires NoEmptyRun(a) && NoEmptyRun(b) && Included(a, b) && Included(b, a)
    ensures a == b
  {
    forall run | run in b ensures run in a { RunIncluded(b, a, run); }
    forall run | run in a ensures run in b && a[run] == b[run] {
      RunIncluded(a, b, run);
      RunIncluded(b, a, run);
    }
  }

  lemma SummariesIncluded(x: seq<TaskInstance>, y: seq<TaskInstance>, a: ByRun, b: ByRun)
    requires multiset(x) == multiset(y) && OneInstancePerTry(multiset(x))
    requires GroupsBy(a, x) && GroupsBy(b, y)
    ensures Included(a, b)
  {
    forall run, task | Has(a, run, task) ensures Has(b, run, task) && a[run][task] == b[run][task] {
      OrderDoesNotMatter(x, y, run, task);
    }
  }

  /** So two runs of the aggregation over the same instances return the same maps and time. */
  lemma SameSummaries(x: seq<TaskInstance>, y: seq<TaskInstance>, a: ByRun, b: ByRun)
    requires multiset(x) == multiset(y) && OneInstancePerTry(multiset(x))
    requires GroupsBy(a, x) && GroupsBy(b, y)
    ensures a == b && Latest(x) == Latest(y)
  {
    SummariesIncluded(x, y, a, b);
    SummariesIncluded(y, x, b, a);
    EachOther(a, b);
    LatestLe(x, y);
    LatestLe(y, x);
  }

  lemma LatestLe(x: seq<TaskInstance>, y: seq<TaskInstance>)
    requires multiset(x) == multiset(y)
    ensures Latest(x) <= Latest(y)
  {
    LatestIsGreatest(x);
    LatestIsGreatest(y);
    if Latest(x) > 0 {
      var i :| 0 <= i < |x| && (x[i].startedAt == Some(Latest(x)) || x[i].endedAt == Some(Latest(x)));
      var j := SameElement(x, y, i);
    }
  }
}
