/** What every step of the registry system does, written out field by field over its inputs, and
    what that means for the reclaim observer over whole runs. */
module RegistrySteps {
  import opened Wrappers
  import opened Registry
  import opened RegistrySystem

  // ---- single steps -----------------------------------------------------------------------------

  /** The records of the past that a step leaves alone. */
  ghost predicate SameHistory(s: System, t: System)
  {
    t.minted == s.minted && t.gone == s.gone && t.placed == s.placed
  }

  /** Handling a pending event takes it off once, and requeues its attempt exactly when the worker is
      gone or refused: never for an expired lease. Nothing else changes. */
  lemma ObserveStep(s: System, ev: ReclaimEvent)
    requires InBounds(s.reg) && ev in s.pending
    ensures var t := RegistrySystem.Next(s, Observe(ev));
            var q := Requeue(ev.assignmentID, ev.runID, ev.taskID, ev.tryNumber);
            && t.pending[ev] == s.pending[ev] - 1 && (forall x :: x != ev ==> t.pending[x] == s.pending[x])
            && (ev.reason == WorkerGone || ev.reason == Refused ==> t.requeued[q] == s.requeued[q] + 1)
            && (ev.reason == LeaseExpired ==> t.requeued[q] == s.requeued[q])
            && (forall x :: x != q ==> t.requeued[x] == s.requeued[x])
            && t.reg == s.reg && SameHistory(s, t) && t.bindings == s.bindings && t.events == s.events
  {
  }

  lemma ObserveNothing(s: System, ev: ReclaimEvent)
    requires InBounds(s.reg) && ev !in s.pending
    ensures RegistrySystem.Next(s, Observe(ev)) == s
  {
  }

  /** One more event, emitted and not yet handled. */
  ghost predicate Emits(s: System, t: System, ev: ReclaimEvent)
  {
    && t.events == s.events + multiset{ev} && t.pending == s.pending + multiset{ev}
    && t.bindings == s.bindings && t.requeued == s.requeued && SameHistory(s, t)
  }

  /** A started ack makes the worker busy and yields one binding of the lease's attempt to the
      worker's pod, and no event; a refusal yields one event, and no binding. Both settle the lease,
      and an unknown id changes nothing. */
  lemma AckStep(s: System, aid: string, started: bool)
    requires InBounds(s.reg)
    ensures var t := RegistrySystem.Next(s, WorkerAcks(aid, started));
            if aid !in s.reg.leases then t == s
            else
              var l := s.reg.leases[aid];
              var w := s.reg.entries[l.worker];
              && t.reg.leases == s.reg.leases - {aid} && t.reg.workers == s.reg.workers && t.reg.free == s.reg.free
              && if started then
                   && t.reg.entries == s.reg.entries[l.worker := Entry(w.identity, w.dagVersion, w.podName, true, w.send)]
                   && t.bindings == s.bindings + multiset{Bound(aid, WarmBinding(l.runID, l.taskID, l.tryNumber, w.podName))}
                   && t.events == s.events && t.pending == s.pending && t.requeued == s.requeued && SameHistory(s, t)
                 else
                   && t.reg.entries == s.reg.entries
                   && Emits(s, t, ReclaimEvent(aid, l.dagVersion, Refused, l.runID, l.taskID, l.tryNumber))
  {
  }

  /** An expired lease is dropped with one event that says so; a settled id changes nothing. */
  lemma TimerStep(s: System, aid: string)
    requires InBounds(s.reg)
    ensures var t := RegistrySystem.Next(s, LeaseTimer(aid));
            if aid !in s.reg.leases then t == s
            else
              var l := s.reg.leases[aid];
              && t.reg.leases == s.reg.leases - {aid} && t.reg.workers == s.reg.workers && t.reg.entries == s.reg.entries
              && Emits(s, t, ReclaimEvent(aid, l.dagVersion, LeaseExpired, l.runID, l.taskID, l.tryNumber))
  {
  }

  /** The event is that of a lease entry e holds, lost with its worker. */
  predicate LostWith(reg: State, e: EntryId, ev: ReclaimEvent)
  {
    && ev.assignmentID in reg.leases && reg.leases[ev.assignmentID].worker == e
    && var l := reg.leases[ev.assignmentID];
       ev == ReclaimEvent(ev.assignmentID, l.dagVersion, WorkerGone, l.runID, l.taskID, l.tryNumber)
  }

  /** The end of a current entry's stream removes it and all its leases, each with one event; the end
      of any other changes nothing. */
  lemma EndStep(s: System, e: EntryId)
    requires InBounds(s.reg)
    ensures var t := RegistrySystem.Next(s, StreamEnds(e));
            if !Current(s.reg, e) then t == s
            else
              && t.gone == s.gone + {e} && t.minted == s.minted && t.placed == s.placed
              && t.bindings == s.bindings && t.requeued == s.requeued
              && t.reg.entries == s.reg.entries && t.reg.workers == s.reg.workers - {s.reg.entries[e].identity}
              && (forall aid :: aid in t.reg.leases <==> aid in s.reg.leases && s.reg.leases[aid].worker != e)
              && (forall aid :: aid in t.reg.leases ==> t.reg.leases[aid] == s.reg.leases[aid])
              && (forall ev :: t.events[ev] == s.events[ev] + if LostWith(s.reg, e, ev) then 1 else 0)
              && (forall ev :: t.pending[ev] == s.pending[ev] + if LostWith(s.reg, e, ev) then 1 else 0)
  {
    if Current(s.reg, e) { ReclaimsExact(s.reg, e); }
  }

  /** An accepted assignment is in its worker's channel, leased to it and placed on it, all with the
      assignment's own run, task and try; a bounced or unplaceable one changes nothing. */
  lemma PlaceStep(s: System, dagVersion: string, a: WorkAssignment, pick: string)
    requires Consistent(s.reg)
    ensures var t := RegistrySystem.Next(s, Place(dagVersion, a, pick));
            if !Pickable(s.reg, dagVersion, pick) then t == s
            else
              var e := s.reg.free[dagVersion][pick];
              && e < |s.reg.entries|
              && var w := s.reg.entries[e];
                 if w.send.Some? then t == s
                 else
                   && t.reg.entries == s.reg.entries[e := Entry(w.identity, w.dagVersion, w.podName, w.busy, Some(a))]
                   && t.reg.workers == s.reg.workers && !IsFree(t.reg, e)
                   && t.reg.leases == s.reg.leases[a.id := Lease(e, dagVersion, a.runID, a.taskID, a.tryNumber)]
                   && t.placed == s.placed[a.id := Placement(e, dagVersion, a.runID, a.taskID, a.tryNumber, w.podName)]
                   && t.minted == s.minted && t.gone == s.gone && t.bindings == s.bindings
                   && t.events == s.events && t.pending == s.pending && t.requeued == s.requeued
  {
    if Pickable(s.reg, dagVersion, pick) { AssignKeeps(s.reg, dagVersion, a, pick); }
  }

  /** A stream is refused before it registers for each reason with its own code; otherwise it adds the
      entry it asked for, in the pool its token was minted for. */
  lemma ConnectStep(s: System, identity: string, tokenPool: string, first: FirstMessage)
    requires Consistent(s.reg)
    ensures var t, refusal := RegistrySystem.Next(s, Connect(identity, tokenPool, first)), Refusal(tokenPool, first);
            && (refusal == Some(FailedPrecondition) <==> !first.WorkerRegister?)
            && (refusal == Some(InvalidArgument) <==> first.WorkerRegister? && first.dagVersion == "")
            && (refusal == Some(PermissionDenied) <==>
                  first.WorkerRegister? && first.dagVersion != "" && first.dagVersion != tokenPool)
            && if refusal.Some? then t == s
               else
                 && t.reg.entries == s.reg.entries + [Entry(identity, tokenPool, first.podName, false, None)]
                 && t.reg.leases == s.reg.leases && t.minted == s.minted + [tokenPool]
                 && t.gone == s.gone && t.placed == s.placed && t.bindings == s.bindings
                 && t.events == s.events && t.pending == s.pending && t.requeued == s.requeued
  {
    if Refusal(tokenPool, first).None? { RegisterKeeps(s.reg, identity, first.dagVersion, first.podName); }
  }

  /** Taking from a channel empties it, and a slot-free clears its worker's busy flag; neither touches
      anything of the past. */
  lemma QuietStep(s: System, e: EntryId, identity: string)
    requires InBounds(s.reg) && e < |s.reg.entries|
    ensures var t, w := RegistrySystem.Next(s, HandlerTakes(e)), s.reg.entries[e];
            t == s.(reg := State(s.reg.entries[e := Entry(w.identity, w.dagVersion, w.podName, w.busy, None)],
                                 s.reg.workers, s.reg.free, s.reg.leases))
    ensures var t := RegistrySystem.Next(s, WorkerFrees(identity));
            && t == s.(reg := t.reg) && t.reg.workers == s.reg.workers && t.reg.leases == s.reg.leases
            && |t.reg.entries| == |s.reg.entries|
            && forall x: nat :: x < |s.reg.entries| ==>
                 t.reg.entries[x] == if identity in s.reg.workers && s.reg.workers[identity] == x
                                     then s.reg.entries[x].(busy := false) else s.reg.entries[x]
  {
  }

  // ---- the observer over runs ---------------------------------------------------------------------

  /** Once nothing is pending, every assignment has been requeued exactly once if its worker was lost or
      refused it, and not at all otherwise. */
  lemma RequeuedExactly(steps: seq<Step>, aid: string)
    requires FreshIds(steps) && aid in Exec(steps).placed && Exec(steps).pending == multiset{}
    ensures var s := Exec(steps);
            var p := s.placed[aid];
            var lost := ReclaimEvent(aid, p.dagVersion, WorkerGone, p.runID, p.taskID, p.tryNumber);
            var refused := ReclaimEvent(aid, p.dagVersion, Refused, p.runID, p.taskID, p.tryNumber);
            s.requeued[Requeue(aid, p.runID, p.taskID, p.tryNumber)]
            == if lost in s.events || refused in s.events then 1 else 0
  {
    var s := Exec(steps);
    BalanceHolds(steps);
    Settlement(steps);
    assert Open(s.placed[aid], s.pending, s.requeued, aid) == Requeueable(s.placed[aid], s.events, aid);
    assert Places(s.reg.leases, s.bindings, s.events, aid, s.placed[aid]) == 1;
  }

  lemma ExecNext(steps: seq<Step>, step: Step)
    ensures Exec(steps + [step]) == RegistrySystem.Next(Exec(steps), step)
  {
    assert (steps + [step])[..|steps|] == steps;
  }

  /** And every run can be brought there: the observer alone handles all that is pending. */
  lemma {:induction false} CanHandleAll(steps: seq<Step>) returns (more: seq<Step>)
    ensures steps <= more && Exec(more).pending == multiset{} && Exec(more).reg == Exec(steps).reg
    ensures Exec(more).events == Exec(steps).events && Exec(more).placed == Exec(steps).placed
    decreases |Exec(steps).pending|
  {
    var s := Exec(steps);
    if s.pending == multiset{} {
      more := steps;
    } else {
      var ev :| ev in s.pending;
      ObserveStep(s, ev);
      ExecNext(steps, Observe(ev));
      var t := Exec(steps + [Observe(ev)]);
      assert t.pending == s.pending - multiset{ev};
      more := CanHandleAll(steps + [Observe(ev)]);
    }
  }
}
