/** The registry driven by everything that can call it, in any order and with any
    arguments: streams that connect and end, a placer, handlers draining channels,
    acks, slot-free signals, lease timers that may fire long after they were
    stopped, and the reclaim observer (cmd/dexaflow-server/main.go, handleReclaim).

    The only assumption on a run is that the placer never reuses an assignment id
    (internal/dispatch/dispatch.go mints a new UUID for each). */
module RegistrySystem {
  import opened Wrappers
  import opened Registry

  /** The first message a worker sends on its stream. */
  datatype FirstMessage = WorkerRegister(dagVersion: string, podName: string) | OtherMessage | StreamClosed

  datatype StatusCode = FailedPrecondition | InvalidArgument | PermissionDenied

  /** Why registerFromStream refuses a stream, if it does. */
  function Refusal(tokenPool: string, first: FirstMessage): Option<StatusCode>
  {
    match first
    case StreamClosed => Some(FailedPrecondition)
    case OtherMessage => Some(FailedPrecondition)
    case WorkerRegister(dagVersion, _) =>
      if dagVersion == "" then Some(InvalidArgument)
      else if dagVersion != tokenPool then Some(PermissionDenied)
      else None
  }

  /** Only the reasons for which the worker certainly will not run the attempt. */
  predicate ShouldRequeue(reason: ReclaimReason)
  {
    reason == WorkerGone || reason == Refused
  }

  /** What was handed out: to which entry, in whose pool, and the attempt's identity. */
  datatype Placement = Placement(
    entry: EntryId, dagVersion: string, runID: string, taskID: string, tryNumber: int, podName: string)

  /** A binding and a requeue, tagged with the assignment they came from. */
  datatype Bound = Bound(assignmentID: string, binding: WarmBinding)
  datatype Requeue = Requeue(assignmentID: string, runID: string, taskID: string, tryNumber: int)

  /** The registry and its history. `minted[e]` is the pool entry e's token was minted
      for, `gone` the entries whose deregistration took effect, `pending` the emitted
      events the observer has not handled yet. */
  datatype System = System(
    reg: State,
    minted: seq<string>,
    gone: set<EntryId>,
    placed: map<string, Placement>,
    bindings: multiset<Bound>,
    events: multiset<ReclaimEvent>,
    pending: multiset<ReclaimEvent>,
    requeued: multiset<Requeue>)

  const Start := System(Registry.Empty, [], {}, map[], multiset{}, multiset{}, multiset{}, multiset{})

  datatype Step =
    | Connect(identity: string, tokenPool: string, first: FirstMessage)
    | StreamEnds(entry: EntryId)
    | Place(dagVersion: string, a: WorkAssignment, pick: string)
    | HandlerTakes(entry: EntryId)
    | WorkerAcks(assignmentID: string, started: bool)
    | WorkerFrees(identity: string)
    | LeaseTimer(assignmentID: string)
    | Observe(event: ReclaimEvent)

  function BindingOf(aid: string, p: Placement): Bound
  {
    Bound(aid, WarmBinding(p.runID, p.taskID, p.tryNumber, p.podName))
  }

  function EventOf(aid: string, p: Placement, reason: ReclaimReason): ReclaimEvent
  {
    ReclaimEvent(aid, p.dagVersion, reason, p.runID, p.taskID, p.tryNumber)
  }

  function RequeueOf(aid: string, p: Placement): Requeue
  {
    Requeue(aid, p.runID, p.taskID, p.tryNumber)
  }

  // ---- one step --------------------------------------------------------------

  ghost function Emit(s: System, reg: State, evs: multiset<ReclaimEvent>): System
  {
    s.(reg := reg, events := s.events + evs, pending := s.pending + evs)
  }

  /** What handleReclaim does with one event. */
  function AfterObserving(requeued: multiset<Requeue>, ev: ReclaimEvent): multiset<Requeue>
  {
    if ShouldRequeue(ev.reason)
    then requeued + multiset{Requeue(ev.assignmentID, ev.runID, ev.taskID, ev.tryNumber)}
    else requeued
  }

  ghost function Next(s: System, step: Step): System
    requires InBounds(s.reg)
  {
    match step
    case Connect(identity, tokenPool, first) =>
      if Refusal(tokenPool, first).Some? then s
      else s.(reg := Register(s.reg, identity, first.dagVersion, first.podName), minted := s.minted + [tokenPool])
    case StreamEnds(e) =>
      if e < |s.reg.entries| && Current(s.reg, e) then
        Emit(s, Deregister(s.reg, e), multiset(Reclaims(s.reg, e))).(gone := s.gone + {e})
      else s
    case Place(dagVersion, a, pick) =>
      if !Pickable(s.reg, dagVersion, pick) then s
      else
        var (reg, ok) := Assign(s.reg, dagVersion, a, pick);
        if !ok then s.(reg := reg)
        else
          assert Listed(s.reg.free, dagVersion, pick, s.reg.free[dagVersion][pick]);
          var e := s.reg.free[dagVersion][pick];
          s.(reg := reg, placed := s.placed[a.id :=
               Placement(e, dagVersion, a.runID, a.taskID, a.tryNumber, s.reg.entries[e].podName)])
    case HandlerTakes(e) =>
      if e < |s.reg.entries| then s.(reg := Drain(s.reg, e)) else s
    case WorkerAcks(aid, started) =>
      if aid !in s.reg.leases then s
      else
        var l := s.reg.leases[aid];
        var reg := Ack(s.reg, aid, started);
        if started then
          s.(reg := reg, bindings := s.bindings + multiset{
               Bound(aid, WarmBinding(l.runID, l.taskID, l.tryNumber, s.reg.entries[l.worker].podName))})
        else Emit(s, reg, multiset{EventFor(aid, l, Refused)})
    case WorkerFrees(identity) => s.(reg := MarkFree(s.reg, identity))
    case LeaseTimer(aid) =>
      if aid !in s.reg.leases then s
      else Emit(s, Expire(s.reg, aid), multiset{EventFor(aid, s.reg.leases[aid], LeaseExpired)})
    case Observe(ev) =>
      if ev !in s.pending then s
      else s.(pending := s.pending - multiset{ev}, requeued := AfterObserving(s.requeued, ev))
  }

  /** Every registry step keeps the three maps consistent. */
  lemma NextKeepsConsistent(s: System, step: Step)
    requires Consistent(s.reg)
    ensures Consistent(Next(s, step).reg) && Persists(s.reg, Next(s, step).reg)
  {
    match step
    case Connect(identity, tokenPool, first) =>
      if Refusal(tokenPool, first).None? { RegisterKeeps(s.reg, identity, first.dagVersion, first.podName); }
    case StreamEnds(e) => if e < |s.reg.entries| { DeregisterKeeps(s.reg, e); }
    case Place(dagVersion, a, pick) =>
      if Pickable(s.reg, dagVersion, pick) { AssignKeeps(s.reg, dagVersion, a, pick); }
    case HandlerTakes(e) => if e < |s.reg.entries| { DrainKeeps(s.reg, e); }
    case WorkerAcks(aid, started) => AckKeeps(s.reg, aid, started);
    case WorkerFrees(identity) => MarkFreeKeeps(s.reg, identity);
    case LeaseTimer(aid) => ExpireKeeps(s.reg, aid);
    case Observe(_) =>
  }

  /** Only a registration adds an entry. */
  lemma EntriesGrowOnConnect(s: System, step: Step)
    requires Consistent(s.reg)
    ensures |Next(s, step).reg.entries| ==
            |s.reg.entries| + if step.Connect? && Refusal(step.tokenPool, step.first).None? then 1 else 0
  {
    match step
    case Place(dagVersion, a, pick) =>
      if Pickable(s.reg, dagVersion, pick) { assert Listed(s.reg.free, dagVersion, pick, s.reg.free[dagVersion][pick]); }
    case _ =>
  }

  /** Only a placement adds to what was placed. */
  lemma PlacedAfter(s: System, step: Step)
    requires InBounds(s.reg)
    ensures forall aid :: aid in Next(s, step).placed ==> aid in s.placed || (step.Place? && step.a.id == aid)
    ensures forall aid :: aid in s.placed ==>
              aid in Next(s, step).placed && (Next(s, step).placed[aid] == s.placed[aid] || (step.Place? && step.a.id == aid))
  {
  }

  // ---- runs ------------------------------------------------------------------

  ghost function Exec(steps: seq<Step>): (s: System)
    ensures Consistent(s.reg)
  {
    if steps == [] then Start
    else
      var s := Exec(steps[..|steps| - 1]);
      NextKeepsConsistent(s, steps[|steps| - 1]);
      Next(s, steps[|steps| - 1])
  }

  /** The placer offers each assignment id at most once. */
  ghost predicate FreshIds(steps: seq<Step>)
  {
    forall i, j :: 0 <= i < j < |steps| && steps[i].Place? && steps[j].Place? ==> steps[i].a.id != steps[j].a.id
  }

  ghost predicate WasOffered(steps: seq<Step>, aid: string)
  {
    exists i :: 0 <= i < |steps| && steps[i].Place? && steps[i].a.id == aid
  }

  lemma OfferedStill(before: seq<Step>, last: Step, aid: string)
    requires WasOffered(before, aid) || (last.Place? && last.a.id == aid)
    ensures WasOffered(before + [last], aid)
  {
    var steps := before + [last];
    if WasOffered(before, aid) {
      var i :| 0 <= i < |before| && before[i].Place? && before[i].a.id == aid;
      assert steps[i] == before[i];
    } else {
      assert steps[|before|] == last;
    }
  }

  lemma {:induction false} AssignedWereOffered(steps: seq<Step>)
    ensures forall aid :: aid in Exec(steps).placed ==> WasOffered(steps, aid)
  {
    if steps != [] {
      var before, last := steps[..|steps| - 1], steps[|steps| - 1];
      assert before + [last] == steps;
      AssignedWereOffered(before);
      OfferedAfter(before, last, Exec(before));
    }
  }

  lemma OfferedAfter(before: seq<Step>, last: Step, s: System)
    requires InBounds(s.reg) && forall aid :: aid in s.placed ==> WasOffered(before, aid)
    ensures forall aid :: aid in Next(s, last).placed ==> WasOffered(before + [last], aid)
  {
    PlacedAfter(s, last);
    forall aid | aid in Next(s, last).placed ensures WasOffered(before + [last], aid) { OfferedStill(before, last, aid); }
  }

  /** With fresh ids, what the last step offers was not placed before. */
  lemma LastIsFresh(before: seq<Step>, last: Step, s: System)
    requires FreshIds(before + [last]) && forall aid :: aid in s.placed ==> WasOffered(before, aid)
    ensures NotOfferedBefore(s, last)
  {
    var steps := before + [last];
    forall i | 0 <= i < |before| && before[i].Place? && last.Place? ensures before[i].a.id != last.a.id {
      assert steps[i] == before[i] && steps[|before|] == last;
    }
  }

  lemma FreshBefore(before: seq<Step>, last: Step)
    requires FreshIds(before + [last])
    ensures FreshIds(before)
  {
    var steps := before + [last];
    forall i, j | 0 <= i < j < |before| && before[i].Place? && before[j].Place? ensures before[i].a.id != before[j].a.id {
      assert steps[i] == before[i] && steps[j] == before[j];
    }
  }

  // ---- settlement ------------------------------------------------------------

  function LeaseOf(p: Placement): Lease
  {
    Lease(p.entry, p.dagVersion, p.runID, p.taskID, p.tryNumber)
  }

  /** Where an assignment is: the sum of the places, with multiplicity. */
  function Places(leases: map<string, Lease>, bindings: multiset<Bound>, events: multiset<ReclaimEvent>,
                  aid: string, p: Placement): nat
  {
    (if aid in leases then 1 else 0)
    + bindings[BindingOf(aid, p)]
    + events[EventOf(aid, p, LeaseExpired)]
    + events[EventOf(aid, p, Refused)]
    + events[EventOf(aid, p, WorkerGone)]
  }

  /** Every assignment is in exactly one of: leased, bound once, reclaimed once; a lease
      carries what was placed, and no binding or event speaks of anything but an
      assignment's own attempt. */
  ghost predicate Ledger(leases: map<string, Lease>, placed: map<string, Placement>,
                         bindings: multiset<Bound>, events: multiset<ReclaimEvent>)
  {
    && (forall aid :: aid in leases ==> aid in placed && leases[aid] == LeaseOf(placed[aid]))
    && Once(leases, placed, bindings, events)
    && Traced(placed, bindings, events)
  }

  /** Every placed assignment is in one place. */
  ghost predicate Once(leases: map<string, Lease>, placed: map<string, Placement>,
                       bindings: multiset<Bound>, events: multiset<ReclaimEvent>)
  {
    forall aid :: aid in placed ==> Places(leases, bindings, events, aid, placed[aid]) == 1
  }

  /** Every binding and every event is of a placed assignment, and carries its data. */
  ghost predicate Traced(placed: map<string, Placement>, bindings: multiset<Bound>, events: multiset<ReclaimEvent>)
  {
    && (forall b :: b in bindings ==> b.assignmentID in placed && b == BindingOf(b.assignmentID, placed[b.assignmentID]))
    && (forall ev :: ev in events ==>
          ev.assignmentID in placed && ev == EventOf(ev.assignmentID, placed[ev.assignmentID], ev.reason))
  }

  lemma LedgerPlace(leases: map<string, Lease>, placed: map<string, Placement>, bindings: multiset<Bound>,
                    events: multiset<ReclaimEvent>, aid: string, p: Placement)
    requires Ledger(leases, placed, bindings, events) && aid !in placed
    ensures Ledger(leases[aid := LeaseOf(p)], placed[aid := p], bindings, events)
  {
    TracedMore(placed, bindings, events, aid, p);
    NowhereBefore(leases, placed, bindings, events, aid, p);
    OnceMore(leases, placed, bindings, events, aid, p);
  }

  lemma OnceMore(leases: map<string, Lease>, placed: map<string, Placement>, bindings: multiset<Bound>,
                 events: multiset<ReclaimEvent>, aid: string, p: Placement)
    requires Once(leases, placed, bindings, events) && aid !in leases && Places(leases, bindings, events, aid, p) == 0
    ensures Once(leases[aid := LeaseOf(p)], placed[aid := p], bindings, events)
  {
    var known := placed[aid := p];
    forall x | x in known ensures Places(leases[aid := LeaseOf(p)], bindings, events, x, known[x]) == 1 {
      PlacesLeased(leases, bindings, events, aid, LeaseOf(p), x, known[x]);
    }
  }

  lemma TracedMore(placed: map<string, Placement>, bindings: multiset<Bound>, events: multiset<ReclaimEvent>,
                   aid: string, p: Placement)
    requires Traced(placed, bindings, events) && aid !in placed
    ensures Traced(placed[aid := p], bindings, events)
  {
  }

  lemma PlacesLeased(leases: map<string, Lease>, bindings: multiset<Bound>, events: multiset<ReclaimEvent>,
                     aid: string, l: Lease, x: string, q: Placement)
    ensures Places(leases[aid := l], bindings, events, x, q)
         == Places(leases, bindings, events, x, q) + if x == aid && aid !in leases then 1 else 0
  {
  }

  lemma NowhereBefore(leases: map<string, Lease>, placed: map<string, Placement>, bindings: multiset<Bound>,
                      events: multiset<ReclaimEvent>, aid: string, p: Placement)
    requires Ledger(leases, placed, bindings, events) && aid !in placed
    ensures Places(leases, bindings, events, aid, p) == 0
  {
    assert BindingOf(aid, p) !in bindings;
    assert EventOf(aid, p, LeaseExpired) !in events;
    assert EventOf(aid, p, Refused) !in events;
    assert EventOf(aid, p, WorkerGone) !in events;
  }

  lemma LedgerBind(leases: map<string, Lease>, placed: map<string, Placement>, bindings: multiset<Bound>,
                   events: multiset<ReclaimEvent>, aid: string)
    requires Ledger(leases, placed, bindings, events) && aid in leases
    ensures Ledger(leases - {aid}, placed, bindings + multiset{BindingOf(aid, placed[aid])}, events)
  {
  }

  lemma LedgerReclaim(leases: map<string, Lease>, placed: map<string, Placement>, bindings: multiset<Bound>,
                      events: multiset<ReclaimEvent>, aid: string, reason: ReclaimReason)
    requires Ledger(leases, placed, bindings, events) && aid in leases
    ensures Ledger(leases - {aid}, placed, bindings, events + multiset{EventOf(aid, placed[aid], reason)})
  {
    var more := events + multiset{EventOf(aid, placed[aid], reason)};
    forall x | x in placed ensures Places(leases - {aid}, bindings, more, x, placed[x]) == 1 {
      assert Places(leases, bindings, events, x, placed[x]) == 1;
      PlacesReclaimed(leases, bindings, events, aid, placed[aid], reason, x, placed[x]);
    }
  }

  lemma PlacesReclaimed(leases: map<string, Lease>, bindings: multiset<Bound>, events: multiset<ReclaimEvent>,
                        aid: string, p: Placement, reason: ReclaimReason, x: string, q: Placement)
    requires aid in leases && (x == aid ==> p == q)
    ensures Places(leases - {aid}, bindings, events + multiset{EventOf(aid, p, reason)}, x, q)
         == Places(leases, bindings, events, x, q)
  {
  }

  lemma LedgerGone(leases: map<string, Lease>, placed: map<string, Placement>, bindings: multiset<Bound>,
                   events: multiset<ReclaimEvent>, e: EntryId, evs: set<ReclaimEvent>, kept: map<string, Lease>)
    requires Ledger(leases, placed, bindings, events)
    requires forall ev :: ev in evs <==>
               ev.assignmentID in leases && leases[ev.assignmentID].worker == e
               && ev == EventFor(ev.assignmentID, leases[ev.assignmentID], WorkerGone)
    requires kept == map aid | aid in leases && leases[aid].worker != e :: leases[aid]
    ensures Ledger(kept, placed, bindings, events + multiset(evs))
  {
    forall aid | aid in placed
      ensures Places(kept, bindings, events + multiset(evs), aid, placed[aid]) == 1
    {
      LedgerGoneAt(leases, placed, bindings, events, e, evs, kept, aid);
    }
  }

  lemma LedgerGoneAt(leases: map<string, Lease>, placed: map<string, Placement>, bindings: multiset<Bound>,
                     events: multiset<ReclaimEvent>, e: EntryId, evs: set<ReclaimEvent>, kept: map<string, Lease>, aid: string)
    requires aid in leases ==> aid in placed && leases[aid] == LeaseOf(placed[aid])
    requires aid in placed && Places(leases, bindings, events, aid, placed[aid]) == 1
    requires forall ev :: ev in evs <==>
               ev.assignmentID in leases && leases[ev.assignmentID].worker == e
               && ev == EventFor(ev.assignmentID, leases[ev.assignmentID], WorkerGone)
    requires aid in kept <==> aid in leases && leases[aid].worker != e
    ensures Places(kept, bindings, events + multiset(evs), aid, placed[aid]) == 1
  {
    var gone, refused, expired := EventOf(aid, placed[aid], WorkerGone), EventOf(aid, placed[aid], Refused), EventOf(aid, placed[aid], LeaseExpired);
    assert refused !in evs && expired !in evs;
    assert gone in evs <==> aid in leases && leases[aid].worker == e;
  }

  ghost predicate Settled(s: System)
  {
    Ledger(s.reg.leases, s.placed, s.bindings, s.events)
  }

  /** The pod an assignment was placed on is still the pod its entry names. */
  ghost predicate PodsKnown(s: System)
  {
    forall aid :: aid in s.placed ==>
      s.placed[aid].entry < |s.reg.entries| && s.reg.entries[s.placed[aid].entry].podName == s.placed[aid].podName
  }

  ghost predicate NotOfferedBefore(s: System, step: Step)
  {
    step.Place? ==> step.a.id !in s.placed
  }

  lemma PodsKeep(s: System, step: Step)
    requires Consistent(s.reg) && PodsKnown(s)
    ensures PodsKnown(Next(s, step))
  {
    NextKeepsConsistent(s, step);
    if step.Place? && Pickable(s.reg, step.dagVersion, step.pick) { PodPlaced(s, step.dagVersion, step.a, step.pick); }
  }

  lemma PodPlaced(s: System, dagVersion: string, a: WorkAssignment, pick: string)
    requires Consistent(s.reg) && PodsKnown(s) && Pickable(s.reg, dagVersion, pick)
    ensures PodsKnown(Next(s, Place(dagVersion, a, pick)))
  {
    AssignKeeps(s.reg, dagVersion, a, pick);
  }

  lemma SettlePlace(s: System, dagVersion: string, a: WorkAssignment, pick: string)
    requires InBounds(s.reg) && Settled(s) && a.id !in s.placed
    ensures Settled(Next(s, Place(dagVersion, a, pick)))
  {
    if Pickable(s.reg, dagVersion, pick) && Assign(s.reg, dagVersion, a, pick).1 {
      LedgerPlace(s.reg.leases, s.placed, s.bindings, s.events, a.id, Next(s, Place(dagVersion, a, pick)).placed[a.id]);
    }
  }

  lemma SettleEnd(s: System, e: EntryId)
    requires InBounds(s.reg) && Settled(s)
    ensures Settled(Next(s, StreamEnds(e)))
  {
    if Current(s.reg, e) {
      ReclaimsExact(s.reg, e);
      LedgerGone(s.reg.leases, s.placed, s.bindings, s.events, e, Reclaims(s.reg, e), Deregister(s.reg, e).leases);
    }
  }

  lemma SettleAck(s: System, aid: string, started: bool)
    requires InBounds(s.reg) && PodsKnown(s) && Settled(s)
    ensures Settled(Next(s, WorkerAcks(aid, started)))
  {
    if aid in s.reg.leases {
      if started {
        LedgerBind(s.reg.leases, s.placed, s.bindings, s.events, aid);
      } else {
        LedgerReclaim(s.reg.leases, s.placed, s.bindings, s.events, aid, Refused);
      }
    }
  }

  lemma SettleTimer(s: System, aid: string)
    requires InBounds(s.reg) && Settled(s)
    ensures Settled(Next(s, LeaseTimer(aid)))
  {
    if aid in s.reg.leases {
      LedgerReclaim(s.reg.leases, s.placed, s.bindings, s.events, aid, LeaseExpired);
    }
  }

  lemma SettleKeeps(s: System, step: Step)
    requires InBounds(s.reg) && PodsKnown(s) && Settled(s) && NotOfferedBefore(s, step)
    ensures Settled(Next(s, step))
  {
    match step
    case Place(dagVersion, a, pick) => SettlePlace(s, dagVersion, a, pick);
    case StreamEnds(e) => SettleEnd(s, e);
    case WorkerAcks(aid, started) => SettleAck(s, aid, started);
    case LeaseTimer(aid) => SettleTimer(s, aid);
    case Connect(_, _, _) =>
    case HandlerTakes(_) =>
    case WorkerFrees(_) =>
    case Observe(_) =>
  }

  /** Settlement, over every run. */
  lemma {:induction false} Settlement(steps: seq<Step>)
    requires FreshIds(steps)
    ensures PodsKnown(Exec(steps)) && Settled(Exec(steps))
  {
    if steps != [] {
      var before, last := steps[..|steps| - 1], steps[|steps| - 1];
      assert before + [last] == steps;
      FreshBefore(before, last);
      Settlement(before);
      SettlesNext(before, last, Exec(before));
    }
  }

  lemma SettlesNext(before: seq<Step>, last: Step, s: System)
    requires FreshIds(before + [last]) && s == Exec(before) && PodsKnown(s) && Settled(s)
    ensures PodsKnown(Next(s, last)) && Settled(Next(s, last))
  {
    AssignedWereOffered(before);
    LastIsFresh(before, last, s);
    PodsKeep(s, last);
    SettleKeeps(s, last);
  }

  // ---- the reclaim observer ----------------------------------------------------

  /** Each event the observer may requeue is pending or has been requeued, never both,
      and nothing else was requeued. */
  ghost predicate Balance(placed: map<string, Placement>, events: multiset<ReclaimEvent>,
                          pending: multiset<ReclaimEvent>, requeued: multiset<Requeue>)
  {
    && (forall aid :: aid in placed ==> Open(placed[aid], pending, requeued, aid) == Requeueable(placed[aid], events, aid))
    && (forall q :: q in requeued ==> q.assignmentID in placed && q == RequeueOf(q.assignmentID, placed[q.assignmentID]))
    && pending <= events
  }

  function Requeueable(p: Placement, events: multiset<ReclaimEvent>, aid: string): nat
  {
    events[EventOf(aid, p, Refused)] + events[EventOf(aid, p, WorkerGone)]
  }

  function Open(p: Placement, pending: multiset<ReclaimEvent>, requeued: multiset<Requeue>, aid: string): nat
  {
    requeued[RequeueOf(aid, p)] + Requeueable(p, pending, aid)
  }

  lemma BalanceEmit(placed: map<string, Placement>, events: multiset<ReclaimEvent>, pending: multiset<ReclaimEvent>,
                    requeued: multiset<Requeue>, evs: multiset<ReclaimEvent>)
    requires Balance(placed, events, pending, requeued)
    ensures Balance(placed, events + evs, pending + evs, requeued)
  {
  }

  lemma BalancePlace(placed: map<string, Placement>, events: multiset<ReclaimEvent>, pending: multiset<ReclaimEvent>,
                     requeued: multiset<Requeue>, aid: string, p: Placement)
    requires Balance(placed, events, pending, requeued) && aid !in placed
    requires forall ev :: ev in events ==> ev.assignmentID in placed
    ensures Balance(placed[aid := p], events, pending, requeued)
  {
    assert EventOf(aid, p, Refused) !in events && EventOf(aid, p, WorkerGone) !in events;
    assert RequeueOf(aid, p) !in requeued;
  }

  lemma BalanceObserve(placed: map<string, Placement>, events: multiset<ReclaimEvent>, pending: multiset<ReclaimEvent>,
                       requeued: multiset<Requeue>, ev: ReclaimEvent)
    requires Balance(placed, events, pending, requeued) && ev in pending
    requires ev.assignmentID in placed && ev == EventOf(ev.assignmentID, placed[ev.assignmentID], ev.reason)
    ensures Balance(placed, events, pending - multiset{ev}, AfterObserving(requeued, ev))
  {
    var q := RequeueOf(ev.assignmentID, placed[ev.assignmentID]);
    var after := AfterObserving(requeued, ev);
    forall aid | aid in placed
      ensures Open(placed[aid], pending - multiset{ev}, after, aid) == Requeueable(placed[aid], events, aid)
    {
      var p := placed[aid];
      assert Open(p, pending, requeued, aid) == Requeueable(p, events, aid);
      assert RequeueOf(aid, p) == q <==> aid == ev.assignmentID;
    }
  }

  ghost predicate Balanced(s: System)
  {
    Balance(s.placed, s.events, s.pending, s.requeued)
  }

  lemma BalanceAfterPlace(s: System, dagVersion: string, a: WorkAssignment, pick: string)
    requires InBounds(s.reg) && Settled(s) && Balanced(s) && a.id !in s.placed
    ensures Balanced(Next(s, Place(dagVersion, a, pick)))
  {
    if Pickable(s.reg, dagVersion, pick) && Assign(s.reg, dagVersion, a, pick).1 {
      BalancePlace(s.placed, s.events, s.pending, s.requeued, a.id, Next(s, Place(dagVersion, a, pick)).placed[a.id]);
    }
  }

  lemma BalanceAfterEmit(s: System, reg: State, evs: multiset<ReclaimEvent>)
    requires Balanced(s)
    ensures Balanced(Emit(s, reg, evs))
  {
    BalanceEmit(s.placed, s.events, s.pending, s.requeued, evs);
  }

  lemma BalanceAfterAck(s: System, aid: string, started: bool)
    requires InBounds(s.reg) && Balanced(s)
    ensures Balanced(Next(s, WorkerAcks(aid, started)))
  {
    if aid in s.reg.leases {
      BalanceAfterEmit(s, Ack(s.reg, aid, started), multiset{EventFor(aid, s.reg.leases[aid], Refused)});
    }
  }

  lemma BalanceAfterTimer(s: System, aid: string)
    requires InBounds(s.reg) && Balanced(s)
    ensures Balanced(Next(s, LeaseTimer(aid)))
  {
    if aid in s.reg.leases {
      BalanceAfterEmit(s, Expire(s.reg, aid), multiset{EventFor(aid, s.reg.leases[aid], LeaseExpired)});
    }
  }

  lemma BalanceAfterEnd(s: System, e: EntryId)
    requires InBounds(s.reg) && Balanced(s)
    ensures Balanced(Next(s, StreamEnds(e)))
  {
    if Current(s.reg, e) { BalanceAfterEmit(s, Deregister(s.reg, e), multiset(Reclaims(s.reg, e))); }
  }

  lemma BalanceAfterObserve(s: System, ev: ReclaimEvent)
    requires InBounds(s.reg) && Settled(s) && Balanced(s)
    ensures Balanced(Next(s, Observe(ev)))
  {
    if ev in s.pending {
      PendingWasPlaced(s.reg.leases, s.placed, s.bindings, s.events, s.pending, s.requeued, ev);
      BalanceObserve(s.placed, s.events, s.pending, s.requeued, ev);
    }
  }

  lemma PendingWasPlaced(leases: map<string, Lease>, placed: map<string, Placement>, bindings: multiset<Bound>,
                         events: multiset<ReclaimEvent>, pending: multiset<ReclaimEvent>, requeued: multiset<Requeue>,
                         ev: ReclaimEvent)
    requires Ledger(leases, placed, bindings, events) && Balance(placed, events, pending, requeued) && ev in pending
    ensures ev.assignmentID in placed && ev == EventOf(ev.assignmentID, placed[ev.assignmentID], ev.reason)
  {
    assert ev in events;
  }

  lemma BalanceAfterOther(s: System, step: Step)
    requires InBounds(s.reg) && Balanced(s) && (step.Connect? || step.HandlerTakes? || step.WorkerFrees?)
    ensures Balanced(Next(s, step))
  {
  }

  lemma BalanceKeeps(s: System, step: Step)
    requires InBounds(s.reg) && Settled(s) && NotOfferedBefore(s, step) && Balanced(s)
    ensures Balanced(Next(s, step))
  {
    match step
    case Place(dagVersion, a, pick) => BalanceAfterPlace(s, dagVersion, a, pick);
    case StreamEnds(e) => BalanceAfterEnd(s, e);
    case WorkerAcks(aid, started) => BalanceAfterAck(s, aid, started);
    case LeaseTimer(aid) => BalanceAfterTimer(s, aid);
    case Observe(ev) => BalanceAfterObserve(s, ev);
    case Connect(_, _, _) => BalanceAfterOther(s, step);
    case HandlerTakes(_) => BalanceAfterOther(s, step);
    case WorkerFrees(_) => BalanceAfterOther(s, step);
  }

  lemma {:induction false} BalanceHolds(steps: seq<Step>)
    requires FreshIds(steps)
    ensures Balanced(Exec(steps))
  {
    if steps != [] {
      var before, last := steps[..|steps| - 1], steps[|steps| - 1];
      assert before + [last] == steps;
      FreshBefore(before, last);
      BalanceHolds(before);
      Settlement(before);
      AssignedWereOffered(before);
      LastIsFresh(before, last, Exec(before));
      BalanceKeeps(Exec(before), last);
    }
  }

  /** Over every run an assignment is requeued at most once, as its own attempt, and never
      when an ack bound it or its lease expired. */
  lemma RequeuedAtMostOnce(steps: seq<Step>, q: Requeue)
    requires FreshIds(steps) && q in Exec(steps).requeued
    ensures var s := Exec(steps);
            && q.assignmentID in s.placed
            && var p := s.placed[q.assignmentID];
               && q == RequeueOf(q.assignmentID, p)
               && s.requeued[q] == 1
               && s.bindings[BindingOf(q.assignmentID, p)] == 0
               && s.events[EventOf(q.assignmentID, p, LeaseExpired)] == 0
               && q.assignmentID !in s.reg.leases
  {
    BalanceHolds(steps);
    Settlement(steps);
    var s := Exec(steps);
    assert Places(s.reg.leases, s.bindings, s.events, q.assignmentID, s.placed[q.assignmentID]) == 1;
    assert Open(s.placed[q.assignmentID], s.pending, s.requeued, q.assignmentID)
        == Requeueable(s.placed[q.assignmentID], s.events, q.assignmentID);
  }

  // ---- currency ----------------------------------------------------------------

  /** Entry e is the last registration made under its identity. */
  ghost predicate Newest(s: System, e: EntryId)
    requires e < |s.reg.entries|
  {
    forall f: nat :: e < f < |s.reg.entries| ==> s.reg.entries[f].identity != s.reg.entries[e].identity
  }

  /** An identity maps to its newest registration unless that one was deregistered; leases
      avoid deregistered entries; an entry serves the pool its token was minted for, and
      every assignment went to an entry of its own dag_version. */
  ghost predicate Faithful(s: System)
  {
    && |s.minted| == |s.reg.entries|
    && (forall e: nat :: e < |s.reg.entries| ==> s.reg.entries[e].dagVersion == s.minted[e] != "")
    && (forall e :: e in s.gone ==> e < |s.reg.entries| && !Current(s.reg, e))
    && (forall e: nat :: e < |s.reg.entries| ==> (Current(s.reg, e) <==> Newest(s, e) && e !in s.gone))
    && (forall aid :: aid in s.reg.leases ==> s.reg.leases[aid].worker !in s.gone)
    && (forall aid :: aid in s.placed ==>
          s.placed[aid].entry < |s.minted| && s.minted[s.placed[aid].entry] == s.placed[aid].dagVersion)
  }

  /** Steps that leave `Current`, the registrations and the placements alone. */
  lemma FaithfulFrame(s: System, t: System)
    requires Faithful(s) && Persists(s.reg, t.reg) && |t.reg.entries| == |s.reg.entries|
    requires forall e: nat :: Current(t.reg, e) <==> Current(s.reg, e)
    requires forall aid :: aid in t.reg.leases ==> aid in s.reg.leases && t.reg.leases[aid].worker == s.reg.leases[aid].worker
    requires t.minted == s.minted && t.gone == s.gone && t.placed == s.placed
    ensures Faithful(t)
  {
    assert forall e: nat :: e < |s.reg.entries| ==> Newest(t, e) == Newest(s, e);
  }

  lemma FaithfulConnect(s: System, identity: string, tokenPool: string, first: FirstMessage)
    requires Consistent(s.reg) && Faithful(s) && Refusal(tokenPool, first).None?
    ensures Faithful(Next(s, Connect(identity, tokenPool, first)))
  {
    FaithfulRegister(s, Next(s, Connect(identity, tokenPool, first)), identity, tokenPool, first.podName);
  }

  lemma NewestAfter(s: System, t: System, identity: string, e: EntryId)
    requires Persists(s.reg, t.reg) && |t.reg.entries| == |s.reg.entries| + 1 && e < |s.reg.entries|
    requires t.reg.entries[|s.reg.entries|].identity == identity
    ensures Newest(t, e) <==> Newest(s, e) && s.reg.entries[e].identity != identity
  {
    if Newest(t, e) {
      assert t.reg.entries[|s.reg.entries|].identity != t.reg.entries[e].identity;
      forall f: nat | e < f < |s.reg.entries| ensures s.reg.entries[f].identity != s.reg.entries[e].identity {
        assert t.reg.entries[f].identity != t.reg.entries[e].identity;
      }
    }
  }

  lemma FaithfulRegister(s: System, t: System, identity: string, tokenPool: string, podName: string)
    requires Consistent(s.reg) && Faithful(s) && tokenPool != ""
    requires t.reg == Register(s.reg, identity, tokenPool, podName) && t.minted == s.minted + [tokenPool]
    requires t.gone == s.gone && t.placed == s.placed
    ensures Faithful(t)
  {
    RegisterKeeps(s.reg, identity, tokenPool, podName);
    forall e: nat | e < |t.reg.entries| ensures Current(t.reg, e) <==> Newest(t, e) && e !in t.gone {
      NewestIsCurrent(s, t, identity, e);
    }
  }

  lemma NewestIsCurrent(s: System, t: System, identity: string, e: EntryId)
    requires Faithful(s) && t.gone == s.gone && Persists(s.reg, t.reg)
    requires |t.reg.entries| == |s.reg.entries| + 1 && t.reg.entries[|s.reg.entries|].identity == identity
    requires Current(t.reg, |s.reg.entries|) && e < |t.reg.entries|
    requires forall x: nat :: x < |s.reg.entries| ==> (Current(t.reg, x) <==> Current(s.reg, x) && s.reg.entries[x].identity != identity)
    ensures Current(t.reg, e) <==> Newest(t, e) && e !in t.gone
  {
    if e < |s.reg.entries| { NewestAfter(s, t, identity, e); }
  }

  lemma FaithfulEnd(s: System, e: EntryId)
    requires Consistent(s.reg) && Faithful(s) && Current(s.reg, e)
    ensures Faithful(Next(s, StreamEnds(e)))
  {
    var t := Next(s, StreamEnds(e));
    DeregisterKeeps(s.reg, e);
    assert forall f: nat :: f < |s.reg.entries| ==> Newest(t, f) == Newest(s, f);
  }

  lemma FaithfulPlace(s: System, dagVersion: string, a: WorkAssignment, pick: string)
    requires Consistent(s.reg) && Faithful(s) && Pickable(s.reg, dagVersion, pick)
    ensures Faithful(Next(s, Place(dagVersion, a, pick)))
  {
    var t := Next(s, Place(dagVersion, a, pick));
    AssignKeeps(s.reg, dagVersion, a, pick);
    assert forall f: nat :: f < |s.reg.entries| ==> Newest(t, f) == Newest(s, f);
  }

  lemma FaithfulTakes(s: System, e: EntryId)
    requires Consistent(s.reg) && Faithful(s)
    ensures Faithful(Next(s, HandlerTakes(e)))
  {
    if e < |s.reg.entries| {
      DrainKeeps(s.reg, e);
      FaithfulFrame(s, Next(s, HandlerTakes(e)));
    }
  }

  lemma FaithfulAck(s: System, aid: string, started: bool)
    requires Consistent(s.reg) && Faithful(s)
    ensures Faithful(Next(s, WorkerAcks(aid, started)))
  {
    AckKeeps(s.reg, aid, started);
    FaithfulFrame(s, Next(s, WorkerAcks(aid, started)));
  }

  lemma FaithfulFrees(s: System, identity: string)
    requires Consistent(s.reg) && Faithful(s)
    ensures Faithful(Next(s, WorkerFrees(identity)))
  {
    MarkFreeKeeps(s.reg, identity);
    FaithfulFrame(s, Next(s, WorkerFrees(identity)));
  }

  lemma FaithfulTimer(s: System, aid: string)
    requires Consistent(s.reg) && Faithful(s)
    ensures Faithful(Next(s, LeaseTimer(aid)))
  {
    ExpireKeeps(s.reg, aid);
    FaithfulFrame(s, Next(s, LeaseTimer(aid)));
  }

  lemma FaithfulObserve(s: System, ev: ReclaimEvent)
    requires Consistent(s.reg) && Faithful(s)
    ensures Faithful(Next(s, Observe(ev)))
  {
    FaithfulFrame(s, Next(s, Observe(ev)));
  }

  lemma FaithfulKeeps(s: System, step: Step)
    requires Consistent(s.reg) && Faithful(s)
    ensures Faithful(Next(s, step))
  {
    match step
    case Connect(identity, tokenPool, first) =>
      if Refusal(tokenPool, first).None? { FaithfulConnect(s, identity, tokenPool, first); }
    case StreamEnds(e) => if Current(s.reg, e) { FaithfulEnd(s, e); }
    case Place(dagVersion, a, pick) => if Pickable(s.reg, dagVersion, pick) { FaithfulPlace(s, dagVersion, a, pick); }
    case HandlerTakes(e) => FaithfulTakes(s, e);
    case WorkerAcks(aid, started) => FaithfulAck(s, aid, started);
    case WorkerFrees(identity) => FaithfulFrees(s, identity);
    case LeaseTimer(aid) => FaithfulTimer(s, aid);
    case Observe(ev) => FaithfulObserve(s, ev);
  }

  /** Every reachable registry is consistent and faithful, fresh ids or not. */
  lemma {:induction false} AlwaysFaithful(steps: seq<Step>)
    ensures Consistent(Exec(steps).reg) && Faithful(Exec(steps))
  {
    if steps != [] {
      var before := steps[..|steps| - 1];
      AlwaysFaithful(before);
      FaithfulKeeps(Exec(before), steps[|steps| - 1]);
    }
  }
}
