/** What a worker that never missed a lease is doing, exactly.

    Slot accounting (Fleet.SlotAccounting) bounds an entry's slots by one plus its
    lapses: leases that expired, and slot-free signals of another stream under the
    same identity. An entry that is current and has no lapse is in one of four
    phases, each fixing the registry's flags, the lease table, the channel, the
    wire and the agent at once. */
module FleetPhases {
  import opened Wrappers
  import opened Registry
  import opened RegistrySystem
  import opened Fleet

  datatype Phase =
    | Waiting
    | Unacked(a: WorkAssignment)
    | AckSent(a: WorkAssignment, done: bool)
    | Acked(a: WorkAssignment, done: bool)

  function Leased(leases: map<string, Lease>, e: EntryId): set<string>
  {
    set aid | aid in leases && leases[aid].worker == e
  }

  /** The wire down to the agent, and the agent, hold nothing. */
  predicate Quiet(w: Entry, st: Stream)
  {
    w.send.None? && st.hand.None? && st.down == []
  }

  /** The assignment is in exactly one place on its way to an ack. */
  predicate OnItsWay(w: Entry, st: Stream, a: WorkAssignment)
  {
    || (w.send == Some(a) && st.hand.None? && st.down == [] && st.agent.Idle?)
    || (w.send.None? && st.hand == Some(a) && st.down == [] && st.agent.Idle?)
    || (w.send.None? && st.hand.None? && st.down == [a] && st.agent.Idle?)
    || (Quiet(w, st) && st.agent == Holding(a))
  }

  predicate InPhase(w: Entry, free: bool, leased: set<string>, st: Stream, p: Phase)
  {
    match p
    case Waiting => free && leased == {} && !w.busy && Quiet(w, st) && st.agent.Idle? && Pipe(st) == []
    case Unacked(a) => !free && leased == {a.id} && !w.busy && OnItsWay(w, st, a) && Pipe(st) == []
    case AckSent(a, done) =>
      && !free && leased == {a.id} && !w.busy && Quiet(w, st)
      && st.agent == (if done then Idle else Running(a))
      && Pipe(st) == if done then [AckMsg(a.id), SlotFreeMsg] else [AckMsg(a.id)]
    case Acked(a, done) =>
      && !free && leased == {} && w.busy && Quiet(w, st)
      && st.agent == (if done then Idle else Running(a))
      && Pipe(st) == if done then [SlotFreeMsg] else []
  }

  ghost predicate At(f: Fleet, e: EntryId, p: Phase)
    requires Sized(f) && e < |f.streams|
  {
    InPhase(f.sys.reg.entries[e], IsFree(f.sys.reg, e), Leased(f.sys.reg.leases, e), f.streams[e], p)
  }

  /** Still registered, no lease ever expired, no slot-free of another stream applied. */
  ghost predicate NoLapse(f: Fleet, e: EntryId)
    requires Sized(f) && e < |f.streams|
  {
    Current(f.sys.reg, e) && f.streams[e].expired == 0 && f.streams[e].stray == 0
  }

  ghost predicate Orderly(f: Fleet)
  {
    Sized(f) && forall e: nat :: e < |f.streams| && NoLapse(f, e) ==> exists p :: At(f, e, p)
  }

  // ---- everything a stream carries was placed on its own entry -------------------

  predicate Own(sys: System, e: EntryId, aid: string)
  {
    aid in sys.placed && sys.placed[aid].entry == e
  }

  predicate CarriesOwn(sys: System, w: Entry, st: Stream, e: EntryId)
  {
    && (w.send.Some? ==> Own(sys, e, w.send.value.id))
    && (st.hand.Some? ==> Own(sys, e, st.hand.value.id))
    && (forall i :: 0 <= i < |st.down| ==> Own(sys, e, st.down[i].id))
    && (!st.agent.Idle? ==> Own(sys, e, st.agent.a.id))
    && (forall i :: 0 <= i < |Pipe(st)| && Pipe(st)[i].AckMsg? ==> Own(sys, e, Pipe(st)[i].id))
  }

  ghost predicate Honest(f: Fleet)
  {
    Sized(f) && forall e: nat :: e < |f.streams| ==> CarriesOwn(f.sys, f.sys.reg.entries[e], f.streams[e], e)
  }

  /** Placements are only ever added. */
  predicate Extends(sys: System, after: System)
  {
    forall aid :: aid in sys.placed ==> aid in after.placed && after.placed[aid] == sys.placed[aid]
  }

  lemma CarriesMoved(sys: System, w: Entry, st: Stream, e: EntryId, act: Act)
    requires CarriesOwn(sys, w, st, e)
    ensures CarriesOwn(sys, if act.HandlerTake? && CanTake(st, w.send) then w.(send := None) else w,
                       Moved(st, w.send, act), e)
  {
    AcksMoved(sys, st, w.send, e, act);
    DownMoved(sys, st, w.send, e, act);
  }

  /** What an action adds to the messages going up comes from the agent. */
  lemma AcksMoved(sys: System, st: Stream, send: Option<WorkAssignment>, e: EntryId, act: Act)
    requires !st.agent.Idle? ==> Own(sys, e, st.agent.a.id)
    requires forall i :: 0 <= i < |Pipe(st)| && Pipe(st)[i].AckMsg? ==> Own(sys, e, Pipe(st)[i].id)
    ensures var after := Pipe(Moved(st, send, act));
            forall i :: 0 <= i < |after| && after[i].AckMsg? ==> Own(sys, e, after[i].id)
  {
    PipeAfter(st, send, act);
  }

  /** What an action adds to the wire down comes from the handler's hand. */
  lemma DownMoved(sys: System, st: Stream, send: Option<WorkAssignment>, e: EntryId, act: Act)
    requires st.hand.Some? ==> Own(sys, e, st.hand.value.id)
    requires forall i :: 0 <= i < |st.down| ==> Own(sys, e, st.down[i].id)
    ensures var after := Moved(st, send, act).down;
            forall i :: 0 <= i < |after| ==> Own(sys, e, after[i].id)
  {
  }

  lemma CarriesLater(sys: System, after: System, w: Entry, v: Entry, st: Stream, u: Stream, e: EntryId)
    requires CarriesOwn(sys, w, st, e) && Extends(sys, after)
    requires v.send == w.send || v.send.None? || Own(after, e, v.send.value.id)
    requires u.hand == st.hand && u.down == st.down && u.agent == st.agent && Pipe(u) == Pipe(st)
    ensures CarriesOwn(after, v, u, e)
  {
  }

  lemma NextExtends(s: System, step: Step)
    requires Consistent(s.reg) && NotOfferedBefore(s, step)
    ensures Extends(s, Next(s, step))
  {
    PlacedAfter(s, step);
  }

  // ---- honesty, move by move -------------------------------------------------------

  /** The streams and channels other than e's, when neither changed. */
  ghost predicate SameElsewhere(f: Fleet, g: Fleet, e: EntryId)
    requires Sized(f) && Sized(g)
  {
    && |g.streams| == |f.streams|
    && forall x: nat :: x < |f.streams| && x != e ==>
         && g.sys.reg.entries[x].send == f.sys.reg.entries[x].send
         && g.streams[x].(stray := 0) == f.streams[x].(stray := 0)
  }

  lemma HonestElsewhere(f: Fleet, g: Fleet, e: EntryId)
    requires Honest(f) && Sized(g) && SameElsewhere(f, g, e) && Extends(f.sys, g.sys)
    requires e < |f.streams| ==> CarriesOwn(g.sys, g.sys.reg.entries[e], g.streams[e], e)
    ensures Honest(g)
  {
    forall x: nat | x < |g.streams| ensures CarriesOwn(g.sys, g.sys.reg.entries[x], g.streams[x], x) {
      if x != e { CarriesLater(f.sys, g.sys, f.sys.reg.entries[x], g.sys.reg.entries[x], f.streams[x], g.streams[x], x); }
    }
  }

  lemma HonestOffer(f: Fleet, dagVersion: string, a: WorkAssignment, pick: string)
    requires Honest(f) && a.id !in f.sys.placed
    ensures Honest(Advance(f, Offer(dagVersion, a, pick)))
  {
    if Pickable(f.sys.reg, dagVersion, pick) {
      OfferRegistry(f, dagVersion, a, pick);
      NextExtends(f.sys, Place(dagVersion, a, pick));
      HonestOfferTo(f, Advance(f, Offer(dagVersion, a, pick)), dagVersion, a, pick);
    }
  }

  lemma HonestOfferTo(f: Fleet, g: Fleet, dagVersion: string, a: WorkAssignment, pick: string)
    requires Honest(f) && Sized(g) && Extends(f.sys, g.sys) && Pickable(f.sys.reg, dagVersion, pick)
    requires g.streams == f.streams && g.sys.reg == Assign(f.sys.reg, dagVersion, a, pick).0
    requires Assign(f.sys.reg, dagVersion, a, pick).1 ==> Own(g.sys, f.sys.reg.free[dagVersion][pick], a.id)
    ensures Honest(g)
  {
    var e := f.sys.reg.free[dagVersion][pick];
    AssignKeeps(f.sys.reg, dagVersion, a, pick);
    CarriesLater(f.sys, g.sys, f.sys.reg.entries[e], g.sys.reg.entries[e], f.streams[e], g.streams[e], e);
    HonestElsewhere(f, g, e);
  }

  lemma HonestOpen(f: Fleet, identity: string, tokenPool: string, first: FirstMessage)
    requires Honest(f)
    ensures Honest(Advance(f, Open(identity, tokenPool, first)))
  {
    if Refusal(tokenPool, first).None? {
      var g := Advance(f, Open(identity, tokenPool, first));
      forall x: nat | x < |f.streams| ensures CarriesOwn(g.sys, g.sys.reg.entries[x], g.streams[x], x) {
        CarriesLater(f.sys, g.sys, f.sys.reg.entries[x], g.sys.reg.entries[x], f.streams[x], g.streams[x], x);
      }
    }
  }

  lemma HonestExpiry(f: Fleet, aid: string)
    requires Honest(f)
    ensures Honest(Advance(f, Expiry(aid)))
  {
    var g := Advance(f, Expiry(aid));
    ExpireKeeps(f.sys.reg, aid);
    forall x: nat | x < |g.streams| ensures CarriesOwn(g.sys, g.sys.reg.entries[x], g.streams[x], x) {
      CarriesLater(f.sys, g.sys, f.sys.reg.entries[x], g.sys.reg.entries[x], f.streams[x], g.streams[x], x);
    }
  }

  lemma HonestLocal(f: Fleet, e: EntryId, act: Act)
    requires Honest(f)
    ensures Honest(Advance(f, Local(e, act)))
  {
    if e < |f.streams| {
      var g := Advance(f, Local(e, act));
      LocalChannels(f, e, act);
      CarriesMoved(f.sys, f.sys.reg.entries[e], f.streams[e], e, act);
      var v := if act.HandlerTake? && CanTake(f.streams[e], f.sys.reg.entries[e].send)
               then f.sys.reg.entries[e].(send := None) else f.sys.reg.entries[e];
      CarriesLater(f.sys, g.sys, v, g.sys.reg.entries[e],
                   Moved(f.streams[e], f.sys.reg.entries[e].send, act), g.streams[e], e);
      HonestElsewhere(f, g, e);
    }
  }

  /** A local action changes no channel but its own, which it can only empty. */
  ghost predicate LocalEffect(f: Fleet, g: Fleet, e: EntryId, act: Act)
    requires Sized(f) && Sized(g) && e < |f.streams|
  {
    && g.sys.placed == f.sys.placed && |g.streams| == |f.streams|
    && SameElsewhere(f, g, e)
    && g.streams[e] == Moved(f.streams[e], f.sys.reg.entries[e].send, act)
    && g.sys.reg.entries[e].send ==
         if act.HandlerTake? && CanTake(f.streams[e], f.sys.reg.entries[e].send) then None
         else f.sys.reg.entries[e].send
  }

  lemma LocalChannels(f: Fleet, e: EntryId, act: Act)
    requires Sized(f) && e < |f.streams|
    ensures LocalEffect(f, Advance(f, Local(e, act)), e, act)
  {
    var step := LocalStep(f.streams[e], f.sys.reg.entries[e], e, act);
    if step.None? {
      QuietEffect(f, e, act);
    } else if act.HandlerTake? {
      TakeEffect(f, e);
    } else if act.HandlerExit? {
      ExitEffect(f, e);
      DeregisterKeeps(f.sys.reg, e);
    } else if f.streams[e].pump.value.AckMsg? {
      AckChannels(f, e);
    } else {
      FreeChannels(f, e);
    }
  }

  lemma AckChannels(f: Fleet, e: EntryId)
    requires Sized(f) && e < |f.streams| && CanApply(f.streams[e]) && f.streams[e].pump.value.AckMsg?
    ensures LocalEffect(f, Advance(f, Local(e, PumpApply)), e, PumpApply)
  {
    ApplyAckEffect(f, e);
    AckKeeps(f.sys.reg, f.streams[e].pump.value.id, true);
  }

  lemma FreeChannels(f: Fleet, e: EntryId)
    requires Sized(f) && e < |f.streams| && AppliesFree(f.streams[e], PumpApply)
    ensures LocalEffect(f, Advance(f, Local(e, PumpApply)), e, PumpApply)
  {
    ApplyFreeEffect(f, e);
    MarkFreeKeeps(f.sys.reg, f.sys.reg.entries[e].identity);
  }

  lemma HonestKeeps(f: Fleet, move: Move)
    requires Honest(f) && (move.Offer? ==> move.a.id !in f.sys.placed)
    ensures Honest(Advance(f, move))
  {
    match move
    case Open(identity, tokenPool, first) => HonestOpen(f, identity, tokenPool, first);
    case Offer(dagVersion, a, pick) => HonestOffer(f, dagVersion, a, pick);
    case Local(e, act) => HonestLocal(f, e, act);
    case Expiry(aid) => HonestExpiry(f, aid);
    case Reclaim(ev) => HonestReclaim(f, ev);
  }

  lemma HonestReclaim(f: Fleet, ev: ReclaimEvent)
    requires Honest(f)
    ensures Honest(Advance(f, Reclaim(ev)))
  {
    var g := Advance(f, Reclaim(ev));
    HonestElsewhere(f, g, |f.streams|);
  }

  // ---- phases, move by move ---------------------------------------------------------

  /** An action that does not touch the registry moves its own stream to a next phase. */
  function AfterQuiet(p: Phase, st: Stream, act: Act): Phase
  {
    if act.AgentAck? && p.Unacked? && st.agent.Holding? then AckSent(p.a, false)
    else if act.AgentFinish? && p.AckSent? && st.agent.Running? then AckSent(p.a, true)
    else if act.AgentFinish? && p.Acked? && st.agent.Running? then Acked(p.a, true)
    else p
  }

  lemma QuietPhase(w: Entry, free: bool, leased: set<string>, st: Stream, p: Phase, e: EntryId, act: Act)
    requires InPhase(w, free, leased, st, p) && LocalStep(st, w, e, act).None?
    ensures InPhase(w, free, leased, Moved(st, w.send, act), AfterQuiet(p, st, act))
  {
    PipeAfter(st, w.send, act);
  }

  lemma TakePhase(w: Entry, free: bool, leased: set<string>, st: Stream, p: Phase)
    requires InPhase(w, free, leased, st, p) && CanTake(st, w.send)
    ensures InPhase(w.(send := None), free, leased, Moved(st, w.send, HandlerTake), p)
  {
    PipeAfter(st, w.send, HandlerTake);
  }

  lemma AckPhase(w: Entry, free: bool, leased: set<string>, st: Stream, p: Phase)
    requires InPhase(w, free, leased, st, p) && CanApply(st) && st.pump.value.AckMsg?
    ensures p.AckSent? && st.pump.value.id == p.a.id
    ensures InPhase(w.(busy := true), free, {}, Moved(st, w.send, PumpApply), Acked(p.a, p.done))
  {
    PipeAfter(st, w.send, PumpApply);
    assert Pipe(st)[0] == st.pump.value;
  }

  lemma FreePhase(w: Entry, free: bool, leased: set<string>, st: Stream, p: Phase)
    requires InPhase(w, free, leased, st, p) && CanApply(st) && st.pump.value.SlotFreeMsg?
    ensures InPhase(w.(busy := false), true, leased, Moved(st, w.send, PumpApply), Waiting)
  {
    PipeAfter(st, w.send, PumpApply);
    assert Pipe(st)[0] == st.pump.value;
  }

  lemma LeasedAfterPut(leases: map<string, Lease>, aid: string, l: Lease, x: EntryId)
    requires aid !in leases
    ensures Leased(leases[aid := l], x) == if x == l.worker then Leased(leases, x) + {aid} else Leased(leases, x)
  {
  }

  lemma LeasedAfterDrop(leases: map<string, Lease>, aid: string, x: EntryId)
    ensures Leased(leases - {aid}, x) == Leased(leases, x) - {aid}
    ensures aid in leases && leases[aid].worker != x ==> Leased(leases - {aid}, x) == Leased(leases, x)
  {
  }

  lemma PhaseOf(f: Fleet, e: EntryId) returns (p: Phase)
    requires Orderly(f) && e < |f.streams| && NoLapse(f, e)
    ensures At(f, e, p)
  {
    p :| At(f, e, p);
  }

  /** What At depends on. */
  ghost predicate SameView(f: Fleet, g: Fleet, x: EntryId)
    requires Sized(f) && Sized(g) && x < |f.streams| && x < |g.streams|
  {
    && NoLapse(f, x)
    && g.sys.reg.entries[x] == f.sys.reg.entries[x]
    && IsFree(g.sys.reg, x) == IsFree(f.sys.reg, x)
    && Leased(g.sys.reg.leases, x) == Leased(f.sys.reg.leases, x)
    && g.streams[x] == f.streams[x]
  }

  /** One entry moves to a phase of its own, or lapses; the others are left alone or lapse. */
  lemma OrderlyElsewhere(f: Fleet, g: Fleet, e: EntryId)
    requires Orderly(f) && Sized(g) && |g.streams| == |f.streams|
    requires forall x: nat :: x < |f.streams| && x != e && NoLapse(g, x) ==> SameView(f, g, x)
    requires e < |f.streams| && NoLapse(g, e) ==> exists p :: At(g, e, p)
    ensures Orderly(g)
  {
    forall x: nat | x < |g.streams| && NoLapse(g, x) ensures exists p :: At(g, x, p) {
      if x != e {
        assert SameView(f, g, x);
        var p := PhaseOf(f, x);
        assert At(g, x, p);
      }
    }
  }

  lemma OrderlyOpen(f: Fleet, identity: string, tokenPool: string, first: FirstMessage)
    requires Orderly(f)
    ensures Orderly(Advance(f, Open(identity, tokenPool, first)))
  {
    if Refusal(tokenPool, first).None? {
      var g := Advance(f, Open(identity, tokenPool, first));
      RegisterKeeps(f.sys.reg, identity, first.dagVersion, first.podName);
      forall x: nat | x < |g.streams| && NoLapse(g, x) ensures exists p :: At(g, x, p) {
        if x == |f.streams| {
          assert Leased(g.sys.reg.leases, x) == {};
          assert At(g, x, Waiting);
        } else {
          var p := PhaseOf(f, x);
          assert At(g, x, p);
        }
      }
    }
  }

  /** An accepted offer touches the picked entry alone. */
  lemma OfferEffect(f: Fleet, dagVersion: string, a: WorkAssignment, pick: string)
    requires Sized(f) && Settled(f.sys) && a.id !in f.sys.placed
    requires Pickable(f.sys.reg, dagVersion, pick) && Assign(f.sys.reg, dagVersion, a, pick).1
    ensures var g, e := Advance(f, Offer(dagVersion, a, pick)), f.sys.reg.free[dagVersion][pick];
            && e < |f.streams| && g.streams == f.streams
            && IsFree(f.sys.reg, e) && !IsFree(g.sys.reg, e)
            && f.sys.reg.entries[e].send.None? && g.sys.reg.entries[e] == f.sys.reg.entries[e].(send := Some(a))
            && Leased(g.sys.reg.leases, e) == Leased(f.sys.reg.leases, e) + {a.id}
            && (NoLapse(g, e) ==> NoLapse(f, e))
            && forall x: nat :: x < |f.streams| && x != e && NoLapse(g, x) ==> SameView(f, g, x)
  {
    OfferRegistry(f, dagVersion, a, pick);
    OfferViews(f, Advance(f, Offer(dagVersion, a, pick)), dagVersion, a, pick);
  }

  lemma OfferRegistry(f: Fleet, dagVersion: string, a: WorkAssignment, pick: string)
    requires Sized(f) && Pickable(f.sys.reg, dagVersion, pick)
    ensures var g := Advance(f, Offer(dagVersion, a, pick));
            && g.streams == f.streams && g.sys.reg == Assign(f.sys.reg, dagVersion, a, pick).0
            && (Assign(f.sys.reg, dagVersion, a, pick).1 ==> Own(g.sys, f.sys.reg.free[dagVersion][pick], a.id))
  {
  }

  lemma OfferViews(f: Fleet, g: Fleet, dagVersion: string, a: WorkAssignment, pick: string)
    requires Sized(f) && Sized(g) && Settled(f.sys) && a.id !in f.sys.placed
    requires Pickable(f.sys.reg, dagVersion, pick) && Assign(f.sys.reg, dagVersion, a, pick) == (g.sys.reg, true)
    requires g.streams == f.streams
    ensures var e := f.sys.reg.free[dagVersion][pick];
            && e < |f.streams| && IsFree(f.sys.reg, e) && !IsFree(g.sys.reg, e)
            && f.sys.reg.entries[e].send.None? && g.sys.reg.entries[e] == f.sys.reg.entries[e].(send := Some(a))
            && Leased(g.sys.reg.leases, e) == Leased(f.sys.reg.leases, e) + {a.id}
            && (NoLapse(g, e) ==> NoLapse(f, e))
            && forall x: nat :: x < |f.streams| && x != e && NoLapse(g, x) ==> SameView(f, g, x)
  {
    AssignKeeps(f.sys.reg, dagVersion, a, pick);
    var e := f.sys.reg.free[dagVersion][pick];
    forall x: nat | x < |f.streams| ensures Leased(g.sys.reg.leases, x) ==
        if x == e then Leased(f.sys.reg.leases, x) + {a.id} else Leased(f.sys.reg.leases, x)
    {
      LeasedAfterPut(f.sys.reg.leases, a.id, g.sys.reg.leases[a.id], x);
    }
  }

  lemma OrderlyOffer(f: Fleet, dagVersion: string, a: WorkAssignment, pick: string)
    requires Orderly(f) && Settled(f.sys) && a.id !in f.sys.placed
    ensures Orderly(Advance(f, Offer(dagVersion, a, pick)))
  {
    if Pickable(f.sys.reg, dagVersion, pick) {
      if Assign(f.sys.reg, dagVersion, a, pick).1 {
        OfferEffect(f, dagVersion, a, pick);
        var g, e := Advance(f, Offer(dagVersion, a, pick)), f.sys.reg.free[dagVersion][pick];
        if NoLapse(g, e) {
          var p := PhaseOf(f, e);
          assert At(g, e, Unacked(a));
        }
        OrderlyElsewhere(f, g, e);
      } else {
        AssignKeeps(f.sys.reg, dagVersion, a, pick);
      }
    }
  }

  lemma OrderlyExpiry(f: Fleet, aid: string)
    requires Orderly(f)
    ensures Orderly(Advance(f, Expiry(aid)))
  {
    ExpiryEffect(f, aid);
    if aid in f.sys.reg.leases { OrderlyExpiryTo(f, Advance(f, Expiry(aid)), aid); }
  }

  lemma OrderlyExpiryTo(f: Fleet, g: Fleet, aid: string)
    requires Orderly(f) && Sized(g) && aid in f.sys.reg.leases
    requires g.sys.reg == Expire(f.sys.reg, aid) && |g.streams| == |f.streams|
    requires forall x: nat :: x < |f.streams| ==>
               g.streams[x] == f.streams[x].(expired := f.streams[x].expired + Bit(LeasedTo(f.sys.reg, aid, x)))
    ensures Orderly(g)
  {
    ExpireKeeps(f.sys.reg, aid);
    var e := f.sys.reg.leases[aid].worker;
    forall x: nat | x < |f.streams| && x != e ensures Leased(g.sys.reg.leases, x) == Leased(f.sys.reg.leases, x) {
      LeasedAfterDrop(f.sys.reg.leases, aid, x);
    }
    OrderlyElsewhere(f, g, e);
  }

  lemma OrderlyQuiet(f: Fleet, e: EntryId, act: Act)
    requires Orderly(f) && e < |f.streams|
    requires LocalStep(f.streams[e], f.sys.reg.entries[e], e, act).None?
    ensures Orderly(Advance(f, Local(e, act)))
  {
    QuietEffect(f, e, act);
    OrderlyQuietTo(f, Advance(f, Local(e, act)), e, act);
  }

  lemma OrderlyQuietTo(f: Fleet, g: Fleet, e: EntryId, act: Act)
    requires Orderly(f) && Sized(g) && e < |f.streams|
    requires LocalStep(f.streams[e], f.sys.reg.entries[e], e, act).None?
    requires g.sys == f.sys && g.streams == f.streams[e := Moved(f.streams[e], f.sys.reg.entries[e].send, act)]
    ensures Orderly(g)
  {
    if NoLapse(g, e) {
      var p := PhaseOf(f, e);
      QuietPhase(f.sys.reg.entries[e], IsFree(f.sys.reg, e), Leased(f.sys.reg.leases, e), f.streams[e], p, e, act);
      assert At(g, e, AfterQuiet(p, f.streams[e], act));
    }
    OrderlyElsewhere(f, g, e);
  }

  lemma OrderlyTake(f: Fleet, e: EntryId)
    requires Orderly(f) && e < |f.streams| && CanTake(f.streams[e], f.sys.reg.entries[e].send)
    ensures Orderly(Advance(f, Local(e, HandlerTake)))
  {
    TakeEffect(f, e);
    OrderlyTakeTo(f, Advance(f, Local(e, HandlerTake)), e);
  }

  lemma OrderlyTakeTo(f: Fleet, g: Fleet, e: EntryId)
    requires Orderly(f) && Sized(g) && e < |f.streams| && CanTake(f.streams[e], f.sys.reg.entries[e].send)
    requires g.sys.reg == Drain(f.sys.reg, e)
    requires g.streams == f.streams[e := Moved(f.streams[e], f.sys.reg.entries[e].send, HandlerTake)]
    ensures Orderly(g)
  {
    DrainKeeps(f.sys.reg, e);
    if NoLapse(g, e) {
      var p := PhaseOf(f, e);
      TakePhase(f.sys.reg.entries[e], IsFree(f.sys.reg, e), Leased(f.sys.reg.leases, e), f.streams[e], p);
      assert At(g, e, p);
    }
    OrderlyElsewhere(f, g, e);
  }

  lemma OrderlyExit(f: Fleet, e: EntryId)
    requires Orderly(f) && e < |f.streams| && f.streams[e].serving
    ensures Orderly(Advance(f, Local(e, HandlerExit)))
  {
    ExitEffect(f, e);
    OrderlyExitTo(f, Advance(f, Local(e, HandlerExit)), e);
  }

  lemma OrderlyExitTo(f: Fleet, g: Fleet, e: EntryId)
    requires Orderly(f) && Sized(g) && e < |f.streams| && g.sys.reg == Deregister(f.sys.reg, e)
    requires g.streams == f.streams[e := Moved(f.streams[e], f.sys.reg.entries[e].send, HandlerExit)]
    ensures Orderly(g)
  {
    DeregisterKeeps(f.sys.reg, e);
    forall x: nat | x < |f.streams| && x != e
      ensures Leased(g.sys.reg.leases, x) == Leased(f.sys.reg.leases, x) {}
    OrderlyElsewhere(f, g, e);
  }

  /** An ack on stream e names an assignment of entry e. */
  lemma AckIsOwn(f: Fleet, e: EntryId)
    requires Honest(f) && Settled(f.sys)
    requires e < |f.streams| && CanApply(f.streams[e]) && f.streams[e].pump.value.AckMsg?
    ensures var aid := f.streams[e].pump.value.id; aid in f.sys.reg.leases ==> f.sys.reg.leases[aid].worker == e
  {
    assert CarriesOwn(f.sys, f.sys.reg.entries[e], f.streams[e], e);
    assert Pipe(f.streams[e])[0] == f.streams[e].pump.value;
    assert Own(f.sys, e, f.streams[e].pump.value.id);
  }

  /** An ack settles a lease of its own entry, or nothing. */
  lemma AckSettlesOwn(s: State, t: State, e: EntryId, aid: string)
    requires Consistent(s) && e < |s.entries| && t == Ack(s, aid, true)
    requires aid in s.leases ==> s.leases[aid].worker == e
    ensures Leased(t.leases, e) == Leased(s.leases, e) - {aid}
    ensures aid in Leased(s.leases, e) ==> t.entries[e] == s.entries[e].(busy := true)
    ensures forall x: nat :: x < |s.entries| && x != e ==>
              t.entries[x] == s.entries[x] && Leased(t.leases, x) == Leased(s.leases, x)
  {
    LeasedAfterDrop(s.leases, aid, e);
    forall x: nat | x < |s.entries| && x != e ensures Leased(t.leases, x) == Leased(s.leases, x) {
      LeasedAfterDrop(s.leases, aid, x);
    }
  }

  lemma AckEffect(f: Fleet, g: Fleet, e: EntryId, aid: string)
    requires Sized(f) && Sized(g) && e < |f.streams| && |g.streams| == |f.streams|
    requires forall x: nat :: x < |f.streams| && x != e ==> g.streams[x] == f.streams[x]
    requires g.streams[e].expired == f.streams[e].expired && g.streams[e].stray == f.streams[e].stray
    requires g.sys.reg == Ack(f.sys.reg, aid, true)
    requires aid in f.sys.reg.leases ==> f.sys.reg.leases[aid].worker == e
    ensures Leased(g.sys.reg.leases, e) == Leased(f.sys.reg.leases, e) - {aid}
    ensures aid in Leased(f.sys.reg.leases, e) ==> g.sys.reg.entries[e] == f.sys.reg.entries[e].(busy := true)
    ensures IsFree(g.sys.reg, e) == IsFree(f.sys.reg, e)
    ensures NoLapse(g, e) ==> NoLapse(f, e)
    ensures forall x: nat :: x < |f.streams| && x != e && NoLapse(g, x) ==> SameView(f, g, x)
  {
    AckKeeps(f.sys.reg, aid, true);
    AckSettlesOwn(f.sys.reg, g.sys.reg, e, aid);
  }

  lemma OrderlyApplyAck(f: Fleet, e: EntryId)
    requires Orderly(f) && Honest(f) && Settled(f.sys)
    requires e < |f.streams| && CanApply(f.streams[e]) && f.streams[e].pump.value.AckMsg?
    ensures Orderly(Advance(f, Local(e, PumpApply)))
  {
    var g := Advance(f, Local(e, PumpApply));
    AckIsOwn(f, e);
    ApplyAckEffect(f, e);
    AckEffect(f, g, e, f.streams[e].pump.value.id);
    if NoLapse(g, e) {
      var p := PhaseOf(f, e);
      AckPhase(f.sys.reg.entries[e], IsFree(f.sys.reg, e), Leased(f.sys.reg.leases, e), f.streams[e], p);
      assert p.a.id in Leased(f.sys.reg.leases, e);
      assert At(g, e, Acked(p.a, p.done));
    }
    OrderlyElsewhere(f, g, e);
  }

  lemma OrderlyApplyFree(f: Fleet, e: EntryId)
    requires Orderly(f) && e < |f.streams| && AppliesFree(f.streams[e], PumpApply)
    ensures Orderly(Advance(f, Local(e, PumpApply)))
  {
    ApplyFreeEffect(f, e);
    OrderlyApplyFreeTo(f, Advance(f, Local(e, PumpApply)), e);
  }

  lemma OrderlyApplyFreeTo(f: Fleet, g: Fleet, e: EntryId)
    requires Orderly(f) && Sized(g) && e < |f.streams| && AppliesFree(f.streams[e], PumpApply)
    requires |g.streams| == |f.streams| && g.streams[e] == f.streams[e].(pump := None)
    requires g.sys.reg == MarkFree(f.sys.reg, f.sys.reg.entries[e].identity)
    requires forall x: nat :: x < |f.streams| && x != e ==>
               g.streams[x] == f.streams[x].(stray := f.streams[x].stray + Bit(StrayTarget(f, e, PumpApply) == Some(x)))
    ensures Orderly(g)
  {
    MarkFreeKeeps(f.sys.reg, f.sys.reg.entries[e].identity);
    if NoLapse(g, e) { FreesItself(f, g, e); }
    forall x: nat | x < |f.streams| && x != e && NoLapse(g, x) ensures SameView(f, g, x) { FreesNoOther(f, g, e, x); }
    OrderlyElsewhere(f, g, e);
  }

  /** A current entry's own slot-free brings it back to waiting. */
  lemma FreesItself(f: Fleet, g: Fleet, e: EntryId)
    requires Orderly(f) && Sized(g) && e < |f.streams| && AppliesFree(f.streams[e], PumpApply)
    requires |g.streams| == |f.streams| && g.streams[e] == f.streams[e].(pump := None)
    requires g.sys.reg == MarkFree(f.sys.reg, f.sys.reg.entries[e].identity)
    requires Current(f.sys.reg, e) && IsFree(g.sys.reg, e) && NoLapse(g, e)
    ensures At(g, e, Waiting)
  {
    var p := PhaseOf(f, e);
    FreePhase(f.sys.reg.entries[e], IsFree(f.sys.reg, e), Leased(f.sys.reg.leases, e), f.streams[e], p);
  }

  /** An entry that it frees besides the stream's own has then a stray signal. */
  lemma FreesNoOther(f: Fleet, g: Fleet, e: EntryId, x: EntryId)
    requires Sized(f) && Sized(g) && e < |f.streams| && AppliesFree(f.streams[e], PumpApply)
    requires |g.streams| == |f.streams| && x < |f.streams| && x != e && NoLapse(g, x)
    requires g.sys.reg == MarkFree(f.sys.reg, f.sys.reg.entries[e].identity)
    requires g.streams[x] == f.streams[x].(stray := f.streams[x].stray + Bit(StrayTarget(f, e, PumpApply) == Some(x)))
    ensures SameView(f, g, x)
  {
    MarkFreeKeeps(f.sys.reg, f.sys.reg.entries[e].identity);
  }

  lemma OrderlyLocal(f: Fleet, e: EntryId, act: Act)
    requires Orderly(f) && Honest(f) && Settled(f.sys)
    ensures Orderly(Advance(f, Local(e, act)))
  {
    if e >= |f.streams| {
    } else if LocalStep(f.streams[e], f.sys.reg.entries[e], e, act).None? {
      OrderlyQuiet(f, e, act);
    } else if act.HandlerTake? {
      OrderlyTake(f, e);
    } else if act.HandlerExit? {
      OrderlyExit(f, e);
    } else if f.streams[e].pump.value.AckMsg? {
      OrderlyApplyAck(f, e);
    } else {
      OrderlyApplyFree(f, e);
    }
  }

  lemma OrderlyReclaim(f: Fleet, ev: ReclaimEvent)
    requires Orderly(f)
    ensures Orderly(Advance(f, Reclaim(ev)))
  {
    var g := Advance(f, Reclaim(ev));
    assert g.streams == f.streams && g.sys.reg == f.sys.reg;
    OrderlyElsewhere(f, g, |f.streams|);
  }

  lemma OrderlyKeeps(f: Fleet, move: Move)
    requires Orderly(f) && Honest(f) && Settled(f.sys) && (move.Offer? ==> move.a.id !in f.sys.placed)
    ensures Orderly(Advance(f, move))
  {
    match move
    case Open(identity, tokenPool, first) => OrderlyOpen(f, identity, tokenPool, first);
    case Offer(dagVersion, a, pick) => OrderlyOffer(f, dagVersion, a, pick);
    case Local(e, act) => OrderlyLocal(f, e, act);
    case Expiry(aid) => OrderlyExpiry(f, aid);
    case Reclaim(ev) => OrderlyReclaim(f, ev);
  }

  /** Over every interleaving with fresh ids, every entry without a lapse is in a phase. */
  lemma {:induction false} AlwaysOrderly(moves: seq<Move>)
    requires FreshOffers(moves)
    ensures Honest(Run(moves)) && Orderly(Run(moves))
  {
    if moves != [] {
      var before, move := moves[..|moves| - 1], moves[|moves| - 1];
      assert before + [move] == moves;
      AlwaysOrderly(before);
      FleetSettles(before);
      FreshOffer(before, move, Run(before).sys);
      HonestKeeps(Run(before), move);
      OrderlyKeeps(Run(before), move);
    }
  }

  /** Until an entry is deregistered, and while no lease of it expired and no other stream
      freed it: it has exactly one slot, and is in exactly one of free, leased and busy. */
  lemma FreeLeasedBusyExclude(moves: seq<Move>, e: EntryId)
    requires FreshOffers(moves) && e < |Run(moves).streams| && NoLapse(Run(moves), e)
    ensures var f := Run(moves);
            var free, leased, busy := IsFree(f.sys.reg, e), Leased(f.sys.reg.leases, e) != {}, f.sys.reg.entries[e].busy;
            && Slots(f, e) == 1
            && Bit(free) + Bit(leased) + Bit(busy) == 1
            && |Leased(f.sys.reg.leases, e)| <= 1
  {
    AlwaysOrderly(moves);
    SlotAccounting(moves);
    var f := Run(moves);
    assert SlotBound(f, e);
    var p := PhaseOf(f, e);
  }

  lemma ExpiryAddsASlot(f: Fleet, e: EntryId, aid: string)
    requires Sized(f) && e < |f.streams| && Current(f.sys.reg, e)
    requires aid in Leased(f.sys.reg.leases, e) && !IsFree(f.sys.reg, e) && !f.sys.reg.entries[e].busy
    ensures var g := Advance(f, Expiry(aid));
            e < |g.streams| && Slots(g, e) == Slots(f, e) + 1 && IsFree(g.sys.reg, e)
  {
    ExpiryEffect(f, aid);
    ExpiryAddsASlotTo(f, Advance(f, Expiry(aid)), e, aid);
  }

  lemma ExpiryAddsASlotTo(f: Fleet, g: Fleet, e: EntryId, aid: string)
    requires Sized(f) && Sized(g) && e < |f.streams| && |g.streams| == |f.streams| && Current(f.sys.reg, e)
    requires LeasedTo(f.sys.reg, aid, e) && !IsFree(f.sys.reg, e) && !f.sys.reg.entries[e].busy
    requires g.sys.reg == Expire(f.sys.reg, aid) && Held(g.streams[e]) == Held(f.streams[e])
    ensures Slots(g, e) == Slots(f, e) + 1 && IsFree(g.sys.reg, e)
  {
    ExpireKeeps(f.sys.reg, aid);
  }

  /** The bound is tight: the first lease of an entry to expire always leaves it with two slots,
      free in the registry while its assignment is still on the way or running. */
  lemma FirstExpiryAddsASlot(moves: seq<Move>, e: EntryId, aid: string)
    requires FreshOffers(moves) && e < |Run(moves).streams| && NoLapse(Run(moves), e)
    requires aid in Leased(Run(moves).sys.reg.leases, e)
    ensures var g := Advance(Run(moves), Expiry(aid));
            e < |g.streams| && Slots(g, e) == 2 && IsFree(g.sys.reg, e)
  {
    FreeLeasedBusyExclude(moves, e);
    ExpiryAddsASlot(Run(moves), e, aid);
  }

  /** An entry without a lapse never bounces an assignment off an occupied channel. */
  lemma ChannelNeverOccupied(moves: seq<Move>, dagVersion: string, a: WorkAssignment, pick: string)
    requires Pickable(Run(moves).sys.reg, dagVersion, pick)
    ensures var reg := Run(moves).sys.reg;
            var e := reg.free[dagVersion][pick];
            && e < |Run(moves).streams|
            && (Run(moves).streams[e].expired + Run(moves).streams[e].stray == 0 ==> Assign(reg, dagVersion, a, pick).1)
  {
    SlotAccounting(moves);
    var f := Run(moves);
    AssignKeeps(f.sys.reg, dagVersion, a, pick);
    assert SlotBound(f, f.sys.reg.free[dagVersion][pick]);
  }

  // ---- one reader per identity ------------------------------------------------------

  /** Of the streams registered under one identity, only the newest still reads messages. */
  ghost predicate OneReaderEach(f: Fleet)
    requires Sized(f)
  {
    forall x: nat, y: nat :: x < y < |f.streams| && f.sys.reg.entries[x].identity == f.sys.reg.entries[y].identity ==>
      !f.streams[x].pumping
  }

  /** A stream opens only once nothing reads the identity's earlier streams any more. */
  ghost predicate OpensAfter(f: Fleet, move: Move)
    requires Sized(f)
  {
    move.Open? ==> forall x: nat :: x < |f.streams| && f.sys.reg.entries[x].identity == move.identity ==> !f.streams[x].pumping
  }

  ghost predicate TakesTurns(moves: seq<Move>)
  {
    moves != [] ==> TakesTurns(moves[..|moves| - 1]) && OpensAfter(Run(moves[..|moves| - 1]), moves[|moves| - 1])
  }

  ghost predicate NoStray(f: Fleet)
  {
    forall e: nat :: e < |f.streams| ==> f.streams[e].stray == 0
  }

  /** A slot-free signal strays only from a stream that is read although its identity has
      registered again. */
  lemma NoStrayTarget(f: Fleet, e: EntryId, act: Act)
    requires Sized(f) && OneReaderEach(f) && e < |f.streams|
    ensures StrayTarget(f, e, act).None?
  {
    var id := f.sys.reg.entries[e].identity;
    if id in f.sys.reg.workers && f.sys.reg.workers[id] != e {
      assert e < f.sys.reg.workers[id];
    }
  }

  lemma NoStrayKeeps(f: Fleet, move: Move)
    requires Sized(f) && OneReaderEach(f) && NoStray(f)
    ensures NoStray(Advance(f, move))
  {
    match move
    case Local(e, act) => if e < |f.streams| { NoStrayTarget(f, e, act); }
    case Open(_, _, _) =>
    case Offer(_, _, _) =>
    case Expiry(_) =>
    case Reclaim(_) =>
  }

  /** A stream that stopped reading does not start again. */
  lemma ReadingEnds(f: Fleet, move: Move, e: EntryId)
    requires Sized(f) && e < |f.streams|
    ensures e < |Advance(f, move).streams| && (!f.streams[e].pumping ==> !Advance(f, move).streams[e].pumping)
  {
  }

  lemma NewestOpens(f: Fleet, move: Move)
    requires Sized(f)
    ensures |Advance(f, move).streams| <= |f.streams| + 1
    ensures |Advance(f, move).streams| == |f.streams| + 1 ==>
              move.Open? && Advance(f, move).sys.reg.entries[|f.streams|].identity == move.identity
  {
  }

  lemma OneReaderKeeps(f: Fleet, move: Move)
    requires Sized(f) && OneReaderEach(f) && OpensAfter(f, move)
    ensures OneReaderEach(Advance(f, move))
  {
    var g := Advance(f, move);
    StreamsPersist(f, move);
    NewestOpens(f, move);
    forall x: nat, y: nat | x < y < |g.streams| && g.sys.reg.entries[x].identity == g.sys.reg.entries[y].identity
      ensures !g.streams[x].pumping
    {
      ReadingEnds(f, move, x);
    }
  }

  /** When the streams of an identity take turns, no slot-free signal strays, so only expiries
      widen the bound: however often workers reconnect. */
  lemma {:induction false} NothingStrays(moves: seq<Move>)
    requires TakesTurns(moves)
    ensures OneReaderEach(Run(moves)) && NoStray(Run(moves))
  {
    if moves != [] {
      var f, move := Run(moves[..|moves| - 1]), moves[|moves| - 1];
      NothingStrays(moves[..|moves| - 1]);
      NoStrayKeeps(f, move);
      OneReaderKeeps(f, move);
    }
  }

  lemma StreamsPersist(f: Fleet, move: Move)
    requires Sized(f)
    ensures |f.streams| <= |Advance(f, move).streams|
    ensures Persists(f.sys.reg, Advance(f, move).sys.reg)
  {
    var step := RegistryStep(f, move);
    if step.Some? { NextKeepsConsistent(f.sys, step.value); }
  }
}
