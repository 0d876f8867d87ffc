/** Registry, stream handlers and warm agents together: the AwaitAssignment handler
    with its one-slot channel and its receive goroutine
    (internal/agentrpc/await_assignment.go) and the agent's receive, ack, run,
    slot-free cycle (internal/agent/warm.go, serveAssignment).

    A process that dies, or a stream that breaks, simply takes no further step;
    whatever it held stays where it was. A message the receive goroutine has read
    but not yet applied is in `pump`, since the registry may change in between. */
module Fleet {
  import opened Wrappers
  import opened Registry
  import opened RegistrySystem

  datatype Message = AckMsg(id: string) | SlotFreeMsg

  datatype Agent = Idle | Holding(a: WorkAssignment) | Running(a: WorkAssignment)

  /** One AwaitAssignment stream, the one that registered the entry of the same index.
      `expired` counts the entry's leases that expired, `stray` the times another
      stream's slot-free signal was applied to it. */
  datatype Stream = Stream(
    serving: bool, hand: Option<WorkAssignment>, down: seq<WorkAssignment>, agent: Agent,
    up: seq<Message>, pump: Option<Message>, pumping: bool, expired: nat, stray: nat)

  const Opened := Stream(true, None, [], Idle, [], None, true, 0, 0)

  datatype Fleet = Fleet(sys: System, streams: seq<Stream>)

  const Start := Fleet(RegistrySystem.Start, [])

  /** What one stream's handler, agent or receive goroutine does next. */
  datatype Act =
    | HandlerTake | HandlerSend | HandlerExit
    | AgentReceive | AgentAck | AgentFinish
    | PumpRead | PumpApply | PumpStop

  datatype Move =
    | Open(identity: string, tokenPool: string, first: FirstMessage)
    | Offer(dagVersion: string, a: WorkAssignment, pick: string)
    | Local(e: EntryId, act: Act)
    | Expiry(aid: string)
    | Reclaim(event: ReclaimEvent)

  // ---- the moves -------------------------------------------------------------

  predicate CanTake(st: Stream, send: Option<WorkAssignment>)
  {
    st.serving && st.hand.None? && send.Some?
  }

  predicate CanApply(st: Stream)
  {
    st.pumping && st.pump.Some?
  }

  /** One stream's own change; an action that is not enabled changes nothing. */
  function Moved(st: Stream, send: Option<WorkAssignment>, act: Act): Stream
  {
    match act
    case HandlerTake => if CanTake(st, send) then st.(hand := send) else st
    case HandlerSend =>
      if st.serving && st.hand.Some? then st.(hand := None, down := st.down + [st.hand.value]) else st
    case HandlerExit => st.(serving := false)
    case AgentReceive =>
      if st.agent.Idle? && st.down != [] then st.(agent := Holding(st.down[0]), down := st.down[1..]) else st
    case AgentAck =>
      if st.agent.Holding? then st.(agent := Running(st.agent.a), up := st.up + [AckMsg(st.agent.a.id)]) else st
    case AgentFinish =>
      if st.agent.Running? then st.(agent := Idle, up := st.up + [SlotFreeMsg]) else st
    case PumpRead =>
      if st.pumping && st.pump.None? && st.up != [] then st.(pump := Some(st.up[0]), up := st.up[1..]) else st
    case PumpApply => if CanApply(st) then st.(pump := None) else st
    case PumpStop => st.(pumping := false)
  }

  /** A handler that exited takes and sends nothing more, and a receive goroutine that stopped reads
      and applies nothing more, whatever comes. */
  lemma StoppedForGood(st: Stream, send: Option<WorkAssignment>, act: Act)
    ensures !Moved(st, send, HandlerExit).serving && !Moved(st, send, PumpStop).pumping
    ensures !st.serving ==> !Moved(st, send, act).serving && Moved(st, send, HandlerTake) == st == Moved(st, send, HandlerSend)
    ensures !st.pumping ==> !Moved(st, send, act).pumping && Moved(st, send, PumpRead) == st == Moved(st, send, PumpApply)
  {
  }

  /** The wire keeps order and loses nothing: what the handler sends is received, and what the agent
      sends is read, first in first out. */
  lemma FirstInFirstOut(st: Stream, send: Option<WorkAssignment>)
    ensures st.serving && st.hand.Some? ==>
              Moved(st, send, HandlerSend).down == st.down + [st.hand.value] && Moved(st, send, HandlerSend).hand.None?
    ensures st.agent.Idle? && st.down != [] ==>
              var t := Moved(st, send, AgentReceive); t.agent == Holding(st.down[0]) && [st.down[0]] + t.down == st.down
    ensures st.pumping && st.pump.None? && st.up != [] ==>
              var t := Moved(st, send, PumpRead); t.pump == Some(st.up[0]) && [st.up[0]] + t.up == st.up
    ensures st.agent.Holding? ==> Moved(st, send, AgentAck).up == st.up + [AckMsg(st.agent.a.id)]
    ensures st.agent.Running? ==> Moved(st, send, AgentFinish).up == st.up + [SlotFreeMsg]
  {
  }

  /** The registry step an action performs, if it performs one. */
  function LocalStep(st: Stream, w: Entry, e: EntryId, act: Act): Option<Step>
  {
    match act
    case HandlerTake => if CanTake(st, w.send) then Some(HandlerTakes(e)) else None
    case HandlerExit => if st.serving then Some(StreamEnds(e)) else None
    case PumpApply =>
      if !CanApply(st) then None
      else if st.pump.value.SlotFreeMsg? then Some(WorkerFrees(w.identity))
      else Some(WorkerAcks(st.pump.value.id, true))
    case _ => None
  }

  function RegistryStep(f: Fleet, move: Move): Option<Step>
    requires |f.streams| == |f.sys.reg.entries|
  {
    match move
    case Open(identity, tokenPool, first) => Some(Connect(identity, tokenPool, first))
    case Offer(dagVersion, a, pick) => Some(Place(dagVersion, a, pick))
    case Local(e, act) => if e < |f.streams| then LocalStep(f.streams[e], f.sys.reg.entries[e], e, act) else None
    case Expiry(aid) => Some(LeaseTimer(aid))
    case Reclaim(ev) => Some(Observe(ev))
  }

  /** The entry, other than its own, that stream e's slot-free signal frees when applied. */
  ghost function StrayTarget(f: Fleet, e: EntryId, act: Act): (w: Option<EntryId>)
    requires Sized(f) && e < |f.streams|
    ensures w.Some? ==> w.value < |f.streams| && w.value != e
  {
    var id := f.sys.reg.entries[e].identity;
    if && act.PumpApply? && CanApply(f.streams[e]) && f.streams[e].pump.value.SlotFreeMsg?
       && id in f.sys.reg.workers && f.sys.reg.workers[id] != e
    then Some(f.sys.reg.workers[id])
    else None
  }

  ghost function StreamsAfter(f: Fleet, move: Move): seq<Stream>
    requires Sized(f)
  {
    match move
    case Open(_, tokenPool, first) => if Refusal(tokenPool, first).Some? then f.streams else f.streams + [Opened]
    case Offer(_, _, _) => f.streams
    case Local(e, act) =>
      if e >= |f.streams| then f.streams
      else
        var after := f.streams[e := Moved(f.streams[e], f.sys.reg.entries[e].send, act)];
        var w := StrayTarget(f, e, act);
        if w.None? then after else after[w.value := after[w.value].(stray := after[w.value].stray + 1)]
    case Expiry(aid) =>
      if aid !in f.sys.reg.leases then f.streams
      else
        var e := f.sys.reg.leases[aid].worker;
        f.streams[e := f.streams[e].(expired := f.streams[e].expired + 1)]
    case Reclaim(_) => f.streams
  }

  ghost predicate Sized(f: Fleet)
  {
    |f.streams| == |f.sys.reg.entries| && Consistent(f.sys.reg)
  }

  ghost function SysAfter(f: Fleet, move: Move): System
    requires Sized(f)
  {
    var step := RegistryStep(f, move);
    if step.Some? then Next(f.sys, step.value) else f.sys
  }

  ghost function Advance(f: Fleet, move: Move): (g: Fleet)
    requires Sized(f)
    ensures Sized(g)
  {
    AdvanceSized(f, move);
    Fleet(SysAfter(f, move), StreamsAfter(f, move))
  }

  lemma AdvanceSized(f: Fleet, move: Move)
    requires Sized(f)
    ensures Consistent(SysAfter(f, move).reg) && |StreamsAfter(f, move)| == |SysAfter(f, move).reg.entries|
  {
    var step := RegistryStep(f, move);
    if step.Some? {
      NextKeepsConsistent(f.sys, step.value);
      EntriesGrowOnConnect(f.sys, step.value);
    }
  }

  ghost function Run(moves: seq<Move>): (f: Fleet)
    ensures Sized(f)
  {
    if moves == [] then Start else Advance(Run(moves[..|moves| - 1]), moves[|moves| - 1])
  }

  /** The placer offers each assignment id at most once. */
  ghost predicate FreshOffers(moves: seq<Move>)
  {
    forall i, j :: 0 <= i < j < |moves| && moves[i].Offer? && moves[j].Offer? ==> moves[i].a.id != moves[j].a.id
  }

  ghost predicate Offered(moves: seq<Move>, aid: string)
  {
    exists j :: 0 <= j < |moves| && moves[j].Offer? && moves[j].a.id == aid
  }

  lemma OfferedLonger(moves: seq<Move>, aid: string)
    requires moves != [] && Offered(moves[..|moves| - 1], aid)
    ensures Offered(moves, aid)
  {
    var j :| 0 <= j < |moves| - 1 && moves[..|moves| - 1][j].Offer? && moves[..|moves| - 1][j].a.id == aid;
    assert moves[j].Offer? && moves[j].a.id == aid;
  }

  /** Every fleet run drives the registry as a run of the registry system, so what is
      proved of every such run holds here. */
  lemma {:induction false} FleetDrivesRegistry(moves: seq<Move>) returns (steps: seq<Step>)
    ensures Run(moves).sys == Exec(steps)
  {
    if moves == [] {
      steps := [];
    } else {
      var f, move := Run(moves[..|moves| - 1]), moves[|moves| - 1];
      steps := FleetDrivesRegistry(moves[..|moves| - 1]);
      var step := RegistryStep(f, move);
      if step.Some? {
        var more := steps + [step.value];
        assert more[..|more| - 1] == steps;
        steps := more;
      }
    }
  }

  ghost predicate AllOffered(moves: seq<Move>, sys: System)
  {
    forall aid :: aid in sys.placed ==> Offered(moves, aid)
  }

  lemma AllOfferedKeeps(moves: seq<Move>, f: Fleet, move: Move)
    requires Sized(f) && AllOffered(moves, f.sys)
    ensures AllOffered(moves + [move], SysAfter(f, move))
  {
    var more := moves + [move];
    assert more[..|more| - 1] == moves;
    var step := RegistryStep(f, move);
    if step.Some? { PlacedAfter(f.sys, step.value); }
    forall aid | aid in SysAfter(f, move).placed ensures Offered(more, aid) {
      if aid in f.sys.placed {
        OfferedLonger(more, aid);
      } else {
        assert more[|moves|].Offer? && more[|moves|].a.id == aid;
      }
    }
  }

  /** With fresh offers, settlement holds along every fleet run. */
  lemma {:induction false} FleetSettles(moves: seq<Move>)
    requires FreshOffers(moves)
    ensures PodsKnown(Run(moves).sys) && Settled(Run(moves).sys) && AllOffered(moves, Run(moves).sys)
  {
    if moves != [] {
      var before, move := moves[..|moves| - 1], moves[|moves| - 1];
      assert before + [move] == moves;
      FreshOffersBefore(before, move);
      FleetSettles(before);
      FleetSettlesNext(before, move, Run(before));
    }
  }

  lemma FreshOffersBefore(before: seq<Move>, move: Move)
    requires FreshOffers(before + [move])
    ensures FreshOffers(before)
  {
    var moves := before + [move];
    forall i, j | 0 <= i < j < |before| && before[i].Offer? && before[j].Offer? ensures before[i].a.id != before[j].a.id {
      assert moves[i] == before[i] && moves[j] == before[j];
    }
  }

  lemma FleetSettlesNext(before: seq<Move>, move: Move, f: Fleet)
    requires Sized(f) && FreshOffers(before + [move]) && PodsKnown(f.sys) && Settled(f.sys) && AllOffered(before, f.sys)
    ensures PodsKnown(SysAfter(f, move)) && Settled(SysAfter(f, move)) && AllOffered(before + [move], SysAfter(f, move))
  {
    FreshOffer(before, move, f.sys);
    AllOfferedKeeps(before, f, move);
    FleetSettleStep(f, move);
  }

  lemma FleetSettleStep(f: Fleet, move: Move)
    requires Sized(f) && PodsKnown(f.sys) && Settled(f.sys) && (move.Offer? ==> move.a.id !in f.sys.placed)
    ensures PodsKnown(SysAfter(f, move)) && Settled(SysAfter(f, move))
  {
    var step := RegistryStep(f, move);
    if step.Some? {
      PodsKeep(f.sys, step.value);
      SettleKeeps(f.sys, step.value);
    }
  }

  lemma FreshOffer(before: seq<Move>, move: Move, sys: System)
    requires FreshOffers(before + [move]) && AllOffered(before, sys)
    ensures move.Offer? ==> move.a.id !in sys.placed
  {
    var moves := before + [move];
    forall j | 0 <= j < |before| && before[j].Offer? && move.Offer? ensures before[j].a.id != move.a.id {
      assert moves[j] == before[j] && moves[|before|] == move;
    }
  }

  // ---- slots -----------------------------------------------------------------

  function Bit(b: bool): nat
  {
    if b then 1 else 0
  }

  /** The upward messages not yet applied, oldest first. */
  function Pipe(st: Stream): seq<Message>
  {
    (if st.pump.Some? then [st.pump.value] else []) + st.up
  }

  function SlotFrees(ms: seq<Message>): nat
  {
    if ms == [] then 0 else Bit(ms[0].SlotFreeMsg?) + SlotFrees(ms[1..])
  }

  lemma {:induction false} SlotFreesAppend(ms: seq<Message>, m: Message)
    ensures SlotFrees(ms + [m]) == SlotFrees(ms) + Bit(m.SlotFreeMsg?)
  {
    if ms != [] {
      assert (ms + [m])[1..] == ms[1..] + [m];
      SlotFreesAppend(ms[1..], m);
    }
  }

  /** What a stream still holds: assignments in the handler's hand, on the wire or with the
      agent, and slot-free signals on their way back. */
  function Held(st: Stream): nat
  {
    Bit(st.hand.Some?) + |st.down| + Bit(!st.agent.Idle?) + SlotFrees(Pipe(st))
  }

  /** Entry e's slots: free in the registry, an assignment in its channel, or held. */
  ghost function Slots(f: Fleet, e: EntryId): nat
    requires Sized(f) && e < |f.streams|
  {
    Bit(IsFree(f.sys.reg, e)) + Bit(f.sys.reg.entries[e].send.Some?) + Held(f.streams[e])
  }

  ghost predicate SlotBound(f: Fleet, e: EntryId)
    requires Sized(f) && e < |f.streams|
  {
    && Slots(f, e) <= 1 + f.streams[e].expired + f.streams[e].stray
    && (Current(f.sys.reg, e) ==> Slots(f, e) >= 1)
  }

  ghost predicate SlotsAccounted(f: Fleet)
  {
    Sized(f) && forall e: nat :: e < |f.streams| ==> SlotBound(f, e)
  }

  predicate AppliesFree(st: Stream, act: Act)
  {
    act.PumpApply? && CanApply(st) && st.pump.value.SlotFreeMsg?
  }

  lemma PipeAfter(st: Stream, send: Option<WorkAssignment>, act: Act)
    ensures var after := Moved(st, send, act);
            Pipe(after) ==
            if act.AgentAck? && st.agent.Holding? then Pipe(st) + [AckMsg(st.agent.a.id)]
            else if act.AgentFinish? && st.agent.Running? then Pipe(st) + [SlotFreeMsg]
            else if act.PumpApply? && CanApply(st) then Pipe(st)[1..]
            else Pipe(st)
  {
  }

  lemma HeldAfter(st: Stream, send: Option<WorkAssignment>, act: Act)
    ensures Held(Moved(st, send, act)) ==
            Held(st) + Bit(act.HandlerTake? && CanTake(st, send)) - Bit(AppliesFree(st, act))
  {
    PipeAfter(st, send, act);
    if act.AgentAck? && st.agent.Holding? {
      SlotFreesAppend(Pipe(st), AckMsg(st.agent.a.id));
    } else if act.AgentFinish? && st.agent.Running? {
      SlotFreesAppend(Pipe(st), SlotFreeMsg);
    }
  }

  lemma SlotsOpen(f: Fleet, identity: string, tokenPool: string, first: FirstMessage)
    requires SlotsAccounted(f)
    ensures SlotsAccounted(Advance(f, Open(identity, tokenPool, first)))
  {
    if Refusal(tokenPool, first).None? {
      var g := Advance(f, Open(identity, tokenPool, first));
      RegisterKeeps(f.sys.reg, identity, first.dagVersion, first.podName);
      forall e: nat | e < |g.streams| ensures SlotBound(g, e) {
        if e < |f.streams| { assert SlotBound(f, e); }
      }
    }
  }

  lemma SlotsOffer(f: Fleet, dagVersion: string, a: WorkAssignment, pick: string)
    requires SlotsAccounted(f)
    ensures SlotsAccounted(Advance(f, Offer(dagVersion, a, pick)))
  {
    if Pickable(f.sys.reg, dagVersion, pick) {
      var g := Advance(f, Offer(dagVersion, a, pick));
      AssignKeeps(f.sys.reg, dagVersion, a, pick);
      forall e: nat | e < |g.streams| ensures SlotBound(g, e) { assert SlotBound(f, e); }
    }
  }

  // What one move changes, for the lemmas that follow: they speak of the two states only.

  /** Which registry step a move from outside performs: always its own. */
  lemma OuterMoves(f: Fleet, move: Move)
    requires Sized(f) && !move.Local?
    ensures var t := Advance(f, move).sys;
            match move
            case Open(identity, tokenPool, first) => t == Next(f.sys, Connect(identity, tokenPool, first))
            case Offer(dagVersion, a, pick) => t == Next(f.sys, Place(dagVersion, a, pick))
            case Expiry(aid) => t == Next(f.sys, LeaseTimer(aid))
            case Reclaim(ev) => t == Next(f.sys, Observe(ev))
            case Local(_, _) => true
  {
  }

  /** A stream that is not refused is served and read, with nothing on its way. */
  lemma OpenEffect(f: Fleet, identity: string, tokenPool: string, first: FirstMessage)
    requires Sized(f)
    ensures var g := Advance(f, Open(identity, tokenPool, first));
            if Refusal(tokenPool, first).Some? then g.streams == f.streams
            else g.streams == f.streams + [Stream(true, None, [], Idle, [], None, true, 0, 0)]
  {
  }

  lemma ExpiryEffect(f: Fleet, aid: string)
    requires Sized(f)
    ensures var g := Advance(f, Expiry(aid));
            && g.sys.reg == Expire(f.sys.reg, aid) && |g.streams| == |f.streams|
            && forall x: nat :: x < |f.streams| ==>
                 g.streams[x] == f.streams[x].(expired := f.streams[x].expired + Bit(LeasedTo(f.sys.reg, aid, x)))
  {
  }

  predicate LeasedTo(reg: State, aid: string, e: EntryId)
  {
    aid in reg.leases && reg.leases[aid].worker == e
  }

  lemma TakeEffect(f: Fleet, e: EntryId)
    requires Sized(f) && e < |f.streams| && CanTake(f.streams[e], f.sys.reg.entries[e].send)
    ensures var g := Advance(f, Local(e, HandlerTake));
            && g.sys.reg == Drain(f.sys.reg, e) && g.sys.placed == f.sys.placed
            && g.streams == f.streams[e := Moved(f.streams[e], f.sys.reg.entries[e].send, HandlerTake)]
  {
  }

  lemma ExitEffect(f: Fleet, e: EntryId)
    requires Sized(f) && e < |f.streams| && f.streams[e].serving
    ensures var g := Advance(f, Local(e, HandlerExit));
            && g.sys.reg == Deregister(f.sys.reg, e) && g.sys.placed == f.sys.placed
            && g.streams == f.streams[e := Moved(f.streams[e], f.sys.reg.entries[e].send, HandlerExit)]
  {
  }

  lemma ApplyAckEffect(f: Fleet, e: EntryId)
    requires Sized(f) && e < |f.streams| && CanApply(f.streams[e]) && f.streams[e].pump.value.AckMsg?
    ensures var g := Advance(f, Local(e, PumpApply));
            && g.sys.reg == Ack(f.sys.reg, f.streams[e].pump.value.id, true) && g.sys.placed == f.sys.placed
            && g.streams == f.streams[e := Moved(f.streams[e], f.sys.reg.entries[e].send, PumpApply)]
  {
  }

  /** Nothing that counts for entry x's slots changed. */
  ghost predicate SameSlots(f: Fleet, g: Fleet, x: EntryId)
    requires Sized(f) && Sized(g) && x < |f.streams| && x < |g.streams|
  {
    && IsFree(g.sys.reg, x) == IsFree(f.sys.reg, x) && Current(g.sys.reg, x) == Current(f.sys.reg, x)
    && g.sys.reg.entries[x].send == f.sys.reg.entries[x].send
    && Held(g.streams[x]) == Held(f.streams[x])
    && g.streams[x].expired == f.streams[x].expired && g.streams[x].stray == f.streams[x].stray
  }

  lemma SlotsElsewhere(f: Fleet, g: Fleet, e: EntryId)
    requires SlotsAccounted(f) && Sized(g) && |g.streams| == |f.streams|
    requires forall x: nat :: x < |f.streams| && x != e ==> SameSlots(f, g, x)
    requires e < |f.streams| ==> SlotBound(g, e)
    ensures SlotsAccounted(g)
  {
    forall x: nat | x < |g.streams| ensures SlotBound(g, x) {
      assert SlotBound(f, x);
      if x != e { assert SameSlots(f, g, x); }
    }
  }

  lemma SlotsExpiryTo(f: Fleet, g: Fleet, aid: string)
    requires SlotsAccounted(f) && Sized(g) && g.sys.reg == Expire(f.sys.reg, aid) && |g.streams| == |f.streams|
    requires forall x: nat :: x < |f.streams| ==>
               g.streams[x] == f.streams[x].(expired := f.streams[x].expired + Bit(LeasedTo(f.sys.reg, aid, x)))
    ensures SlotsAccounted(g)
  {
    ExpireKeeps(f.sys.reg, aid);
    forall e: nat | e < |g.streams| ensures SlotBound(g, e) { assert SlotBound(f, e); }
  }

  lemma SlotsExpiry(f: Fleet, aid: string)
    requires SlotsAccounted(f)
    ensures SlotsAccounted(Advance(f, Expiry(aid)))
  {
    ExpiryEffect(f, aid);
    SlotsExpiryTo(f, Advance(f, Expiry(aid)), aid);
  }

  lemma SlotsTake(f: Fleet, e: EntryId)
    requires SlotsAccounted(f) && e < |f.streams| && CanTake(f.streams[e], f.sys.reg.entries[e].send)
    ensures SlotsAccounted(Advance(f, Local(e, HandlerTake)))
  {
    TakeEffect(f, e);
    SlotsTakeTo(f, Advance(f, Local(e, HandlerTake)), e);
  }

  lemma SlotsTakeTo(f: Fleet, g: Fleet, e: EntryId)
    requires SlotsAccounted(f) && Sized(g) && e < |f.streams| && CanTake(f.streams[e], f.sys.reg.entries[e].send)
    requires g.sys.reg == Drain(f.sys.reg, e)
    requires g.streams == f.streams[e := Moved(f.streams[e], f.sys.reg.entries[e].send, HandlerTake)]
    ensures SlotsAccounted(g)
  {
    DrainKeeps(f.sys.reg, e);
    HeldAfter(f.streams[e], f.sys.reg.entries[e].send, HandlerTake);
    assert SlotBound(f, e);
    SlotsElsewhere(f, g, e);
  }

  lemma SlotsExit(f: Fleet, e: EntryId)
    requires SlotsAccounted(f) && e < |f.streams| && f.streams[e].serving
    ensures SlotsAccounted(Advance(f, Local(e, HandlerExit)))
  {
    ExitEffect(f, e);
    SlotsExitTo(f, Advance(f, Local(e, HandlerExit)), e);
  }

  lemma SlotsExitTo(f: Fleet, g: Fleet, e: EntryId)
    requires SlotsAccounted(f) && Sized(g) && e < |f.streams| && g.sys.reg == Deregister(f.sys.reg, e)
    requires g.streams == f.streams[e := Moved(f.streams[e], f.sys.reg.entries[e].send, HandlerExit)]
    ensures SlotsAccounted(g)
  {
    DeregisterKeeps(f.sys.reg, e);
    HeldAfter(f.streams[e], f.sys.reg.entries[e].send, HandlerExit);
    assert SlotBound(f, e);
    SlotsElsewhere(f, g, e);
  }

  lemma SlotsApplyAck(f: Fleet, e: EntryId)
    requires SlotsAccounted(f) && e < |f.streams| && CanApply(f.streams[e]) && f.streams[e].pump.value.AckMsg?
    ensures SlotsAccounted(Advance(f, Local(e, PumpApply)))
  {
    ApplyAckEffect(f, e);
    SlotsApplyAckTo(f, Advance(f, Local(e, PumpApply)), e, f.streams[e].pump.value.id);
  }

  lemma SlotsApplyAckTo(f: Fleet, g: Fleet, e: EntryId, aid: string)
    requires SlotsAccounted(f) && Sized(g) && e < |f.streams| && CanApply(f.streams[e]) && f.streams[e].pump.value.AckMsg?
    requires g.sys.reg == Ack(f.sys.reg, aid, true)
    requires g.streams == f.streams[e := Moved(f.streams[e], f.sys.reg.entries[e].send, PumpApply)]
    ensures SlotsAccounted(g)
  {
    AckKeeps(f.sys.reg, aid, true);
    HeldAfter(f.streams[e], f.sys.reg.entries[e].send, PumpApply);
    assert SlotBound(f, e);
    SlotsElsewhere(f, g, e);
  }

  /** Applying a slot-free signal: the current entry of the identity becomes free, and if
      that is another stream's entry, the signal is counted as stray there. */
  lemma ApplyFreeEffect(f: Fleet, e: EntryId)
    requires Sized(f) && e < |f.streams| && AppliesFree(f.streams[e], PumpApply)
    ensures var g := Advance(f, Local(e, PumpApply));
            && |g.streams| == |f.streams| && g.sys.placed == f.sys.placed
            && g.streams[e] == f.streams[e].(pump := None)
            && g.sys.reg == MarkFree(f.sys.reg, f.sys.reg.entries[e].identity)
            && forall x: nat :: x < |f.streams| && x != e ==>
                 g.streams[x] == f.streams[x].(stray := f.streams[x].stray + Bit(StrayTarget(f, e, PumpApply) == Some(x)))
  {
  }

  lemma SlotsApplyFree(f: Fleet, e: EntryId)
    requires SlotsAccounted(f) && e < |f.streams| && AppliesFree(f.streams[e], PumpApply)
    ensures SlotsAccounted(Advance(f, Local(e, PumpApply)))
  {
    ApplyFreeEffect(f, e);
    SlotsApplyFreeTo(f, Advance(f, Local(e, PumpApply)), e);
  }

  lemma SlotsApplyFreeTo(f: Fleet, g: Fleet, e: EntryId)
    requires SlotsAccounted(f) && Sized(g) && e < |f.streams| && AppliesFree(f.streams[e], PumpApply)
    requires |g.streams| == |f.streams| && g.streams[e] == f.streams[e].(pump := None)
    requires g.sys.reg == MarkFree(f.sys.reg, f.sys.reg.entries[e].identity)
    requires forall x: nat :: x < |f.streams| && x != e ==>
               g.streams[x] == f.streams[x].(stray := f.streams[x].stray + Bit(StrayTarget(f, e, PumpApply) == Some(x)))
    ensures SlotsAccounted(g)
  {
    MarkFreeKeeps(f.sys.reg, f.sys.reg.entries[e].identity);
    HeldAfter(f.streams[e], f.sys.reg.entries[e].send, PumpApply);
    forall x: nat | x < |g.streams| ensures SlotBound(g, x) { assert SlotBound(f, x); }
  }

  lemma SlotsQuiet(f: Fleet, e: EntryId, act: Act)
    requires SlotsAccounted(f) && e < |f.streams|
    requires LocalStep(f.streams[e], f.sys.reg.entries[e], e, act).None?
    ensures SlotsAccounted(Advance(f, Local(e, act)))
  {
    QuietEffect(f, e, act);
    SlotsQuietTo(f, Advance(f, Local(e, act)), e, act);
  }

  lemma QuietEffect(f: Fleet, e: EntryId, act: Act)
    requires Sized(f) && e < |f.streams| && LocalStep(f.streams[e], f.sys.reg.entries[e], e, act).None?
    ensures var g := Advance(f, Local(e, act));
            g.sys == f.sys && g.streams == f.streams[e := Moved(f.streams[e], f.sys.reg.entries[e].send, act)]
  {
  }

  lemma SlotsQuietTo(f: Fleet, g: Fleet, e: EntryId, act: Act)
    requires SlotsAccounted(f) && Sized(g) && e < |f.streams|
    requires LocalStep(f.streams[e], f.sys.reg.entries[e], e, act).None?
    requires g.sys == f.sys && g.streams == f.streams[e := Moved(f.streams[e], f.sys.reg.entries[e].send, act)]
    ensures SlotsAccounted(g)
  {
    HeldAfter(f.streams[e], f.sys.reg.entries[e].send, act);
    assert SlotBound(f, e);
    SlotsElsewhere(f, g, e);
  }

  lemma SlotsKeep(f: Fleet, move: Move)
    requires SlotsAccounted(f)
    ensures SlotsAccounted(Advance(f, move))
  {
    match move
    case Open(identity, tokenPool, first) => SlotsOpen(f, identity, tokenPool, first);
    case Offer(dagVersion, a, pick) => SlotsOffer(f, dagVersion, a, pick);
    case Expiry(aid) => SlotsExpiry(f, aid);
    case Reclaim(ev) => SlotsReclaim(f, ev);
    case Local(e, act) =>
      if e >= |f.streams| {
      } else if LocalStep(f.streams[e], f.sys.reg.entries[e], e, act).None? {
        SlotsQuiet(f, e, act);
      } else if act.HandlerTake? {
        SlotsTake(f, e);
      } else if act.HandlerExit? {
        SlotsExit(f, e);
      } else if f.streams[e].pump.value.AckMsg? {
        SlotsApplyAck(f, e);
      } else {
        SlotsApplyFree(f, e);
      }
  }

  lemma SlotsReclaim(f: Fleet, ev: ReclaimEvent)
    requires SlotsAccounted(f)
    ensures SlotsAccounted(Advance(f, Reclaim(ev)))
  {
    var g := Advance(f, Reclaim(ev));
    forall x: nat | x < |g.streams| ensures SlotBound(g, x) { assert SlotBound(f, x); }
  }

  /** Slot accounting, over every interleaving. */
  lemma {:induction false} SlotAccounting(moves: seq<Move>)
    ensures SlotsAccounted(Run(moves))
  {
    if moves != [] {
      SlotAccounting(moves[..|moves| - 1]);
      SlotsKeep(Run(moves[..|moves| - 1]), moves[|moves| - 1]);
    }
  }
}
