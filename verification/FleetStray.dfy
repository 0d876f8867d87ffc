/** A slot-free signal that frees another stream's worker: an identity registers again while its
    older stream is still read (internal/agentrpc/await_assignment.go, pumpWorkerMessages, and
    MarkFree of internal/agentrpc/worker_registry.go, which goes by identity).

    The run is built move by move; every lemma takes a run and returns it with its moves added. */
module FleetStray {
  import opened Wrappers
  import opened Registry
  import opened RegistrySystem
  import opened Fleet

  const FIRST := WorkAssignment("1", "run", "task", 1)
  const SECOND := WorkAssignment("2", "run", "other", 1)

  // ---- single moves ---------------------------------------------------------------------------

  ghost predicate Is(moves: seq<Move>, reg: State, streams: seq<Stream>)
  {
    Run(moves).sys.reg == reg && Run(moves).streams == streams
  }

  lemma Next(moves: seq<Move>, move: Move) returns (more: seq<Move>)
    ensures moves <= more && Run(more) == Advance(Run(moves), move)
  {
    more := moves + [move];
    assert more[..|moves|] == moves;
  }

  lemma Quietly(moves: seq<Move>, reg: State, streams: seq<Stream>, e: EntryId, act: Act, st: Stream) returns (more: seq<Move>)
    requires Is(moves, reg, streams) && e < |streams| == |reg.entries| && LocalStep(streams[e], reg.entries[e], e, act).None?
    requires st == Moved(streams[e], reg.entries[e].send, act)
    ensures moves <= more && Is(more, reg, streams[e := st])
  {
    more := Next(moves, Local(e, act));
    QuietEffect(Run(moves), e, act);
  }

  lemma Takes(moves: seq<Move>, reg: State, streams: seq<Stream>, e: EntryId) returns (more: seq<Move>)
    requires Is(moves, reg, streams) && e < |streams| == |reg.entries| && CanTake(streams[e], reg.entries[e].send)
    ensures moves <= more && Is(more, Drain(reg, e), streams[e := streams[e].(hand := reg.entries[e].send)])
  {
    more := Next(moves, Local(e, HandlerTake));
    TakeEffect(Run(moves), e);
  }

  lemma Acked(moves: seq<Move>, reg: State, streams: seq<Stream>, e: EntryId, aid: string) returns (more: seq<Move>)
    requires Is(moves, reg, streams) && e < |streams| == |reg.entries| && InBounds(reg)
    requires CanApply(streams[e]) && streams[e].pump.value == AckMsg(aid)
    ensures moves <= more && Is(more, Ack(reg, aid, true), streams[e := streams[e].(pump := None)])
  {
    var f := Run(moves);
    more := Next(moves, Local(e, PumpApply));
    ApplyAckEffect(f, e);
    AckedTo(f, Advance(f, Local(e, PumpApply)), e, aid);
  }

  lemma AckedTo(f: Fleet, g: Fleet, e: EntryId, aid: string)
    requires Sized(f) && e < |f.streams| && CanApply(f.streams[e]) && f.streams[e].pump.value == AckMsg(aid)
    requires g.streams == f.streams[e := Moved(f.streams[e], f.sys.reg.entries[e].send, PumpApply)]
    ensures g.streams == f.streams[e := f.streams[e].(pump := None)]
  {
  }

  lemma Connects(moves: seq<Move>, reg: State, streams: seq<Stream>) returns (more: seq<Move>)
    requires Is(moves, reg, streams) && InBounds(reg)
    ensures moves <= more && Is(more, Register(reg, "w", "d", "pod"), streams + [Opened])
  {
    more := Next(moves, Open("w", "d", WorkerRegister("d", "pod")));
  }

  lemma Offered(moves: seq<Move>, reg: State, streams: seq<Stream>, a: WorkAssignment) returns (more: seq<Move>)
    requires Is(moves, reg, streams) && InBounds(reg) && Pickable(reg, "d", "w")
    ensures moves <= more && Is(more, Assign(reg, "d", a, "w").0, streams)
  {
    more := Next(moves, Offer("d", a, "w"));
  }

  /** A slot-free of stream 0 when entry 1 is the identity's current one. */
  lemma Strays(moves: seq<Move>, reg: State, elder: Stream, younger: Stream) returns (more: seq<Move>)
    requires Is(moves, reg, [elder, younger]) && |reg.entries| == 2 && InBounds(reg)
    requires AppliesFree(elder, PumpApply) && reg.entries[0].identity == "w" && "w" in reg.workers && reg.workers["w"] == 1
    ensures moves <= more && Is(more, MarkFree(reg, "w"), [elder.(pump := None), younger.(stray := younger.stray + 1)])
  {
    more := Next(moves, Local(0, PumpApply));
    ApplyFreeEffect(Run(moves), 0);
    assert StrayTarget(Run(moves), 0, PumpApply) == Some(1);
    var g := Run(more);
    assert g.streams[0] == elder.(pump := None) && g.streams[1] == younger.(stray := younger.stray + 1);
    assert g.streams == [elder.(pump := None), younger.(stray := younger.stray + 1)];
  }

  // ---- a worker starts an assignment, a message is read -----------------------------------------

  lemma Passes(moves: seq<Move>, reg: State, streams: seq<Stream>, e: EntryId, a: WorkAssignment) returns (more: seq<Move>)
    requires Is(moves, reg, streams) && e < |streams| == |reg.entries|
    requires streams[e] == Opened && reg.entries[e].send == Some(a)
    ensures moves <= more && Is(more, Drain(reg, e), streams[e := Opened.(down := [a])])
  {
    var taken, sent := Opened.(hand := Some(a)), Opened.(down := [a]);
    more := Takes(moves, reg, streams, e);
    more := Quietly(more, Drain(reg, e), streams[e := taken], e, HandlerSend, sent);
    assert streams[e := taken][e := sent] == streams[e := sent];
  }

  lemma Starts(moves: seq<Move>, reg: State, streams: seq<Stream>, e: EntryId, a: WorkAssignment) returns (more: seq<Move>)
    requires Is(moves, reg, streams) && e < |streams| == |reg.entries|
    requires streams[e] == Opened.(down := [a])
    ensures moves <= more && Is(more, reg, streams[e := Opened.(agent := Running(a), up := [AckMsg(a.id)])])
  {
    var held, acked := Opened.(agent := Holding(a)), Opened.(agent := Running(a), up := [AckMsg(a.id)]);
    more := Quietly(moves, reg, streams, e, AgentReceive, held);
    more := Quietly(more, reg, streams[e := held], e, AgentAck, acked);
    assert streams[e := held][e := acked] == streams[e := acked];
  }

  /** An ack at the head of a stream is read and applied. */
  lemma ReadsAck(moves: seq<Move>, reg: State, streams: seq<Stream>, e: EntryId, aid: string, rest: seq<Message>)
    returns (more: seq<Move>)
    requires Is(moves, reg, streams) && e < |streams| == |reg.entries| && InBounds(reg)
    requires streams[e].pumping && streams[e].pump.None? && streams[e].up == [AckMsg(aid)] + rest
    ensures moves <= more && Is(more, Ack(reg, aid, true), streams[e := streams[e].(up := rest)])
  {
    var read := streams[e].(pump := Some(AckMsg(aid)), up := rest);
    more := Quietly(moves, reg, streams, e, PumpRead, read);
    more := Acked(more, reg, streams[e := read], e, aid);
    assert streams[e := read][e := read.(pump := None)] == streams[e := streams[e].(up := rest)];
  }

  // ---- the registry along the run -----------------------------------------------------------------

  function Worker(busy: bool, send: Option<WorkAssignment>): Entry
  {
    Entry("w", "d", "pod", busy, send)
  }

  function LeaseOn(e: EntryId, a: WorkAssignment): Lease
  {
    Lease(e, "d", a.runID, a.taskID, a.tryNumber)
  }

  /** Worker e is the identity's current one, in the free index or not. */
  function Reg(entries: seq<Entry>, e: EntryId, listed: bool, leases: map<string, Lease>): State
  {
    State(entries, map["w" := e], if listed then map["d" := map["w" := e]] else map[], leases)
  }

  lemma Bounded(entries: seq<Entry>, e: EntryId, listed: bool, leases: map<string, Lease>)
    requires e < |entries| && forall aid :: aid in leases ==> leases[aid].worker < |entries|
    ensures InBounds(Reg(entries, e, listed, leases))
  {
  }

  lemma Assigned(entries: seq<Entry>, e: EntryId, leases: map<string, Lease>, a: WorkAssignment)
    requires e < |entries| && entries[e] == Worker(false, None) && InBounds(Reg(entries, e, true, leases))
    ensures Assign(Reg(entries, e, true, leases), "d", a, "w").0
            == Reg(entries[e := Worker(false, Some(a))], e, false, leases[a.id := LeaseOn(e, a)])
  {
    assert map["w" := e] - {"w"} == map[];
    assert map["d" := map["w" := e]] - {"d"} == map[];
  }

  lemma Drained(entries: seq<Entry>, e: EntryId, leases: map<string, Lease>, a: WorkAssignment)
    requires e < |entries| && entries[e] == Worker(false, Some(a))
    ensures Drain(Reg(entries, e, false, leases), e) == Reg(entries[e := Worker(false, None)], e, false, leases)
  {
  }

  lemma AssignedAndDrained(entries: seq<Entry>, e: EntryId, leases: map<string, Lease>, a: WorkAssignment)
    requires e < |entries| && entries[e] == Worker(false, None) && InBounds(Reg(entries, e, true, leases))
    ensures var given := Assign(Reg(entries, e, true, leases), "d", a, "w").0;
            && |given.entries| == |entries| && given.entries[e].send == Some(a)
            && Drain(given, e) == Reg(entries, e, false, leases[a.id := LeaseOn(e, a)])
  {
    Assigned(entries, e, leases, a);
    Drained(entries[e := Worker(false, Some(a))], e, leases[a.id := LeaseOn(e, a)], a);
    assert entries[e := Worker(false, Some(a))][e := Worker(false, None)] == entries;
  }

  /** A free worker is offered an assignment and starts it. */
  lemma OfferedStarts(moves: seq<Move>, entries: seq<Entry>, e: EntryId, leases: map<string, Lease>,
                      streams: seq<Stream>, a: WorkAssignment)
    returns (more: seq<Move>)
    requires Is(moves, Reg(entries, e, true, leases), streams) && e < |streams| == |entries|
    requires entries[e] == Worker(false, None) && streams[e] == Opened && InBounds(Reg(entries, e, true, leases))
    ensures moves <= more && Is(more, Reg(entries, e, false, leases[a.id := LeaseOn(e, a)]),
                                streams[e := Opened.(agent := Running(a), up := [AckMsg(a.id)])])
  {
    var free := Reg(entries, e, true, leases);
    AssignedAndDrained(entries, e, leases, a);
    more := Offered(moves, free, streams, a);
    var given := Assign(free, "d", a, "w").0;
    more := Passes(more, given, streams, e, a);
    var sent, acked := Opened.(down := [a]), Opened.(agent := Running(a), up := [AckMsg(a.id)]);
    more := Starts(more, Drain(given, e), streams[e := sent], e, a);
    assert streams[e := sent][e := acked] == streams[e := acked];
  }

  // ---- the run ----------------------------------------------------------------------------------

  const IDLE := Worker(false, None)
  const BUSY := Worker(true, None)
  const ONE := map["1" := LeaseOn(0, FIRST)]
  const BOTH := map["1" := LeaseOn(0, FIRST), "2" := LeaseOn(1, SECOND)]

  lemma RegistryValues()
    ensures Register(Registry.Empty, "w", "d", "pod") == Reg([IDLE], 0, true, map[])
    ensures InBounds(Reg([IDLE], 0, false, ONE)) && InBounds(Reg([IDLE], 0, true, map[]))
    ensures Register(Reg([IDLE], 0, false, ONE), "w", "d", "pod") == Reg([IDLE, IDLE], 1, true, ONE)
  {
    assert map["w" := 0]["w" := 1] == map["w" := 1] && [IDLE] + [IDLE] == [IDLE, IDLE];
  }

  lemma AckValues()
    ensures InBounds(Reg([IDLE, IDLE], 1, true, ONE)) && InBounds(Reg([IDLE, IDLE], 1, false, BOTH))
    ensures Ack(Reg([IDLE, IDLE], 1, false, BOTH), "2", true) == Reg([IDLE, BUSY], 1, false, ONE)
    ensures InBounds(Reg([IDLE, BUSY], 1, false, ONE))
    ensures Ack(Reg([IDLE, BUSY], 1, false, ONE), "1", true) == Reg([BUSY, BUSY], 1, false, map[])
  {
    assert BOTH - {"2"} == ONE && [IDLE, IDLE][1 := BUSY] == [IDLE, BUSY];
    assert ONE - {"1"} == map[] && [IDLE, BUSY][0 := BUSY] == [BUSY, BUSY];
  }

  const UNREAD := Opened.(up := [AckMsg("1"), SlotFreeMsg])
  const STARTED := Opened.(agent := Running(SECOND), up := [AckMsg("2")])
  const WORKING := Opened.(agent := Running(SECOND))

  lemma FirstStarts() returns (moves: seq<Move>)
    ensures Is(moves, Reg([IDLE], 0, false, ONE), [Opened.(agent := Running(FIRST), up := [AckMsg("1")])])
  {
    RegistryValues();
    moves := Connects([], Registry.Empty, []);
    assert [] + [Opened] == [Opened];
    moves := OfferedStarts(moves, [IDLE], 0, map[], [Opened], FIRST);
    assert map[][FIRST.id := LeaseOn(0, FIRST)] == ONE;
    var running := Opened.(agent := Running(FIRST), up := [AckMsg("1")]);
    assert [Opened][0 := running] == [running];
  }

  /** The older worker serves an assignment to its end; nobody has read its ack and slot-free. */
  lemma ServesUnread() returns (moves: seq<Move>)
    ensures Is(moves, Reg([IDLE], 0, false, ONE), [UNREAD])
  {
    moves := FirstStarts();
    var running := Opened.(agent := Running(FIRST), up := [AckMsg("1")]);
    assert [AckMsg("1")] + [SlotFreeMsg] == [AckMsg("1"), SlotFreeMsg];
    moves := Quietly(moves, Reg([IDLE], 0, false, ONE), [running], 0, AgentFinish, UNREAD);
    assert [running][0 := UNREAD] == [UNREAD];
  }

  /** The identity connects again and its newer worker starts another assignment. */
  lemma StartsAnother() returns (moves: seq<Move>)
    ensures Is(moves, Reg([IDLE, IDLE], 1, false, BOTH), [UNREAD, STARTED])
  {
    RegistryValues();
    AckValues();
    moves := ServesUnread();
    moves := Connects(moves, Reg([IDLE], 0, false, ONE), [UNREAD]);
    assert [UNREAD] + [Opened] == [UNREAD, Opened];
    moves := OfferedStarts(moves, [IDLE, IDLE], 1, ONE, [UNREAD, Opened], SECOND);
    assert ONE["2" := LeaseOn(1, SECOND)] == BOTH;
    assert [UNREAD, Opened][1 := STARTED] == [UNREAD, STARTED];
  }

  lemma SecondIsRead() returns (moves: seq<Move>)
    ensures Is(moves, Reg([IDLE, BUSY], 1, false, ONE), [UNREAD, WORKING])
  {
    AckValues();
    moves := StartsAnother();
    assert [AckMsg("2")] == [AckMsg("2")] + [];
    moves := ReadsAck(moves, Reg([IDLE, IDLE], 1, false, BOTH), [UNREAD, STARTED], 1, "2", []);
    assert [UNREAD, STARTED][1 := WORKING] == [UNREAD, WORKING];
  }

  /** Its ack is read, and then the older stream's. */
  lemma AcksAreRead() returns (moves: seq<Move>)
    ensures Is(moves, Reg([BUSY, BUSY], 1, false, map[]), [Opened.(up := [SlotFreeMsg]), WORKING])
  {
    AckValues();
    moves := SecondIsRead();
    assert [AckMsg("1"), SlotFreeMsg] == [AckMsg("1")] + [SlotFreeMsg];
    moves := ReadsAck(moves, Reg([IDLE, BUSY], 1, false, ONE), [UNREAD, WORKING], 0, "1", [SlotFreeMsg]);
    assert [UNREAD, WORKING][0 := Opened.(up := [SlotFreeMsg])] == [Opened.(up := [SlotFreeMsg]), WORKING];
  }

  /** The older stream's slot-free then frees the newer worker: it is free while its agent runs an
      assignment, with two slots, although no lease expired. */
  lemma SlotFreeStrays() returns (moves: seq<Move>)
    ensures var f := Run(moves);
            && |f.streams| == 2 && f.streams[0].expired == 0 && f.streams[1].expired == 0
            && Current(f.sys.reg, 1) && IsFree(f.sys.reg, 1) && !f.sys.reg.entries[1].busy
            && f.streams[1].agent == Running(SECOND) && f.streams[1].stray == 1 && Slots(f, 1) == 2
  {
    moves := AcksAreRead();
    var elder := Opened.(up := [SlotFreeMsg]);
    var read := Opened.(pump := Some(SlotFreeMsg));
    var busy := Reg([BUSY, BUSY], 1, false, map[]);
    moves := Quietly(moves, busy, [elder, WORKING], 0, PumpRead, read);
    assert [elder, WORKING][0 := read] == [read, WORKING];
    Bounded([BUSY, BUSY], 1, false, map[]);
    moves := Strays(moves, busy, read, WORKING);
    assert MarkFree(busy, "w") == State([BUSY, BUSY][1 := IDLE], map["w" := 1], map["d" := map["w" := 1]], map[]);
  }
}
