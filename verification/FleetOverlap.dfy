/** What a lapsed lease allows: the registry frees a worker whose assignment is still on its way
    or running (internal/agentrpc/worker_registry.go, onLeaseExpire), and may hand it another. */
module FleetOverlap {
  import opened Wrappers
  import opened Registry
  import opened RegistrySystem
  import opened Fleet
  import opened FleetPhases

  lemma FreeIsPickable(s: State, e: EntryId)
    requires Consistent(s) && IsFree(s, e)
    ensures Pickable(s, s.entries[e].dagVersion, s.entries[e].identity)
    ensures s.free[s.entries[e].dagVersion][s.entries[e].identity] == e
  {
  }

  lemma ExpiryKeepsEntry(f: Fleet, aid: string, e: EntryId)
    requires Sized(f) && e < |f.streams|
    ensures var g := Advance(f, Expiry(aid));
            && e < |g.streams| && g.sys.reg.entries[e] == f.sys.reg.entries[e]
            && Held(g.streams[e]) == Held(f.streams[e])
  {
  }

  /** After the first lease of an entry expires, the next assignment picked for it is accepted
      exactly when its channel is empty; the worker then still has the one whose lease is over. */
  lemma SecondAssignmentIff(moves: seq<Move>, e: EntryId, aid: string, a: WorkAssignment)
    requires FreshOffers(moves) && e < |Run(moves).streams| && NoLapse(Run(moves), e)
    requires aid in Leased(Run(moves).sys.reg.leases, e)
    ensures var g := Advance(Run(moves), Expiry(aid));
            var w := Run(moves).sys.reg.entries[e];
            && Pickable(g.sys.reg, w.dagVersion, w.identity)
            && g.sys.reg.free[w.dagVersion][w.identity] == e
            && (Assign(g.sys.reg, w.dagVersion, a, w.identity).1 <==> w.send.None?)
            && (w.send.None? ==> Held(g.streams[e]) == 1)
  {
    var f := Run(moves);
    var g := Advance(f, Expiry(aid));
    FirstExpiryAddsASlot(moves, e, aid);
    ExpiryKeepsEntry(f, aid, e);
    FreeIsPickable(g.sys.reg, e);
  }

  // ---- one run ------------------------------------------------------------------------

  const FIRST := WorkAssignment("1", "run", "task", 1)
  const SECOND := WorkAssignment("2", "run", "other", 1)

  const CONNECT := Open("w", "d", WorkerRegister("d", "pod"))

  /** A single worker w of pool d, with this much about its entry and its stream. */
  ghost predicate Alone(f: Fleet, listed: bool, leases: map<string, Lease>, send: Option<WorkAssignment>, st: Stream)
  {
    && f.sys.reg == State([Entry("w", "d", "pod", false, send)], map["w" := 0],
                          if listed then map["d" := map["w" := 0]] else map[], leases)
    && f.streams == [st]
  }

  lemma Connects()
    ensures Alone(Run([CONNECT]), true, map[], None, Opened)
  {
    RunNext([], CONNECT);
    assert [] + [CONNECT] == [CONNECT];
    assert Register(Registry.Empty, "w", "d", "pod").entries == [Entry("w", "d", "pod", false, None)];
  }

  lemma AssignsAlone(s: State, leases: map<string, Lease>, a: WorkAssignment)
    requires s == State([Entry("w", "d", "pod", false, None)], map["w" := 0], map["d" := map["w" := 0]], leases) && InBounds(s)
    ensures Assign(s, "d", a, "w")
            == (State([Entry("w", "d", "pod", false, Some(a))], map["w" := 0], map[],
                      leases[a.id := Lease(0, "d", a.runID, a.taskID, a.tryNumber)]), true)
  {
    assert s.free["d"] - {"w"} == map[];
    assert s.free - {"d"} == map[];
    assert s.entries[0 := s.entries[0].(send := Some(a))] == [Entry("w", "d", "pod", false, Some(a))];
  }

  lemma Offers(f: Fleet, a: WorkAssignment, leases: map<string, Lease>, st: Stream)
    requires Sized(f) && Alone(f, true, leases, None, st)
    ensures Alone(Advance(f, Offer("d", a, "w")), false,
                  leases[a.id := Lease(0, "d", a.runID, a.taskID, a.tryNumber)], Some(a), st)
  {
    AssignsAlone(f.sys.reg, leases, a);
  }

  lemma Takes(f: Fleet, leases: map<string, Lease>)
    requires Sized(f) && Alone(f, false, leases, Some(FIRST), Opened)
    ensures Alone(Advance(f, Local(0, HandlerTake)), false, leases, None, Opened.(hand := Some(FIRST)))
  {
    assert Drain(f.sys.reg, 0).entries == [Entry("w", "d", "pod", false, None)];
  }

  lemma Sends(f: Fleet, leases: map<string, Lease>)
    requires Sized(f) && Alone(f, false, leases, None, Opened.(hand := Some(FIRST)))
    ensures Alone(Advance(f, Local(0, HandlerSend)), false, leases, None, Opened.(down := [FIRST]))
  {
    assert [] + [FIRST] == [FIRST];
  }

  lemma Receives(f: Fleet, leases: map<string, Lease>)
    requires Sized(f) && Alone(f, false, leases, None, Opened.(down := [FIRST]))
    ensures Alone(Advance(f, Local(0, AgentReceive)), false, leases, None, Opened.(agent := Holding(FIRST)))
  {
    assert [FIRST][1..] == [];
  }

  lemma Expires(f: Fleet, l: Lease)
    requires Sized(f) && l.worker == 0 && Alone(f, false, map["1" := l], None, Opened.(agent := Holding(FIRST)))
    ensures Alone(Advance(f, Expiry("1")), true, map[], None, Opened.(agent := Holding(FIRST), expired := 1))
  {
    assert map["1" := l] - {"1"} == map[];
    assert Expire(f.sys.reg, "1") == State(f.sys.reg.entries, map["w" := 0], map["d" := map["w" := 0]], map[]);
  }

  lemma RunNext(moves: seq<Move>, move: Move)
    ensures Run(moves + [move]) == Advance(Run(moves), move)
  {
    assert (moves + [move])[..|moves|] == moves;
  }

  const LEASE := Lease(0, "d", "run", "task", 1)

  /** The run so far leaves the assignment in the channel; three moves on it is with the agent. */
  lemma ReachesTheAgent(moves: seq<Move>)
    requires Alone(Run(moves), false, map["1" := LEASE], Some(FIRST), Opened)
    ensures Alone(Run(moves + [Local(0, HandlerTake)] + [Local(0, HandlerSend)] + [Local(0, AgentReceive)]), false,
                  map["1" := LEASE], None, Opened.(agent := Holding(FIRST)))
  {
    var taken := moves + [Local(0, HandlerTake)];
    var sent := taken + [Local(0, HandlerSend)];
    RunNext(moves, Local(0, HandlerTake));
    Takes(Run(moves), map["1" := LEASE]);
    RunNext(taken, Local(0, HandlerSend));
    Sends(Run(taken), map["1" := LEASE]);
    RunNext(sent, Local(0, AgentReceive));
    Receives(Run(sent), map["1" := LEASE]);
  }

  lemma ThenOffers(moves: seq<Move>, a: WorkAssignment, leases: map<string, Lease>, st: Stream)
    requires Alone(Run(moves), true, leases, None, st)
    ensures Alone(Run(moves + [Offer("d", a, "w")]), false,
                  leases[a.id := Lease(0, "d", a.runID, a.taskID, a.tryNumber)], Some(a), st)
  {
    RunNext(moves, Offer("d", a, "w"));
    Offers(Run(moves), a, leases, st);
  }

  lemma ThenExpires(moves: seq<Move>)
    requires Alone(Run(moves), false, map["1" := LEASE], None, Opened.(agent := Holding(FIRST)))
    ensures Alone(Run(moves + [Expiry("1")]), true, map[], None, Opened.(agent := Holding(FIRST), expired := 1))
  {
    RunNext(moves, Expiry("1"));
    Expires(Run(moves), LEASE);
  }

  function Overlap(moves: seq<Move>): seq<Move>
  {
    moves + [Offer("d", FIRST, "w")]
    + [Local(0, HandlerTake)] + [Local(0, HandlerSend)] + [Local(0, AgentReceive)]
    + [Expiry("1")] + [Offer("d", SECOND, "w")]
  }

  /** At the end of these moves the agent holds the first assignment and its channel the second. */
  lemma HoldsTwoAfter(moves: seq<Move>)
    requires Alone(Run(moves), true, map[], None, Opened)
    ensures Alone(Run(Overlap(moves)), false, map["2" := Lease(0, "d", "run", "other", 1)], Some(SECOND),
                  Opened.(agent := Holding(FIRST), expired := 1))
  {
    ThenOffers(moves, FIRST, map[], Opened);
    var offered := moves + [Offer("d", FIRST, "w")];
    ReachesTheAgent(offered);
    var held := offered + [Local(0, HandlerTake)] + [Local(0, HandlerSend)] + [Local(0, AgentReceive)];
    ThenExpires(held);
    ThenOffers(held + [Expiry("1")], SECOND, map[], Opened.(agent := Holding(FIRST), expired := 1));
  }

  /** A worker that connects, receives an assignment, lets its lease expire and is offered another
      one holds both. */
  lemma WorkerHoldsTwo()
    ensures var f := Run(Overlap([CONNECT]));
            |f.streams| == 1 && f.streams[0].agent == Holding(FIRST) && f.sys.reg.entries[0].send == Some(SECOND)
  {
    Connects();
    HoldsTwoAfter([CONNECT]);
  }
}
