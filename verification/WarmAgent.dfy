/** The warm worker's side of the assignment protocol (internal/agent/warm.go): one connection
    serves assignments until something ends it, and a not-leader rejection makes the worker
    dial again, within a budget. What the environment answers is given as a script. */
module WarmAgent {
  import opened Wrappers

  const DEFAULT_RECONNECTS := 10

  /** The gRPC codes the agent tells apart; an error that is no gRPC status is Other. */
  datatype Code = FailedPrecondition | Canceled | Unavailable | Other

  /** An assignment and how each step of serving it turns out. `aged` says that the worker had
      reached its lifetime bound when it looked, after the attempt. */
  datatype Assignment = Assignment(id: string, token: string, scratchOk: bool, ack: Option<Code>,
                                   attemptOk: bool, slotFree: Option<Code>, aged: bool)

  datatype Received = Work(a: Assignment) | Idle | EndOfStream | Broken(code: Code) | ContextDone

  datatype Event = Scratch(id: string) | Ack(id: string) | Adopt(id: string, token: string)
                 | Attempt(id: string) | SlotFree(id: string)

  /** Waiting: the script is used up and the worker is still serving. */
  datatype Exit = Clean | Failed(code: Code) | GaveUp | RedialFailed | Waiting

  datatype Ended = Ended(exit: Exit, completed: nat, events: seq<Event>)

  /** One connection: whether it could be established, what it then receives, and, should it be
      rejected, whether the context ends during the back-off and whether the next dial works. */
  datatype Connection = Connection(open: Option<Code>, script: seq<Received>,
                                   cancelled: bool, redialOk: bool)

  datatype Ran = Ran(exit: Exit, tried: nat, completed: nat, events: seq<Event>)

  // ---- one assignment -----------------------------------------------------------------------

  function Cycle(a: Assignment): seq<Event>
  {
    [Scratch(a.id), Ack(a.id), Adopt(a.id, a.token), Attempt(a.id), SlotFree(a.id)]
  }

  /** The error that ends the connection, if serving the assignment meets one. A failed attempt
      is not one. */
  function Fault(a: Assignment): Option<Code>
  {
    if !a.scratchOk then Some(Other) else if a.ack.Some? then a.ack else a.slotFree
  }

  /** How much of the cycle is carried out: an unusable scratch stops before the ack, a failed
      ack before the token is adopted. */
  function Performed(a: Assignment): seq<Event>
  {
    Cycle(a)[..if !a.scratchOk then 1 else if a.ack.Some? then 2 else 5]
  }

  /** What is carried out of an assignment, event by event: nothing is adopted or attempted without
      a clean scratch and its own ack sent, and the slot is offered again exactly after an attempt. */
  ghost predicate CarriedOut(a: Assignment, events: seq<Event>)
  {
    && Scratch(a.id) in events
    && (Ack(a.id) in events <==> a.scratchOk)
    && (Adopt(a.id, a.token) in events <==> a.scratchOk && a.ack.None?)
    && (Attempt(a.id) in events <==> a.scratchOk && a.ack.None?)
    && (SlotFree(a.id) in events <==> a.scratchOk && a.ack.None?)
    && (forall e :: e in events ==> e.id == a.id && (e.Adopt? ==> e.token == a.token))
  }

  lemma PerformedCarriesOut(a: Assignment)
    ensures CarriedOut(a, Performed(a)) && Performed(a) <= Cycle(a)
    ensures |Performed(a)| == 5 <==> a.scratchOk && a.ack.None?
  {
    var p := Performed(a);
    if a.scratchOk {
      assert p[0] == Scratch(a.id) && p[1] == Ack(a.id);
      if a.ack.None? { assert p[2] == Adopt(a.id, a.token) && p[3] == Attempt(a.id) && p[4] == SlotFree(a.id); }
    } else {
      assert p[0] == Scratch(a.id);
    }
  }

  // ---- one connection -----------------------------------------------------------------------

  predicate Drains(max: int, a: Assignment, served: nat)
  {
    (max > 0 && served >= max) || a.aged
  }

  function CodeExit(c: Code): Exit
  {
    if c == Canceled then Clean else Failed(c)
  }

  /** The exit an item other than a served assignment leads to. */
  function StopExit(r: Received): Exit
  {
    match r
    case Work(a) => if Fault(a).Some? then CodeExit(Fault(a).value) else Clean
    case Idle => Clean
    case EndOfStream => Clean
    case Broken(c) => if c == Unavailable then Clean else CodeExit(c)
    case ContextDone => Failed(Other)
  }

  function After(events: seq<Event>, e: Ended): Ended
  {
    e.(events := events + e.events)
  }

  /** The connection goes on after this item: a served assignment that reaches no bound. */
  predicate GoesOn(max: int, r: Received, done: nat)
  {
    r.Work? && Fault(r.a).None? && !Drains(max, r.a, done + 1)
  }

  function Counted(r: Received, done: nat): nat
  {
    if r.Work? && Fault(r.a).None? then done + 1 else done
  }

  function Caused(r: Received): seq<Event>
  {
    if r.Work? then Performed(r.a) else []
  }

  /** The connection from its i-th item on; all items before it were served assignments. */
  function Serve(max: int, script: seq<Received>, i: nat): Ended
    requires i <= |script|
    decreases |script| - i
  {
    if i == |script| then Ended(Waiting, i, [])
    else if !GoesOn(max, script[i], i) then Ended(StopExit(script[i]), Counted(script[i], i), Caused(script[i]))
    else After(Caused(script[i]), Serve(max, script, i + 1))
  }

  /** The assignments received from the i-th item on, up to the first item that is none. */
  function Works(script: seq<Received>, i: nat): seq<Assignment>
    requires i <= |script|
    decreases |script| - i
  {
    if i == |script| || !script[i].Work? then [] else [script[i].a] + Works(script, i + 1)
  }

  function Cycles(works: seq<Assignment>): seq<Event>
  {
    if works == [] then [] else Cycle(works[0]) + Cycles(works[1..])
  }

  lemma FirstCycle(script: seq<Received>, i: nat)
    requires i < |script| && script[i].Work?
    ensures Cycles(Works(script, i)) == Cycle(script[i].a) + Cycles(Works(script, i + 1))
  {
    assert Works(script, i)[1..] == Works(script, i + 1);
  }

  lemma PrefixAfter<T>(a: seq<T>, x: seq<T>, y: seq<T>)
    requires x <= y
    ensures a + x <= a + y
  {}

  /** What a connection does is a prefix of the full cycles of the assignments it received, in
      the order received; every cycle but the last is whole, and the ones counted as completed
      are; with a bound on attempts there are no more cycles than that. */
  lemma {:induction false} ServesInOrder(max: int, script: seq<Received>, i: nat)
    requires i <= |script| && (max > 0 ==> i < max)
    ensures var e := Serve(max, script, i);
            && e.events <= Cycles(Works(script, i))
            && e.completed >= i
            && 5 * (e.completed - i) <= |e.events| <= 5 * (e.completed - i) + 5
            && (max > 0 ==> e.completed <= max && |e.events| <= 5 * (max - i))
            && (e.exit.Failed? && max > 0 ==> e.completed < max)
            && !e.exit.GaveUp? && !e.exit.RedialFailed?
    decreases |script| - i
  {
    if i < |script| && script[i].Work? {
      var a := script[i].a;
      FirstCycle(script, i);
      assert Fault(a).None? ==> Performed(a) == Cycle(a);
      if GoesOn(max, script[i], i) {
        ServesInOrder(max, script, i + 1);
        PrefixAfter(Cycle(a), Serve(max, script, i + 1).events, Cycles(Works(script, i + 1)));
      }
    }
  }

  /** A connection runs an attempt only for an assignment whose scratch was clean and whose ack was
      sent, acks only on a clean scratch, and never stops inside a cycle otherwise. */
  lemma {:induction false} ClaimedFirst(max: int, script: seq<Received>, i: nat, j: nat)
    requires i <= j < |script| && (max > 0 ==> i < max) && 5 * (j - i) < |Serve(max, script, i).events|
    ensures script[j].Work?
    ensures var rest := |Serve(max, script, i).events| - 5 * (j - i);
            var a := script[j].a;
            && (rest > 1 <==> a.scratchOk) && (rest > 2 <==> a.scratchOk && a.ack.None?)
            && (rest > 2 ==> rest >= 5)
    decreases j - i
  {
    assert script[i].Work?;
    PerformedCarriesOut(script[i].a);
    if i < j {
      if GoesOn(max, script[i], i) { ClaimedFirst(max, script, i + 1, j); }
    } else if GoesOn(max, script[i], i) {
      assert Performed(script[i].a) == Cycle(script[i].a);
    }
  }

  /** Assignments that are served without a fault before the worker is too old. */
  ghost predicate AllServable(script: seq<Received>)
  {
    forall j :: 0 <= j < |script| ==>
      script[j].Work? && script[j].a.scratchOk && script[j].a.ack.None? && script[j].a.slotFree.None? && !script[j].a.aged
  }

  lemma ServesOne(max: int, script: seq<Received>, i: nat)
    requires i < |script| && AllServable(script) && (max <= 0 || i + 1 < max)
    ensures Serve(max, script, i) == After(Cycle(script[i].a), Serve(max, script, i + 1))
  {
    assert Performed(script[i].a) == Cycle(script[i].a);
  }

  /** As long as they stay below the bound, all of them are served in full, whether or not their
      attempts succeed, and the worker waits for more. */
  lemma {:induction false} KeepsServing(max: int, script: seq<Received>, i: nat)
    requires i <= |script| && AllServable(script) && (max <= 0 || |script| < max)
    ensures Serve(max, script, i) == Ended(Waiting, |script|, Cycles(Works(script, i)))
    decreases |script| - i
  {
    if i < |script| {
      KeepsServing(max, script, i + 1);
      FirstCycle(script, i);
      ServesOne(max, script, i);
    }
  }

  /** The worker drains exactly when it has served as many as the bound. */
  lemma {:induction false} DrainsAtBound(max: int, script: seq<Received>, i: nat)
    requires 0 <= i < max <= |script| && AllServable(script)
    ensures Serve(max, script, i).exit == Clean && Serve(max, script, i).completed == max
    ensures |Serve(max, script, i).events| == 5 * (max - i)
    decreases max - i
  {
    assert Performed(script[i].a) == Cycle(script[i].a);
    if i + 1 < max { DrainsAtBound(max, script, i + 1); }
  }

  /** And as soon as it is too old, after the attempt it had begun. */
  lemma AgedDrains(max: int, a: Assignment)
    requires a.scratchOk && a.ack.None? && a.slotFree.None? && a.aged
    ensures Serve(max, [Work(a)], 0) == Ended(Clean, 1, Cycle(a))
  {
  }

  /** The exits by what ended the connection: an error while serving an assignment is surfaced
      unless it is a cancellation, one while waiting also when the server is unavailable. */
  lemma StopExits(r: Received)
    ensures r.Idle? || r.EndOfStream? ==> StopExit(r) == Clean
    ensures r.Broken? ==> StopExit(r) == if r.code == Canceled || r.code == Unavailable then Clean else Failed(r.code)
    ensures r.ContextDone? ==> StopExit(r) == Failed(Other)
    ensures r.Work? && !r.a.scratchOk ==> StopExit(r) == Failed(Other)
    ensures r.Work? && r.a.scratchOk && r.a.ack.Some? ==>
              StopExit(r) == if r.a.ack.value == Canceled then Clean else Failed(r.a.ack.value)
    ensures r.Work? && r.a.scratchOk && r.a.ack.None? && r.a.slotFree.Some? ==>
              StopExit(r) == if r.a.slotFree.value == Canceled then Clean else Failed(r.a.slotFree.value)
    ensures r.Work? && r.a.scratchOk && r.a.ack.None? && r.a.slotFree.None? ==> StopExit(r) == Clean
  {
  }

  // ---- where a connection ends --------------------------------------------------------------

  predicate Passes(max: int, script: seq<Received>, j: nat)
    requires j < |script|
  {
    GoesOn(max, script[j], j)
  }

  ghost predicate PassesAll(max: int, script: seq<Received>, from: nat, n: nat)
    requires from <= n <= |script|
  {
    forall j: nat :: from <= j < n ==> Passes(max, script, j)
  }

  /** The exit is decided by the first item the connection does not get past, whatever follows
      it: clean for an idle worker, a closed, cancelled or unavailable stream and a reached
      bound, an error for everything else; while serving, only cancellation is clean. */
  lemma {:induction false} EndsAtFirstStop(max: int, script: seq<Received>, i: nat, k: nat)
    requires i <= k <= |script| && PassesAll(max, script, i, k)
    requires k < |script| ==> !Passes(max, script, k)
    ensures Serve(max, script, i).exit == if k == |script| then Waiting else StopExit(script[k])
    decreases k - i
  {
    if i < k {
      assert Passes(max, script, i);
      EndsAtFirstStop(max, script, i + 1, k);
    }
  }

  // ---- one receive ------------------------------------------------------------------------------

  /** Which of a receive's channels have something: the stream's result, the idle timer, and the
      worker's context. */
  datatype Ready = Ready(stream: Option<Received>, timer: bool, context: bool)

  /** The receive may return r. Without an idle timeout it only waits for the stream; with one it
      takes any channel that is ready. */
  predicate MayReceive(idleTTL: int, ready: Ready, r: Received)
  {
    || ready.stream == Some(r)
    || (idleTTL > 0 && ready.timer && r == Idle)
    || (idleTTL > 0 && ready.context && r == ContextDone)
  }

  /** Every channel that is ready may be the one: without an idle timeout the stream's alone. */
  lemma ReceiveChoices(idleTTL: int, ready: Ready, r: Received)
    ensures ready.stream == Some(r) ==> MayReceive(idleTTL, ready, r)
    ensures idleTTL > 0 && ready.timer ==> MayReceive(idleTTL, ready, Idle)
    ensures idleTTL > 0 && ready.context ==> MayReceive(idleTTL, ready, ContextDone)
    ensures idleTTL <= 0 ==> (MayReceive(idleTTL, ready, r) <==> ready.stream == Some(r))
  {
  }

  predicate CanReceive(idleTTL: int, ready: Ready)
  {
    ready.stream.Some? || (idleTTL > 0 && (ready.timer || ready.context))
  }

  lemma ReceivesIff(idleTTL: int, ready: Ready)
    ensures CanReceive(idleTTL, ready) <==> exists r :: MayReceive(idleTTL, ready, r)
  {
    if CanReceive(idleTTL, ready) {
      ReceiveChoices(idleTTL, ready, if ready.stream.Some? then ready.stream.value else Idle);
    }
  }

  /** A receive that can return, by the select's own arbitrary choice. */
  method RecvAssignment(idleTTL: int, ready: Ready) returns (r: Received)
    requires CanReceive(idleTTL, ready)
    ensures MayReceive(idleTTL, ready, r)
  {
    if idleTTL <= 0 { return ready.stream.value; }
    if
    case ready.stream.Some? => r := ready.stream.value;
    case ready.timer => r := Idle;
    case ready.context => r := ContextDone;
  }

  /** The worker's context has ended while it waited, and the stream, if it says so already, says
      just that. */
  predicate CancelledWaiting(ready: Ready)
  {
    ready.context && (ready.stream.None? || ready.stream == Some(Broken(Canceled)))
  }

  ghost predicate CancelledAfter(max: int, idleTTL: int, script: seq<Received>, ready: Ready, r: Received)
  {
    PassesAll(max, script, 0, |script|) && CancelledWaiting(ready) && MayReceive(idleTTL, ready, r)
  }

  ghost predicate CancelsCleanly(max: int, idleTTL: int)
  {
    forall script, ready, r :: CancelledAfter(max, idleTTL, script, ready, r) ==> Serve(max, script + [r], 0).exit == Clean
  }

  /** Cancelling an idle worker is promised to be a clean exit. It always is exactly when no
      idle timeout is set: the context's error carries no gRPC code. */
  lemma CancelIsCleanIff(max: int, idleTTL: int)
    ensures CancelsCleanly(max, idleTTL) <==> idleTTL <= 0
  {
    if idleTTL <= 0 {
      forall script, ready, r | CancelledAfter(max, idleTTL, script, ready, r)
        ensures Serve(max, script + [r], 0).exit == Clean
      {
        assert PassesAll(max, script + [r], 0, |script|) by {
          forall j: nat | j < |script| ensures Passes(max, script + [r], j) { assert Passes(max, script, j); }
        }
        EndsAtFirstStop(max, script + [r], 0, |script|);
      }
    } else {
      assert CancelledAfter(max, idleTTL, [], Ready(None, false, true), ContextDone);
      assert [] + [ContextDone] == [ContextDone];
    }
  }

  // ---- reconnecting toward the leader -------------------------------------------------------

  function Budget(maxReconnects: int): (n: nat)
    ensures n >= 1
  {
    if maxReconnects <= 0 then DEFAULT_RECONNECTS else maxReconnects
  }

  /** The budget is the configured one, or ten. */
  lemma BudgetIs(maxReconnects: int)
    ensures maxReconnects > 0 ==> Budget(maxReconnects) == maxReconnects
    ensures maxReconnects <= 0 ==> Budget(maxReconnects) == 10
  {
  }

  function Connected(max: int, c: Connection): Ended
  {
    if c.open.Some? then Ended(Failed(c.open.value), 0, []) else Serve(max, c.script, 0)
  }

  predicate Rejected(max: int, c: Connection)
  {
    Connected(max, c).exit == Failed(FailedPrecondition)
  }

  function Before(e: Ended, r: Ran): Ran
  {
    Ran(r.exit, r.tried + 1, e.completed + r.completed, e.events + r.events)
  }

  /** How the run ends with this connection, or nothing when it redials. */
  function Final(max: int, budget: nat, c: Connection, reconnects: nat): Option<Exit>
  {
    if !Rejected(max, c) then Some(Connected(max, c).exit)
    else if reconnects + 1 > budget then Some(GaveUp)
    else if c.cancelled then Some(Clean)
    else if !c.redialOk then Some(RedialFailed)
    else None
  }

  /** How a run ends with a connection: by its exit, unless that is FailedPrecondition; then when the
      budget is used up, when the back-off is cancelled, which is clean, or when the dial fails. */
  lemma RunEnds(max: int, budget: nat, c: Connection, reconnects: nat)
    ensures var exit, last := Connected(max, c).exit, Final(max, budget, c, reconnects);
            && (exit != Failed(FailedPrecondition) ==> last == Some(exit))
            && (exit == Failed(FailedPrecondition) && reconnects >= budget ==> last == Some(GaveUp))
            && (exit == Failed(FailedPrecondition) && reconnects < budget ==>
                  && (c.cancelled ==> last == Some(Clean))
                  && (!c.cancelled && !c.redialOk ==> last == Some(RedialFailed))
                  && (!c.cancelled && c.redialOk ==> last == None))
    ensures c.open.Some? ==> Connected(max, c) == Ended(Failed(c.open.value), 0, [])
  {
  }

  /** The run from its i-th connection on, i being also the reconnects so far. */
  function Run(max: int, budget: nat, conns: seq<Connection>, i: nat): Ran
    requires i <= |conns|
    decreases |conns| - i
  {
    if i == |conns| then Ran(Waiting, 0, 0, [])
    else
      var e := Connected(max, conns[i]);
      var final := Final(max, budget, conns[i], i);
      if final.Some? then Ran(final.value, 1, e.completed, e.events)
      else Before(e, Run(max, budget, conns, i + 1))
  }

  /** A run is its connections one after another: their events in order, their attempts added up. */
  lemma RunIsItsConnections(max: int, budget: nat, conns: seq<Connection>, i: nat)
    requires i < |conns|
    ensures var r, e, rest := Run(max, budget, conns, i), Connected(max, conns[i]), Run(max, budget, conns, i + 1);
            if Final(max, budget, conns[i], i).Some?
            then r.events == e.events && r.completed == e.completed && r.tried == 1
                 && r.exit == Final(max, budget, conns[i], i).value
            else r.events == e.events + rest.events && r.completed == e.completed + rest.completed
                 && r.tried == 1 + rest.tried && r.exit == rest.exit
  {
  }

  lemma ConnectionBounds(max: int, c: Connection)
    ensures max > 0 ==> Connected(max, c).completed <= max
    ensures max > 0 && Rejected(max, c) ==> Connected(max, c).completed <= max - 1
  {
    ServesInOrder(max, c.script, 0);
  }

  /** max attempts on one connection and max - 1 on each of n others. */
  function Most(max: int, n: nat): int
  {
    if n == 0 then max else Most(max, n - 1) + (max - 1)
  }

  lemma {:induction false} MostIs(max: int, n: nat)
    ensures Most(max, n) == n * (max - 1) + max
  {
    if n > 0 {
      MostIs(max, n - 1);
      assert n * (max - 1) == (n - 1) * (max - 1) + (max - 1);
    }
  }

  lemma {:induction false} MostGrows(max: int, n: nat)
    requires max > 0
    ensures Most(max, n) >= max
  {
    if n > 0 { MostGrows(max, n - 1); }
  }

  lemma {:induction false} RunWithin(max: int, budget: nat, conns: seq<Connection>, i: nat)
    requires i <= |conns| && i <= budget
    ensures var r := Run(max, budget, conns, i);
            && r.tried <= |conns| - i && r.tried <= budget - i + 1
            && (max > 0 ==> r.completed <= Most(max, budget - i))
    decreases |conns| - i
  {
    if max > 0 { MostGrows(max, budget - i); }
    if i < |conns| {
      ConnectionBounds(max, conns[i]);
      if Final(max, budget, conns[i], i).None? { RunWithin(max, budget, conns, i + 1); }
    }
  }

  /** A run opens at most one connection more than its reconnect budget, and completes at most
      max attempts on the last of them and max - 1 on each one before it. */
  lemma RunBounds(max: int, maxReconnects: int, conns: seq<Connection>)
    ensures var n := Budget(maxReconnects);
            var r := Run(max, n, conns, 0);
            && r.tried <= n + 1
            && (max > 0 ==> r.completed <= n * (max - 1) + max)
  {
    RunWithin(max, Budget(maxReconnects), conns, 0);
    MostIs(max, Budget(maxReconnects));
  }

  /** Connection i was rejected and followed by a redial. */
  predicate Redialled(max: int, c: Connection)
  {
    Rejected(max, c) && !c.cancelled && c.redialOk
  }

  lemma {:induction false} GivesUpFrom(max: int, budget: nat, conns: seq<Connection>, i: nat)
    requires i <= |conns| && i <= budget
    ensures Run(max, budget, conns, i).exit == GaveUp
            <==> && |conns| > budget && Rejected(max, conns[budget])
                 && forall j :: i <= j < budget ==> Redialled(max, conns[j])
    decreases |conns| - i
  {
    if i < |conns| {
      ServesInOrder(max, conns[i].script, 0);
      if Final(max, budget, conns[i], i).None? { GivesUpFrom(max, budget, conns, i + 1); }
    }
  }

  /** The worker gives up exactly when budget + 1 connections in a row were rejected with
      FailedPrecondition and it was neither cancelled nor unable to dial in between. */
  lemma GivesUpIff(max: int, maxReconnects: int, conns: seq<Connection>)
    ensures var n := Budget(maxReconnects);
            Run(max, n, conns, 0).exit == GaveUp
            <==> && |conns| > n && Rejected(max, conns[n])
                 && forall j :: 0 <= j < n ==> Redialled(max, conns[j])
  {
    GivesUpFrom(max, Budget(maxReconnects), conns, 0);
  }

  // ---- the attempt bound over a whole worker ------------------------------------------------

  /** The server's reasons to end a stream before the worker is registered, and after. A transport
      failure of its own send is passed on as it is. */
  datatype Refusal = PoolsOff | NotLeader | NoIdentity | WrongScope | ClosedFirst | BrokenFirst | NotARegister
                   | NoPool | WrongPool
  datatype Ending = WorkerClosed | WorkerBroken | ContextCancelled | ContextExpired | ShuttingDown | SendFailed(code: Code)

  datatype Handler = Refuses(why: Refusal) | Serves(sent: seq<Assignment>, ending: Ending)

  function RefusalCode(why: Refusal): Code
  {
    match why
    case PoolsOff => FailedPrecondition
    case NotLeader => FailedPrecondition
    case ClosedFirst => FailedPrecondition
    case NotARegister => FailedPrecondition
    case _ => Other
  }

  function EndingItem(ending: Ending): Received
  {
    match ending
    case WorkerClosed => EndOfStream
    case WorkerBroken => Broken(Other)
    case ContextCancelled => Broken(Canceled)
    case ContextExpired => Broken(Other)
    case ShuttingDown => Broken(Unavailable)
    case SendFailed(code) => Broken(code)
  }

  /** The codes of a refusal, and what each ending looks like to the worker. */
  lemma HandlerCodes(why: Refusal, ending: Ending)
    ensures RefusalCode(why) == FailedPrecondition <==>
              why == PoolsOff || why == NotLeader || why == ClosedFirst || why == NotARegister
    ensures RefusalCode(why) != FailedPrecondition ==> RefusalCode(why) == Other
    ensures EndingItem(ending) == EndOfStream <==> ending == WorkerClosed
    ensures EndingItem(ending) == Broken(Unavailable) <==> ending == ShuttingDown || ending == SendFailed(Unavailable)
    ensures EndingItem(ending) == Broken(Canceled) <==> ending == ContextCancelled || ending == SendFailed(Canceled)
    ensures EndingItem(ending) == Broken(FailedPrecondition) <==> ending == SendFailed(FailedPrecondition)
  {
  }

  /** What the worker receives from such a handler: it refuses, or sends assignments and ends. */
  function Sent(h: Handler): seq<Received>
  {
    match h
    case Refuses(why) => [Broken(RefusalCode(why))]
    case Serves(sent, ending) => seq(|sent|, i requires 0 <= i < |sent| => Work(sent[i])) + [EndingItem(ending)]
  }

  /** The transport itself never reports FailedPrecondition. */
  predicate PlainTransport(h: Handler)
  {
    h.Serves? ==>
      && h.ending != SendFailed(FailedPrecondition)
      && forall i :: 0 <= i < |h.sent| ==>
           h.sent[i].ack != Some(FailedPrecondition) && h.sent[i].slotFree != Some(FailedPrecondition)
  }

  /** The worker hears this handler, up to where it stops waiting by itself. */
  predicate Hears(c: Connection, h: Handler)
  {
    || c.script <= Sent(h)
    || (c.script != [] && c.script[..|c.script| - 1] <= Sent(h)
        && (c.script[|c.script| - 1].Idle? || c.script[|c.script| - 1].ContextDone?))
  }

  /** A refusing handler is heard as its code alone, a serving one as its assignments in order and then
      its ending. */
  lemma SentIs(h: Handler)
    ensures h.Refuses? ==> Sent(h) == [Broken(RefusalCode(h.why))]
    ensures h.Serves? ==> |Sent(h)| == |h.sent| + 1 && Sent(h)[|h.sent|] == EndingItem(h.ending)
                          && forall i :: 0 <= i < |h.sent| ==> Sent(h)[i] == Work(h.sent[i])
  {
  }

  ghost predicate StopsAfter(script: seq<Received>, sent: seq<Received>, n: nat)
  {
    n <= |sent| && (script == sent[..n] || script == sent[..n] + [Idle] || script == sent[..n] + [ContextDone])
  }

  lemma StopsIsHeard(c: Connection, h: Handler, n: nat)
    requires StopsAfter(c.script, Sent(h), n)
    ensures Hears(c, h)
  {
    if |c.script| == n + 1 { assert c.script[..n] == Sent(h)[..n]; }
  }

  lemma HeardStops(c: Connection, h: Handler) returns (n: nat)
    requires Hears(c, h)
    ensures StopsAfter(c.script, Sent(h), n)
  {
    if c.script <= Sent(h) {
      n := |c.script|;
    } else {
      n := |c.script| - 1;
      assert c.script == c.script[..n] + [c.script[n]];
    }
  }

  /** The worker may stop hearing at any point, then or by its idle timer or its context. */
  lemma HearsIff(c: Connection, h: Handler)
    ensures Hears(c, h) <==> exists n: nat :: StopsAfter(c.script, Sent(h), n)
  {
    if n: nat :| StopsAfter(c.script, Sent(h), n) { StopsIsHeard(c, h, n); }
    if Hears(c, h) { var n := HeardStops(c, h); }
  }

  /** A rejection comes when connecting or as the very first item, not from a later one. */
  predicate RejectsEarly(c: Connection)
  {
    && (forall i :: 1 <= i < |c.script| ==> c.script[i] != Broken(FailedPrecondition))
    && (forall i :: 0 <= i < |c.script| && c.script[i].Work? ==>
          c.script[i].a.ack != Some(FailedPrecondition) && c.script[i].a.slotFree != Some(FailedPrecondition))
  }

  /** The server refuses a stream only before it registered the worker. */
  lemma ServerRejectsEarly(c: Connection, h: Handler)
    requires Hears(c, h) && PlainTransport(h)
    ensures RejectsEarly(c)
  {
    var n := |c.script|;
    forall i | 0 <= i < n && !c.script[i].Idle? && !c.script[i].ContextDone?
      ensures i < |Sent(h)| && c.script[i] == Sent(h)[i]
    {
      if !(c.script <= Sent(h)) { assert c.script[i] == c.script[..n - 1][i]; }
    }
  }

  lemma {:induction false} NoLateRejection(max: int, c: Connection, i: nat)
    requires RejectsEarly(c) && 1 <= i <= |c.script|
    ensures Serve(max, c.script, i).exit != Failed(FailedPrecondition)
    decreases |c.script| - i
  {
    if i < |c.script| && GoesOn(max, c.script[i], i) { NoLateRejection(max, c, i + 1); }
  }

  lemma EarlyCompletesNothing(max: int, c: Connection)
    requires RejectsEarly(c) && Rejected(max, c)
    ensures Connected(max, c).completed == 0
  {
    if c.open.None? && c.script != [] && GoesOn(max, c.script[0], 0) { NoLateRejection(max, c, 1); }
  }

  lemma {:induction false} EarlyBound(max: int, budget: nat, conns: seq<Connection>, i: nat)
    requires max > 0 && i <= |conns| && forall j :: i <= j < |conns| ==> RejectsEarly(conns[j])
    ensures Run(max, budget, conns, i).completed <= max
    decreases |conns| - i
  {
    if i < |conns| {
      ConnectionBounds(max, conns[i]);
      if Final(max, budget, conns[i], i).None? {
        EarlyCompletesNothing(max, conns[i]);
        EarlyBound(max, budget, conns, i + 1);
      }
    }
  }

  /** The attempts are counted per connection. Against the server's handler that bounds the whole
      worker all the same: over all its connections it completes at most max. */
  lemma WorkerBound(max: int, maxReconnects: int, conns: seq<Connection>, handlers: seq<Handler>)
    requires max > 0 && |handlers| == |conns|
    requires forall i :: 0 <= i < |conns| ==> Hears(conns[i], handlers[i]) && PlainTransport(handlers[i])
    ensures Run(max, Budget(maxReconnects), conns, 0).completed <= max
  {
    forall i | 0 <= i < |conns| ensures RejectsEarly(conns[i]) { ServerRejectsEarly(conns[i], handlers[i]); }
    EarlyBound(max, Budget(maxReconnects), conns, 0);
  }

  // ---- what the bound rests on ------------------------------------------------------------------

  /** The attempts completed on connections i to n. */
  function Total(max: int, conns: seq<Connection>, i: nat, n: nat): nat
    requires i <= n <= |conns|
    decreases n - i
  {
    if i == n then 0 else Connected(max, conns[i]).completed + Total(max, conns, i + 1, n)
  }

  lemma {:induction false} RunAfter(max: int, budget: nat, conns: seq<Connection>, i: nat, n: nat)
    requires i <= n <= |conns| && n <= budget && forall j :: i <= j < n ==> Redialled(max, conns[j])
    ensures Run(max, budget, conns, i).completed == Total(max, conns, i, n) + Run(max, budget, conns, n).completed
    decreases n - i
  {
    if i < n { RunAfter(max, budget, conns, i + 1, n); }
  }

  lemma {:induction false} TotalZero(max: int, conns: seq<Connection>, i: nat, n: nat)
    requires i <= n <= |conns|
    ensures Total(max, conns, i, n) == 0 <==> forall j :: i <= j < n ==> Connected(max, conns[j]).completed == 0
    decreases n - i
  {
    if i < n { TotalZero(max, conns, i + 1, n); }
  }

  lemma {:induction false} TotalOfPrefix(max: int, conns: seq<Connection>, more: seq<Connection>, i: nat)
    requires i <= |conns|
    ensures Total(max, conns + more, i, |conns|) == Total(max, conns, i, |conns|)
    decreases |conns| - i
  {
    if i < |conns| { TotalOfPrefix(max, conns, more, i + 1); }
  }

  function Busy(): Assignment
  {
    Assignment("id", "token", true, None, true, None, false)
  }

  /** A connection that offers n assignments. */
  function Offering(n: nat): Connection
  {
    Connection(None, seq(n, j => Work(Busy())), false, true)
  }

  lemma {:induction false} OfferingDrains(max: int, i: nat)
    requires i < max
    ensures Serve(max, Offering(max).script, i).exit == Clean && Serve(max, Offering(max).script, i).completed == max
    decreases max - i
  {
    if i + 1 < max { OfferingDrains(max, i + 1); }
  }

  /** After a history of redialled connections every continuation the server allows stays within
      the bound. */
  ghost predicate StaysBounded(max: int, budget: nat, history: seq<Connection>)
  {
    forall rest: seq<Connection> :: (forall j :: 0 <= j < |rest| ==> RejectsEarly(rest[j])) ==>
      Run(max, budget, history + rest, 0).completed <= max
  }

  lemma HistoryThen(max: int, budget: nat, history: seq<Connection>, rest: seq<Connection>)
    requires |history| <= budget && forall j :: 0 <= j < |history| ==> Redialled(max, history[j])
    ensures Run(max, budget, history + rest, 0).completed
            == Total(max, history, 0, |history|) + Run(max, budget, history + rest, |history|).completed
  {
    RunAfter(max, budget, history + rest, 0, |history|);
    TotalOfPrefix(max, history, rest, 0);
  }

  lemma SafeAfterNothing(max: int, budget: nat, history: seq<Connection>)
    requires max > 0 && |history| <= budget && forall j :: 0 <= j < |history| ==> Redialled(max, history[j])
    requires Total(max, history, 0, |history|) == 0
    ensures StaysBounded(max, budget, history)
  {
    forall rest: seq<Connection> | forall j :: 0 <= j < |rest| ==> RejectsEarly(rest[j])
      ensures Run(max, budget, history + rest, 0).completed <= max
    {
      HistoryThen(max, budget, history, rest);
      EarlyBound(max, budget, history + rest, |history|);
    }
  }

  lemma OfferingBreaks(max: int, budget: nat, history: seq<Connection>)
    requires max > 0 && |history| <= budget && forall j :: 0 <= j < |history| ==> Redialled(max, history[j])
    requires Total(max, history, 0, |history|) > 0
    ensures Run(max, budget, history + [Offering(max)], 0).completed > max
  {
    OfferingDrains(max, 0);
    HistoryThen(max, budget, history, [Offering(max)]);
    assert (history + [Offering(max)])[|history|] == Offering(max);
  }

  /** The bound rests on that, exactly: once the worker redials, it is still safe if and only if
      no connection so far was rejected after completing an attempt. */
  lemma WorkerBoundIff(max: int, maxReconnects: int, history: seq<Connection>)
    requires max > 0 && |history| <= Budget(maxReconnects)
    requires forall j :: 0 <= j < |history| ==> Redialled(max, history[j])
    ensures StaysBounded(max, Budget(maxReconnects), history)
            <==> forall j :: 0 <= j < |history| ==> Connected(max, history[j]).completed == 0
  {
    var budget := Budget(maxReconnects);
    TotalZero(max, history, 0, |history|);
    if Total(max, history, 0, |history|) == 0 {
      SafeAfterNothing(max, budget, history);
    } else {
      OfferingBreaks(max, budget, history);
      assert RejectsEarly([Offering(max)][0]);
    }
  }

  // ---- the order of events over a whole worker ----------------------------------------------

  /** Position i carries on the cycle of one assignment: an ack follows its own scratch reset,
      a token its own ack, an attempt its own token, a slot-free its own attempt. */
  predicate InCycle(s: seq<Event>, i: nat)
    requires i < |s|
  {
    match s[i]
    case Scratch(_) => true
    case Ack(id) => i >= 1 && s[i - 1] == Scratch(id)
    case Adopt(id, _) => i >= 1 && s[i - 1] == Ack(id)
    case Attempt(id) => i >= 1 && s[i - 1].Adopt? && s[i - 1].id == id
    case SlotFree(id) => i >= 1 && s[i - 1] == Attempt(id)
  }

  ghost predicate Framed(s: seq<Event>)
  {
    forall i: nat :: i < |s| ==> InCycle(s, i)
  }

  lemma FramedConcat(a: seq<Event>, b: seq<Event>)
    requires Framed(a) && Framed(b)
    ensures Framed(a + b)
  {
    forall i: nat | i < |a + b| ensures InCycle(a + b, i) {
      if i < |a| { assert InCycle(a, i); } else { assert InCycle(b, i - |a|); }
    }
  }

  lemma {:induction false} CyclesFramed(works: seq<Assignment>)
    ensures Framed(Cycles(works))
  {
    if works != [] {
      CyclesFramed(works[1..]);
      assert Framed(Cycle(works[0]));
      FramedConcat(Cycle(works[0]), Cycles(works[1..]));
    }
  }

  lemma FramedPrefix(a: seq<Event>, b: seq<Event>)
    requires a <= b && Framed(b)
    ensures Framed(a)
  {
    forall i: nat | i < |a| ensures InCycle(a, i) { assert InCycle(b, i); }
  }

  lemma ConnectionFramed(max: int, c: Connection)
    ensures Framed(Connected(max, c).events)
  {
    ServesInOrder(max, c.script, 0);
    CyclesFramed(Works(c.script, 0));
    if c.open.None? { FramedPrefix(Connected(max, c).events, Cycles(Works(c.script, 0))); }
  }

  /** Across every reconnect, no attempt starts on a scratch that was not reset for it, without
      its own ack sent, or under another assignment's token. */
  lemma {:induction false} RunFramed(max: int, budget: nat, conns: seq<Connection>, i: nat)
    requires i <= |conns|
    ensures Framed(Run(max, budget, conns, i).events)
    decreases |conns| - i
  {
    if i < |conns| {
      ConnectionFramed(max, conns[i]);
      if Final(max, budget, conns[i], i).None? {
        RunFramed(max, budget, conns, i + 1);
        FramedConcat(Connected(max, conns[i]).events, Run(max, budget, conns, i + 1).events);
      }
    }
  }

  /** One more item on a connection that got past all items so far. */
  lemma {:induction false} ServeOneMore(max: int, script: seq<Received>, r: Received, i: nat)
    requires i <= |script| && PassesAll(max, script, i, |script|)
    ensures var e, n := Serve(max, script, i), |script|;
            && e.exit == Waiting && e.completed == n
            && Serve(max, script + [r], i)
               == if GoesOn(max, r, n) then Ended(Waiting, n + 1, e.events + Caused(r))
                  else Ended(StopExit(r), Counted(r, n), e.events + Caused(r))
    decreases |script| - i
  {
    if i == |script| {
      assert [] + Caused(r) == Caused(r) && Caused(r) + [] == Caused(r);
    } else {
      assert Passes(max, script, i);
      ServeOneMore(max, script, r, i + 1);
      var rest := Serve(max, script, i + 1).events;
      assert Caused(script[i]) + (rest + Caused(r)) == Caused(script[i]) + rest + Caused(r);
    }
  }

  lemma PassesMore(max: int, script: seq<Received>, r: Received)
    requires PassesAll(max, script, 0, |script|) && GoesOn(max, r, |script|)
    ensures PassesAll(max, script + [r], 0, |script| + 1)
  {
    forall j: nat | j < |script| ensures Passes(max, script + [r], j) { assert Passes(max, script, j); }
  }

  /** All connections from i on were followed by another. */
  ghost predicate AllFollowed(max: int, budget: nat, conns: seq<Connection>, i: nat)
    requires i <= |conns|
  {
    forall j: nat :: i <= j < |conns| ==> Final(max, budget, conns[j], j).None?
  }

  /** The run so far with one more connection behind it. */
  function Onward(r: Ran, e: Ended, final: Option<Exit>): Ran
  {
    Ran(if final.Some? then final.value else Waiting, r.tried + 1, r.completed + e.completed, r.events + e.events)
  }

  lemma {:induction false} RunOneMore(max: int, budget: nat, conns: seq<Connection>, c: Connection, i: nat)
    requires i <= |conns| && AllFollowed(max, budget, conns, i)
    ensures var r := Run(max, budget, conns, i);
            && r.exit == Waiting && r.tried == |conns| - i
            && Run(max, budget, conns + [c], i) == Onward(r, Connected(max, c), Final(max, budget, c, |conns|))
    decreases |conns| - i
  {
    var e := Connected(max, c);
    if i == |conns| {
      assert Run(max, budget, conns + [c], i + 1) == Ran(Waiting, 0, 0, []);
      assert [] + e.events == e.events && e.events + [] == e.events;
    } else {
      RunOneMore(max, budget, conns, c, i + 1);
      var here, rest := Connected(max, conns[i]).events, Run(max, budget, conns, i + 1).events;
      assert here + (rest + e.events) == here + rest + e.events;
    }
  }

  lemma FollowedMore(max: int, budget: nat, conns: seq<Connection>, c: Connection)
    requires AllFollowed(max, budget, conns, 0) && Final(max, budget, c, |conns|).None?
    ensures AllFollowed(max, budget, conns + [c], 0)
  {
    forall j: nat | j < |conns + [c]| ensures Final(max, budget, (conns + [c])[j], j).None? {
      if j < |conns| { assert (conns + [c])[j] == conns[j]; }
    }
  }

  // ---- what a connection meets --------------------------------------------------------------

  /** A connection before its receives have chosen: what is ready each time one returns. */
  datatype Dial = Dial(open: Option<Code>, waits: seq<Ready>, cancelled: bool, redialOk: bool)

  /** The connection's script is what receives on this dial may have returned, one after another. */
  predicate Heard(idleTTL: int, d: Dial, c: Connection)
  {
    && c.open == d.open && c.cancelled == d.cancelled && c.redialOk == d.redialOk
    && |c.script| <= |d.waits|
    && forall i :: 0 <= i < |c.script| ==> MayReceive(idleTTL, d.waits[i], c.script[i])
  }

  predicate AllReceivable(idleTTL: int, d: Dial)
  {
    forall i :: 0 <= i < |d.waits| ==> CanReceive(idleTTL, d.waits[i])
  }

  // ---- the worker object --------------------------------------------------------------------

  function UpTo(n: nat): seq<nat>
  {
    seq(n, i => i)
  }

  class WarmRunner {
    const maxAttempts: int
    const maxReconnects: int
    const idleTTL: int
    /** Connections dialled so far are 0, 1, ..., dialled - 1; those closed are listed in order. */
    var dialled: nat
    var closed: seq<nat>
    var streamCloser: Option<nat>

    constructor (maxAttempts: int, maxReconnects: int, idleTTL: int)
      ensures this.maxAttempts == maxAttempts && this.maxReconnects == maxReconnects && this.idleTTL == idleTTL
      ensures Valid() && dialled == 0
    {
      this.maxAttempts, this.maxReconnects, this.idleTTL := maxAttempts, maxReconnects, idleTTL;
      dialled, closed, streamCloser := 0, [], None;
    }

    /** Every connection a redial opened has been closed once, in order, except the one in use. */
    ghost predicate Valid()
      reads this
    {
      if streamCloser.Some?
      then dialled > 0 && streamCloser.value == dialled - 1 && closed == UpTo(dialled - 1)
      else closed == UpTo(dialled)
    }

    method ServeAssignment(a: Assignment) returns (fault: Option<Code>, events: seq<Event>)
      ensures fault == Fault(a) && events == Performed(a)
      ensures CarriedOut(a, events)
      ensures fault == if !a.scratchOk then Some(Other) else if a.ack.Some? then a.ack else a.slotFree
    {
      PerformedCarriesOut(a);
      events := [Scratch(a.id)];
      if !a.scratchOk { return Some(Other), events; }
      events := events + [Ack(a.id)];
      if a.ack.Some? { return a.ack, events; }
      events := events + [Adopt(a.id, a.token)];
      events := events + [Attempt(a.id)];
      events := events + [SlotFree(a.id)];
      fault := a.slotFree;
    }

    /** Handles what one receive returned: the exit, or nothing when the loop goes on. */
    method ServeNext(r: Received, served: nat)
      returns (last: Option<Exit>, attemptsServed: nat, events: seq<Event>)
      ensures last == if GoesOn(maxAttempts, r, served) then None else Some(StopExit(r))
      ensures attemptsServed == Counted(r, served) && events == Caused(r)
    {
      attemptsServed, events := served, [];
      match r {
        case Work(a) =>
          var fault;
          fault, events := ServeAssignment(a);
          if fault.Some? { return Some(CodeExit(fault.value)), attemptsServed, events; }
          attemptsServed := attemptsServed + 1;
          if maxAttempts > 0 && attemptsServed >= maxAttempts { return Some(Clean), attemptsServed, events; }
          if a.aged { return Some(Clean), attemptsServed, events; }
          last := None;
        case Idle => last := Some(Clean);
        case EndOfStream => last := Some(Clean);
        case Broken(code) =>
          last := Some(if code == Canceled || code == Unavailable then Clean else Failed(code));
        case ContextDone => last := Some(Failed(Other));
      }
    }

    /** Receives and serves until something ends the connection or the waits are used up; `c` is
        what the receives made of the dial. */
    method ServeConnection(d: Dial) returns (e: Ended, c: Connection)
      requires AllReceivable(idleTTL, d)
      ensures Heard(idleTTL, d, c) && e == Connected(maxAttempts, c)
      ensures e.exit == Waiting ==> |c.script| == |d.waits|
    {
      c := Connection(d.open, [], d.cancelled, d.redialOk);
      if d.open.Some? { return Ended(Failed(d.open.value), 0, []), c; }
      e := Ended(Waiting, 0, []);
      var done := false;
      while !done && |c.script| < |d.waits|
        invariant Heard(idleTTL, d, c) && c.open.None? && Served(c.script, e, done)
        decreases |d.waits| - |c.script|
      {
        var r := RecvAssignment(idleTTL, d.waits[|c.script|]);
        e, done := ServeItem(c.script, r, e);
        c := c.(script := c.script + [r]);
      }
    }

    /** The connection stands here after these items: ended by the last of them, or past them all. */
    ghost predicate Served(script: seq<Received>, e: Ended, done: bool)
    {
      && e == Serve(maxAttempts, script, 0) && (done <==> e.exit != Waiting)
      && (!done ==> PassesAll(maxAttempts, script, 0, |script|))
    }

    method ServeItem(script: seq<Received>, r: Received, so: Ended) returns (e: Ended, done: bool)
      requires Served(script, so, false)
      ensures Served(script + [r], e, done)
    {
      ServeOneMore(maxAttempts, script, r, 0);
      var last, attemptsServed, events := ServeNext(r, so.completed);
      if last.None? { PassesMore(maxAttempts, script, r); }
      e := Ended(if last.Some? then last.value else Waiting, attemptsServed, so.events + events);
      done := last.Some?;
    }

    method CloseRedialConn()
      requires Valid()
      modifies this`closed, this`streamCloser
      ensures Valid() && streamCloser.None?
    {
      if streamCloser.Some? {
        closed := closed + [streamCloser.value];
        streamCloser := None;
      }
    }

    /** Dials anew, then closes the connection the previous redial opened; a failed dial changes
        nothing. */
    method RedialStream(ok: bool)
      requires Valid()
      modifies this`dialled, this`closed, this`streamCloser
      ensures Valid()
      ensures ok ==> dialled == old(dialled) + 1 && streamCloser == Some(old(dialled))
      ensures !ok ==> unchanged(this)
    {
      if !ok { return; }
      CloseRedialConn();
      streamCloser := Some(dialled);
      dialled := dialled + 1;
    }

    /** What follows a connection that ended: nothing more, or a redial. */
    method Reconnect(c: Connection, exit: Exit, reconnects: nat) returns (last: Option<Exit>)
      requires Valid() && exit == Connected(maxAttempts, c).exit
      modifies this`dialled, this`closed, this`streamCloser
      ensures Valid() && old(dialled) <= dialled <= old(dialled) + 1
      ensures last == Final(maxAttempts, Budget(maxReconnects), c, reconnects)
    {
      if exit != Failed(FailedPrecondition) { return Some(exit); }
      if reconnects + 1 > Budget(maxReconnects) { return Some(GaveUp); }
      if c.cancelled { return Some(Clean); }
      RedialStream(c.redialOk);
      last := if c.redialOk then None else Some(RedialFailed);
    }

    /** Meets the specification of a run on the connections its receives made; once the run has
        ended, every connection it dialled has been closed, and closed once. */
    method Execute(dials: seq<Dial>) returns (r: Ran, conns: seq<Connection>)
      requires Valid() && forall i :: 0 <= i < |dials| ==> AllReceivable(idleTTL, dials[i])
      modifies this
      ensures |conns| <= |dials| && forall i :: 0 <= i < |conns| ==> Heard(idleTTL, dials[i], conns[i])
      ensures r == Run(maxAttempts, Budget(maxReconnects), conns, 0) && r.tried == |conns|
      ensures Valid() && dialled <= old(dialled) + r.tried
      ensures r.exit != Waiting ==> streamCloser.None?
    {
      r, conns := Ran(Waiting, 0, 0, []), [];
      var done := false;
      while !done && |conns| < |dials|
        invariant |conns| <= |dials| && forall i :: 0 <= i < |conns| ==> Heard(idleTTL, dials[i], conns[i])
        invariant Stands(conns, r, done)
        invariant Valid() && dialled <= old(dialled) + r.tried
        invariant r.exit != Waiting ==> streamCloser.None?
        decreases |dials| - |conns|
      {
        var c;
        r, c, done := RunDial(conns, dials[|conns|], r);
        conns := conns + [c];
      }
    }

    /** The run stands here after these connections: ended with the last, or about to dial again. */
    ghost predicate Stands(conns: seq<Connection>, r: Ran, done: bool)
    {
      && r == Run(maxAttempts, Budget(maxReconnects), conns, 0) && r.tried == |conns|
      && (!done ==> r.exit == Waiting && AllFollowed(maxAttempts, Budget(maxReconnects), conns, 0))
    }

    /** One turn of the loop: a connection is served, and then the run ends or dials again. */
    method RunDial(conns: seq<Connection>, d: Dial, so: Ran) returns (r: Ran, c: Connection, done: bool)
      requires Valid() && Stands(conns, so, false) && AllReceivable(idleTTL, d)
      modifies this
      ensures Heard(idleTTL, d, c) && Stands(conns + [c], r, done)
      ensures Valid() && dialled <= old(dialled) + 1
      ensures r.exit != Waiting ==> streamCloser.None?
    {
      var e;
      e, c := ServeConnection(d);
      RunOneMore(maxAttempts, Budget(maxReconnects), conns, c, 0);
      var last := Reconnect(c, e.exit, so.tried);
      if last.None? { FollowedMore(maxAttempts, Budget(maxReconnects), conns, c); }
      r, done := Onward(so, e, last), last.Some?;
      if r.exit != Waiting { CloseRedialConn(); }
    }
  }
}
