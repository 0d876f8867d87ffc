/** One attempt of a task in the agent (internal/agent/runner.go): from the fetched spec to a
    single terminal verdict, recorded durably before it is reported. Every call of an attempt
    is made on the attempt's own context, which its watchdog or a shutdown may end. */
module AttemptVerdict {
  import opened Wrappers

  const RESCHEDULE_EXIT := 75
  const SECRET_UNRESOLVED := "secret unresolved"
  const OUTPUT_UNDELIVERED := "output undelivered"
  const EXECUTION_TIMEOUT := "execution_timeout"

  /** What the durable record can say. An empty reason is an unclassified failure. */
  datatype Verdict = Succeeded | Failed(exitCode: int, reason: string) | Rescheduled(when: int)

  datatype Request = Running | Success | Failure(exitCode: int, message: string) | Reschedule(when: int)

  /** Superseded: the server took the report and says the row has moved on. */
  datatype Answer = Acked | Superseded | Refused | Transient

  /** A call gets no answer when its context ends first, or none ever comes. */
  datatype Effect = Record(verdict: Verdict) | Call(request: Request, answer: Option<Answer>) | Push(which: nat)

  // ---- contexts ---------------------------------------------------------------------------

  datatype Cause = Deadline | Cancelled

  /** When a context ends, in milliseconds, and by what. */
  datatype Context = Context(end: Option<nat>, cause: Cause)

  predicate Over(c: Context, t: nat)
  {
    c.end.Some? && c.end.value <= t
  }

  /** A context derived from c that may also end by itself; at a tie the outer one counts. */
  function Derived(c: Context, own: Context): Context
  {
    if own.end.Some? && (c.end.None? || own.end.value < c.end.value) then own else c
  }

  /** A derived context is over exactly when one of the two is. */
  lemma DerivedEndsFirst(c: Context, own: Context, t: nat)
    ensures Over(Derived(c, own), t) <==> Over(c, t) || Over(own, t)
    ensures Derived(c, own) == c || Derived(c, own) == own
  {
  }

  // ---- delivering one report ----------------------------------------------------------------

  /** The server's answer to a call and how long it takes. After the last one no answer comes. */
  datatype Reply = Reply(answer: Answer, after: nat)

  datatype Outcome = Answered(answer: Answer) | ContextEnded | Hanging

  datatype Delivery = Delivery(calls: seq<Effect>, outcome: Outcome, at: nat)

  /** The pause before retry n: 1, 2, 4 and 8 seconds, then the heartbeat interval. */
  function Backoff(n: nat): nat
  {
    if n <= 1 then 1000 else if Backoff(n - 1) >= 8000 then 15000 else 2 * Backoff(n - 1)
  }

  /** The pauses in milliseconds. */
  lemma BackoffValues(n: nat)
    ensures Backoff(n) == if n <= 1 then 1000 else if n == 2 then 2000 else if n == 3 then 4000
                          else if n == 4 then 8000 else 15000
  {
    assert Backoff(2) == 2000 && Backoff(3) == 4000;
    assert Backoff(4) == 8000;
    assert Backoff(5) == 15000;
    if n >= 5 { BackoffStays(5, n); }
  }

  lemma {:induction false} BackoffStays(n: nat, m: nat)
    requires n <= m && Backoff(n) == 15000
    ensures Backoff(m) == 15000
    decreases m
  {
    if n < m { BackoffStays(n, m - 1); }
  }

  method ReportBackoff(attempt: nat) returns (d: nat)
    ensures d == Backoff(attempt)
  {
    d := 1000;
    var i := 1;
    while i < attempt && d < 15000
      invariant 1 <= i && (i <= attempt || i == 1)
      invariant (d in {1000, 2000, 4000, 8000} && d == Backoff(i)) || (d == 16000 && Backoff(i) == 15000)
    {
      d := d * 2;
      i := i + 1;
    }
    if d > 15000 {
      BackoffStays(i, attempt);
      d := 15000;
    }
  }

  predicate Arrives(ctx: Context, t: nat, replies: seq<Reply>, i: nat)
  {
    i < |replies| && !Over(ctx, t + replies[i].after)
  }

  /** What becomes of one call and its back-off: the report ends, or is made again later. */
  datatype Turn = Ends(outcome: Outcome, at: nat) | Again(at: nat)

  /** The i-th call, made at time t. On an ended context it fails at once; that error is final when
      the context was cancelled, and otherwise the back-off ends it. */
  function TurnOf(ctx: Context, t: nat, replies: seq<Reply>, i: nat): (turn: Turn)
    ensures turn.Again? ==> i < |replies|
  {
    if !Arrives(ctx, t, replies, i) then
      if ctx.end.Some? then Ends(ContextEnded, if Over(ctx, t) then t else ctx.end.value) else Ends(Hanging, t)
    else
      var at := t + replies[i].after;
      if !replies[i].answer.Transient? then Ends(Answered(replies[i].answer), at)
      else if Over(ctx, at + Backoff(i + 1)) then Ends(ContextEnded, ctx.end.value)
      else Again(at + Backoff(i + 1))
  }

  function CallOf(q: Request, ctx: Context, t: nat, replies: seq<Reply>, i: nat): Effect
  {
    Call(q, if Arrives(ctx, t, replies, i) then Some(replies[i].answer) else None)
  }

  /** The report from its i-th call on, made at time t. */
  function Report(q: Request, ctx: Context, t: nat, replies: seq<Reply>, i: nat): Delivery
    decreases |replies| - i
  {
    var call := CallOf(q, ctx, t, replies, i);
    match TurnOf(ctx, t, replies, i)
    case Ends(outcome, at) => Delivery([call], outcome, at)
    case Again(later) => Onward([call], Report(q, ctx, later, replies, i + 1))
  }

  function Onward(calls: seq<Effect>, d: Delivery): Delivery
  {
    d.(calls := calls + d.calls)
  }

  /** One call: what came back, and when. On an ended context the error is Canceled or
      DeadlineExceeded, and only the latter is one to retry. */
  method ReportState(ctx: Context, t: nat, replies: seq<Reply>, i: nat) returns (answer: Option<Answer>, retryable: bool, at: nat)
    requires ctx.end.Some? || i < |replies|
    ensures answer == if Arrives(ctx, t, replies, i) then Some(replies[i].answer) else None
    ensures retryable == if answer.Some? then answer.value.Transient? else ctx.cause.Deadline?
    ensures at == if Arrives(ctx, t, replies, i) then t + replies[i].after else if Over(ctx, t) then t else ctx.end.value
  {
    if i < |replies| && !Over(ctx, t + replies[i].after) {
      return Some(replies[i].answer), replies[i].answer.Transient?, t + replies[i].after;
    }
    return None, ctx.cause.Deadline?, if Over(ctx, t) then t else ctx.end.value;
  }

  /** One turn of the loop: a call and, after an error worth retrying, the back-off. */
  method TakeTurn(q: Request, ctx: Context, t: nat, replies: seq<Reply>, i: nat) returns (call: Effect, turn: Turn)
    ensures call == CallOf(q, ctx, t, replies, i) && turn == TurnOf(ctx, t, replies, i)
  {
    if ctx.end.None? && i >= |replies| { return Call(q, None), Ends(Hanging, t); }
    var answer, retryable, at := ReportState(ctx, t, replies, i);
    call := Call(q, answer);
    if answer.Some? && !retryable { return call, Ends(Answered(answer.value), at); }
    if !retryable { return call, Ends(ContextEnded, at); }
    var delay := ReportBackoff(i + 1);
    if Over(ctx, at + delay) { return call, Ends(ContextEnded, if Over(ctx, at) then at else ctx.end.value); }
    turn := Again(at + delay);
  }

  lemma OnwardOnce(q: Request, ctx: Context, t: nat, replies: seq<Reply>, i: nat, calls: seq<Effect>)
    ensures var more := calls + [CallOf(q, ctx, t, replies, i)];
            Onward(calls, Report(q, ctx, t, replies, i))
            == match TurnOf(ctx, t, replies, i)
               case Ends(outcome, at) => Delivery(more, outcome, at)
               case Again(later) => Onward(more, Report(q, ctx, later, replies, i + 1))
  {
    var turn := TurnOf(ctx, t, replies, i);
    if turn.Again? {
      var call, rest := [CallOf(q, ctx, t, replies, i)], Report(q, ctx, turn.at, replies, i + 1).calls;
      assert calls + (call + rest) == calls + call + rest;
    }
  }

  /** The delivery loop: no budget of attempts, and the context checked in every back-off. */
  method ReportRequest(q: Request, ctx: Context, start: nat, replies: seq<Reply>) returns (d: Delivery)
    ensures d == Report(q, ctx, start, replies, 0)
  {
    var t: nat, i: nat, calls: seq<Effect> := start, 0, [];
    ghost var whole := Report(q, ctx, start, replies, 0);
    while true
      invariant 0 <= i <= |replies|
      invariant whole == Onward(calls, Report(q, ctx, t, replies, i))
      decreases |replies| - i
    {
      OnwardOnce(q, ctx, t, replies, i, calls);
      var call, turn := TakeTurn(q, ctx, t, replies, i);
      calls := calls + [call];
      if turn.Ends? { return Delivery(calls, turn.outcome, turn.at); }
      t, i := turn.at, i + 1;
    }
  }

  predicate Final(answer: Option<Answer>)
  {
    answer.Some? && !answer.value.Transient?
  }

  /** All calls of a delivery are the same request, only the last can bring a final answer, and
      it does exactly when the report is answered. */
  lemma {:induction false} CallsAreOneReport(q: Request, ctx: Context, t: nat, replies: seq<Reply>, i: nat)
    ensures var d := Report(q, ctx, t, replies, i);
            && |d.calls| >= 1 && d.at >= t
            && (forall e :: e in d.calls ==> e.Call? && e.request == q)
            && (forall j: nat :: j < |d.calls| - 1 ==> !Final(d.calls[j].answer))
            && (Final(d.calls[|d.calls| - 1].answer) <==> d.outcome.Answered?)
            && (d.outcome.Answered? ==> d.calls[|d.calls| - 1].answer == Some(d.outcome.answer) && Final(Some(d.outcome.answer)))
    decreases |replies| - i
  {
    if TurnOf(ctx, t, replies, i).Again? {
      var later := TurnOf(ctx, t, replies, i).at;
      CallsAreOneReport(q, ctx, later, replies, i + 1);
      var d, rest := Report(q, ctx, t, replies, i).calls, Report(q, ctx, later, replies, i + 1).calls;
      forall j: nat | j < |d| - 1 ensures !Final(d[j].answer) {
        if j > 0 { assert d[j] == rest[j - 1]; }
      }
    }
  }

  /** When the k-th answer comes if nothing ends the context: each earlier call was answered and
      followed by its back-off. */
  function ArrivalOf(t: nat, replies: seq<Reply>, i: nat, k: nat): nat
    requires i <= k < |replies|
    decreases k - i
  {
    if i == k then t + replies[k].after else ArrivalOf(t + replies[i].after + Backoff(i + 1), replies, i + 1, k)
  }

  /** The k-th answer is the first that is not transient. */
  ghost predicate FirstFinal(replies: seq<Reply>, i: nat, k: nat)
  {
    i <= k < |replies| && !replies[k].answer.Transient? && forall j :: i <= j < k ==> replies[j].answer.Transient?
  }

  lemma {:induction false} ArrivesLater(t: nat, replies: seq<Reply>, i: nat, k: nat)
    requires i <= k < |replies|
    ensures ArrivalOf(t, replies, i, k) >= t + replies[i].after
    ensures i < k ==> ArrivalOf(t, replies, i, k) >= t + replies[i].after + Backoff(i + 1)
    decreases k - i
  {
    if i < k { ArrivesLater(t + replies[i].after + Backoff(i + 1), replies, i + 1, k); }
  }

  ghost predicate AnswerInTime(ctx: Context, t: nat, replies: seq<Reply>, i: nat, answer: Answer)
  {
    exists k: nat :: FirstFinal(replies, i, k) && replies[k].answer == answer && !Over(ctx, ArrivalOf(t, replies, i, k))
  }

  lemma {:induction false} AnsweredFrom(q: Request, ctx: Context, t: nat, replies: seq<Reply>, i: nat, answer: Answer)
    ensures Report(q, ctx, t, replies, i).outcome == Answered(answer) <==> AnswerInTime(ctx, t, replies, i, answer)
    decreases |replies| - i
  {
    forall k: nat | FirstFinal(replies, i, k) && !Over(ctx, ArrivalOf(t, replies, i, k)) ensures Arrives(ctx, t, replies, i) {
      ArrivesLater(t, replies, i, k);
    }
    if i < |replies| {
      var later := t + replies[i].after + Backoff(i + 1);
      if !replies[i].answer.Transient? {
        assert FirstFinal(replies, i, i);
        assert forall k: nat :: FirstFinal(replies, i, k) ==> k == i;
      } else if Arrives(ctx, t, replies, i) {
        forall k: nat | FirstFinal(replies, i, k) && !Over(ctx, ArrivalOf(t, replies, i, k)) ensures !Over(ctx, later) {
          ArrivesLater(t, replies, i, k);
        }
        AnsweredFrom(q, ctx, later, replies, i + 1, answer);
        AnswerShifts(ctx, t, replies, i, answer);
      }
    }
  }

  lemma AnswerShifts(ctx: Context, t: nat, replies: seq<Reply>, i: nat, answer: Answer)
    requires i < |replies| && replies[i].answer.Transient?
    ensures AnswerInTime(ctx, t, replies, i, answer)
            <==> AnswerInTime(ctx, t + replies[i].after + Backoff(i + 1), replies, i + 1, answer)
  {
    var later := t + replies[i].after + Backoff(i + 1);
    forall k: nat ensures FirstFinal(replies, i, k) <==> FirstFinal(replies, i + 1, k) {}
    forall k: nat | FirstFinal(replies, i, k) ensures ArrivalOf(t, replies, i, k) == ArrivalOf(later, replies, i + 1, k) {}
  }

  /** An answered report ends when that answer arrives. */
  lemma {:induction false} AnsweredAt(q: Request, ctx: Context, t: nat, replies: seq<Reply>, i: nat) returns (k: nat)
    requires Report(q, ctx, t, replies, i).outcome.Answered?
    ensures FirstFinal(replies, i, k) && Report(q, ctx, t, replies, i).at == ArrivalOf(t, replies, i, k)
    decreases |replies| - i
  {
    match TurnOf(ctx, t, replies, i) {
      case Ends(_, _) => k := i;
      case Again(later) => k := AnsweredAt(q, ctx, later, replies, i + 1);
    }
  }

  /** A report is answered if and only if the server's first final answer, after all the retries
      before it, comes before the context ends. */
  lemma AnsweredIff(q: Request, ctx: Context, start: nat, replies: seq<Reply>, answer: Answer)
    ensures Report(q, ctx, start, replies, 0).outcome == Answered(answer) <==> AnswerInTime(ctx, start, replies, 0, answer)
  {
    AnsweredFrom(q, ctx, start, replies, 0, answer);
  }

  // ---- one attempt and its times ----------------------------------------------------------------

  datatype EnvFailure = EnvFailure(message: string, secret: bool)

  /** Everything an attempt meets. It begins with its running report, or with the report of a
      failed environment; `stopAt` is when the control plane, through a heartbeat, asks it to
      stop; the process would take `duration`, takes `grace` to end once its context is over, and
      `wrapUp` and `pushing` are the times to close the logs and to deliver the outputs, whose
      errors `pushes` holds. */
  datatype Attempt = Attempt(specOk: bool, commandOk: bool, env: Option<EnvFailure>,
                             ctx: Context, begins: nat, running: seq<Reply>,
                             declaredTimeout: int, stopAt: Option<nat>, duration: nat, grace: nat, wrapUp: nat,
                             exitCode: int, runErr: Option<string>, pokeTime: Option<int>,
                             pushes: seq<Option<string>>, pushing: nat, terminal: seq<Reply>)

  predicate Prepared(a: Attempt)
  {
    a.specOk && a.commandOk
  }

  function RunningReport(a: Attempt): Delivery
  {
    Report(Running, a.ctx, a.begins, a.running, 0)
  }

  predicate Announced(a: Attempt)
  {
    RunningReport(a).outcome == Answered(Acked)
  }

  /** The user's process was started: the running report was taken first. */
  predicate Started(a: Attempt)
  {
    Prepared(a) && a.env.None? && Announced(a)
  }

  function StartedAt(a: Attempt): nat
  {
    RunningReport(a).at
  }

  /** The context the process runs on: the attempt's, ended earlier by a stop request or by the
      declared timeout. */
  function ProcessContext(a: Attempt): Context
  {
    var stoppable := Derived(a.ctx, Context(a.stopAt, Cancelled));
    if a.declaredTimeout <= 0 then stoppable
    else Derived(stoppable, Context(Some(StartedAt(a) + a.declaredTimeout), Deadline))
  }

  function FinishedAt(a: Attempt): nat
  {
    var byItself := StartedAt(a) + a.duration;
    if !Over(ProcessContext(a), byItself) then byItself
    else (if Over(ProcessContext(a), StartedAt(a)) then StartedAt(a) else ProcessContext(a).end.value) + a.grace
  }

  /** When the agent looks at how the process ended. */
  function CheckedAt(a: Attempt): nat
  {
    FinishedAt(a) + a.wrapUp
  }

  /** The process's context was over by a deadline when the agent looked. */
  predicate TimedOut(a: Attempt)
  {
    a.declaredTimeout > 0 && Over(ProcessContext(a), CheckedAt(a)) && ProcessContext(a).cause.Deadline?
  }

  /** When the terminal report begins. */
  function ReportedAt(a: Attempt): nat
  {
    if a.env.Some? then a.begins
    else if ExitsWith(a, 0) then CheckedAt(a) + a.pushing
    else CheckedAt(a)
  }

  /** When the terminal report begins: at once for a failed environment, and else when the process
      has ended and its logs are closed, after the outputs of one that exited 0 in time. */
  lemma ReportedWhen(a: Attempt)
    ensures a.env.Some? ==> ReportedAt(a) == a.begins
    ensures Started(a) && !TimedOut(a) && a.runErr.None? && a.exitCode == 0 ==>
              ReportedAt(a) == FinishedAt(a) + a.wrapUp + a.pushing
    ensures Started(a) && (TimedOut(a) || a.runErr.Some? || a.exitCode != 0) ==> ReportedAt(a) == FinishedAt(a) + a.wrapUp
  {
  }

  /** A process ends by itself, unless its context is over before: then within the grace after that. */
  lemma FinishedWhen(a: Attempt)
    ensures !Over(ProcessContext(a), StartedAt(a) + a.duration) ==> FinishedAt(a) == StartedAt(a) + a.duration
    ensures Over(ProcessContext(a), StartedAt(a) + a.duration) && !Over(ProcessContext(a), StartedAt(a)) ==>
              FinishedAt(a) == ProcessContext(a).end.value + a.grace
    ensures Over(ProcessContext(a), StartedAt(a)) ==> FinishedAt(a) == StartedAt(a) + a.grace
  {
  }

  // ---- the verdict an attempt deserves ------------------------------------------------------

  predicate Pushed(a: Attempt)
  {
    forall i :: 0 <= i < |a.pushes| ==> a.pushes[i].None?
  }

  predicate ExitsWith(a: Attempt, code: int)
  {
    Started(a) && !TimedOut(a) && a.runErr.None? && a.exitCode == code
  }

  predicate Succeeds(a: Attempt)
  {
    ExitsWith(a, 0) && Pushed(a)
  }

  predicate Reschedules(a: Attempt)
  {
    ExitsWith(a, RESCHEDULE_EXIT) && a.pokeTime.Some?
  }

  /** The attempt failed in a way it must report, with this exit code and reason. */
  predicate Fails(a: Attempt, exitCode: int, reason: string)
  {
    || (Prepared(a) && a.env.Some? && exitCode == 1
        && reason == if a.env.value.secret then SECRET_UNRESOLVED else "")
    || (Started(a) && TimedOut(a) && exitCode == ClampExit(a.exitCode) && reason == EXECUTION_TIMEOUT)
    || (Started(a) && !TimedOut(a) && (a.runErr.Some? || a.exitCode != 0) && !Reschedules(a)
        && exitCode == ClampExit(a.exitCode) && reason == "")
    || (ExitsWith(a, 0) && !Pushed(a) && exitCode == 0 && reason == OUTPUT_UNDELIVERED)
  }

  function ClampExit(code: int): (r: int)
    ensures 0 <= r <= 255
    ensures 0 <= code <= 255 ==> r == code
    ensures code < 0 || code > 255 ==> r == 255
    ensures r == 0 <==> code == 0
  {
    if code < 0 || code > 255 then 255 else code
  }

  predicate Deserves(a: Attempt, v: Verdict)
  {
    match v
    case Succeeded => Succeeds(a)
    case Failed(exitCode, reason) => Fails(a, exitCode, reason)
    case Rescheduled(when) => Reschedules(a) && a.pokeTime == Some(when)
  }

  predicate Concludes(a: Attempt)
  {
    Prepared(a) && (a.env.Some? || Announced(a))
  }

  /** No attempt deserves two verdicts, and only one that concludes deserves any. */
  lemma OneVerdict(a: Attempt, v: Verdict, w: Verdict)
    ensures Deserves(a, v) && Deserves(a, w) ==> v == w
    ensures Deserves(a, v) ==> Concludes(a)
  {}

  /** An attempt that was prepared and, if its environment was built, announced as running
      deserves a verdict: the cases leave no gap. */
  lemma SomeVerdict(a: Attempt) returns (v: Verdict)
    requires Concludes(a)
    ensures Deserves(a, v)
  {
    if a.env.Some? {
      v := Failed(1, if a.env.value.secret then SECRET_UNRESOLVED else "");
    } else if TimedOut(a) {
      v := Failed(ClampExit(a.exitCode), EXECUTION_TIMEOUT);
    } else if Reschedules(a) {
      v := Rescheduled(a.pokeTime.value);
    } else if Succeeds(a) {
      v := Succeeded;
    } else if ExitsWith(a, 0) {
      v := Failed(0, OUTPUT_UNDELIVERED);
    } else {
      v := Failed(ClampExit(a.exitCode), "");
    }
  }

  // ---- what an attempt does -----------------------------------------------------------------

  /** The report a verdict is delivered as. */
  predicate Carries(q: Request, v: Verdict)
  {
    match v
    case Succeeded => q == Success
    case Failed(exitCode, _) => q.Failure? && q.exitCode == exitCode
    case Rescheduled(when) => q == Reschedule(when)
  }

  /** What a failure is reported with: the environment's error, the timeout, the run error, or the
      first error of a delivery. */
  predicate Explains(a: Attempt, message: string)
  {
    && (a.env.Some? ==> message == a.env.value.message)
    && (Started(a) && TimedOut(a) ==> message == EXECUTION_TIMEOUT)
    && (Started(a) && !TimedOut(a) && a.runErr.Some? ==> message == a.runErr.value)
    && (Started(a) && !TimedOut(a) && a.runErr.None? && a.exitCode != 0 ==> message == "task exited non-zero")
    && (ExitsWith(a, 0) ==> forall i :: 0 <= i < |a.pushes| && FirstError(a.pushes, i) ==> a.pushes[i].value == message)
  }

  predicate FirstError(pushes: seq<Option<string>>, i: int)
  {
    0 <= i < |pushes| && pushes[i].Some? && forall j :: 0 <= j < i ==> pushes[j].None?
  }

  /** A verdict is concluded by its record, when one is kept, and then the calls of one report
      of the same verdict, on the attempt's own context. */
  ghost predicate Concluded(a: Attempt, log: seq<Effect>, keepsRecord: bool, v: Verdict)
  {
    exists q :: ConcludedBy(a, log, keepsRecord, v, q)
  }

  predicate ConcludedBy(a: Attempt, log: seq<Effect>, keepsRecord: bool, v: Verdict, q: Request)
  {
    && Carries(q, v) && (q.Failure? ==> Explains(a, q.message))
    && log == (if keepsRecord then [Record(v)] else []) + Report(q, a.ctx, ReportedAt(a), a.terminal, 0).calls
  }

  method ReportClassified(a: Attempt, keepsRecord: bool, v: Verdict, q: Request, now: nat) returns (log: seq<Effect>)
    requires Carries(q, v) && now == ReportedAt(a) && (q.Failure? ==> Explains(a, q.message))
    ensures Concluded(a, log, keepsRecord, v)
  {
    log := if keepsRecord then [Record(v)] else [];
    var d := ReportRequest(q, a.ctx, now, a.terminal);
    log := log + d.calls;
    assert ConcludedBy(a, log, keepsRecord, v, q);
  }

  method Fail(a: Attempt, keepsRecord: bool, exitCode: int, message: string, reason: string, now: nat)
    returns (log: seq<Effect>)
    requires now == ReportedAt(a) && Explains(a, message)
    ensures Concluded(a, log, keepsRecord, Failed(ClampExit(exitCode), reason))
  {
    var clamped := ClampExit(exitCode);
    log := ReportClassified(a, keepsRecord, Failed(clamped, reason), Failure(clamped, message), now);
  }

  /** These are the pushes made of these outputs: in order, all of them, or up to the first that
      fails. */
  predicate PushesMade(pushes: seq<Option<string>>, log: seq<Effect>)
  {
    && |log| <= |pushes| && (forall i :: 0 <= i < |log| ==> log[i] == Push(i))
    && (forall i :: 0 <= i < |log| - 1 ==> pushes[i].None?)
    && (|log| < |pushes| ==> |log| > 0 && pushes[|log| - 1].Some?)
  }

  /** Delivers the outputs in turn, up to the first that fails, and returns that error. */
  method PushOutputs(pushes: seq<Option<string>>) returns (log: seq<Effect>, failed: Option<string>)
    ensures PushesMade(pushes, log)
    ensures failed.None? ==> |log| == |pushes| && forall i :: 0 <= i < |pushes| ==> pushes[i].None?
    ensures failed.Some? ==> |log| > 0 && FirstError(pushes, |log| - 1) && failed == pushes[|log| - 1]
  {
    log, failed := [], None;
    for i := 0 to |pushes|
      invariant |log| == i && (forall j :: 0 <= j < i ==> log[j] == Push(j))
      invariant failed.None? && forall j :: 0 <= j < i ==> pushes[j].None?
    {
      log := log + [Push(i)];
      if pushes[i].Some? { return log, pushes[i]; }
    }
  }

  /** What precedes the verdict: nothing, the running report, or that and the outputs of a process
      that exited 0. */
  predicate Lead(a: Attempt, log: seq<Effect>)
  {
    if !Prepared(a) || a.env.Some? then log == []
    else
      var calls := RunningReport(a).calls;
      calls <= log && if ExitsWith(a, 0) then PushesMade(a.pushes, log[|calls|..]) else log == calls
  }

  /** A whole attempt: it ends in the one verdict it deserves, or in none. */
  ghost predicate Faithful(a: Attempt, keepsRecord: bool, log: seq<Effect>)
  {
    if Concludes(a) then exists v, k: nat :: Splits(a, keepsRecord, log, v, k) else Lead(a, log)
  }

  ghost predicate Splits(a: Attempt, keepsRecord: bool, log: seq<Effect>, v: Verdict, k: nat)
  {
    k <= |log| && Lead(a, log[..k]) && Deserves(a, v) && Concluded(a, log[k..], keepsRecord, v)
  }

  lemma Joins(a: Attempt, keepsRecord: bool, lead: seq<Effect>, tail: seq<Effect>, v: Verdict)
    requires Concludes(a) && Lead(a, lead) && Deserves(a, v) && Concluded(a, tail, keepsRecord, v)
    ensures Faithful(a, keepsRecord, lead + tail)
  {
    assert (lead + tail)[..|lead|] == lead && (lead + tail)[|lead|..] == tail;
    assert Splits(a, keepsRecord, lead + tail, v, |lead|);
  }

  /** From the finished process to the report. */
  method Conclude(a: Attempt, keepsRecord: bool) returns (log: seq<Effect>, ghost v: Verdict, lead: seq<Effect>)
    requires Started(a)
    ensures if ExitsWith(a, 0) then PushesMade(a.pushes, lead) else lead == []
    ensures Deserves(a, v) && Concluded(a, log, keepsRecord, v)
  {
    lead := [];
    var now := CheckedAt(a);
    var runCtx := ProcessContext(a);
    if a.declaredTimeout > 0 && Over(runCtx, now) && runCtx.cause.Deadline? {
      log := Fail(a, keepsRecord, a.exitCode, EXECUTION_TIMEOUT, EXECUTION_TIMEOUT, now);
      return log, Failed(ClampExit(a.exitCode), EXECUTION_TIMEOUT), lead;
    }
    if a.runErr.None? && a.exitCode == RESCHEDULE_EXIT && a.pokeTime.Some? {
      var when := a.pokeTime.value;
      log := ReportClassified(a, keepsRecord, Rescheduled(when), Reschedule(when), now);
      return log, Rescheduled(when), lead;
    }
    if a.runErr.Some? || a.exitCode != 0 {
      var message := if a.runErr.Some? then a.runErr.value else "task exited non-zero";
      log := Fail(a, keepsRecord, a.exitCode, message, "", now);
      return log, Failed(ClampExit(a.exitCode), ""), lead;
    }
    var failed;
    lead, failed := PushOutputs(a.pushes);
    now := now + a.pushing;
    if failed.Some? {
      log := Fail(a, keepsRecord, 0, failed.value, OUTPUT_UNDELIVERED, now);
      return log, Failed(0, OUTPUT_UNDELIVERED), lead;
    }
    log := ReportClassified(a, keepsRecord, Succeeded, Success, now);
    v := Succeeded;
  }

  method RunOneAttempt(a: Attempt, keepsRecord: bool) returns (log: seq<Effect>)
    ensures Faithful(a, keepsRecord, log)
  {
    if !a.specOk || !a.commandOk { return []; }
    if a.env.Some? {
      var reason := if a.env.value.secret then SECRET_UNRESOLVED else "";
      log := Fail(a, keepsRecord, 1, a.env.value.message, reason, a.begins);
      Joins(a, keepsRecord, [], log, Failed(1, reason));
      assert [] + log == log;
      return;
    }
    var running := ReportRequest(Running, a.ctx, a.begins, a.running);
    if running.outcome != Answered(Acked) { return running.calls; }
    var tail, v, pushes := Conclude(a, keepsRecord);
    log := running.calls + pushes + tail;
    assert (running.calls + pushes)[|running.calls|..] == pushes;
    Joins(a, keepsRecord, running.calls + pushes, tail, v);
  }

  // ---- what a faithful attempt guarantees ---------------------------------------------------

  predicate Terminal(e: Effect)
  {
    e.Call? && e.request != Running
  }

  function TerminalReport(a: Attempt, q: Request): Delivery
  {
    Report(q, a.ctx, ReportedAt(a), a.terminal, 0)
  }

  /** From place c on, the log is the calls of the report q of verdict v; the record, when kept,
      is right before, and there is no terminal call and no other record before that. */
  ghost predicate CallsFrom(a: Attempt, keepsRecord: bool, log: seq<Effect>, v: Verdict, c: nat, q: Request)
  {
    && Deserves(a, v) && Carries(q, v) && (q.Failure? ==> Explains(a, q.message))
    && c <= |log| && log[c..] == TerminalReport(a, q).calls
    && (keepsRecord ==> c > 0 && log[c - 1] == Record(v))
    && (forall i: nat :: i < c ==> !Terminal(log[i]))
    && (forall i: nat :: i < c && log[i].Record? ==> keepsRecord && i == c - 1)
  }

  lemma LeadHasNoVerdict(a: Attempt, lead: seq<Effect>, i: nat)
    requires Lead(a, lead) && i < |lead|
    ensures !Terminal(lead[i]) && !lead[i].Record?
  {
    CallsAreOneReport(Running, a.ctx, a.begins, a.running, 0);
    var calls := RunningReport(a).calls;
    if i < |calls| { assert lead[i] == calls[i] && calls[i] in calls; } else { assert lead[i] == lead[|calls|..][i - |calls|]; }
  }

  lemma LeadsBefore(a: Attempt, log: seq<Effect>, k: nat)
    requires k <= |log| && Lead(a, log[..k])
    ensures forall i: nat :: i < k ==> !Terminal(log[i]) && !log[i].Record?
  {
    forall i: nat | i < k ensures !Terminal(log[i]) && !log[i].Record? { LeadHasNoVerdict(a, log[..k], i); }
  }

  lemma Parts(a: Attempt, keepsRecord: bool, log: seq<Effect>) returns (v: Verdict, c: nat, q: Request)
    requires Concludes(a) && Faithful(a, keepsRecord, log)
    ensures CallsFrom(a, keepsRecord, log, v, c, q)
  {
    var k: nat;
    v, k :| Splits(a, keepsRecord, log, v, k);
    q :| ConcludedBy(a, log[k..], keepsRecord, v, q);
    LeadsBefore(a, log, k);
    if keepsRecord {
      c := k + 1;
      assert log[k..][0] == log[k] && log[k..][1..] == log[c..];
    } else {
      c := k;
    }
  }

  /** The calls of the report, place by place. */
  lemma CallAt(a: Attempt, keepsRecord: bool, log: seq<Effect>, v: Verdict, c: nat, q: Request, i: nat)
    requires CallsFrom(a, keepsRecord, log, v, c, q) && c <= i < |log|
    ensures Terminal(log[i]) && log[i].request == q
    ensures Final(log[i].answer) <==> i == |log| - 1 && TerminalReport(a, q).outcome.Answered?
    ensures Final(log[i].answer) ==> TerminalReport(a, q).outcome == Answered(log[i].answer.value)
  {
    CallsAreOneReport(q, a.ctx, ReportedAt(a), a.terminal, 0);
    assert log[i] == TerminalReport(a, q).calls[i - c];
  }

  /** Every terminal call of an attempt is for the same report, and carries the one verdict the
      attempt deserves. */
  lemma OneReport(a: Attempt, keepsRecord: bool, log: seq<Effect>, i: nat, j: nat) returns (v: Verdict)
    requires Faithful(a, keepsRecord, log)
    requires i < |log| && j < |log| && Terminal(log[i]) && Terminal(log[j])
    ensures log[i].request == log[j].request
    ensures Deserves(a, v) && Carries(log[i].request, v)
  {
    if !Concludes(a) { LeadHasNoVerdict(a, log, i); }
    var c, q;
    v, c, q := Parts(a, keepsRecord, log);
    CallAt(a, keepsRecord, log, v, c, q, i);
    CallAt(a, keepsRecord, log, v, c, q, j);
  }

  /** When a record is kept, exactly one is written, with the verdict the attempt deserves, and
      before any call that reports it. */
  lemma RecordedFirst(a: Attempt, log: seq<Effect>) returns (k: nat, v: Verdict)
    requires Concludes(a) && Faithful(a, true, log)
    ensures k < |log| && log[k] == Record(v) && Deserves(a, v)
    ensures forall i: nat :: i < |log| && log[i].Record? ==> i == k
    ensures forall i: nat :: i < |log| && Terminal(log[i]) ==> i > k && Carries(log[i].request, v)
  {
    var c, q;
    v, c, q := Parts(a, true, log);
    k := c - 1;
    forall i: nat | c <= i < |log| ensures Terminal(log[i]) && log[i].request == q { CallAt(a, true, log, v, c, q, i); }
  }

  /** A record is written exactly by a concluding attempt that keeps one. */
  lemma RecordedIff(a: Attempt, keepsRecord: bool, log: seq<Effect>)
    requires Faithful(a, keepsRecord, log)
    ensures (exists i: nat :: i < |log| && log[i].Record?) <==> Concludes(a) && keepsRecord
  {
    if Concludes(a) {
      var v, c, q := Parts(a, keepsRecord, log);
      forall i: nat | c <= i < |log| ensures !log[i].Record? { CallAt(a, keepsRecord, log, v, c, q, i); }
    } else {
      forall i: nat | i < |log| ensures !log[i].Record? { LeadHasNoVerdict(a, log, i); }
    }
  }

  /** An attempt that deserves a verdict does issue its report. */
  lemma Reported(a: Attempt, keepsRecord: bool, log: seq<Effect>) returns (i: nat)
    requires Concludes(a) && Faithful(a, keepsRecord, log)
    ensures i < |log| && Terminal(log[i])
  {
    var v, c, q := Parts(a, keepsRecord, log);
    CallsAreOneReport(q, a.ctx, ReportedAt(a), a.terminal, 0);
    i := c;
    CallAt(a, keepsRecord, log, v, c, q, i);
  }

  ghost predicate HasCall(log: seq<Effect>, q: Request)
  {
    exists i: nat :: i < |log| && log[i].Call? && log[i].request == q
  }

  /** A SUCCESS call is made exactly by an attempt whose process ran and exited 0 with no
      declared timeout hit and every output delivered. */
  lemma SuccessIff(a: Attempt, keepsRecord: bool, log: seq<Effect>)
    requires Faithful(a, keepsRecord, log)
    ensures HasCall(log, Success) <==> && Started(a) && !TimedOut(a) && a.runErr.None? && a.exitCode == 0
                                       && forall i :: 0 <= i < |a.pushes| ==> a.pushes[i].None?
  {
    if i: nat :| i < |log| && log[i].Call? && log[i].request == Success {
      var v := OneReport(a, keepsRecord, log, i, i);
    }
    if Succeeds(a) {
      var i := Reported(a, keepsRecord, log);
      var v := OneReport(a, keepsRecord, log, i, i);
      OneVerdict(a, v, Succeeded);
    }
  }

  /** A reschedule is reported exactly on exit 75 with a readable poke time, and with that time. */
  lemma RescheduleIff(a: Attempt, keepsRecord: bool, log: seq<Effect>, when: int)
    requires Faithful(a, keepsRecord, log)
    ensures HasCall(log, Reschedule(when)) <==> && Started(a) && !TimedOut(a) && a.runErr.None? && a.exitCode == 75
                                                && a.pokeTime == Some(when)
  {
    if i: nat :| i < |log| && log[i].Call? && log[i].request == Reschedule(when) {
      var v := OneReport(a, keepsRecord, log, i, i);
    }
    if Reschedules(a) && a.pokeTime == Some(when) {
      var i := Reported(a, keepsRecord, log);
      var v := OneReport(a, keepsRecord, log, i, i);
      OneVerdict(a, v, Rescheduled(when));
    }
  }

  /** A failure is reported exactly by the concluding attempts that neither succeed nor reschedule. */
  lemma FailureIff(a: Attempt, keepsRecord: bool, log: seq<Effect>)
    requires Faithful(a, keepsRecord, log)
    ensures (exists i: nat :: i < |log| && log[i].Call? && log[i].request.Failure?)
            <==> Concludes(a) && !Succeeds(a) && !Reschedules(a)
  {
    if i: nat :| i < |log| && log[i].Call? && log[i].request.Failure? {
      var v := OneReport(a, keepsRecord, log, i, i);
      OneVerdict(a, v, v);
    }
    if Concludes(a) && !Succeeds(a) && !Reschedules(a) {
      var i := Reported(a, keepsRecord, log);
      var v := OneReport(a, keepsRecord, log, i, i);
    }
  }

  lemma FailedHow(a: Attempt, exitCode: int, reason: string)
    requires Fails(a, exitCode, reason)
    ensures exitCode == if a.env.Some? then 1 else ClampExit(a.exitCode)
    ensures reason == if a.env.Some? then (if a.env.value.secret then SECRET_UNRESOLVED else "")
                      else if TimedOut(a) then EXECUTION_TIMEOUT
                      else if a.runErr.None? && a.exitCode == 0 then OUTPUT_UNDELIVERED else ""
  {
  }

  /** A failure is reported with exit code 1 when the environment could not be built and else with
      the process's own, clamped; with a message that explains it; and recorded with its reason. */
  lemma FailureSays(a: Attempt, log: seq<Effect>, i: nat)
    requires Faithful(a, true, log) && i < |log| && log[i].Call? && log[i].request.Failure?
    ensures var code := if a.env.Some? then 1 else ClampExit(a.exitCode);
            var reason := if a.env.Some? then (if a.env.value.secret then SECRET_UNRESOLVED else "")
                          else if TimedOut(a) then EXECUTION_TIMEOUT
                          else if a.runErr.None? && a.exitCode == 0 then OUTPUT_UNDELIVERED else "";
            && log[i].request.exitCode == code && Explains(a, log[i].request.message)
            && Record(Failed(code, reason)) in log
  {
    if !Concludes(a) { LeadHasNoVerdict(a, log, i); }
    var v, c, q := Parts(a, true, log);
    assert Terminal(log[i]) && i >= c;
    CallAt(a, true, log, v, c, q, i);
    FailedHow(a, v.exitCode, v.reason);
    assert log[c - 1] in log;
  }

  /** The message of a failure: the environment's error, the timeout, the run error, the exit, or the
      first error of a delivery. */
  lemma FailureMessage(a: Attempt, keepsRecord: bool, log: seq<Effect>, i: nat)
    requires Faithful(a, keepsRecord, log) && i < |log| && log[i].Call? && log[i].request.Failure?
    ensures var message := log[i].request.message;
            if a.env.Some? then message == a.env.value.message
            else if TimedOut(a) then message == EXECUTION_TIMEOUT
            else if a.runErr.Some? then message == a.runErr.value
            else if a.exitCode != 0 then message == "task exited non-zero"
            else exists k :: 0 <= k < |a.pushes| && a.pushes[k] == Some(message)
                             && forall j :: 0 <= j < k ==> a.pushes[j].None?
  {
    FailureIff(a, keepsRecord, log);
    var v, c, q := Parts(a, keepsRecord, log);
    assert Terminal(log[i]) && i >= c;
    CallAt(a, keepsRecord, log, v, c, q, i);
    if ExitsWith(a, 0) {
      var k := FirstFailure(a.pushes);
      assert FirstError(a.pushes, k) && a.pushes[k].value == q.message;
    }
  }

  lemma {:induction false} FirstFailure(pushes: seq<Option<string>>) returns (k: nat)
    requires exists i :: 0 <= i < |pushes| && pushes[i].Some?
    ensures FirstError(pushes, k)
  {
    var i :| 0 <= i < |pushes| && pushes[i].Some?;
    if j :| 0 <= j < i && pushes[j].Some? {
      k := FirstFailure(pushes[..i]);
    } else {
      k := i;
    }
  }

  /** Nothing at all is done for an attempt without a spec or a command, and otherwise, once the
      environment is built, the running report comes first. */
  lemma BeginsWithRunning(a: Attempt, keepsRecord: bool, log: seq<Effect>)
    requires Faithful(a, keepsRecord, log)
    ensures !a.specOk || !a.commandOk ==> log == []
    ensures a.specOk && a.commandOk && a.env.None? ==> RunningReport(a).calls <= log
  {
    var k := LeadPart(a, keepsRecord, log);
    if Prepared(a) && a.env.None? { assert log[..k] <= log; }
  }

  // ---- what was delivered ---------------------------------------------------------------------

  lemma ConclusionHasNoPush(a: Attempt, tail: seq<Effect>, keepsRecord: bool, v: Verdict, i: nat)
    requires Concluded(a, tail, keepsRecord, v) && i < |tail|
    ensures !tail[i].Push?
  {
    var q :| ConcludedBy(a, tail, keepsRecord, v, q);
    CallsAreOneReport(q, a.ctx, ReportedAt(a), a.terminal, 0);
    assert tail[i] in tail;
  }

  lemma NoPushAfter(a: Attempt, keepsRecord: bool, log: seq<Effect>, v: Verdict, k: nat)
    requires Splits(a, keepsRecord, log, v, k)
    ensures forall i: nat :: k <= i < |log| ==> !log[i].Push?
  {
    var tail := log[k..];
    forall i: nat | k <= i < |log| ensures !log[i].Push? {
      ConclusionHasNoPush(a, tail, keepsRecord, v, i - k);
      assert tail[i - k] == log[i];
    }
  }

  lemma LeadPart(a: Attempt, keepsRecord: bool, log: seq<Effect>) returns (k: nat)
    requires Faithful(a, keepsRecord, log)
    ensures k <= |log| && Lead(a, log[..k])
    ensures forall i: nat :: k <= i < |log| ==> !log[i].Push?
  {
    if Concludes(a) {
      var v;
      v, k :| Splits(a, keepsRecord, log, v, k);
      NoPushAfter(a, keepsRecord, log, v, k);
    } else {
      k := |log|;
      assert log[..k] == log;
    }
  }

  lemma Deliveries(a: Attempt, keepsRecord: bool, log: seq<Effect>) returns (k: nat)
    requires Faithful(a, keepsRecord, log) && Prepared(a) && a.env.None?
    ensures k <= |log| && Lead(a, log[..k]) && RunningReport(a).calls <= log[..k]
    ensures forall i: nat :: k <= i < |log| ==> !log[i].Push?
    ensures forall i: nat :: i < |log| && Terminal(log[i]) ==> i >= k
  {
    k := LeadPart(a, keepsRecord, log);
    LeadsBefore(a, log, k);
  }

  /** Before a SUCCESS call every output has been pushed, and the running report made. */
  lemma PushedBeforeSuccess(a: Attempt, keepsRecord: bool, log: seq<Effect>, i: nat, j: nat) returns (at: nat)
    requires Faithful(a, keepsRecord, log) && i < |log| && log[i].Call? && log[i].request == Success
    requires j < |a.pushes|
    ensures at < i && log[at] == Push(j) && RunningReport(a).calls <= log[..at]
  {
    SuccessIff(a, keepsRecord, log);
    assert HasCall(log, Success);
    var k := Deliveries(a, keepsRecord, log);
    var n := |RunningReport(a).calls|;
    at := n + j;
    assert log[..k][n..][j] == log[at];
    assert log[..at] == log[..k][..at];
  }

  lemma LeadPush(a: Attempt, lead: seq<Effect>, j: nat)
    requires Lead(a, lead) && Prepared(a) && a.env.None?
    ensures Push(j) in lead <==> ExitsWith(a, 0) && j < |a.pushes| && forall i :: 0 <= i < j ==> a.pushes[i].None?
  {
    var n := |RunningReport(a).calls|;
    CallsAreOneReport(Running, a.ctx, a.begins, a.running, 0);
    assert forall i :: 0 <= i < n ==> lead[i] == RunningReport(a).calls[i] && lead[i] in RunningReport(a).calls;
    if ExitsWith(a, 0) {
      var made := lead[n..];
      if j < |made| { assert made[j] == lead[n + j]; }
      forall m: nat | m < |lead| && lead[m] == Push(j) ensures j < |made| {
        if m >= n { assert lead[m] == made[m - n]; }
      }
    }
  }

  /** The k-th push is made if and only if the process exited 0 in time and every push before it
      was delivered; so after any other exit there is none. */
  lemma PushIff(a: Attempt, keepsRecord: bool, log: seq<Effect>, j: nat)
    requires Faithful(a, keepsRecord, log)
    ensures Push(j) in log <==> ExitsWith(a, 0) && j < |a.pushes| && forall i :: 0 <= i < j ==> a.pushes[i].None?
  {
    if Prepared(a) && a.env.None? {
      var k := Deliveries(a, keepsRecord, log);
      LeadPush(a, log[..k], j);
      assert forall m: nat :: m < |log| && log[m] == Push(j) ==> m < k && log[..k][m] == log[m];
    } else if Concludes(a) {
      NoPushWithoutProcess(a, keepsRecord, log, j);
    }
  }

  lemma NoPushWithoutProcess(a: Attempt, keepsRecord: bool, log: seq<Effect>, j: nat)
    requires Faithful(a, keepsRecord, log) && Concludes(a) && a.env.Some?
    ensures Push(j) !in log
  {
    var v, k: nat :| Splits(a, keepsRecord, log, v, k);
    var q :| ConcludedBy(a, log[k..], keepsRecord, v, q);
    CallsAreOneReport(q, a.ctx, ReportedAt(a), a.terminal, 0);
    assert log[k..] == log;
  }

  // ---- which verdicts reach the control plane -----------------------------------------------

  /** The server's final answer to the attempt's terminal report. */
  ghost predicate VerdictAnswered(log: seq<Effect>, answer: Answer)
  {
    exists i: nat :: i < |log| && Terminal(log[i]) && log[i].answer == Some(answer) && Final(log[i].answer)
  }

  /** The verdict of an attempt is answered if and only if the server's first final answer to a
      report begun when the verdict was reached comes before the attempt's context ends. */
  lemma VerdictAnsweredIff(a: Attempt, keepsRecord: bool, log: seq<Effect>, answer: Answer)
    requires Concludes(a) && Faithful(a, keepsRecord, log)
    ensures VerdictAnswered(log, answer) <==> AnswerInTime(a.ctx, ReportedAt(a), a.terminal, 0, answer)
  {
    var v, c, q := Parts(a, keepsRecord, log);
    CallsAreOneReport(q, a.ctx, ReportedAt(a), a.terminal, 0);
    AnsweredIff(q, a.ctx, ReportedAt(a), a.terminal, answer);
    forall i: nat | c <= i < |log|
      ensures Final(log[i].answer) <==> i == |log| - 1 && TerminalReport(a, q).outcome.Answered?
      ensures Final(log[i].answer) ==> TerminalReport(a, q).outcome == Answered(log[i].answer.value)
      ensures Terminal(log[i])
    {
      CallAt(a, keepsRecord, log, v, c, q, i);
    }
  }

  /** The attempt's own context ended the process, before it would have ended by itself. */
  predicate CutShort(a: Attempt)
  {
    Started(a) && Over(a.ctx, StartedAt(a) + a.duration) && ProcessContext(a).end == a.ctx.end
  }

  lemma CutShortReportsLate(a: Attempt)
    requires CutShort(a)
    ensures Over(a.ctx, ReportedAt(a))
  {
  }

  /** The verdict of an attempt its watchdog cut short never gets an answer, whatever the server
      would say: its report is made on the context that has ended. It survives exactly when a
      record is kept. */
  lemma WatchdogVerdictOnlyRecorded(a: Attempt, keepsRecord: bool, log: seq<Effect>)
    requires CutShort(a) && Faithful(a, keepsRecord, log)
    ensures forall answer :: !VerdictAnswered(log, answer)
    ensures (exists i: nat :: i < |log| && log[i].Record?) <==> keepsRecord
  {
    CutShortReportsLate(a);
    forall answer ensures !AnswerInTime(a.ctx, ReportedAt(a), a.terminal, 0, answer) {
      forall k: nat | FirstFinal(a.terminal, 0, k) ensures Over(a.ctx, ArrivalOf(ReportedAt(a), a.terminal, 0, k)) {
        ArrivesLater(ReportedAt(a), a.terminal, 0, k);
      }
    }
    forall answer ensures !VerdictAnswered(log, answer) { VerdictAnsweredIff(a, keepsRecord, log, answer); }
    var v, c, q := Parts(a, keepsRecord, log);
    forall i: nat | c <= i < |log| ensures !log[i].Record? { CallAt(a, keepsRecord, log, v, c, q, i); }
  }

  /** A process that would take a second under a watchdog of 20 milliseconds, and a server that
      answers everything after one. */
  function Wedged(): Attempt
  {
    Attempt(true, true, None, Context(Some(20), Deadline), 0, [Reply(Acked, 1)], 0, None, 1000, 0, 0,
            -1, None, None, [], 0, [Reply(Acked, 1)])
  }

  lemma WedgedIsNotReported(log: seq<Effect>)
    requires Faithful(Wedged(), true, log)
    ensures CutShort(Wedged()) && Record(Failed(255, "")) in log
    ensures forall answer :: !VerdictAnswered(log, answer)
  {
    var a := Wedged();
    assert RunningReport(a) == Delivery([Call(Running, Some(Acked))], Answered(Acked), 1);
    WatchdogVerdictOnlyRecorded(a, true, log);
    var k, v := RecordedFirst(a, log);
    OneVerdict(a, v, Failed(255, ""));
  }

  // ---- whose deadline it was ------------------------------------------------------------------

  /** The declared timeout did end the process: nothing had ended its context before, and it was
      still running. */
  predicate RanOut(a: Attempt)
  {
    && a.declaredTimeout > 0 && a.duration >= a.declaredTimeout
    && ProcessContext(a).end.value >= StartedAt(a) + a.declaredTimeout
  }

  /** The attempt's own deadline, a watchdog's, comes before the declared one, before any stop
      request and no later than the agent looks. */
  predicate WatchdogFirst(a: Attempt)
  {
    && a.declaredTimeout > 0 && a.ctx.cause.Deadline? && Over(a.ctx, CheckedAt(a))
    && a.ctx.end.value < StartedAt(a) + a.declaredTimeout
    && !(a.stopAt.Some? && a.stopAt.value < a.ctx.end.value)
  }

  /** The process ended by itself inside its limit, and closing the logs took past it; nothing
      else ends the process's context before. */
  predicate LateLook(a: Attempt)
  {
    && a.duration < a.declaredTimeout <= a.duration + a.wrapUp
    && ProcessContext(a) == Context(Some(StartedAt(a) + a.declaredTimeout), Deadline)
  }

  /** An attempt that ran out of its declared time is classified so, unless its context is
      cancelled at the same moment. */
  lemma RunningOutIsTimedOut(a: Attempt)
    requires Started(a) && RanOut(a) && ProcessContext(a).cause.Deadline?
    ensures TimedOut(a)
  {
  }

  /** An attempt classified as past its declared timeout was ended by it if and only if its own
      context was not to end earlier and its process was still running then. */
  lemma TimeoutRightIff(a: Attempt)
    requires Started(a) && TimedOut(a)
    ensures RanOut(a) <==> && !(a.ctx.end.Some? && a.ctx.end.value < StartedAt(a) + a.declaredTimeout)
                           && a.duration >= a.declaredTimeout
  {
  }

  /** It is classified so wrongly in exactly two cases: a watchdog's deadline came first, or the
      process was done in time and only the look came late. */
  lemma MislabelledIff(a: Attempt)
    requires Started(a)
    ensures TimedOut(a) && !RanOut(a) <==> WatchdogFirst(a) || LateLook(a)
  {
  }

  /** The same process with a declared timeout of 50 milliseconds, cut short after 20, is recorded
      as past that timeout. */
  lemma WedgedIsMislabelled()
    ensures var a := Wedged().(declaredTimeout := 50);
            && Started(a) && WatchdogFirst(a) && TimedOut(a) && !RanOut(a)
            && Deserves(a, Failed(255, EXECUTION_TIMEOUT))
  {
    var a := Wedged().(declaredTimeout := 50);
    assert RunningReport(a) == Delivery([Call(Running, Some(Acked))], Answered(Acked), 1);
  }

  // ---- successes reported as timeouts ---------------------------------------------------------

  /** The process ended by itself with exit 0, and its outputs can be delivered. */
  predicate DoneWell(a: Attempt)
  {
    Started(a) && !Over(ProcessContext(a), StartedAt(a) + a.duration) && a.runErr.None? && a.exitCode == 0 && Pushed(a)
  }

  /** Such an attempt loses its SUCCESS if and only if a timeout is declared and a deadline, the
      declared one or the watchdog's, ends the process's context while the logs are closed: then
      it is recorded and reported as failed by the timeout, with exit code 0. */
  lemma SuccessLostIff(a: Attempt, keepsRecord: bool, log: seq<Effect>)
    requires DoneWell(a) && Faithful(a, keepsRecord, log)
    ensures !HasCall(log, Success) <==> && a.declaredTimeout > 0 && ProcessContext(a).cause.Deadline?
                                        && Over(ProcessContext(a), StartedAt(a) + a.duration + a.wrapUp)
    ensures !HasCall(log, Success) ==> Deserves(a, Failed(0, EXECUTION_TIMEOUT)) && (WatchdogFirst(a) || LateLook(a))
  {
    SuccessIff(a, keepsRecord, log);
    MislabelledIff(a);
  }

  /** And it keeps it whenever the logs are closed before the process's context ends, in
      particular at once. */
  lemma PromptLookKeepsSuccess(a: Attempt, keepsRecord: bool, log: seq<Effect>)
    requires DoneWell(a) && Faithful(a, keepsRecord, log) && a.wrapUp == 0
    ensures HasCall(log, Success)
  {
    SuccessLostIff(a, keepsRecord, log);
  }

  /** Ten milliseconds of work under a declared timeout of fifty, on a context that never ends,
      and a hundred milliseconds to close the logs. */
  function Prompt(): Attempt
  {
    Attempt(true, true, None, Context(None, Cancelled), 0, [Reply(Acked, 1)], 50, None, 10, 0, 100,
            0, None, None, [], 0, [Reply(Acked, 1)])
  }

  lemma PromptIsTimedOut(log: seq<Effect>)
    requires Faithful(Prompt(), true, log)
    ensures DoneWell(Prompt()) && LateLook(Prompt())
    ensures !HasCall(log, Success) && Record(Failed(0, EXECUTION_TIMEOUT)) in log && VerdictAnswered(log, Acked)
  {
    var a := Prompt();
    assert RunningReport(a) == Delivery([Call(Running, Some(Acked))], Answered(Acked), 1);
    SuccessLostIff(a, true, log);
    var k, v := RecordedFirst(a, log);
    OneVerdict(a, v, Failed(0, EXECUTION_TIMEOUT));
    VerdictAnsweredIff(a, true, log, Acked);
    assert FirstFinal(a.terminal, 0, 0) && !Over(a.ctx, ArrivalOf(ReportedAt(a), a.terminal, 0, 0));
  }
}
