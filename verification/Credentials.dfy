/** The attempt credential of a warm worker: one TokenSource shared by all attempts, swapped by
    the serve loop before each attempt and by that attempt's heartbeat goroutine when the
    control plane renews it (internal/agent/auth.go, internal/agent/runner.go, execute and
    heartbeat, internal/agent/warm.go, serveAssignment).

    Steps of the two goroutines interleave freely. A heartbeat call reads the token when it is
    sent, and its renewal is applied in a later step, so a lingering heartbeat could still swap
    the token after the next attempt began, were it not joined first. */
module Credentials {

  /** What TokenSource.Set leaves behind: an empty token is ignored. */
  function Swap(current: string, token: string): string
  {
    if token == "" then current else token
  }

  class TokenSource {
    var token: string

    constructor (token: string)
      ensures this.token == token
    {
      this.token := token;
    }

    method Set(token: string)
      modifies this
      ensures this.token == Swap(old(this.token), token)
      ensures token != "" ==> this.token == token
      ensures token == "" ==> this.token == old(this.token)
    {
      if token == "" { return; }
      this.token := token;
    }
  }

  // ---- the two goroutines ------------------------------------------------------------------

  datatype Heartbeat = Waiting | Calling(sent: string) | Replied(renewed: string, terminate: bool) | Exited

  datatype Stage = BetweenAttempts | Adopted | Executing | Joining

  /** A work RPC, by the attempt whose code issued it, with the bearer it carried. */
  datatype Call = Call(attempt: nat, token: string)

  /** `attempt` counts the attempts begun; a heartbeat goroutine is kept under its attempt. */
  datatype State = State(attempt: nat, stage: Stage, token: string, beats: map<nat, Heartbeat>, calls: seq<Call>)

  datatype Step =
    | Begin(attemptToken: string)
    | WorkCall
    | Spawn(beating: bool)
    | GiveUp
    | BeatCall(k: nat)
    | BeatAnswer(k: nat, renewed: string, terminate: bool)
    | BeatError(k: nat)
    | BeatApply(k: nat)
    | BeatStop(k: nat)
    | Finish
    | Join

  function Init(seed: string): State
  {
    State(0, BetweenAttempts, seed, map[], [])
  }

  /** A step that is not enabled changes nothing. */
  function Next(s: State, step: Step): State
  {
    match step
    case Begin(t) =>
      if s.stage.BetweenAttempts? then s.(attempt := s.attempt + 1, stage := Adopted, token := Swap(s.token, t)) else s
    case WorkCall =>
      if s.stage.Adopted? || s.stage.Executing? then s.(calls := s.calls + [Call(s.attempt, s.token)]) else s
    case Spawn(beating) =>
      if !s.stage.Adopted? then s
      else s.(stage := Executing, beats := if beating then s.beats[s.attempt := Waiting] else s.beats)
    case GiveUp => if s.stage.Adopted? then s.(stage := BetweenAttempts) else s
    case BeatCall(k) =>
      if k in s.beats && s.beats[k].Waiting?
      then s.(beats := s.beats[k := Calling(s.token)], calls := s.calls + [Call(k, s.token)])
      else s
    case BeatAnswer(k, renewed, terminate) =>
      if k in s.beats && s.beats[k].Calling? then s.(beats := s.beats[k := Replied(renewed, terminate)]) else s
    case BeatError(k) =>
      if k in s.beats && s.beats[k].Calling? then s.(beats := s.beats[k := Waiting]) else s
    case BeatApply(k) =>
      if k in s.beats && s.beats[k].Replied?
      then s.(token := Swap(s.token, s.beats[k].renewed), beats := s.beats[k := if s.beats[k].terminate then Exited else Waiting])
      else s
    case BeatStop(k) => if k in s.beats && s.beats[k].Waiting? then s.(beats := s.beats[k := Exited]) else s
    case Finish => if s.stage.Executing? then s.(stage := Joining) else s
    case Join =>
      if s.stage.Joining? && (s.attempt in s.beats ==> s.beats[s.attempt].Exited?) then s.(stage := BetweenAttempts) else s
  }

  /** Applying a heartbeat's reply adopts a renewal at once and keeps the bearer without one; asked to
      terminate, the heartbeat ends, and otherwise it goes on. */
  lemma RenewalIsAdopted(s: State, k: nat)
    requires k in s.beats && s.beats[k].Replied?
    ensures var t, reply := Next(s, BeatApply(k)), s.beats[k];
            && t.token == (if reply.renewed != "" then reply.renewed else s.token)
            && t.beats == s.beats[k := if reply.terminate then Exited else Waiting]
            && t.attempt == s.attempt && t.stage == s.stage && t.calls == s.calls
  {
  }

  /** An attempt begins with the token it is given, if it is given one. */
  lemma AttemptAdopts(s: State, token: string)
    requires s.stage.BetweenAttempts?
    ensures var t := Next(s, Begin(token));
            && t.token == (if token != "" then token else s.token) && t.attempt == s.attempt + 1
            && t.stage == Adopted && t.beats == s.beats && t.calls == s.calls
  {
  }

  /** Every call carries the bearer of its moment, under the attempt whose goroutine makes it; a
      heartbeat remembers what it sent. */
  lemma CallsCarryTheBearer(s: State, k: nat)
    ensures s.stage.Adopted? || s.stage.Executing? ==>
              Next(s, WorkCall) == s.(calls := s.calls + [Call(s.attempt, s.token)])
    ensures k in s.beats && s.beats[k].Waiting? ==>
              Next(s, BeatCall(k)) == s.(calls := s.calls + [Call(k, s.token)], beats := s.beats[k := Calling(s.token)])
  {
  }

  /** The reply to a heartbeat is the one it was given; a failed call is tried again later, and only
      a heartbeat between calls stops. */
  lemma HeartbeatGoesOn(s: State, k: nat, renewed: string, terminate: bool)
    requires k in s.beats
    ensures s.beats[k].Calling? ==> Next(s, BeatAnswer(k, renewed, terminate)).beats[k] == Replied(renewed, terminate)
    ensures s.beats[k].Calling? ==> Next(s, BeatError(k)).beats[k] == Waiting
    ensures Next(s, BeatStop(k)).beats[k] == if s.beats[k].Waiting? then Exited else s.beats[k]
  {
  }

  /** Executing starts the attempt's heartbeat when one is configured, and only its own; an attempt
      that gives up before has none; finishing leaves the heartbeat to be joined. */
  lemma ExecutionStages(s: State, beating: bool)
    ensures s.stage.Adopted? ==>
              Next(s, Spawn(beating)) == s.(stage := Executing, beats := if beating then s.beats[s.attempt := Waiting] else s.beats)
    ensures s.stage.Adopted? ==> Next(s, GiveUp) == s.(stage := BetweenAttempts)
    ensures s.stage.Executing? ==> Next(s, Finish) == s.(stage := Joining)
    ensures !s.stage.Adopted? ==> Next(s, Spawn(beating)) == s && Next(s, GiveUp) == s
    ensures !s.stage.Executing? ==> Next(s, Finish) == s
  {
  }

  /** The attempt is over only once its heartbeat has exited. */
  lemma JoinsTheHeartbeat(s: State)
    requires s.stage.Joining?
    ensures Next(s, Join).stage.BetweenAttempts? <==> s.attempt !in s.beats || s.beats[s.attempt].Exited?
    ensures Next(s, Join).token == s.token
  {
  }

  function Run(seed: string, steps: seq<Step>): State
  {
    if steps == [] then Init(seed) else Next(Run(seed, steps[..|steps| - 1]), steps[|steps| - 1])
  }

  // ---- lineage -------------------------------------------------------------------------------

  /** The attempt a token speaks for is a parameter: any function of the token. The control
      plane gives attempt n a non-empty token of attempt n, and renews a token only into one of
      the same attempt. */
  ghost predicate Honest(owner: string -> nat, s: State, step: Step)
  {
    match step
    case Begin(t) => s.stage.BetweenAttempts? ==> t != "" && owner(t) == s.attempt + 1
    case BeatAnswer(k, renewed, _) =>
      k in s.beats && s.beats[k].Calling? && renewed != "" ==> owner(renewed) == owner(s.beats[k].sent)
    case _ => true
  }

  ghost predicate HonestRun(owner: string -> nat, seed: string, steps: seq<Step>)
  {
    forall i :: 0 <= i < |steps| ==> Honest(owner, Run(seed, steps[..i]), steps[i])
  }

  /** Every call so far carried its own attempt's lineage, the bearer is the latest attempt's,
      and only the running attempt's heartbeat can be alive, holding nothing but its own tokens. */
  ghost predicate Lineage(owner: string -> nat, s: State)
  {
    && (forall i :: 0 <= i < |s.calls| ==> owner(s.calls[i].token) == s.calls[i].attempt)
    && (s.attempt > 0 ==> owner(s.token) == s.attempt)
    && (!s.stage.BetweenAttempts? ==> s.attempt > 0)
    && (forall k :: k in s.beats && !s.beats[k].Exited? ==> k == s.attempt && (s.stage.Executing? || s.stage.Joining?))
    && (forall k :: k in s.beats && s.beats[k].Calling? ==> owner(s.beats[k].sent) == k)
    && (forall k :: k in s.beats && s.beats[k].Replied? && s.beats[k].renewed != "" ==> owner(s.beats[k].renewed) == k)
    && (forall k :: k in s.beats ==> k <= s.attempt)
  }

  lemma LineageKeeps(owner: string -> nat, s: State, step: Step)
    requires Lineage(owner, s) && Honest(owner, s, step)
    ensures Lineage(owner, Next(s, step))
  {
  }

  lemma {:induction false} LineageHolds(owner: string -> nat, seed: string, steps: seq<Step>)
    requires HonestRun(owner, seed, steps)
    ensures Lineage(owner, Run(seed, steps))
  {
    if steps != [] {
      var before := steps[..|steps| - 1];
      forall i | 0 <= i < |before| ensures Honest(owner, Run(seed, before[..i]), before[i]) {
        assert before[..i] == steps[..i];
      }
      LineageHolds(owner, seed, before);
      LineageKeeps(owner, Run(seed, before), steps[|steps| - 1]);
    }
  }

  /** In every interleaving each work RPC of attempt n, heartbeats included, carries attempt n's
      token or a renewal of it. */
  lemma CallsCarryTheirOwnLineage(owner: string -> nat, seed: string, steps: seq<Step>, i: nat)
    requires HonestRun(owner, seed, steps) && i < |Run(seed, steps).calls|
    ensures var c := Run(seed, steps).calls[i]; owner(c.token) == c.attempt
  {
    LineageHolds(owner, seed, steps);
  }

  /** An attempt begun without a token of its own keeps the last one: its calls carry its own
      lineage exactly when the token it was given is not empty. */
  lemma EmptyTokenKeepsTheLast(owner: string -> nat, seed: string, steps: seq<Step>, token: string)
    requires HonestRun(owner, seed, steps) && Run(seed, steps).stage.BetweenAttempts? && Run(seed, steps).attempt > 0
    requires token != "" ==> owner(token) == Run(seed, steps).attempt + 1
    ensures var s := Next(Next(Run(seed, steps), Begin(token)), WorkCall);
            var c := s.calls[|s.calls| - 1];
            && c.attempt == Run(seed, steps).attempt + 1
            && (owner(c.token) == c.attempt <==> token != "")
  {
    LineageHolds(owner, seed, steps);
  }
}
