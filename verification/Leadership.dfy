/** The watchdog that steps a scheduler leader down (cmd/dexaflow-server/main.go,
    watchLeadership). */
module Leadership {
  import opened Wrappers

  const MAX_FAILURES := 3

  /** One turn of the watch: the lock was checked, or the run context ended, possibly during a
      check that then failed. */
  datatype Turn = Held | NotHeld | CheckError | ContextEnded | ErrorOnEndedContext

  datatype Reason = LockReleased | CheckTimeout

  datatype Effect = Report(reason: Reason) | Cancel

  predicate Ends(t: Turn)
  {
    t.ContextEnded? || t.ErrorOnEndedContext?
  }

  // ---- when a leader must step down ---------------------------------------------------------

  /** Turn k is a definite loss, or the third check error in a row. */
  predicate Trips(turns: seq<Turn>, k: nat)
    requires k < |turns|
  {
    || turns[k].NotHeld?
    || (k >= 2 && turns[k].CheckError? && turns[k - 1].CheckError? && turns[k - 2].CheckError?)
  }

  /** The watch is still going after the first n turns. */
  ghost predicate Watching(turns: seq<Turn>, n: nat)
    requires n <= |turns|
  {
    forall j: nat :: j < n ==> !Ends(turns[j]) && !Trips(turns, j)
  }

  /** How many check errors in a row the first n turns end with. */
  function Streak(turns: seq<Turn>, n: nat): nat
    requires n <= |turns|
  {
    if n == 0 || !turns[n - 1].CheckError? then 0 else 1 + Streak(turns, n - 1)
  }

  lemma StreakTrips(turns: seq<Turn>, k: nat)
    requires k < |turns| && turns[k].CheckError?
    ensures Trips(turns, k) <==> Streak(turns, k) + 1 >= MAX_FAILURES
  {
    if k >= 2 {
      assert Streak(turns, k) == if turns[k - 1].CheckError? then 1 + Streak(turns, k - 1) else 0;
      assert Streak(turns, k - 1) == if turns[k - 2].CheckError? then 1 + Streak(turns, k - 2) else 0;
    } else if k == 1 {
      assert Streak(turns, 1) <= 1;
    }
  }

  /** Runs until it steps down, the context ends, or the turns so far are used up (`at`). The
      run is cancelled exactly at the first turn that trips before the context ends, with the
      reason reported once and first. */
  method Watch(turns: seq<Turn>) returns (at: nat, effects: seq<Effect>)
    ensures at <= |turns| && Watching(turns, at)
    ensures at == |turns| || Ends(turns[at]) || Trips(turns, at)
    ensures effects == if at < |turns| && !Ends(turns[at])
                       then [Report(if turns[at].NotHeld? then LockReleased else CheckTimeout), Cancel]
                       else []
  {
    var failures := 0;
    at, effects := 0, [];
    while at < |turns|
      invariant at <= |turns| && Watching(turns, at)
      invariant failures == Streak(turns, at) && effects == []
    {
      match turns[at] {
        case ContextEnded => return;
        case ErrorOnEndedContext => return;
        case CheckError =>
          StreakTrips(turns, at);
          failures := failures + 1;
          if failures >= MAX_FAILURES {
            effects := [Report(CheckTimeout), Cancel];
            return;
          }
        case NotHeld =>
          effects := [Report(LockReleased), Cancel];
          return;
        case Held =>
          failures := 0;
      }
      at := at + 1;
    }
  }

  /** A leader still watching held the lock at one of its last three checks, unless it has made
      fewer: it outlives its last successful check by fewer than three. */
  lemma RecentlyHeld(turns: seq<Turn>, n: nat)
    requires n <= |turns| && Watching(turns, n) && n >= 3
    ensures turns[n - 1].Held? || turns[n - 2].Held? || turns[n - 3].Held?
  {
    assert !Trips(turns, n - 1) && !Trips(turns, n - 2) && !Trips(turns, n - 3);
    assert !Ends(turns[n - 1]) && !Ends(turns[n - 2]) && !Ends(turns[n - 3]);
  }
}
