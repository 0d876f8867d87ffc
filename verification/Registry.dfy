/** The warm-worker registry as a value (internal/agentrpc/worker_registry.go).

    Every registry method runs under one mutex, so each is one function from
    state to state. A registry entry is a Go reference compared by identity; here
    it is the serial number of its registration, an index into `entries`. */
module Registry {
  import opened Wrappers

  type EntryId = nat

  datatype WorkAssignment = WorkAssignment(id: string, runID: string, taskID: string, tryNumber: int)

  /** One registration. `send` is the handler's outbound channel of capacity one. */
  datatype Entry = Entry(
    identity: string, dagVersion: string, podName: string,
    busy: bool, send: Option<WorkAssignment>)

  datatype Lease = Lease(worker: EntryId, dagVersion: string, runID: string, taskID: string, tryNumber: int)

  datatype ReclaimReason = LeaseExpired | Refused | WorkerGone

  datatype ReclaimEvent = ReclaimEvent(
    assignmentID: string, dagVersion: string, reason: ReclaimReason,
    runID: string, taskID: string, tryNumber: int)

  datatype WarmBinding = WarmBinding(runID: string, taskID: string, tryNumber: int, podName: string)

  type FreeIndex = map<string, map<string, EntryId>>

  datatype State = State(
    entries: seq<Entry>,
    workers: map<string, EntryId>,
    free: FreeIndex,
    leases: map<string, Lease>)

  const Empty := State([], map[], map[], map[])

  // ---- free-set helpers ----------------------------------------------------

  function AddFree(free: FreeIndex, dagVersion: string, identity: string, e: EntryId): FreeIndex
  {
    var bucket := if dagVersion in free then free[dagVersion] else map[];
    free[dagVersion := bucket[identity := e]]
  }

  function RemoveFree(free: FreeIndex, dagVersion: string, identity: string): FreeIndex
  {
    if dagVersion !in free then free
    else
      var bucket := free[dagVersion] - {identity};
      if bucket == map[] then free - {dagVersion} else free[dagVersion := bucket]
  }

  /** Entry `e` is listed under this dag_version and identity. */
  predicate Listed(free: FreeIndex, dagVersion: string, identity: string, e: EntryId)
  {
    dagVersion in free && identity in free[dagVersion] && free[dagVersion][identity] == e
  }

  predicate NoEmptyBucket(free: FreeIndex)
  {
    forall dv :: dv in free ==> free[dv] != map[]
  }

  lemma AddFreeLists(free: FreeIndex, dagVersion: string, identity: string, e: EntryId)
    ensures forall dv, id, x: EntryId :: Listed(AddFree(free, dagVersion, identity, e), dv, id, x) <==>
              if dv == dagVersion && id == identity then x == e else Listed(free, dv, id, x)
    ensures NoEmptyBucket(free) ==> NoEmptyBucket(AddFree(free, dagVersion, identity, e))
  {
    assert identity in AddFree(free, dagVersion, identity, e)[dagVersion];
  }

  lemma RemoveFreeLists(free: FreeIndex, dagVersion: string, identity: string)
    ensures forall dv, id, x: EntryId :: Listed(RemoveFree(free, dagVersion, identity), dv, id, x) <==>
              !(dv == dagVersion && id == identity) && Listed(free, dv, id, x)
    ensures NoEmptyBucket(free) ==> NoEmptyBucket(RemoveFree(free, dagVersion, identity))
  {
    var after := RemoveFree(free, dagVersion, identity);
    forall dv, id, x: EntryId | Listed(free, dv, id, x) && !(dv == dagVersion && id == identity)
      ensures Listed(after, dv, id, x)
    {
      if dv == dagVersion { assert id in free[dagVersion] - {identity}; }
    }
  }

  /** Putting back what was just taken restores the index. */
  lemma PutBack(free: FreeIndex, dagVersion: string, identity: string, e: EntryId)
    requires Listed(free, dagVersion, identity, e)
    ensures AddFree(RemoveFree(free, dagVersion, identity), dagVersion, identity, e) == free
  {
    var back := AddFree(RemoveFree(free, dagVersion, identity), dagVersion, identity, e);
    assert back[dagVersion] == free[dagVersion];
    assert back.Keys == free.Keys;
  }

  // ---- the registry's methods ----------------------------------------------

  predicate Current(s: State, e: EntryId)
  {
    e < |s.entries| && s.entries[e].identity in s.workers && s.workers[s.entries[e].identity] == e
  }

  /** The entry sits in the free index, under its own dag_version and identity. */
  predicate IsFree(s: State, e: EntryId)
  {
    e < |s.entries| && Listed(s.free, s.entries[e].dagVersion, s.entries[e].identity, e)
  }

  /** References stay inside the registrations made so far. */
  ghost predicate InBounds(s: State)
  {
    && (forall id :: id in s.workers ==> s.workers[id] < |s.entries|)
    && (forall dv, id, e: EntryId :: Listed(s.free, dv, id, e) ==> e < |s.entries|)
    && (forall aid :: aid in s.leases ==> s.leases[aid].worker < |s.entries|)
  }

  function Register(s: State, identity: string, dagVersion: string, podName: string): State
    requires InBounds(s)
  {
    var free := if identity in s.workers
                then RemoveFree(s.free, s.entries[s.workers[identity]].dagVersion, s.entries[s.workers[identity]].identity)
                else s.free;
    var e := |s.entries|;
    State(s.entries + [Entry(identity, dagVersion, podName, false, None)],
          s.workers[identity := e], AddFree(free, dagVersion, identity, e), s.leases)
  }

  /** Only the entry the registry still points at is removed; a stale one is left alone. */
  function Deregister(s: State, e: EntryId): State
    requires e < |s.entries|
  {
    if !Current(s, e) then s
    else
      var w := s.entries[e];
      State(s.entries, s.workers - {w.identity}, RemoveFree(s.free, w.dagVersion, w.identity),
            map aid | aid in s.leases && s.leases[aid].worker != e :: s.leases[aid])
  }

  function EventFor(aid: string, l: Lease, reason: ReclaimReason): ReclaimEvent
  {
    ReclaimEvent(aid, l.dagVersion, reason, l.runID, l.taskID, l.tryNumber)
  }

  /** The events a deregistration emits, one per lease the entry still held. */
  function Reclaims(s: State, e: EntryId): set<ReclaimEvent>
    requires e < |s.entries|
  {
    if !Current(s, e) then {}
    else set aid | aid in s.leases && s.leases[aid].worker == e :: EventFor(aid, s.leases[aid], WorkerGone)
  }

  lemma ReclaimsExact(s: State, e: EntryId)
    requires e < |s.entries|
    ensures forall ev :: ev in Reclaims(s, e) <==>
              Current(s, e) && ev.assignmentID in s.leases && s.leases[ev.assignmentID].worker == e
              && ev == EventFor(ev.assignmentID, s.leases[ev.assignmentID], WorkerGone)
  {
  }

  predicate Pickable(s: State, dagVersion: string, pick: string)
  {
    dagVersion in s.free && pick in s.free[dagVersion]
  }

  /** Ranging over a bucket yields any of its identities; `pick` is the one taken. */
  function Assign(s: State, dagVersion: string, a: WorkAssignment, pick: string): (State, bool)
    requires InBounds(s) && Pickable(s, dagVersion, pick)
  {
    var e := s.free[dagVersion][pick];
    assert Listed(s.free, dagVersion, pick, e);
    var w := s.entries[e];
    var taken := RemoveFree(s.free, dagVersion, pick);
    if w.send.Some? then
      (s.(free := AddFree(taken, w.dagVersion, w.identity, e)), false)
    else
      (State(s.entries[e := w.(send := Some(a))], s.workers, taken,
             s.leases[a.id := Lease(e, dagVersion, a.runID, a.taskID, a.tryNumber)]), true)
  }

  /** The handler takes the assignment off the entry's channel. */
  function Drain(s: State, e: EntryId): State
    requires e < |s.entries|
  {
    s.(entries := s.entries[e := s.entries[e].(send := None)])
  }

  function Ack(s: State, aid: string, started: bool): State
    requires InBounds(s)
  {
    if aid !in s.leases then s
    else
      var e := s.leases[aid].worker;
      var entries := if started then s.entries[e := s.entries[e].(busy := true)] else s.entries;
      s.(entries := entries, leases := s.leases - {aid})
  }

  function MarkFree(s: State, identity: string): State
    requires InBounds(s)
  {
    if identity !in s.workers then s
    else
      var e := s.workers[identity];
      var w := s.entries[e];
      s.(entries := s.entries[e := w.(busy := false)],
         free := AddFree(s.free, w.dagVersion, w.identity, e))
  }

  function Expire(s: State, aid: string): State
    requires InBounds(s)
  {
    if aid !in s.leases then s
    else
      var e := s.leases[aid].worker;
      var w := s.entries[e];
      var free := if Current(s, e) && !w.busy then AddFree(s.free, w.dagVersion, w.identity, e) else s.free;
      s.(free := free, leases := s.leases - {aid})
  }

  // ---- what every method keeps ---------------------------------------------

  /** The three maps agree: identities point at their own newest registration, and
      the free index holds only such entries, under their dag_version, with no
      empty bucket; a lease records the dag_version of its worker. */
  ghost predicate Consistent(s: State)
  {
    && InBounds(s)
    && (forall id :: id in s.workers ==> s.entries[s.workers[id]].identity == id)
    && (forall e: nat :: e < |s.entries| && s.entries[e].identity in s.workers ==>
          e <= s.workers[s.entries[e].identity])
    && NoEmptyBucket(s.free)
    && (forall dv, id, e: EntryId :: Listed(s.free, dv, id, e) ==>
          id in s.workers && s.workers[id] == e && s.entries[e].dagVersion == dv)
    && (forall aid :: aid in s.leases ==> s.leases[aid].dagVersion == s.entries[s.leases[aid].worker].dagVersion)
  }

  /** Registrations are never forgotten and keep their identity, pool and pod. */
  ghost predicate Persists(s: State, t: State)
  {
    && |s.entries| <= |t.entries|
    && forall e: nat :: e < |s.entries| ==>
         && t.entries[e].identity == s.entries[e].identity
         && t.entries[e].dagVersion == s.entries[e].dagVersion
         && t.entries[e].podName == s.entries[e].podName
  }

  /** No channel changed. */
  ghost predicate SameChannels(s: State, t: State)
  {
    |s.entries| == |t.entries| && forall e: nat :: e < |s.entries| ==> t.entries[e].send == s.entries[e].send
  }

  /** A registration takes every older listing of its identity out of the index. */
  lemma RegisterLists(s: State, identity: string, dagVersion: string, podName: string)
    requires Consistent(s)
    ensures var t := Register(s, identity, dagVersion, podName);
            && NoEmptyBucket(t.free)
            && forall dv, id, x: EntryId :: Listed(t.free, dv, id, x) <==>
                 if id == identity then dv == dagVersion && x == |s.entries| else Listed(s.free, dv, id, x)
  {
    var free := s.free;
    if identity in s.workers {
      RemoveFreeLists(s.free, s.entries[s.workers[identity]].dagVersion, identity);
      free := RemoveFree(s.free, s.entries[s.workers[identity]].dagVersion, identity);
    }
    AddFreeLists(free, dagVersion, identity, |s.entries|);
  }

  lemma RegisterKeeps(s: State, identity: string, dagVersion: string, podName: string)
    requires Consistent(s)
    ensures var t := Register(s, identity, dagVersion, podName);
            && Consistent(t) && Persists(s, t)
            && t.entries == s.entries + [Entry(identity, dagVersion, podName, false, None)] && t.leases == s.leases
            && IsFree(t, |s.entries|) && Current(t, |s.entries|)
            && (forall e: nat :: e < |s.entries| ==>
                  && (IsFree(t, e) <==> IsFree(s, e) && s.entries[e].identity != identity)
                  && (Current(t, e) <==> Current(s, e) && s.entries[e].identity != identity))
  {
    RegisterConsistent(s, identity, dagVersion, podName);
    RegisterLists(s, identity, dagVersion, podName);
  }

  lemma RegisterConsistent(s: State, identity: string, dagVersion: string, podName: string)
    requires Consistent(s)
    ensures Consistent(Register(s, identity, dagVersion, podName))
  {
    RegisterLists(s, identity, dagVersion, podName);
  }

  lemma DeregisterKeeps(s: State, e: EntryId)
    requires Consistent(s) && e < |s.entries|
    ensures var t := Deregister(s, e);
            && Consistent(t) && Persists(s, t)
            && !Current(t, e) && !IsFree(t, e)
            && (forall f: nat :: f < |s.entries| && f != e ==>
                  (IsFree(t, f) <==> IsFree(s, f)) && (Current(t, f) <==> Current(s, f)))
  {
    RemoveFreeLists(s.free, s.entries[e].dagVersion, s.entries[e].identity);
  }

  lemma AssignKeeps(s: State, dagVersion: string, a: WorkAssignment, pick: string)
    requires Consistent(s) && Pickable(s, dagVersion, pick)
    ensures var (t, ok) := Assign(s, dagVersion, a, pick);
            var e := s.free[dagVersion][pick];
            && Consistent(t) && Persists(s, t)
            && IsFree(s, e) && Current(s, e) && s.entries[e].dagVersion == dagVersion
            && (!ok ==> t == s)
            && (ok ==> !IsFree(t, e))
            && (forall f: nat :: f < |s.entries| && f != e ==> (IsFree(t, f) <==> IsFree(s, f)))
            && (forall f: nat :: Current(t, f) <==> Current(s, f))
  {
    var e := s.free[dagVersion][pick];
    assert Listed(s.free, dagVersion, pick, e);
    RemoveFreeLists(s.free, dagVersion, pick);
    PutBack(s.free, dagVersion, pick, e);
  }

  lemma AckKeeps(s: State, aid: string, started: bool)
    requires Consistent(s)
    ensures var t := Ack(s, aid, started);
            && Consistent(t) && Persists(s, t) && SameChannels(s, t)
            && (forall f: nat :: IsFree(t, f) <==> IsFree(s, f))
            && (forall f: nat :: Current(t, f) <==> Current(s, f))
  {
  }

  lemma DrainKeeps(s: State, e: EntryId)
    requires Consistent(s) && e < |s.entries|
    ensures var t := Drain(s, e);
            && Consistent(t) && Persists(s, t)
            && (forall f: nat :: IsFree(t, f) <==> IsFree(s, f))
            && (forall f: nat :: Current(t, f) <==> Current(s, f))
  {
  }

  lemma MarkFreeKeeps(s: State, identity: string)
    requires Consistent(s)
    ensures var t := MarkFree(s, identity);
            && Consistent(t) && Persists(s, t) && SameChannels(s, t)
            && (forall f: nat :: Current(t, f) <==> Current(s, f))
            && (forall f: nat :: f < |s.entries| ==>
                  (IsFree(t, f) <==> IsFree(s, f) || (identity in s.workers && f == s.workers[identity])))
  {
    if identity in s.workers {
      var e := s.workers[identity];
      AddFreeLists(s.free, s.entries[e].dagVersion, identity, e);
    }
  }

  lemma ExpireKeeps(s: State, aid: string)
    requires Consistent(s)
    ensures var t := Expire(s, aid);
            && Consistent(t) && Persists(s, t) && SameChannels(s, t)
            && (forall f: nat :: Current(t, f) <==> Current(s, f))
            && (forall f: nat :: f < |s.entries| ==>
                  (IsFree(t, f) <==>
                     IsFree(s, f) || (aid in s.leases && f == s.leases[aid].worker && Current(s, f) && !s.entries[f].busy)))
  {
    if aid in s.leases {
      var e := s.leases[aid].worker;
      AddFreeLists(s.free, s.entries[e].dagVersion, s.entries[e].identity, e);
    }
  }
}
