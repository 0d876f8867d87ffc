/** The registry as the object it is: entries on the heap compared by reference, three maps
    that its methods update in place, a loop over the leases in Deregister
    (internal/agentrpc/worker_registry.go).

    Each method is proved to perform exactly the step of the same name on the value
    model (module Registry), so everything proved of its runs is true of the object.
    Lease timers are left to the caller, who may call OnLeaseExpire at any time. */
module RegistryObject {
  import opened Wrappers
  import Registry

  class RegisteredWorker {
    const identity: string
    const dagVersion: string
    const podName: string
    var busy: bool
    var send: Option<Registry.WorkAssignment>

    constructor (identity: string, dagVersion: string, podName: string)
      ensures this.identity == identity && this.dagVersion == dagVersion && this.podName == podName
      ensures !busy && send.None?
    {
      this.identity, this.dagVersion, this.podName := identity, dagVersion, podName;
      busy, send := false, None;
    }
  }

  datatype LeaseState = LeaseState(worker: RegisteredWorker, dagVersion: string, runID: string, taskID: string, tryNumber: int)

  // ---- references as registration numbers ------------------------------------------

  ghost predicate Distinct(log: seq<RegisteredWorker>)
  {
    forall i, j :: 0 <= i < j < |log| ==> log[i] != log[j]
  }

  ghost function Number(log: seq<RegisteredWorker>, w: RegisteredWorker): (n: nat)
    requires w in log
    ensures n < |log| && log[n] == w
  {
    var n :| 0 <= n < |log| && log[n] == w; n
  }

  /** Values of a map are registrations. */
  ghost predicate Logged(log: seq<RegisteredWorker>, m: map<string, RegisteredWorker>)
  {
    forall k :: k in m ==> m[k] in log
  }

  ghost function Numbers(log: seq<RegisteredWorker>, m: map<string, RegisteredWorker>): map<string, nat>
    requires Logged(log, m)
  {
    map k | k in m :: Number(log, m[k])
  }

  ghost predicate LoggedIndex(log: seq<RegisteredWorker>, free: map<string, map<string, RegisteredWorker>>)
  {
    forall dv :: dv in free ==> Logged(log, free[dv])
  }

  ghost function IndexNumbers(log: seq<RegisteredWorker>, free: map<string, map<string, RegisteredWorker>>): Registry.FreeIndex
    requires LoggedIndex(log, free)
  {
    map dv | dv in free :: Numbers(log, free[dv])
  }

  ghost predicate LoggedLeases(log: seq<RegisteredWorker>, leases: map<string, LeaseState>)
  {
    forall aid :: aid in leases ==> leases[aid].worker in log
  }

  ghost function LeaseNumber(log: seq<RegisteredWorker>, l: LeaseState): Registry.Lease
    requires l.worker in log
  {
    Registry.Lease(Number(log, l.worker), l.dagVersion, l.runID, l.taskID, l.tryNumber)
  }

  ghost function LeaseNumbers(log: seq<RegisteredWorker>, leases: map<string, LeaseState>): map<string, Registry.Lease>
    requires LoggedLeases(log, leases)
  {
    map aid | aid in leases :: LeaseNumber(log, leases[aid])
  }

  ghost function EntryOf(w: RegisteredWorker): Registry.Entry
    reads w
  {
    Registry.Entry(w.identity, w.dagVersion, w.podName, w.busy, w.send)
  }

  ghost function Entries(log: seq<RegisteredWorker>): (es: seq<Registry.Entry>)
    reads log
    ensures |es| == |log| && forall i :: 0 <= i < |log| ==> es[i] == EntryOf(log[i])
  {
    seq(|log|, i requires 0 <= i < |log| reads log => EntryOf(log[i]))
  }

  lemma SameNumber(log: seq<RegisteredWorker>, w: RegisteredWorker, v: RegisteredWorker)
    requires Distinct(log) && w in log && v in log
    ensures Number(log, w) == Number(log, v) <==> w == v
  {
  }

  /** Appending a registration renumbers nothing. */
  lemma NumberAppend(log: seq<RegisteredWorker>, v: RegisteredWorker, w: RegisteredWorker)
    requires Distinct(log) && v !in log && w in log
    ensures Number(log + [v], w) == Number(log, w) && Number(log + [v], v) == |log|
  {
    var more := log + [v];
    assert more[Number(log, w)] == w;
    assert more[|log|] == v;
    assert Distinct(more);
  }

  lemma AppendNumbers(log: seq<RegisteredWorker>, v: RegisteredWorker, workers: map<string, RegisteredWorker>,
                      free: map<string, map<string, RegisteredWorker>>, leases: map<string, LeaseState>)
    requires Distinct(log) && v !in log
    requires Logged(log, workers) && LoggedIndex(log, free) && LoggedLeases(log, leases)
    ensures var more := log + [v];
            && Distinct(more) && v in more && Number(more, v) == |log|
            && Logged(more, workers) && LoggedIndex(more, free) && LoggedLeases(more, leases)
            && Numbers(more, workers) == Numbers(log, workers)
            && IndexNumbers(more, free) == IndexNumbers(log, free)
            && LeaseNumbers(more, leases) == LeaseNumbers(log, leases)
  {
    var more := log + [v];
    assert more[|log|] == v;
    forall w | w in log ensures Number(more, w) == Number(log, w) && Number(more, v) == |log| { NumberAppend(log, v, w); }
    forall dv | dv in free ensures Numbers(more, free[dv]) == Numbers(log, free[dv]) {}
  }

  // ---- the free index, with references ------------------------------------------------

  function AddFree(free: map<string, map<string, RegisteredWorker>>, w: RegisteredWorker): map<string, map<string, RegisteredWorker>>
  {
    var bucket: map<string, RegisteredWorker> := if w.dagVersion in free then free[w.dagVersion] else map[];
    free[w.dagVersion := bucket[w.identity := w]]
  }

  function RemoveFree(free: map<string, map<string, RegisteredWorker>>, dagVersion: string, identity: string)
    : map<string, map<string, RegisteredWorker>>
  {
    if dagVersion !in free then free
    else
      var bucket := free[dagVersion] - {identity};
      if |bucket| == 0 then free - {dagVersion} else free[dagVersion := bucket]
  }

  lemma AddFreeNumbers(log: seq<RegisteredWorker>, free: map<string, map<string, RegisteredWorker>>, w: RegisteredWorker)
    requires LoggedIndex(log, free) && w in log
    ensures LoggedIndex(log, AddFree(free, w))
    ensures IndexNumbers(log, AddFree(free, w))
         == Registry.AddFree(IndexNumbers(log, free), w.dagVersion, w.identity, Number(log, w))
  {
    var bucket: map<string, RegisteredWorker> := if w.dagVersion in free then free[w.dagVersion] else map[];
    PutNumbers(log, bucket, w.identity, w);
    assert IndexNumbers(log, AddFree(free, w))
        == IndexNumbers(log, free)[w.dagVersion := Numbers(log, bucket[w.identity := w])];
  }

  lemma RemoveFreeNumbers(log: seq<RegisteredWorker>, free: map<string, map<string, RegisteredWorker>>, dv: string, id: string)
    requires LoggedIndex(log, free)
    ensures LoggedIndex(log, RemoveFree(free, dv, id))
    ensures IndexNumbers(log, RemoveFree(free, dv, id)) == Registry.RemoveFree(IndexNumbers(log, free), dv, id)
  {
    if dv in free {
      var bucket := free[dv] - {id};
      assert Numbers(log, bucket) == Numbers(log, free[dv]) - {id};
      assert |bucket| == 0 <==> bucket == map[];
      assert bucket == map[] <==> Numbers(log, bucket) == map[] by {
        assert Numbers(log, bucket).Keys == bucket.Keys;
      }
    }
  }

  // ---- each step, on numbers ----------------------------------------------------------

  ghost predicate AllLogged(log: seq<RegisteredWorker>, workers: map<string, RegisteredWorker>,
                            free: map<string, map<string, RegisteredWorker>>, leases: map<string, LeaseState>)
  {
    Distinct(log) && Logged(log, workers) && LoggedIndex(log, free) && LoggedLeases(log, leases)
  }

  /** Entries of the registrations, at some point in time. */
  ghost predicate Snapshot(log: seq<RegisteredWorker>, es: seq<Registry.Entry>)
  {
    && |es| == |log|
    && forall i :: 0 <= i < |log| ==> es[i].identity == log[i].identity && es[i].dagVersion == log[i].dagVersion
  }

  ghost function Abstract(log: seq<RegisteredWorker>, es: seq<Registry.Entry>, workers: map<string, RegisteredWorker>,
                          free: map<string, map<string, RegisteredWorker>>, leases: map<string, LeaseState>): (s: Registry.State)
    requires AllLogged(log, workers, free, leases) && |es| == |log|
    ensures Registry.InBounds(s)
  {
    Registry.State(es, Numbers(log, workers), IndexNumbers(log, free), LeaseNumbers(log, leases))
  }

  function WithoutOld(workers: map<string, RegisteredWorker>, free: map<string, map<string, RegisteredWorker>>, identity: string)
    : map<string, map<string, RegisteredWorker>>
  {
    if identity in workers then RemoveFree(free, workers[identity].dagVersion, workers[identity].identity) else free
  }

  lemma WithoutOldNumbers(log: seq<RegisteredWorker>, es: seq<Registry.Entry>, workers: map<string, RegisteredWorker>,
                          free: map<string, map<string, RegisteredWorker>>, identity: string)
    requires Logged(log, workers) && LoggedIndex(log, free) && Snapshot(log, es)
    ensures var freed, ws := WithoutOld(workers, free, identity), Numbers(log, workers);
            && LoggedIndex(log, freed)
            && IndexNumbers(log, freed) == if identity in ws
                 then Registry.RemoveFree(IndexNumbers(log, free), es[ws[identity]].dagVersion, es[ws[identity]].identity)
                 else IndexNumbers(log, free)
  {
    if identity in workers { RemoveFreeNumbers(log, free, workers[identity].dagVersion, workers[identity].identity); }
  }

  lemma PutNumbers(log: seq<RegisteredWorker>, m: map<string, RegisteredWorker>, k: string, w: RegisteredWorker)
    requires Logged(log, m) && w in log
    ensures Logged(log, m[k := w]) && Numbers(log, m[k := w]) == Numbers(log, m)[k := Number(log, w)]
  {
  }

  lemma RegisterNumbers(log: seq<RegisteredWorker>, es: seq<Registry.Entry>, workers: map<string, RegisteredWorker>,
                        free: map<string, map<string, RegisteredWorker>>, leases: map<string, LeaseState>,
                        w: RegisteredWorker, podName: string, more: seq<RegisteredWorker>,
                        free': map<string, map<string, RegisteredWorker>>)
    requires AllLogged(log, workers, free, leases) && Snapshot(log, es) && w !in log && more == log + [w]
    requires free' == AddFree(WithoutOld(workers, free, w.identity), w)
    ensures AllLogged(more, workers[w.identity := w], free', leases)
    ensures Abstract(more, es + [Registry.Entry(w.identity, w.dagVersion, podName, false, None)],
                     workers[w.identity := w], free', leases)
            == Registry.Register(Abstract(log, es, workers, free, leases), w.identity, w.dagVersion, podName)
  {
    var freed := WithoutOld(workers, free, w.identity);
    WithoutOldNumbers(log, es, workers, free, w.identity);
    AppendNumbers(log, w, workers, freed, leases);
    AddFreeNumbers(more, freed, w);
    PutNumbers(more, workers, w.identity, w);
  }

  /** When one worker's fields change, one entry does. */
  lemma OneEntry(log: seq<RegisteredWorker>, es: seq<Registry.Entry>, now: seq<Registry.Entry>, w: RegisteredWorker)
    requires Distinct(log) && w in log && |es| == |now| == |log|
    requires forall i :: 0 <= i < |log| && log[i] != w ==> now[i] == es[i]
    ensures now == es[Number(log, w) := now[Number(log, w)]]
  {
  }

  lemma PutLeaseNumber(log: seq<RegisteredWorker>, leases: map<string, LeaseState>, aid: string, l: LeaseState)
    requires LoggedLeases(log, leases) && l.worker in log
    ensures LoggedLeases(log, leases[aid := l])
    ensures LeaseNumbers(log, leases[aid := l]) == LeaseNumbers(log, leases)[aid := LeaseNumber(log, l)]
  {
  }

  lemma DropLeaseNumber(log: seq<RegisteredWorker>, leases: map<string, LeaseState>, aid: string)
    requires LoggedLeases(log, leases)
    ensures LoggedLeases(log, leases - {aid})
    ensures LeaseNumbers(log, leases - {aid}) == LeaseNumbers(log, leases) - {aid}
  {
  }

  function Kept(leases: map<string, LeaseState>, w: RegisteredWorker): map<string, LeaseState>
  {
    map aid | aid in leases && leases[aid].worker != w :: leases[aid]
  }

  lemma DropNumbers(log: seq<RegisteredWorker>, m: map<string, RegisteredWorker>, k: string)
    requires Logged(log, m)
    ensures Logged(log, m - {k}) && Numbers(log, m - {k}) == Numbers(log, m) - {k}
  {
  }

  lemma KeptNumbers(log: seq<RegisteredWorker>, leases: map<string, LeaseState>, w: RegisteredWorker)
    requires Distinct(log) && LoggedLeases(log, leases) && w in log
    ensures var ls, n := LeaseNumbers(log, leases), Number(log, w);
            && (forall aid :: aid in leases ==> (ls[aid].worker == n <==> leases[aid].worker == w))
            && LoggedLeases(log, Kept(leases, w))
            && LeaseNumbers(log, Kept(leases, w)) == map aid | aid in ls && ls[aid].worker != n :: ls[aid]
  {
    forall aid | aid in leases ensures LeaseNumber(log, leases[aid]).worker == Number(log, w) <==> leases[aid].worker == w {
      SameNumber(log, leases[aid].worker, w);
    }
  }

  lemma DeregisterNumbers(log: seq<RegisteredWorker>, es: seq<Registry.Entry>, workers: map<string, RegisteredWorker>,
                          free: map<string, map<string, RegisteredWorker>>, leases: map<string, LeaseState>, w: RegisteredWorker)
    requires AllLogged(log, workers, free, leases) && Snapshot(log, es)
    requires w.identity in workers && workers[w.identity] == w
    ensures var s, free' := Abstract(log, es, workers, free, leases), RemoveFree(free, w.dagVersion, w.identity);
            && w in log
            && AllLogged(log, workers - {w.identity}, free', Kept(leases, w))
            && Abstract(log, es, workers - {w.identity}, free', Kept(leases, w)) == Registry.Deregister(s, Number(log, w))
            && GoneEvents(leases, w) == Registry.Reclaims(s, Number(log, w))
  {
    RemoveFreeNumbers(log, free, w.dagVersion, w.identity);
    DropNumbers(log, workers, w.identity);
    KeptNumbers(log, leases, w);
    GoneEventsNumbered(log, leases, w, Abstract(log, es, workers, free, leases), Number(log, w));
  }

  lemma GoneEventsNumbered(log: seq<RegisteredWorker>, leases: map<string, LeaseState>, w: RegisteredWorker, s: Registry.State, n: nat)
    requires LoggedLeases(log, leases) && s.leases == LeaseNumbers(log, leases) && Registry.Current(s, n)
    requires forall aid :: aid in leases ==> (s.leases[aid].worker == n <==> leases[aid].worker == w)
    ensures GoneEvents(leases, w) == Registry.Reclaims(s, n)
  {
    Registry.ReclaimsExact(s, n);
    forall ev ensures ev in GoneEvents(leases, w) <==> ev in Registry.Reclaims(s, n) {
      if ev.assignmentID in leases { assert GoneEvent(ev.assignmentID, leases[ev.assignmentID])
          == Registry.EventFor(ev.assignmentID, s.leases[ev.assignmentID], Registry.WorkerGone); }
    }
  }

  function GoneEvent(aid: string, l: LeaseState): Registry.ReclaimEvent
  {
    Registry.ReclaimEvent(aid, l.dagVersion, Registry.WorkerGone, l.runID, l.taskID, l.tryNumber)
  }

  ghost function GoneEvents(leases: map<string, LeaseState>, w: RegisteredWorker): set<Registry.ReclaimEvent>
  {
    set aid | aid in leases && leases[aid].worker == w :: GoneEvent(aid, leases[aid])
  }

  lemma GoneEventsPut(leases: map<string, LeaseState>, w: RegisteredWorker, aid: string, l: LeaseState)
    requires aid !in leases
    ensures GoneEvents(leases[aid := l], w) == GoneEvents(leases, w) + if l.worker == w then {GoneEvent(aid, l)} else {}
    ensures GoneEvent(aid, l) !in GoneEvents(leases, w)
  {
    var after := GoneEvents(leases[aid := l], w);
    forall ev | ev in GoneEvents(leases, w) ensures ev in after {
      var a :| a in leases && leases[a].worker == w && ev == GoneEvent(a, leases[a]);
      assert leases[aid := l][a] == leases[a];
    }
    if l.worker == w { assert leases[aid := l][aid] == l; }
  }

  /** The leases visited so far. */
  ghost function Visited(all: map<string, LeaseState>, todo: set<string>): map<string, LeaseState>
  {
    map aid | aid in all && aid !in todo :: all[aid]
  }

  /** What is left while `todo` is still to be visited. */
  ghost function Left(all: map<string, LeaseState>, todo: set<string>, w: RegisteredWorker): map<string, LeaseState>
  {
    map aid | aid in all && (aid in todo || all[aid].worker != w) :: all[aid]
  }

  lemma VisitOne(all: map<string, LeaseState>, todo: set<string>, w: RegisteredWorker, aid: string)
    requires todo <= all.Keys && aid in todo
    ensures Left(all, todo - {aid}, w) == if all[aid].worker == w then Left(all, todo, w) - {aid} else Left(all, todo, w)
    ensures multiset(GoneEvents(Visited(all, todo - {aid}), w))
         == multiset(GoneEvents(Visited(all, todo), w))
            + if all[aid].worker == w then multiset{GoneEvent(aid, all[aid])} else multiset{}
  {
    assert Visited(all, todo - {aid}) == Visited(all, todo)[aid := all[aid]];
    GoneEventsPut(Visited(all, todo), w, aid, all[aid]);
  }

  function Refreed(workers: map<string, RegisteredWorker>, free: map<string, map<string, RegisteredWorker>>,
                   w: RegisteredWorker, busy: bool): map<string, map<string, RegisteredWorker>>
  {
    if w.identity in workers && workers[w.identity] == w && !busy then AddFree(free, w) else free
  }

  lemma RefreedNumbers(log: seq<RegisteredWorker>, workers: map<string, RegisteredWorker>,
                       free: map<string, map<string, RegisteredWorker>>, w: RegisteredWorker, busy: bool)
    requires Distinct(log) && Logged(log, workers) && LoggedIndex(log, free) && w in log
    ensures var now, n := Refreed(workers, free, w, busy), Number(log, w);
            && LoggedIndex(log, now)
            && IndexNumbers(log, now)
               == if w.identity in workers && Numbers(log, workers)[w.identity] == n && !busy
                  then Registry.AddFree(IndexNumbers(log, free), w.dagVersion, w.identity, n) else IndexNumbers(log, free)
  {
    AddFreeNumbers(log, free, w);
    if w.identity in workers { SameNumber(log, workers[w.identity], w); }
  }

  lemma ExpireNumbers(log: seq<RegisteredWorker>, es: seq<Registry.Entry>, workers: map<string, RegisteredWorker>,
                      free: map<string, map<string, RegisteredWorker>>, leases: map<string, LeaseState>, aid: string)
    requires AllLogged(log, workers, free, leases) && Snapshot(log, es) && aid in leases
    ensures var w := leases[aid].worker;
            var free' := Refreed(workers, free, w, es[Number(log, w)].busy);
            && AllLogged(log, workers, free', leases - {aid})
            && Abstract(log, es, workers, free', leases - {aid}) == Registry.Expire(Abstract(log, es, workers, free, leases), aid)
  {
    var w := leases[aid].worker;
    DropLeaseNumber(log, leases, aid);
    RefreedNumbers(log, workers, free, w, es[Number(log, w)].busy);
  }

  lemma AcceptNumbers(log: seq<RegisteredWorker>, es: seq<Registry.Entry>, workers: map<string, RegisteredWorker>,
                      free: map<string, map<string, RegisteredWorker>>, leases: map<string, LeaseState>,
                      dagVersion: string, a: Registry.WorkAssignment, id: string)
    requires AllLogged(log, workers, free, leases) && Snapshot(log, es)
    requires dagVersion in free && id in free[dagVersion] && es[Number(log, free[dagVersion][id])].send.None?
    ensures var s, n := Abstract(log, es, workers, free, leases), Number(log, free[dagVersion][id]);
            var free', leases' := RemoveFree(free, dagVersion, id), leases[a.id := LeaseFor(free[dagVersion][id], dagVersion, a)];
            && AllLogged(log, workers, free', leases')
            && Registry.Assign(s, dagVersion, a, id)
               == (Abstract(log, es[n := es[n].(send := Some(a))], workers, free', leases'), true)
  {
    RemoveFreeNumbers(log, free, dagVersion, id);
    PutLeaseNumber(log, leases, a.id, LeaseFor(free[dagVersion][id], dagVersion, a));
  }

  lemma BounceNumbers(log: seq<RegisteredWorker>, es: seq<Registry.Entry>, workers: map<string, RegisteredWorker>,
                      free: map<string, map<string, RegisteredWorker>>, leases: map<string, LeaseState>,
                      dagVersion: string, a: Registry.WorkAssignment, id: string)
    requires AllLogged(log, workers, free, leases) && Snapshot(log, es)
    requires dagVersion in free && id in free[dagVersion] && es[Number(log, free[dagVersion][id])].send.Some?
    ensures var s, free' := Abstract(log, es, workers, free, leases), AddFree(RemoveFree(free, dagVersion, id), free[dagVersion][id]);
            && AllLogged(log, workers, free', leases)
            && Registry.Assign(s, dagVersion, a, id) == (Abstract(log, es, workers, free', leases), false)
  {
    RemoveFreeNumbers(log, free, dagVersion, id);
    AddFreeNumbers(log, RemoveFree(free, dagVersion, id), free[dagVersion][id]);
  }

  function LeaseFor(w: RegisteredWorker, dagVersion: string, a: Registry.WorkAssignment): LeaseState
  {
    LeaseState(w, dagVersion, a.runID, a.taskID, a.tryNumber)
  }

  /** Both outcomes of an assignment, given what the heap looks like afterwards. */
  lemma AssignNumbers(log: seq<RegisteredWorker>, es: seq<Registry.Entry>, workers: map<string, RegisteredWorker>,
                      free: map<string, map<string, RegisteredWorker>>, leases: map<string, LeaseState>,
                      dagVersion: string, a: Registry.WorkAssignment, id: string, ok: bool, now: seq<Registry.Entry>,
                      free': map<string, map<string, RegisteredWorker>>, leases': map<string, LeaseState>)
    requires AllLogged(log, workers, free, leases) && Snapshot(log, es)
    requires dagVersion in free && id in free[dagVersion]
    requires var w := free[dagVersion][id];
             && ok == es[Number(log, w)].send.None?
             && now == (if ok then es[Number(log, w) := es[Number(log, w)].(send := Some(a))] else es)
             && free' == (if ok then RemoveFree(free, dagVersion, id) else AddFree(RemoveFree(free, dagVersion, id), w))
             && leases' == if ok then leases[a.id := LeaseFor(w, dagVersion, a)] else leases
    ensures var s := Abstract(log, es, workers, free, leases);
            && AllLogged(log, workers, free', leases')
            && Registry.Pickable(s, dagVersion, id)
            && Registry.Assign(s, dagVersion, a, id) == (Abstract(log, now, workers, free', leases'), ok)
  {
    if ok {
      AcceptNumbers(log, es, workers, free, leases, dagVersion, a, id);
    } else {
      BounceNumbers(log, es, workers, free, leases, dagVersion, a, id);
    }
  }

  lemma AckNumbers(log: seq<RegisteredWorker>, es: seq<Registry.Entry>, workers: map<string, RegisteredWorker>,
                   free: map<string, map<string, RegisteredWorker>>, leases: map<string, LeaseState>, aid: string, started: bool)
    requires AllLogged(log, workers, free, leases) && |es| == |log| && aid in leases
    ensures var n := Number(log, leases[aid].worker);
            var now := if started then es[n := es[n].(busy := true)] else es;
            && AllLogged(log, workers, free, leases - {aid})
            && Abstract(log, now, workers, free, leases - {aid})
               == Registry.Ack(Abstract(log, es, workers, free, leases), aid, started)
  {
    DropLeaseNumber(log, leases, aid);
  }

  lemma MarkFreeNumbers(log: seq<RegisteredWorker>, es: seq<Registry.Entry>, workers: map<string, RegisteredWorker>,
                        free: map<string, map<string, RegisteredWorker>>, leases: map<string, LeaseState>, identity: string)
    requires AllLogged(log, workers, free, leases) && Snapshot(log, es) && identity in workers
    ensures var w := workers[identity];
            var n := Number(log, w);
            && AllLogged(log, workers, AddFree(free, w), leases)
            && Abstract(log, es[n := es[n].(busy := false)], workers, AddFree(free, w), leases)
               == Registry.MarkFree(Abstract(log, es, workers, free, leases), identity)
  {
    AddFreeNumbers(log, free, workers[identity]);
  }

  // ---- the object -------------------------------------------------------------------

  class WorkerRegistry {
    var workers: map<string, RegisteredWorker>
    var free: map<string, map<string, RegisteredWorker>>
    var leases: map<string, LeaseState>
    /** Every registration ever made, in order. */
    ghost var log: seq<RegisteredWorker>

    ghost predicate Valid()
      reads this
    {
      AllLogged(log, workers, free, leases)
    }

    ghost function Model(): (s: Registry.State)
      reads this, log
      requires Valid()
      ensures Registry.InBounds(s) && |s.entries| == |log|
    {
      Abstract(log, Entries(log), workers, free, leases)
    }

    constructor ()
      ensures Valid() && log == [] && Model() == Registry.Empty
    {
      workers, free, leases, log := map[], map[], map[], [];
    }

    /** Takes an identity's present entry, if it has one, out of the free index. */
    method DropSuperseded(identity: string)
      modifies this`free
      ensures free == WithoutOld(workers, old(free), identity)
    {
      if identity in workers {
        var superseded := workers[identity];
        free := RemoveFree(free, superseded.dagVersion, superseded.identity);
      }
    }

    method Register(identity: string, dagVersion: string, podName: string) returns (w: RegisteredWorker)
      requires Valid()
      modifies this
      ensures Valid() && fresh(w) && log == old(log) + [w]
      ensures Model() == Registry.Register(old(Model()), identity, dagVersion, podName)
    {
      ghost var es, free0, workers0 := Entries(log), free, workers;
      DropSuperseded(identity);
      w := new RegisteredWorker(identity, dagVersion, podName);
      workers := workers[identity := w];
      free := AddFree(free, w);
      log := log + [w];
      assert Entries(log) == es + [Registry.Entry(identity, dagVersion, podName, false, None)];
      RegisterNumbers(old(log), es, workers0, free0, leases, w, podName, log, free);
    }

    /** A reference the registry does not hold, null included, changes nothing. */
    method Deregister(w: RegisteredWorker?) returns (reclaims: seq<Registry.ReclaimEvent>)
      requires Valid()
      modifies this
      ensures Valid() && log == old(log)
      ensures w == null || w !in log ==> Model() == old(Model()) && reclaims == []
      ensures w != null && w in log ==>
                && Model() == Registry.Deregister(old(Model()), Number(log, w))
                && multiset(reclaims) == multiset(Registry.Reclaims(old(Model()), Number(log, w)))
    {
      reclaims := [];
      if w == null || w.identity !in workers || workers[w.identity] != w {
        if w != null && w in log && w.identity in workers { SameNumber(log, w, workers[w.identity]); }
        return;
      }
      DeregisterNumbers(log, Entries(log), workers, free, leases, w);
      workers := workers - {w.identity};
      free := RemoveFree(free, w.dagVersion, w.identity);
      reclaims := ReclaimLeases(w);
    }

    /** Deletes every lease of one worker, collecting its event. */
    method ReclaimLeases(w: RegisteredWorker) returns (reclaims: seq<Registry.ReclaimEvent>)
      modifies this`leases
      ensures leases == Kept(old(leases), w)
      ensures multiset(reclaims) == multiset(GoneEvents(old(leases), w))
    {
      reclaims := [];
      var all, todo := leases, leases.Keys;
      while todo != {}
        invariant todo <= all.Keys
        invariant leases == Left(all, todo, w)
        invariant multiset(reclaims) == multiset(GoneEvents(Visited(all, todo), w))
        decreases todo
      {
        var aid :| aid in todo;
        VisitOne(all, todo, w, aid);
        todo := todo - {aid};
        if all[aid].worker == w {
          leases := leases - {aid};
          reclaims := reclaims + [GoneEvent(aid, all[aid])];
        }
      }
      assert Visited(all, todo) == all;
    }

    /** Takes some free worker of the pool out of the index, or yields null. */
    method TakeFree(dagVersion: string) returns (w: RegisteredWorker?, ghost pick: string)
      modifies this`free
      ensures w == null <==> dagVersion !in old(free) || old(free)[dagVersion] == map[]
      ensures w == null ==> free == old(free)
      ensures w != null ==>
                && pick in old(free)[dagVersion] && w == old(free)[dagVersion][pick]
                && free == RemoveFree(old(free), dagVersion, pick)
    {
      w, pick := null, "";
      if dagVersion in free && |free[dagVersion]| != 0 {
        var id :| id in free[dagVersion];
        w, pick := free[dagVersion][id], id;
        free := RemoveFree(free, dagVersion, id);
      }
    }

    /** The non-blocking send onto the worker's channel: on success the lease starts, otherwise
        the worker is put back. */
    method Hand(w: RegisteredWorker, dagVersion: string, a: Registry.WorkAssignment) returns (ok: bool)
      requires Distinct(log) && w in log
      modifies w`send, this`leases, this`free
      ensures var n, es := Number(log, w), old(Entries(log));
              && ok == es[n].send.None?
              && Entries(log) == if ok then es[n := es[n].(send := Some(a))] else es
      ensures leases == if ok then old(leases)[a.id := LeaseFor(w, dagVersion, a)] else old(leases)
      ensures free == if ok then old(free) else AddFree(old(free), w)
    {
      ghost var es := Entries(log);
      ok := w.send.None?;
      if ok {
        w.send := Some(a);
        leases := leases[a.id := LeaseFor(w, dagVersion, a)];
        OneEntry(log, es, Entries(log), w);
      } else {
        free := AddFree(free, w);
      }
    }

    /** Hands the assignment to some free worker of the pool; `pick` is the one taken. */
    method Assign(dagVersion: string, a: Registry.WorkAssignment) returns (ok: bool, ghost pick: string)
      requires Valid()
      modifies this, log
      ensures Valid() && log == old(log)
      ensures dagVersion !in old(free) || old(free)[dagVersion] == map[] ==> !ok && Model() == old(Model())
      ensures dagVersion in old(free) && old(free)[dagVersion] != map[] ==>
                && Registry.Pickable(old(Model()), dagVersion, pick)
                && Registry.Assign(old(Model()), dagVersion, a, pick) == (Model(), ok)
    {
      ghost var es, free0 := Entries(log), free;
      var w: RegisteredWorker?;
      w, pick := TakeFree(dagVersion);
      if w == null { return false, pick; }
      assert Entries(log) == es;
      ok := Give(w, dagVersion, a, pick, free0);
    }

    /** Hands the assignment to the worker just taken out of the index free0. */
    method Give(w: RegisteredWorker, dagVersion: string, a: Registry.WorkAssignment, ghost pick: string,
                ghost free0: map<string, map<string, RegisteredWorker>>) returns (ok: bool)
      requires AllLogged(log, workers, free0, leases)
      requires dagVersion in free0 && pick in free0[dagVersion] && w == free0[dagVersion][pick]
      requires free == RemoveFree(free0, dagVersion, pick)
      modifies w`send, this`leases, this`free
      ensures Valid()
      ensures var s := Abstract(log, old(Entries(log)), workers, free0, old(leases));
              && Registry.Pickable(s, dagVersion, pick)
              && Registry.Assign(s, dagVersion, a, pick) == (Model(), ok)
    {
      ghost var es, leases0 := Entries(log), leases;
      ok := Hand(w, dagVersion, a);
      AssignNumbers(log, es, workers, free0, leases0, dagVersion, a, pick, ok, Entries(log), free, leases);
    }

    /** The handler receives from its worker's channel. */
    method Receive(w: RegisteredWorker) returns (a: Option<Registry.WorkAssignment>)
      requires Valid() && w in log
      modifies w
      ensures Valid() && log == old(log)
      ensures a == old(Model()).entries[Number(log, w)].send
      ensures Model() == Registry.Drain(old(Model()), Number(log, w))
    {
      ghost var es := Entries(log);
      a := w.send;
      w.send := None;
      OneEntry(log, es, Entries(log), w);
    }

    method SetBusy(w: RegisteredWorker, busy: bool)
      requires Distinct(log) && w in log
      modifies w`busy
      ensures var n, es := Number(log, w), old(Entries(log)); Entries(log) == es[n := es[n].(busy := busy)]
    {
      ghost var es := Entries(log);
      w.busy := busy;
      OneEntry(log, es, Entries(log), w);
    }

    /** Settles a lease: a started ack yields the binding to persist, a refusal the event to emit. */
    method Ack(assignmentID: string, started: bool)
      returns (binding: Option<Registry.WarmBinding>, reclaim: Option<Registry.ReclaimEvent>)
      requires Valid()
      modifies this, log
      ensures Valid() && log == old(log)
      ensures Model() == Registry.Ack(old(Model()), assignmentID, started)
      ensures var s := old(Model());
              if assignmentID !in s.leases then binding.None? && reclaim.None?
              else
                var l := s.leases[assignmentID];
                if started
                then reclaim.None? && binding == Some(Registry.WarmBinding(l.runID, l.taskID, l.tryNumber, s.entries[l.worker].podName))
                else binding.None? && reclaim == Some(Registry.EventFor(assignmentID, l, Registry.Refused))
    {
      binding, reclaim := None, None;
      if assignmentID !in leases { return; }
      var ls := leases[assignmentID];
      AckNumbers(log, Entries(log), workers, free, leases, assignmentID, started);
      leases := leases - {assignmentID};
      if started {
        SetBusy(ls.worker, true);
        binding := Some(Registry.WarmBinding(ls.runID, ls.taskID, ls.tryNumber, ls.worker.podName));
      } else {
        reclaim := Some(Registry.ReclaimEvent(assignmentID, ls.dagVersion, Registry.Refused, ls.runID, ls.taskID, ls.tryNumber));
      }
    }

    method MarkFree(identity: string)
      requires Valid()
      modifies this, log
      ensures Valid() && log == old(log)
      ensures Model() == Registry.MarkFree(old(Model()), identity)
    {
      if identity !in workers { return; }
      var w := workers[identity];
      MarkFreeNumbers(log, Entries(log), workers, free, leases, identity);
      SetBusy(w, false);
      free := AddFree(free, w);
    }

    /** Frees a worker again if it is still registered and not busy. */
    method Refree(w: RegisteredWorker)
      modifies this`free
      ensures free == Refreed(workers, old(free), w, w.busy)
    {
      if w.identity in workers && workers[w.identity] == w && !w.busy {
        free := AddFree(free, w);
      }
    }

    /** The lease timer's callback; a settled assignment is left alone. */
    method OnLeaseExpire(assignmentID: string) returns (reclaim: Option<Registry.ReclaimEvent>)
      requires Valid()
      modifies this
      ensures Valid() && log == old(log)
      ensures Model() == Registry.Expire(old(Model()), assignmentID)
      ensures reclaim == if assignmentID !in old(Model()).leases then None
                         else Some(Registry.EventFor(assignmentID, old(Model()).leases[assignmentID], Registry.LeaseExpired))
    {
      reclaim := None;
      if assignmentID !in leases { return; }
      var ls := leases[assignmentID];
      ExpireNumbers(log, Entries(log), workers, free, leases, assignmentID);
      leases := leases - {assignmentID};
      Refree(ls.worker);
      reclaim := Some(Registry.ReclaimEvent(assignmentID, ls.dagVersion, Registry.LeaseExpired, ls.runID, ls.taskID, ls.tryNumber));
    }
  }
}
