/** Ordered shutdown of a domain whose processes share GPU memory: the exporter goes last, and never while
    some importer lives. Processes may exit at any moment; calls may fail at any moment. */
module DeploymentLifecycle {
  import opened Options

  const API := "api"
  const OWNER := "kv-owner"
  const EVENT_OWNER := "ipc-event-owner"

  /** Phases, in order. */
  const INSPECT: nat := 0
  const API_PHASE: nat := 1
  const WORKERS: nat := 2
  const AUXILIARY: nat := 3
  const OWNER_PHASE: nat := 4
  const COMPLETE: nat := 5

  /** What a child process is there for, whatever it is called: the two owners export GPU memory that the
      importers map. */
  datatype Kind = Api | Owner | EventOwner | Importer

  datatype Child = Child(name: string, kind: Kind)

  /** What the coordinator does. `OwnerRpc` goes to whoever serves the owner's endpoint. `WorkerStopped` and
      `OwnerStopped` record a confirmed exit with code 0. */
  datatype Act = Fault
               | PhaseTo(phase: nat)
               | WorkerRpc(target: nat, drain: bool)
               | OwnerRpc
               | Term(target: nat)
               | GpuTerminate(target: nat)
               | Kill(target: nat)
               | WorkerStopped(target: nat)
               | OwnerStopped(target: nat)
               | Quarantine

  /** An act and the processes alive when it is done. */
  datatype Entry = Entry(act: Act, live: set<nat>)

  type Log = seq<Entry>

  // ---------- What a log must satisfy ----------

  predicate Targets(a: Act, i: nat) {
    (a.WorkerRpc? || a.Term? || a.GpuTerminate? || a.Kill?) && a.target == i
  }

  /** Acts that ask or force child `i` to stop. */
  predicate Stops(children: seq<Child>, a: Act, i: nat)
    requires i < |children|
  {
    Targets(a, i) || (a == OwnerRpc && children[i].kind == Owner)
  }

  /** `user` uses memory that `exporter` exports. */
  predicate Imports(user: Kind, exporter: Kind) {
    (exporter == Owner && user in {Importer, EventOwner}) || (exporter == EventOwner && user == Importer)
  }

  /** Nobody who uses what child `i` exports is alive. */
  ghost predicate Unused(children: seq<Child>, i: nat, live: set<nat>)
    requires i < |children|
  {
    forall j :: j in live && j < |children| ==> !Imports(children[j].kind, children[i].kind)
  }

  /** Exporters are stopped only when unused. */
  ghost predicate SafeEntry(children: seq<Child>, e: Entry) {
    forall i: nat :: i < |children| && Stops(children, e.act, i) ==> Unused(children, i, e.live)
  }

  ghost predicate Safe(children: seq<Child>, log: Log) {
    forall k :: 0 <= k < |log| ==> SafeEntry(children, log[k])
  }

  // ---------- What the coordinator looks at ----------

  /** The coordinator tells importers by their names. */
  predicate ImporterByName(name: string, exceptEvents: bool) {
    name != API && name != OWNER && !(exceptEvents && name == EVENT_OWNER)
  }

  /** A child that uses what child `i` exports and passes for one that does not. */
  predicate Misnamed(children: seq<Child>, i: nat, j: nat) {
    && i < |children| && j < |children| && Imports(children[j].kind, children[i].kind)
    && !ImporterByName(children[j].name, children[i].kind == EventOwner)
  }

  /** Nobody who can be told to use what child `i` exports is alive. */
  ghost predicate SeemsUnused(children: seq<Child>, i: nat, live: set<nat>)
    requires i < |children|
  {
    forall j :: j in live && j < |children| && Imports(children[j].kind, children[i].kind) ==> Misnamed(children, i, j)
  }

  ghost predicate GuardedEntry(children: seq<Child>, e: Entry) {
    forall i: nat :: i < |children| && Stops(children, e.act, i) ==> SeemsUnused(children, i, e.live)
  }

  /** What the coordinator enforces. */
  ghost predicate Guarded(children: seq<Child>, log: Log) {
    forall k :: 0 <= k < |log| ==> GuardedEntry(children, log[k])
  }

  ghost predicate NoneMisnamed(children: seq<Child>) {
    forall i: nat, j: nat :: !Misnamed(children, i, j)
  }

  /** The name test is as good as knowing the kinds if and only if no importer carries a reserved name. */
  lemma GuardSufficesIffNoneMisnamed(children: seq<Child>)
    ensures (forall log :: Guarded(children, log) ==> Safe(children, log)) <==> NoneMisnamed(children)
  {
    if NoneMisnamed(children) {
      forall log | Guarded(children, log) ensures Safe(children, log) {
        GuardedIsSafe(children, log);
      }
    }
    if i: nat, j: nat :| Misnamed(children, i, j) {
      var e := Entry(Kill(i), {i, j});
      KillBesideMisnamed(children, i, j);
      assert Guarded(children, [e]);
      assert !Safe(children, [e]) by { assert [e][0] == e; }
    }
  }

  lemma GuardedIsSafe(children: seq<Child>, log: Log)
    requires NoneMisnamed(children) && Guarded(children, log)
    ensures Safe(children, log)
  {
    forall k | 0 <= k < |log| ensures SafeEntry(children, log[k]) {
      assert GuardedEntry(children, log[k]);
    }
  }

  lemma KillBesideMisnamed(children: seq<Child>, i: nat, j: nat)
    requires Misnamed(children, i, j)
    ensures GuardedEntry(children, Entry(Kill(i), {i, j})) && !SafeEntry(children, Entry(Kill(i), {i, j}))
  {
    assert !Imports(children[i].kind, children[i].kind);
    assert SeemsUnused(children, i, {i, j});
    assert Stops(children, Kill(i), i) && !Unused(children, i, {i, j});
  }

  /** A worker called like the API is enough: the coordinator may kill the owner while that worker is alive. */
  lemma WorkerCalledApi()
    ensures var children := [Child(OWNER, Owner), Child(API, Importer)];
      Misnamed(children, 0, 1) && GuardedEntry(children, Entry(OwnerRpc, {0, 1})) && !SafeEntry(children, Entry(OwnerRpc, {0, 1}))
  {
    var children := [Child(OWNER, Owner), Child(API, Importer)];
    assert children[0].kind == Owner && children[1].kind == Importer;
    assert Stops(children, OwnerRpc, 0) && Imports(children[1].kind, children[0].kind);
    assert !Unused(children, 0, {0, 1});
  }

  predicate Faulty(log: Log) {
    exists k :: 0 <= k < |log| && log[k].act == Fault
  }

  /** A worker is asked to drain exactly when nothing has gone wrong before. */
  ghost predicate DrainsUntilFault(log: Log) {
    forall k :: 0 <= k < |log| && log[k].act.WorkerRpc? ==> (log[k].act.drain <==> !Faulty(log[..k]))
  }

  /** The phases a log goes through. */
  function PhasesOf(log: Log): seq<nat> {
    if log == [] then []
    else
      var last := log[|log| - 1].act;
      PhasesOf(log[..|log| - 1]) + if last.PhaseTo? then [last.phase] else []
  }

  function UpTo(n: nat): seq<nat> {
    seq(n, i => i + 1)
  }

  /** `w` is among the entries before `k`. */
  ghost predicate StoppedBefore(log: Log, k: nat, w: nat)
    requires k <= |log|
  {
    exists m :: 0 <= m < k && log[m].act == WorkerStopped(w)
  }

  lemma Appended(children: seq<Child>, log: Log, e: Entry)
    ensures Guarded(children, log) && GuardedEntry(children, e) ==> Guarded(children, log + [e])
    ensures Faulty(log + [e]) <==> Faulty(log) || e.act == Fault
    ensures DrainsUntilFault(log) && (e.act.WorkerRpc? ==> (e.act.drain <==> !Faulty(log))) ==> DrainsUntilFault(log + [e])
    ensures PhasesOf(log + [e]) == PhasesOf(log) + if e.act.PhaseTo? then [e.act.phase] else []
  {
    var more := log + [e];
    assert more[..|more| - 1] == log;
    if Faulty(log) { var k :| 0 <= k < |log| && log[k].act == Fault; assert more[k].act == Fault; }
    if e.act == Fault { assert more[|log|].act == Fault; }
    if DrainsUntilFault(log) && (e.act.WorkerRpc? ==> (e.act.drain <==> !Faulty(log))) {
      forall k | 0 <= k < |more| && more[k].act.WorkerRpc? ensures more[k].act.drain <==> !Faulty(more[..k]) {
        if k < |log| { assert more[..k] == log[..k]; }
      }
    }
  }

  /** Exits happen once and stay. */
  ghost predicate Later(before: seq<Option<int>>, after: seq<Option<int>>) {
    |before| == |after| && forall i :: 0 <= i < |before| && before[i].Some? ==> after[i] == before[i]
  }

  ghost predicate Gone(exits: seq<Option<int>>, i: nat) {
    i < |exits| && exits[i].Some?
  }

  lemma GoneStays(before: seq<Option<int>>, after: seq<Option<int>>, i: nat)
    requires Later(before, after) && Gone(before, i)
    ensures Gone(after, i)
  {
  }

  /** Processes that no other phase takes care of. */
  predicate Unregistered(children: seq<Child>, workers: seq<nat>, i: nat)
    requires i < |children|
  {
    children[i].name != API && children[i].name != OWNER && children[i].name != EVENT_OWNER && i !in workers
  }

  ghost predicate UnregisteredGone(children: seq<Child>, workers: seq<nat>, exits: seq<Option<int>>, n: nat)
    requires n <= |children|
  {
    forall i {:trigger Gone(exits, i)} :: 0 <= i < n && Unregistered(children, workers, i) ==> Gone(exits, i)
  }

  ghost predicate EventOwnersGone(children: seq<Child>, exits: seq<Option<int>>, n: nat)
    requires n <= |children|
  {
    forall i {:trigger Gone(exits, i)} :: 0 <= i < n && children[i].name == EVENT_OWNER ==> Gone(exits, i)
  }

  lemma UnregisteredStay(children: seq<Child>, workers: seq<nat>, before: seq<Option<int>>, after: seq<Option<int>>, n: nat)
    requires n <= |children| && Later(before, after) && UnregisteredGone(children, workers, before, n)
    ensures UnregisteredGone(children, workers, after, n)
  {
    forall i {:trigger Gone(after, i)} | 0 <= i < n && Unregistered(children, workers, i) ensures Gone(after, i) {
      assert Gone(before, i);
    }
  }

  lemma EventOwnersStay(children: seq<Child>, before: seq<Option<int>>, after: seq<Option<int>>, n: nat)
    requires n <= |children| && Later(before, after) && EventOwnersGone(children, before, n)
    ensures EventOwnersGone(children, after, n)
  {
    forall i {:trigger Gone(after, i)} | 0 <= i < n && children[i].name == EVENT_OWNER ensures Gone(after, i) {
      assert Gone(before, i);
    }
  }

  /** Some child that is told to be an importer lives. */
  ghost predicate ImporterLives(children: seq<Child>, exits: seq<Option<int>>, exceptEvents: bool) {
    exists j :: 0 <= j < |children| && j < |exits| && ImporterByName(children[j].name, exceptEvents) && exits[j].None?
  }

  lemma ImporterLived(children: seq<Child>, before: seq<Option<int>>, after: seq<Option<int>>, exceptEvents: bool)
    requires Later(before, after) && ImporterLives(children, after, exceptEvents)
    ensures ImporterLives(children, before, exceptEvents)
  {
    var j :| 0 <= j < |children| && j < |after| && ImporterByName(children[j].name, exceptEvents) && after[j].None?;
    assert before[j].None?;
  }

  /** An owner among the first `n` processes and some importer both live. */
  ghost predicate Contested(children: seq<Child>, exits: seq<Option<int>>, n: nat)
    requires n <= |children|
  {
    ImporterLives(children, exits, false) && exists i :: 0 <= i < n && i < |exits| && children[i].name == OWNER && exits[i].None?
  }

  lemma ContestedBefore(children: seq<Child>, before: seq<Option<int>>, after: seq<Option<int>>, n: nat)
    requires n <= |children| && Later(before, after) && Contested(children, after, n)
    ensures Contested(children, before, n)
  {
    ImporterLived(children, before, after, false);
    var i :| 0 <= i < n && i < |after| && children[i].name == OWNER && after[i].None?;
    assert before[i].None?;
  }

  /** Every child has exited, except perhaps one called like the API that is neither the API nor a worker. */
  ghost predicate AllGone(children: seq<Child>, workers: seq<nat>, api: Option<nat>, exits: seq<Option<int>>) {
    forall i {:trigger Gone(exits, i)} ::
      0 <= i < |children| && (children[i].name == API && i !in workers ==> api == Some(i)) ==> Gone(exits, i)
  }

  lemma EveryoneGone(children: seq<Child>, workers: seq<nat>, api: Option<nat>, exits: seq<Option<int>>, log: Log)
    requires WorkersDone(workers, exits, log, |workers|) && OwnersDone(children, exits, log, |children|)
    requires UnregisteredGone(children, workers, exits, |children|) && EventOwnersGone(children, exits, |children|)
    requires api.Some? ==> Gone(exits, api.value)
    ensures AllGone(children, workers, api, exits)
  {
    forall i {:trigger Gone(exits, i)} |
      0 <= i < |children| && (children[i].name == API && i !in workers ==> api == Some(i))
      ensures Gone(exits, i)
    {
      if children[i].name == OWNER {
        assert OwnerWell(children, exits, log, i);
      } else if i in workers {
        var m :| 0 <= m < |workers| && workers[m] == i;
        assert WorkerDone(workers, exits, log, m);
      }
    }
  }

  /** No entry does anything to an owner. */
  ghost predicate OwnerFree(children: seq<Child>, log: Log) {
    forall k :: 0 <= k < |log| ==> !OnOwner(children, log[k].act)
  }

  /** The log grew, and only by faults and by stopping process `i`. */
  ghost predicate About(before: Log, after: Log, i: nat) {
    before <= after && forall k :: |before| <= k < |after| ==> after[k].act == Fault || Targets(after[k].act, i)
  }

  lemma StillOwnerFree(children: seq<Child>, before: Log, after: Log, i: nat)
    requires OwnerFree(children, before) && About(before, after, i) && i < |children| && children[i].kind != Owner
    ensures OwnerFree(children, after)
  {
    forall k | 0 <= k < |after| ensures !OnOwner(children, after[k].act) {
      if k < |before| { assert after[k] == before[k]; }
    }
  }

  lemma FewerLive(children: seq<Child>, i: nat, live: set<nat>, later: set<nat>)
    requires i < |children| && later <= live && SeemsUnused(children, i, live)
    ensures SeemsUnused(children, i, later)
  {
  }

  lemma Apart(children: seq<Child>, i: nat, a: Act, live: set<nat>)
    requires i < |children| && (a == GpuTerminate(i) || a == Kill(i) || a == Term(i)) && SeemsUnused(children, i, live)
    ensures GuardedEntry(children, Entry(a, live))
  {
  }

  /** The API, the workers and the other clients export nothing. */
  lemma ExportsNothing(children: seq<Child>, i: nat, live: set<nat>)
    requires i < |children| && children[i].kind in {Api, Importer}
    ensures SeemsUnused(children, i, live)
  {
  }

  ghost predicate OnOwner(children: seq<Child>, a: Act) {
    exists i: nat :: i < |children| && children[i].kind == Owner && Stops(children, a, i)
  }

  /** Whoever lives now lived at every entry. */
  ghost predicate AliveSince(log: Log, live: set<nat>) {
    forall k :: 0 <= k < |log| ==> live <= log[k].live
  }

  /** Grown without touching an owner. */
  ghost predicate Onward(children: seq<Child>, before: Log, after: Log) {
    before <= after && (OwnerFree(children, before) ==> OwnerFree(children, after))
  }

  lemma OnwardTrans(children: seq<Child>, a: Log, b: Log, c: Log)
    requires Onward(children, a, b) && Onward(children, b, c)
    ensures Onward(children, a, c)
  {
  }

  lemma OnwardByOne(children: seq<Child>, log: Log, e: Entry)
    requires !OnOwner(children, e.act)
    ensures Onward(children, log, log + [e])
  {
    if OwnerFree(children, log) {
      forall k | 0 <= k < |log + [e]| ensures !OnOwner(children, (log + [e])[k].act) {}
    }
  }

  lemma OnwardAbout(children: seq<Child>, before: Log, after: Log, i: nat)
    requires About(before, after, i) && i < |children| && children[i].kind != Owner
    ensures Onward(children, before, after)
  {
    if OwnerFree(children, before) { StillOwnerFree(children, before, after, i); }
  }

  /** Entries about a process that exports nothing are safe. */
  lemma PlainSafe(children: seq<Child>, i: nat, e: Entry)
    requires i < |children| && children[i].kind in {Api, Importer}
    requires (e.act.WorkerRpc? || e.act.WorkerStopped? || e.act.Term?) && e.act.target == i
    ensures GuardedEntry(children, e) && !OnOwner(children, e.act)
  {
    ExportsNothing(children, i, e.live);
  }

  lemma StoppedStays(before: Log, after: Log, w: nat)
    requires before <= after && StoppedBefore(before, |before|, w)
    ensures StoppedBefore(after, |after|, w)
  {
    var m :| 0 <= m < |before| && before[m].act == WorkerStopped(w);
    assert after[m] == before[m];
  }

  ghost predicate OwnerDone(log: Log, i: nat) {
    exists m :: 0 <= m < |log| && log[m].act == OwnerStopped(i)
  }

  lemma OwnerDoneStays(before: Log, after: Log, i: nat)
    requires before <= after && OwnerDone(before, i)
    ensures OwnerDone(after, i)
  {
    var m :| 0 <= m < |before| && before[m].act == OwnerStopped(i);
    assert after[m] == before[m];
  }

  /** A process of the list has confirmed and exited with code 0. */
  ghost predicate WorkerDone(workers: seq<nat>, exits: seq<Option<int>>, log: Log, m: nat)
    requires m < |workers|
  {
    workers[m] < |exits| && exits[workers[m]] == Some(0) && StoppedBefore(log, |log|, workers[m])
  }

  ghost predicate WorkersDone(workers: seq<nat>, exits: seq<Option<int>>, log: Log, n: nat)
    requires n <= |workers|
  {
    forall m {:trigger WorkerDone(workers, exits, log, m)} :: 0 <= m < n ==> WorkerDone(workers, exits, log, m)
  }

  lemma WorkersStay(workers: seq<nat>, exits: seq<Option<int>>, log: Log, exits': seq<Option<int>>, log': Log, n: nat)
    requires n <= |workers| && WorkersDone(workers, exits, log, n) && Later(exits, exits') && log <= log'
    ensures WorkersDone(workers, exits', log', n)
  {
    forall m {:trigger WorkerDone(workers, exits', log', m)} | 0 <= m < n ensures WorkerDone(workers, exits', log', m) {
      assert WorkerDone(workers, exits, log, m);
      StoppedStays(log, log', workers[m]);
    }
  }

  ghost predicate OwnerWell(children: seq<Child>, exits: seq<Option<int>>, log: Log, i: nat)
    requires i < |children|
  {
    children[i].name == OWNER ==> i < |exits| && exits[i] == Some(0) && OwnerDone(log, i)
  }

  ghost predicate OwnersDone(children: seq<Child>, exits: seq<Option<int>>, log: Log, n: nat)
    requires n <= |children|
  {
    forall i {:trigger OwnerWell(children, exits, log, i)} :: 0 <= i < n ==> OwnerWell(children, exits, log, i)
  }

  lemma OwnersStay(children: seq<Child>, exits: seq<Option<int>>, log: Log, exits': seq<Option<int>>, log': Log, n: nat)
    requires n <= |children| && OwnersDone(children, exits, log, n) && Later(exits, exits') && log <= log'
    ensures OwnersDone(children, exits', log', n)
  {
    forall i {:trigger OwnerWell(children, exits', log', i)} | 0 <= i < n ensures OwnerWell(children, exits', log', i) {
      assert OwnerWell(children, exits, log, i);
      if children[i].name == OWNER { OwnerDoneStays(log, log', i); }
    }
  }

  /** Owners are contacted only in a later part of the log, so after the workers. */
  lemma OwnerAfterWorkers(children: seq<Child>, workers: seq<nat>, exits: seq<Option<int>>, base: Log, log: Log, k: nat, w: nat)
    requires OwnerFree(children, base) && base <= log && WorkersDone(workers, exits, base, |workers|)
    requires k < |log| && OnOwner(children, log[k].act) && w in workers
    ensures StoppedBefore(log, k, w)
  {
    forall j | 0 <= j < |base| ensures !OnOwner(children, log[j].act) { assert log[j] == base[j]; }
    var m :| 0 <= m < |workers| && workers[m] == w;
    assert WorkerDone(workers, exits, base, m);
    var j :| 0 <= j < |base| && base[j].act == WorkerStopped(w);
    assert log[j] == base[j];
  }

  /** The API and the owners are started under their own names; workers and other clients under any name. */
  ghost predicate Registered(children: seq<Child>, workers: seq<nat>, api: Option<nat>) {
    && (forall w :: w in workers ==> w < |children| && children[w].kind == Importer)
    && (api.Some? ==> api.value < |children| && children[api.value].kind == Api)
    && (forall i {:trigger StartedAs(children[i])} :: 0 <= i < |children| ==> StartedAs(children[i]))
  }

  predicate StartedAs(c: Child) {
    (c.kind == Api ==> c.name == API) && (c.kind == Owner ==> c.name == OWNER) && (c.kind == EventOwner ==> c.name == EVENT_OWNER)
  }

  ghost predicate Moves(world: nat -> seq<Option<int>>, n: nat, t: nat) {
    |world(t)| == n && Later(world(t), world(t + 1))
  }

  /** Children only exit, each once. */
  ghost predicate WorldOk(world: nat -> seq<Option<int>>, n: nat) {
    forall t {:trigger Moves(world, n, t)} :: Moves(world, n, t)
  }

  /** Something was done to stop child `i`. */
  ghost predicate Touched(children: seq<Child>, log: Log, i: nat)
    requires i < |children|
  {
    exists k :: 0 <= k < |log| && Stops(children, log[k].act, i)
  }

  lemma TouchedStays(children: seq<Child>, before: Log, after: Log, i: nat)
    requires i < |children| && before <= after && Touched(children, before, i)
    ensures Touched(children, after, i)
  {
    var k :| 0 <= k < |before| && Stops(children, before[k].act, i);
    assert after[k] == before[k];
  }

  /** Every exporter of this kind among the first `n` children that has not exited was asked or forced to stop. */
  ghost predicate SurvivorsTouched(children: seq<Child>, kind: Kind, exits: seq<Option<int>>, log: Log, n: nat)
    requires n <= |children|
  {
    forall i {:trigger Touched(children, log, i)} :: 0 <= i < n && i < |exits| && children[i].kind == kind && exits[i].None?
      ==> Touched(children, log, i)
  }

  lemma SurvivorsStay(children: seq<Child>, kind: Kind, before: seq<Option<int>>, was: Log, after: seq<Option<int>>, log: Log, n: nat)
    requires n <= |children| && SurvivorsTouched(children, kind, before, was, n) && Later(before, after) && was <= log
    ensures SurvivorsTouched(children, kind, after, log, n)
  {
    forall i {:trigger Touched(children, log, i)} | 0 <= i < n && i < |after| && children[i].kind == kind && after[i].None?
      ensures Touched(children, log, i)
    {
      assert before[i].None?;
      TouchedStays(children, was, log, i);
    }
  }

  /** All exporters of this kind that outlive the shutdown were asked or forced to stop, unless an importer was
      seen when it began. */
  ghost predicate TouchedUnlessSeen(children: seq<Child>, kind: Kind, first: seq<Option<int>>, exits: seq<Option<int>>, log: Log, n: nat)
    requires n <= |children|
  {
    SurvivorsTouched(children, kind, exits, log, n) || ImporterLives(children, first, kind == EventOwner)
  }

  lemma TouchedUnlessSeenStays(children: seq<Child>, kind: Kind, first: seq<Option<int>>, was: seq<Option<int>>, exits: seq<Option<int>>,
                               before: Log, log: Log, n: nat, earlier: seq<Option<int>>)
    requires n <= |children| && TouchedUnlessSeen(children, kind, first, was, before, n)
    requires Later(was, exits) && before <= log && Later(earlier, first)
    ensures TouchedUnlessSeen(children, kind, earlier, exits, log, n)
  {
    if SurvivorsTouched(children, kind, was, before, n) {
      SurvivorsStay(children, kind, was, before, exits, log, n);
    } else {
      ImporterLived(children, earlier, first, kind == EventOwner);
    }
  }

  lemma TouchedOneMore(children: seq<Child>, kind: Kind, first: seq<Option<int>>, was: seq<Option<int>>, exits: seq<Option<int>>,
                       before: Log, log: Log, i: nat)
    requires i < |children| && TouchedUnlessSeen(children, kind, first, was, before, i)
    requires Later(first, was) && Later(was, exits) && before <= log
    requires i < |exits| && children[i].kind == kind && exits[i].None? ==>
               Touched(children, log, i) || ImporterLives(children, was, kind == EventOwner)
    ensures TouchedUnlessSeen(children, kind, first, exits, log, i + 1)
  {
    if SurvivorsTouched(children, kind, was, before, i) {
      SurvivorsStay(children, kind, was, before, exits, log, i);
    }
    if ImporterLives(children, was, kind == EventOwner) {
      ImporterLived(children, first, was, kind == EventOwner);
    }
  }

  /** Names that a worker must not have: the API's and the owner's, and the event owner's if there is one. */
  predicate Reserved(children: seq<Child>, name: string) {
    name == API || name == OWNER || (name == EVENT_OWNER && exists i :: 0 <= i < |children| && children[i].kind == EventOwner)
  }

  /** In a domain with an owner, nobody is misnamed exactly if no worker or other client has a reserved name. */
  lemma NoneMisnamedIffNamesFree(children: seq<Child>, owner: nat)
    requires owner < |children| && children[owner].kind == Owner
    requires forall i {:trigger StartedAs(children[i])} :: 0 <= i < |children| ==> StartedAs(children[i])
    ensures NoneMisnamed(children) <==>
              forall j :: 0 <= j < |children| && children[j].kind == Importer ==> !Reserved(children, children[j].name)
  {
    if NoneMisnamed(children) {
      forall j | 0 <= j < |children| && children[j].kind == Importer ensures !Reserved(children, children[j].name) {
        assert !Misnamed(children, owner, j);
        if i :| 0 <= i < |children| && children[i].kind == EventOwner { assert !Misnamed(children, i, j); }
      }
    } else {
      var i: nat, j: nat :| Misnamed(children, i, j);
      assert StartedAs(children[j]);
    }
  }

  class ShutdownCoordinator {
    /** Children in the order they were started; the registered workers and the API among them. */
    const children: seq<Child>
    const workers: seq<nat>
    const api: Option<nat>
    /** The backend is MPS, and an earlier failure was recorded. */
    const mps: bool
    const failure: bool
    /** Exit codes of the children at each moment; the environment moves them. */
    const world: nat -> seq<Option<int>>
    var now: nat
    var exits: seq<Option<int>>
    var failed: bool
    var phase: nat
    var graceful: bool
    var mpsRecoveryRequired: bool
    var ownerQuarantined: bool
    ghost var log: Log

    ghost predicate Valid()
      reads this
    {
      && Registered(children, workers, api) && WorldOk(world, |children|) && exits == world(now) && |exits| == |children|
      && Guarded(children, log) && DrainsUntilFault(log)
      && (graceful <==> !Faulty(log)) && mpsRecoveryRequired == (mps && !graceful)
      && PhasesOf(log) == UpTo(phase) && AliveSince(log, Live())
    }

    ghost function Live(): set<nat>
      reads this
    {
      set i: nat | i < |exits| && exits[i].None?
    }

    constructor (children: seq<Child>, workers: seq<nat>, api: Option<nat>, mps: bool, failure: bool,
                 world: nat -> seq<Option<int>>)
      requires Registered(children, workers, api) && WorldOk(world, |children|)
      ensures Valid() && log == [] && phase == INSPECT && graceful && !ownerQuarantined && now == 0
      ensures this.children == children && this.workers == workers && this.api == api && this.mps == mps && this.failure == failure
      ensures this.world == world
    {
      this.children, this.workers, this.api, this.mps, this.failure, this.world := children, workers, api, mps, failure, world;
      now, exits := 0, world(0);
      failed, phase, graceful, mpsRecoveryRequired, ownerQuarantined := false, INSPECT, true, false, false;
      log := [];
      new;
      assert Moves(world, |children|, 0);
    }

    /** Time passes: any live process may exit with any code. */
    method Elapse()
      requires Valid()
      modifies `exits, `now
      ensures Valid() && Later(old(exits), exits) && Live() <= old(Live())
    {
      assert Moves(world, |children|, now) && Moves(world, |children|, now + 1);
      now := now + 1;
      exits := world(now);
    }

    method Poll(i: nat) returns (code: Option<int>)
      requires Valid() && i < |children|
      modifies `exits, `now
      ensures Valid() && Later(old(exits), exits) && Live() <= old(Live()) && code == exits[i]
    {
      Elapse();
      code := exits[i];
    }

    /** Whether some call succeeds is up to the environment. */
    method Happens() returns (b: bool)
      requires Valid()
      modifies `exits, `now
      ensures Valid() && Later(old(exits), exits) && Live() <= old(Live())
    {
      Elapse();
      b := *;
    }

    ghost method Note(a: Act)
      requires Valid() && a != Fault && !a.PhaseTo?
      requires GuardedEntry(children, Entry(a, Live())) && (a.WorkerRpc? ==> a.drain == graceful)
      modifies `log
      ensures Valid() && log == old(log) + [Entry(a, Live())]
    {
      Appended(children, log, Entry(a, Live()));
      log := log + [Entry(a, Live())];
    }

    method RecordFault()
      requires Valid()
      modifies `graceful, `mpsRecoveryRequired, `log
      ensures Valid() && !graceful && log == old(log) + [Entry(Fault, Live())]
    {
      Appended(children, log, Entry(Fault, Live()));
      graceful := false;
      if mps { mpsRecoveryRequired := true; }
      log := log + [Entry(Fault, Live())];
    }

    /** Phases cannot be skipped or repeated. */
    method Advance(to: nat) returns (ok: bool)
      requires Valid()
      modifies `phase, `log
      ensures Valid() && (ok <==> to == old(phase) + 1)
      ensures if ok then phase == to && log == old(log) + [Entry(PhaseTo(to), Live())] else phase == old(phase) && log == old(log)
    {
      if to != phase + 1 { return false; }
      Appended(children, log, Entry(PhaseTo(to), Live()));
      assert UpTo(to) == UpTo(phase) + [to];
      phase := to;
      log := log + [Entry(PhaseTo(to), Live())];
      return true;
    }

    /** Ask or force process `i` to stop. */
    ghost method NoteStop(i: nat, a: Act)
      requires Valid() && i < |children| && (a == GpuTerminate(i) || a == Kill(i) || a == Term(i))
      requires SeemsUnused(children, i, Live())
      modifies `log
      ensures Valid() && About(old(log), log, i) && log == old(log) + [Entry(a, Live())]
    {
      Apart(children, i, a, Live());
      Note(a);
    }

    /** Force a process to exit. A forced shutdown is never graceful. */
    method Force(i: nat, gpu: bool)
      requires Valid() && i < |children| && SeemsUnused(children, i, Live())
      modifies `exits, `now, `graceful, `mpsRecoveryRequired, `log
      ensures Valid() && Later(old(exits), exits) && About(old(log), log, i)
      ensures graceful ==> old(graceful) && exits[i].Some? && log == old(log)
      ensures exits[i].None? ==> Touched(children, log, i)
    {
      var code := Poll(i);
      FewerLive(children, i, old(Live()), Live());
      if code.Some? { return; }
      if gpu && mps { Terminate(i); }
      Finish(i);
    }

    method Terminate(i: nat)
      requires Valid() && i < |children| && SeemsUnused(children, i, Live())
      modifies `exits, `now, `graceful, `mpsRecoveryRequired, `log
      ensures Valid() && Later(old(exits), exits) && About(old(log), log, i) && SeemsUnused(children, i, Live())
      ensures graceful ==> old(graceful)
    {
      NoteStop(i, GpuTerminate(i));
      var done := Happens();
      if !done { RecordFault(); }
      FewerLive(children, i, old(Live()), Live());
    }

    method Finish(i: nat)
      requires Valid() && i < |children| && SeemsUnused(children, i, Live())
      modifies `exits, `now, `graceful, `mpsRecoveryRequired, `log
      ensures Valid() && Later(old(exits), exits) && About(old(log), log, i) && !graceful
      ensures exits[i].None? ==> Touched(children, log, i)
    {
      RecordFault();
      KillIfAlive(i);
      ghost var was := log;
      var code := Poll(i);
      if code.None? {
        RecordFault();
        TouchedStays(children, was, log, i);
      }
    }

    method KillIfAlive(i: nat)
      requires Valid() && i < |children| && SeemsUnused(children, i, Live())
      modifies `exits, `now, `log
      ensures Valid() && Later(old(exits), exits) && About(old(log), log, i) && graceful == old(graceful)
      ensures exits[i].None? ==> Touched(children, log, i)
    {
      var code := Poll(i);
      FewerLive(children, i, old(Live()), Live());
      if code.None? {
        NoteStop(i, Kill(i));
        assert Stops(children, log[|log| - 1].act, i);
      }
    }

    /** An entry about a worker or the API. */
    ghost method NotePlain(i: nat, a: Act)
      requires Valid() && i < |children| && children[i].kind in {Api, Importer}
      requires a == WorkerRpc(i, graceful) || a == WorkerStopped(i) || a == Term(i)
      modifies `log
      ensures Valid() && Onward(children, old(log), log) && log == old(log) + [Entry(a, Live())]
    {
      PlainSafe(children, i, Entry(a, Live()));
      OnwardByOne(children, log, Entry(a, Live()));
      Note(a);
    }

    method Faulted()
      requires Valid()
      modifies `graceful, `mpsRecoveryRequired, `log
      ensures Valid() && !graceful && Onward(children, old(log), log)
    {
      OnwardByOne(children, log, Entry(Fault, Live()));
      RecordFault();
    }

    /** Force a process that is not an owner. */
    method ForcePlain(i: nat, gpu: bool)
      requires Valid() && i < |children| && children[i].kind in {Api, Importer}
      modifies `exits, `now, `graceful, `mpsRecoveryRequired, `log
      ensures Valid() && Later(old(exits), exits) && Onward(children, old(log), log)
      ensures graceful ==> old(graceful) && exits[i].Some?
    {
      ExportsNothing(children, i, Live());
      Force(i, gpu);
      OnwardAbout(children, old(log), log, i);
    }

    /** Look for what has failed already. */
    method Inspect()
      requires Valid()
      modifies `exits, `now, `failed, `graceful, `mpsRecoveryRequired, `log
      ensures Valid() && Later(old(exits), exits) && Onward(children, old(log), log) && (graceful ==> old(graceful) && !failed)
    {
      if failure { Faulted(); }
      failed := false;
      for i := 0 to |children|
        invariant Valid() && Later(old(exits), exits) && Onward(children, old(log), log)
        invariant graceful ==> old(graceful) && !failed
      {
        var code := Poll(i);
        if code.Some? {
          failed := true;
          ghost var before := log;
          Faulted();
          OnwardTrans(children, old(log), before, log);
        }
      }
    }

    method StopApi()
      requires Valid()
      modifies `exits, `now, `graceful, `mpsRecoveryRequired, `log
      ensures Valid() && Later(old(exits), exits) && Onward(children, old(log), log) && (graceful ==> old(graceful))
      ensures graceful && api.Some? ==> Gone(exits, api.value)
    {
      if api.None? { return; }
      var i := api.value;
      var code := Poll(i);
      if code.Some? { return; }
      if failed { ForcePlain(i, false); } else { DrainApi(i); }
    }

    method DrainApi(i: nat)
      requires Valid() && i < |children| && children[i].kind == Api
      modifies `exits, `now, `graceful, `mpsRecoveryRequired, `log
      ensures Valid() && Later(old(exits), exits) && Onward(children, old(log), log) && (graceful ==> old(graceful))
      ensures graceful ==> Gone(exits, i)
    {
      NotePlain(i, Term(i));
      var code := Poll(i);
      if code != Some(0) {
        Faulted();
        ForcePlain(i, false);
      }
    }

    /** Stop one worker: it must confirm that its GPU work is synchronised and then exit with code 0. */
    method StopWorker(i: nat)
      requires Valid() && i in workers
      modifies `exits, `now, `graceful, `mpsRecoveryRequired, `log
      ensures Valid() && Later(old(exits), exits) && Onward(children, old(log), log) && (graceful ==> old(graceful))
      ensures graceful ==> exits[i] == Some(0) && StoppedBefore(log, |log|, i)
    {
      var code := Poll(i);
      if code.Some? { Faulted(); return; }
      var stopped := AskWorker(i);
      if !stopped {
        Faulted();
        ForcePlain(i, true);
      }
    }

    method AskWorker(i: nat) returns (stopped: bool)
      requires Valid() && i in workers
      modifies `exits, `now, `log
      ensures Valid() && Later(old(exits), exits) && Onward(children, old(log), log)
      ensures stopped ==> exits[i] == Some(0) && StoppedBefore(log, |log|, i)
    {
      NotePlain(i, WorkerRpc(i, graceful));
      var synchronized := Happens();
      if !synchronized { return false; }
      var code := Poll(i);
      if code != Some(0) { return false; }
      ghost var before := log;
      NoteWorkerStopped(i);
      OnwardTrans(children, old(log), before, log);
      return true;
    }

    ghost method NoteWorkerStopped(i: nat)
      requires Valid() && i in workers
      modifies `log
      ensures Valid() && Onward(children, old(log), log) && StoppedBefore(log, |log|, i)
    {
      NotePlain(i, WorkerStopped(i));
      assert log[|old(log)|].act == WorkerStopped(i);
    }

    method StopWorkers()
      requires Valid()
      modifies `exits, `now, `graceful, `mpsRecoveryRequired, `log
      ensures Valid() && Later(old(exits), exits) && Onward(children, old(log), log) && (graceful ==> old(graceful))
      ensures graceful ==> WorkersDone(workers, exits, log, |workers|)
    {
      for j := 0 to |workers|
        invariant Valid() && Later(old(exits), exits) && Onward(children, old(log), log)
        invariant graceful ==> old(graceful) && WorkersDone(workers, exits, log, j)
      {
        ghost var was, had, good := log, exits, graceful;
        StopWorker(workers[j]);
        OnwardTrans(children, old(log), was, log);
        if graceful {
          WorkersStay(workers, had, was, exits, log, j);
          assert WorkerDone(workers, exits, log, j);
        }
      }
    }

    /** Is any process alive that may import: besides the API and the owners, and, if asked, the event owner? */
    method AnyAlive(exceptEvents: bool) returns (alive: bool)
      requires Valid()
      modifies `exits, `now
      ensures Valid() && Later(old(exits), exits) && Live() <= old(Live())
      ensures alive ==> ImporterLives(children, old(exits), exceptEvents)
      ensures !alive ==> forall j :: 0 <= j < |children| && ImporterByName(children[j].name, exceptEvents)
                              ==> exits[j].Some?
    {
      alive := false;
      for i := 0 to |children|
        invariant Valid() && Later(old(exits), exits) && Live() <= old(Live())
        invariant alive ==> ImporterLives(children, old(exits), exceptEvents)
        invariant !alive ==> forall j :: 0 <= j < i && ImporterByName(children[j].name, exceptEvents)
                              ==> exits[j].Some?
      {
        if ImporterByName(children[i].name, exceptEvents) {
          var code := Poll(i);
          if code.None? {
            assert old(exits)[i].None?;
            alive := true;
          }
        }
      }
    }

    method StopUnregistered()
      requires Valid()
      modifies `exits, `now, `graceful, `mpsRecoveryRequired, `log
      ensures Valid() && Later(old(exits), exits) && Onward(children, old(log), log) && (graceful ==> old(graceful))
      ensures graceful ==> UnregisteredGone(children, workers, exits, |children|)
    {
      for i := 0 to |children|
        invariant Valid() && Later(old(exits), exits) && Onward(children, old(log), log) && (graceful ==> old(graceful))
        invariant graceful ==> UnregisteredGone(children, workers, exits, i)
      {
        ghost var before, had := log, exits;
        if Unregistered(children, workers, i) {
          assert StartedAs(children[i]);
          ForcePlain(i, true);
          OnwardTrans(children, old(log), before, log);
          assert graceful ==> Gone(exits, i);
        }
        if graceful { UnregisteredStay(children, workers, had, exits, i); }
      }
    }

    method StopEventOwner(i: nat)
      requires Valid() && i < |children| && children[i].name == EVENT_OWNER
      modifies `exits, `now, `graceful, `mpsRecoveryRequired, `ownerQuarantined, `log
      ensures Valid() && Later(old(exits), exits) && Onward(children, old(log), log) && (graceful ==> old(graceful))
      ensures ownerQuarantined ==> old(ownerQuarantined) || !graceful
      ensures graceful ==> Gone(exits, i)
      ensures exits[i].None? ==> Touched(children, log, i) || ImporterLives(children, old(exits), true)
    {
      var code := Poll(i);
      if code.Some? { return; }
      var alive := AnyAlive(true);
      if alive {
        Faulted();
        ownerQuarantined := true;
      } else {
        assert StartedAs(children[i]) && SeemsUnused(children, i, Live());
        Force(i, true);
        OnwardAbout(children, old(log), log, i);
      }
    }

    method StopAuxiliary()
      requires Valid()
      modifies `exits, `now, `graceful, `mpsRecoveryRequired, `ownerQuarantined, `log
      ensures Valid() && Later(old(exits), exits) && Onward(children, old(log), log) && (graceful ==> old(graceful))
      ensures ownerQuarantined ==> old(ownerQuarantined) || !graceful
      ensures graceful ==> UnregisteredGone(children, workers, exits, |children|) && EventOwnersGone(children, exits, |children|)
      ensures TouchedUnlessSeen(children, EventOwner, old(exits), exits, log, |children|)
    {
      StopUnregistered();
      ghost var left, kept := exits, graceful;
      StopEventOwners();
      if graceful { UnregisteredStay(children, workers, left, exits, |children|); }
      TouchedUnlessSeenStays(children, EventOwner, left, exits, exits, log, log, |children|, old(exits));
    }

    method StopEventOwners()
      requires Valid()
      modifies `exits, `now, `graceful, `mpsRecoveryRequired, `ownerQuarantined, `log
      ensures Valid() && Later(old(exits), exits) && Onward(children, old(log), log) && (graceful ==> old(graceful))
      ensures ownerQuarantined ==> old(ownerQuarantined) || !graceful
      ensures graceful ==> EventOwnersGone(children, exits, |children|)
      ensures TouchedUnlessSeen(children, EventOwner, old(exits), exits, log, |children|)
    {
      for i := 0 to |children|
        invariant Valid() && Later(old(exits), exits) && Onward(children, old(log), log) && (graceful ==> old(graceful))
        invariant ownerQuarantined ==> old(ownerQuarantined) || !graceful
        invariant graceful ==> EventOwnersGone(children, exits, i)
        invariant TouchedUnlessSeen(children, EventOwner, old(exits), exits, log, i)
      {
        ghost var before, had := log, exits;
        if children[i].name == EVENT_OWNER {
          StopEventOwner(i);
          OnwardTrans(children, old(log), before, log);
        }
        if graceful { EventOwnersStay(children, had, exits, i); }
        assert StartedAs(children[i]);
        TouchedOneMore(children, EventOwner, old(exits), had, exits, before, log, i);
      }
    }

    /** Every owner seems unused. */
    ghost predicate OwnersUnused()
      reads this
    {
      forall i: nat :: i < |children| && children[i].kind == Owner ==> SeemsUnused(children, i, Live())
    }

    ghost method NoteOwnerRpc()
      requires Valid() && OwnersUnused()
      modifies `log
      ensures Valid() && log == old(log) + [Entry(OwnerRpc, Live())]
    {
      Note(OwnerRpc);
    }

    /** Contact the owner's endpoint, now that no importer is seen; wait for child `i`. */
    method AskOwner(i: nat) returns (stopped: bool)
      requires Valid() && i < |children| && children[i].name == OWNER && OwnersUnused()
      modifies `exits, `now, `log
      ensures Valid() && Later(old(exits), exits) && Live() <= old(Live()) && old(log) <= log
      ensures stopped ==> exits[i] == Some(0) && OwnerDone(log, i)
      ensures |log| > |old(log)| && log[|old(log)|].act == OwnerRpc
    {
      NoteOwnerRpc();
      var answered := Happens();
      if !answered { return false; }
      StillUnused(old(Live()));
      NoteOwnerRpc();
      var freed := Happens();
      if !freed { return false; }
      var code := Poll(i);
      if code != Some(0) { return false; }
      NoteOwnerStopped(i);
      return true;
    }

    ghost method NoteOwnerStopped(i: nat)
      requires Valid()
      modifies `log
      ensures Valid() && old(log) <= log && OwnerDone(log, i)
    {
      Note(OwnerStopped(i));
      assert log[|log| - 1].act == OwnerStopped(i);
    }

    lemma StillUnused(live: set<nat>)
      requires Live() <= live && forall i: nat :: i < |children| && children[i].kind == Owner ==> SeemsUnused(children, i, live)
      ensures OwnersUnused()
    {
    }

    method StopOneOwner(i: nat)
      requires Valid() && i < |children| && children[i].name == OWNER
      modifies `exits, `now, `graceful, `mpsRecoveryRequired, `ownerQuarantined, `log
      ensures Valid() && Later(old(exits), exits) && old(log) <= log && (graceful ==> old(graceful))
      ensures ownerQuarantined ==> old(ownerQuarantined) || !graceful
      ensures graceful ==> exits[i] == Some(0) && OwnerDone(log, i)
      ensures old(ownerQuarantined) ==> ownerQuarantined
      ensures exits[i].None? && ImporterLives(children, exits, false) ==> ownerQuarantined
      ensures children[i].kind == Owner && exits[i].None? ==> Touched(children, log, i) || ImporterLives(children, old(exits), false)
    {
      var code := Poll(i);
      if code.Some? { RecordFault(); return; }
      var alive := AnyAlive(false);
      if alive {
        RecordFault();
        ownerQuarantined := true;
        return;
      }
      assert OwnersUnused();
      AskOrForce(i);
    }

    /** Contact the owner; force it if that fails. */
    method AskOrForce(i: nat)
      requires Valid() && i < |children| && children[i].name == OWNER && OwnersUnused()
      modifies `exits, `now, `graceful, `mpsRecoveryRequired, `log
      ensures Valid() && Later(old(exits), exits) && old(log) <= log && (graceful ==> old(graceful))
      ensures graceful ==> exits[i] == Some(0) && OwnerDone(log, i)
      ensures children[i].kind == Owner ==> Touched(children, log, i)
    {
      ghost var live, before := Live(), log;
      var stopped := AskOwner(i);
      assert children[i].kind == Owner ==> Stops(children, log[|before|].act, i);
      if !stopped {
        ghost var was := log;
        RecordFault();
        SeemsUnusedStill(i, live);
        Force(i, true);
        if Touched(children, was, i) { TouchedStays(children, was, log, i); }
      }
    }

    lemma SeemsUnusedStill(i: nat, live: set<nat>)
      requires i < |children| && Live() <= live && children[i].name == OWNER && StartedAs(children[i])
      requires forall j: nat :: j < |children| && children[j].kind == Owner ==> SeemsUnused(children, j, live)
      ensures SeemsUnused(children, i, Live())
    {
      if children[i].kind == Owner { FewerLive(children, i, live, Live()); } else { ExportsNothing(children, i, Live()); }
    }

    method StopOwner()
      requires Valid()
      modifies `exits, `now, `graceful, `mpsRecoveryRequired, `ownerQuarantined, `log
      ensures Valid() && Later(old(exits), exits) && old(log) <= log && (graceful ==> old(graceful))
      ensures ownerQuarantined ==> old(ownerQuarantined) || !graceful
      ensures graceful ==> OwnersDone(children, exits, log, |children|)
      ensures Contested(children, exits, |children|) ==> ownerQuarantined
      ensures TouchedUnlessSeen(children, Owner, old(exits), exits, log, |children|)
    {
      for i := 0 to |children|
        invariant Valid() && Later(old(exits), exits) && old(log) <= log
        invariant ownerQuarantined ==> old(ownerQuarantined) || !graceful
        invariant graceful ==> old(graceful) && OwnersDone(children, exits, log, i)
        invariant Contested(children, exits, i) ==> ownerQuarantined
        invariant TouchedUnlessSeen(children, Owner, old(exits), exits, log, i)
      {
        ghost var was, had := log, exits;
        if children[i].name == OWNER {
          StopOneOwner(i);
          if graceful { OwnersStay(children, had, was, exits, log, i); }
        }
        assert graceful ==> OwnerWell(children, exits, log, i);
        if Contested(children, exits, i) { ContestedBefore(children, had, exits, i); }
        assert StartedAs(children[i]);
        TouchedOneMore(children, Owner, old(exits), had, exits, was, log, i);
      }
    }

    /** The phases before the owner's. */
    method StopClients()
      requires Valid() && log == [] && phase == INSPECT && graceful && !ownerQuarantined
      modifies this
      ensures Valid() && phase == AUXILIARY && OwnerFree(children, log) && (ownerQuarantined ==> !graceful)
      ensures graceful ==> WorkersDone(workers, exits, log, |workers|) && (api.Some? ==> Gone(exits, api.value))
      ensures graceful ==> UnregisteredGone(children, workers, exits, |children|) && EventOwnersGone(children, exits, |children|)
      ensures Later(old(exits), exits) && TouchedUnlessSeen(children, EventOwner, old(exits), exits, log, |children|)
    {
      StopApiAndWorkers();
      ghost var was, had := log, exits;
      Enter(AUXILIARY);
      StopAuxiliary();
      TouchedUnlessSeenStays(children, EventOwner, had, exits, exits, log, log, |children|, old(exits));
      if graceful {
        WorkersStay(workers, had, was, exits, log, |workers|);
        if api.Some? { GoneStays(had, exits, api.value); }
      }
    }

    method StopApiAndWorkers()
      requires Valid() && log == [] && phase == INSPECT && graceful && !ownerQuarantined
      modifies this
      ensures Valid() && phase == WORKERS && OwnerFree(children, log) && !ownerQuarantined && Later(old(exits), exits)
      ensures graceful ==> WorkersDone(workers, exits, log, |workers|) && (api.Some? ==> Gone(exits, api.value))
    {
      Inspect();
      Enter(API_PHASE);
      StopApi();
      ghost var first := exits;
      Enter(WORKERS);
      StopWorkers();
      if graceful && api.Some? { GoneStays(first, exits, api.value); }
    }

    /** The next phase can always be entered. */
    method Enter(to: nat)
      requires Valid() && to == phase + 1
      modifies `phase, `log
      ensures Valid() && phase == to && Onward(children, old(log), log)
    {
      OnwardByOne(children, log, Entry(PhaseTo(to), Live()));
      var ok := Advance(to);
    }

    /** The whole shutdown, on every path through faults, timeouts and deaths. */
    method Run()
      requires Valid() && log == [] && phase == INSPECT && graceful && !ownerQuarantined
      modifies this
      ensures Valid() && phase == COMPLETE && PhasesOf(log) == UpTo(COMPLETE)
      ensures NoneMisnamed(children) ==> Safe(children, log)
      ensures Guarded(children, log) && DrainsUntilFault(log) && AliveSince(log, Live())
      ensures Later(old(exits), exits)
      ensures TouchedUnlessSeen(children, Owner, old(exits), exits, log, |children|)
      ensures TouchedUnlessSeen(children, EventOwner, old(exits), exits, log, |children|)
      ensures graceful <==> !Faulty(log)
      ensures mpsRecoveryRequired == (mps && !graceful)
      ensures ownerQuarantined ==> !graceful
      ensures graceful ==> WorkersDone(workers, exits, log, |workers|) && OwnersDone(children, exits, log, |children|)
      ensures Contested(children, exits, |children|) ==> ownerQuarantined
      ensures graceful ==> AllGone(children, workers, api, exits)
      ensures graceful ==> forall k, w :: 0 <= k < |log| && OnOwner(children, log[k].act) && w in workers ==> StoppedBefore(log, k, w)
    {
      StopClients();
      ghost var was, had := log, exits;
      Enter(OWNER_PHASE);
      StopOwner();
      ghost var end, have := log, exits;
      Enter(COMPLETE);
      TouchedUnlessSeenStays(children, EventOwner, old(exits), had, exits, was, log, |children|, old(exits));
      TouchedUnlessSeenStays(children, Owner, had, exits, exits, end, log, |children|, old(exits));
      if NoneMisnamed(children) { GuardedIsSafe(children, log); }
      if graceful {
        WorkersStay(workers, had, was, exits, log, |workers|);
        OwnersStay(children, have, end, exits, log, |children|);
        UnregisteredStay(children, workers, had, exits, |children|);
        EventOwnersStay(children, had, exits, |children|);
        EveryoneGone(children, workers, api, exits, log);
        forall k, w | 0 <= k < |log| && OnOwner(children, log[k].act) && w in workers ensures StoppedBefore(log, k, w) {
          OwnerAfterWorkers(children, workers, had, was, log, k, w);
        }
      }
    }
  }

  /** While an importer lives at the end, no owner was ever contacted or killed. */
  lemma LiveImporterProtectsOwner(children: seq<Child>, log: Log, live: set<nat>, j: nat)
    requires Safe(children, log) && AliveSince(log, live) && j in live && j < |children| && Imports(children[j].kind, Owner)
    ensures OwnerFree(children, log)
  {
    forall k | 0 <= k < |log| ensures !OnOwner(children, log[k].act) {
      NotOnOwner(children, log[k], j);
    }
  }

  lemma NotOnOwner(children: seq<Child>, e: Entry, j: nat)
    requires SafeEntry(children, e) && j in e.live && j < |children| && Imports(children[j].kind, Owner)
    ensures !OnOwner(children, e.act)
  {
  }

  /** An exporter that was asked or forced to stop although an importer of its memory outlives it all. */
  lemma TouchedBesideImporter(children: seq<Child>, log: Log, live: set<nat>, i: nat, j: nat)
    requires i < |children| && j < |children| && Imports(children[j].kind, children[i].kind)
    requires Touched(children, log, i) && AliveSince(log, live) && j in live
    ensures !Safe(children, log)
  {
    var k :| 0 <= k < |log| && Stops(children, log[k].act, i);
    assert !Unused(children, i, log[k].live);
    assert !SafeEntry(children, log[k]);
  }

  /** With a misnamed importer there is a run that stops an exporter in use: everybody else has exited, and the
      exporter and the importer outlive whatever is done to them. Together with what Run ensures: every run is
      safe if and only if no importer is misnamed. */
  method UnsafeRun(children: seq<Child>, workers: seq<nat>, api: Option<nat>, mps: bool, failure: bool, i: nat, j: nat)
    returns (c: ShutdownCoordinator)
    requires Registered(children, workers, api) && Misnamed(children, i, j)
    ensures fresh(c) && c.Valid() && c.children == children && c.workers == workers && c.api == api
    ensures c.mps == mps && c.failure == failure && c.phase == COMPLETE && !Safe(children, c.log)
  {
    var exits := seq(|children|, k => if k == i || k == j then None else Some(0));
    var world := (t: nat) => exits;
    assert WorldOk(world, |children|);
    c := new ShutdownCoordinator(children, workers, api, mps, failure, world);
    c.Run();
    assert c.exits == exits;
    NobodySeen(children, exits, i, j);
    assert Touched(children, c.log, i);
    assert j in c.Live();
    TouchedBesideImporter(children, c.log, c.Live(), i, j);
  }

  /** Neither the exporter nor the misnamed importer is told to be an importer. */
  lemma NobodySeen(children: seq<Child>, exits: seq<Option<int>>, i: nat, j: nat)
    requires Misnamed(children, i, j) && StartedAs(children[i]) && |exits| == |children|
    requires forall k :: 0 <= k < |exits| && k != i && k != j ==> exits[k].Some?
    ensures !ImporterLives(children, exits, children[i].kind == EventOwner)
  {
  }
}
