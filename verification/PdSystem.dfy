/** Every interleaving of concurrent submit calls and external cancels against one prefill and one decode
    worker, and what holds at every state of every such run. */
module PdSystem {
  import opened MemoryBudget
  import opened Options
  import opened PdLedger
  import opened PdCoordinator

  // ---------- State and steps ----------

  /** What the coordinator keeps under its lock. */
  datatype Gate = Gate(latest: map<string, nat>, active: set<Key>, cancelled: set<Key>)

  /** `admitted` is the log of admitted requests, oldest first. */
  datatype Sys = Sys(gate: Gate, reqs: map<Key, Req>, admitted: seq<Key>, p: Worker, d: Worker, clock: int)

  function LatestOf(latest: map<string, nat>, id: string): nat {
    if id in latest then latest[id] else 0
  }

  function Admit(g: Gate, k: Key): Gate {
    g.(latest := g.latest[k.requestId := k.generation], active := g.active + {k})
  }

  function Withdraw(g: Gate, k: Key): Gate {
    g.(active := g.active - {k}, cancelled := g.cancelled - {k})
  }

  function Mark(g: Gate, k: Key): Gate {
    if k in g.active then g.(cancelled := g.cancelled + {k}) else g
  }

  function LocalOf(s: Sys, k: Key): Local
    requires k in s.reqs
  {
    Local(s.reqs[k], s.p, s.d, k in s.gate.cancelled, s.clock)
  }

  /** Write one request's step back; the step out of Leave withdraws its key. */
  function Put(s: Sys, k: Key, l: Local): Sys {
    var g := if l.r.pc == Done then Withdraw(s.gate, k) else if l.cancelled then Mark(s.gate, k) else s.gate;
    s.(gate := g, reqs := s.reqs[k := l.r], p := l.p, d := l.d, clock := l.clock)
  }

  /** An external cancel comes in time while the outcome of its request is still open. */
  predicate Open(r: Req) {
    !Terminal(r.stage) && r.pc != Finish && !r.pc.Settle?
  }

  /** A client submits or cancels; one submit call takes a step; a cancel that was sent reaches a worker; or
      time passes and the workers do other things. */
  datatype Action = Submit(deadline: int, maxNewTokens: int) | Cancel | Advance | Tell(role: Role) | Pass

  function Marked(r: Req): Req {
    r.(inTime := r.inTime || Open(r), told := r.told || r.placed)
  }

  ghost predicate Step(s: Sys, s': Sys, a: Action, k: Key) {
    match a
    case Submit(deadline, maxNewTokens) =>
      if k.generation <= LatestOf(s.gate.latest, k.requestId) then s' == s
      else s' == s.(gate := Admit(s.gate, k), reqs := s.reqs[k := New(deadline, maxNewTokens)], admitted := s.admitted + [k])
    case Cancel =>
      if k !in s.gate.active || k !in s.reqs then s' == s
      else s' == s.(gate := Mark(s.gate, k), reqs := s.reqs[k := Marked(s.reqs[k])])
    case Advance =>
      k in s.reqs && exists l :: Advanced(k, LocalOf(s, k), l) && s' == Put(s, k, l)
    case Tell(role) =>
      && k in s.reqs && s.reqs[k].told
      && s' == if role == Prefill then s.(p := Cancelling(s.p, k).0) else s.(d := Cancelling(s.d, k).0)
    case Pass =>
      && s' == s.(p := s'.p, d := s'.d, clock := s'.clock) && s.clock <= s'.clock
      && Aside(s.p, s'.p) && Aside(s.d, s'.d)
  }

  /** What happens to a worker besides these calls: its queue grows and shrinks, batched inference admits
      generations, the worker is told to give everything up, the data owner goes away or comes back. */
  ghost predicate Aside(w: Worker, w': Worker) {
    && w' == w.(latest := w'.latest, cancelAll := w'.cancelAll, ownerAlive := w'.ownerAlive, queued := w'.queued)
    && Newer(w.latest, w'.latest) && (w.cancelAll ==> w'.cancelAll) && w'.queued <= QUEUE_CAPACITY
  }

  ghost predicate Advanced(k: Key, l: Local, l': Local) {
    SubmitStep(k, l, l') || LateStep(k, l, l')
  }

  ghost predicate Next(s: Sys, s': Sys) {
    exists a, k :: Step(s, s', a, k)
  }

  /** A worker that has just started. */
  predicate Fresh(w: Worker) {
    w.reservations == map[] && w.holds == map[]
  }

  function Start(p: Worker, d: Worker, clock: int): Sys {
    Sys(Gate(map[], {}, {}), map[], [], p, d, clock)
  }

  ghost predicate Run(p: Worker, d: Worker, run: seq<Sys>) {
    && Fresh(p) && Fresh(d) && |run| > 0 && run[0] == Start(p, d, run[0].clock)
    && forall i :: 0 < i < |run| ==> NextAt(run, i)
  }

  ghost predicate NextAt(run: seq<Sys>, i: nat)
    requires 0 < i < |run|
  {
    Next(run[i - 1], run[i])
  }

  // ---------- The invariant ----------

  /** A worker keeps things for known requests only, and all it keeps asks for KV bytes. */
  ghost predicate Known(w: Worker, reqs: map<Key, Req>) {
    && (forall k :: k in w.reservations ==> k in reqs && OwedSomething(w.reservations[k].demands))
    && (forall k :: k in w.holds ==> k in reqs && OwedSomething(w.holds[k]))
  }

  ghost predicate Increasing(log: seq<Key>) {
    forall i, j :: 0 <= i < j < |log| && log[i].requestId == log[j].requestId ==> log[i].generation < log[j].generation
  }

  ghost predicate LogFits(s: Sys) {
    && Increasing(s.admitted)
    && (forall k :: k in s.reqs <==> k in s.admitted)
    && (forall k :: k in s.admitted ==> 0 < k.generation <= LatestOf(s.gate.latest, k.requestId))
  }

  ghost predicate GateFits(s: Sys) {
    && (forall k :: k in s.gate.active <==> k in s.reqs && s.reqs[k].pc != Done)
    && s.gate.cancelled <= s.gate.active
  }

  ghost predicate ReqsFit(s: Sys) {
    forall k {:trigger LInv(k, LocalOf(s, k))} :: k in s.reqs ==> LInv(k, LocalOf(s, k))
  }

  ghost predicate SysInv(baseP: PerPool, baseD: PerPool, s: Sys) {
    && Balanced(baseP, s.p) && Balanced(baseD, s.d)
    && Known(s.p, s.reqs) && Known(s.d, s.reqs)
    && LogFits(s) && GateFits(s) && ReqsFit(s)
  }

  // ---------- Workers: each step touches one request's entries ----------

  ghost predicate OnlyFor(w: Worker, w': Worker, k: Key) {
    && w'.reservations - {k} == w.reservations - {k} && w'.holds - {k} == w.holds - {k}
    && w'.blockBytes == w.blockBytes && w'.blockSize == w.blockSize
    && (k in w'.reservations ==> k in w.reservations || OwedSomething(w'.reservations[k].demands))
    && (k in w'.reservations && k in w.reservations ==> w'.reservations[k] == w.reservations[k])
    && (k in w'.holds ==> (k in w.holds && w'.holds[k] == w.holds[k]) || OwedSomething(w'.holds[k]))
  }

  lemma CallOnlyFor(w: Worker, k: Key, call: Call)
    ensures OnlyFor(w, Perform(w, k, call).0, k)
  {
    match call
    case ReserveCall(role, deadline, maxNewTokens, required, now) => ReserveOnlyFor(w, k, role, deadline, maxNewTokens, required, now);
    case PrefillCall(id, maxNewTokens, bundle, end, now) => PrefillOnlyFor(w, k, id, maxNewTokens, bundle, end, now);
    case _ =>
  }

  lemma ReserveOnlyFor(w: Worker, k: Key, role: Role, deadline: int, maxNewTokens: int, required: Required, now: int)
    ensures OnlyFor(w, Reserving(w, k, role, deadline, maxNewTokens, required, now).0, k)
  {
    if FewTokens(maxNewTokens) && (role == Prefill ==> required.Required? && required.kvBytes > 0) {
      WantedIsOwed(w, role, maxNewTokens, required);
    }
  }

  lemma PrefillOnlyFor(w: Worker, k: Key, id: nat, maxNewTokens: int, bundle: Option<Bundle>, end: PrefillEnd, now: int)
    ensures OnlyFor(w, Prefilling(w, k, id, maxNewTokens, bundle, end, now).0, k)
  {
    if !PrefillBarred(w, k, maxNewTokens) && bundle.Some? {
      FirstDemandOwed(PrefillDemands(w, maxNewTokens, bundle.value));
      TakeOnlyFor(Admitted(w, k), k, id, PrefillDemands(w, maxNewTokens, bundle.value), end, now);
    }
  }

  lemma TakeOnlyFor(w: Worker, k: Key, id: nat, demands: seq<Demand>, end: PrefillEnd, now: int)
    requires OwedSomething(demands)
    ensures OnlyFor(w, TakePrefill(w, k, id, demands, end, now).0, k)
  {
    if id == 0 {
      HoldOnlyFor(w, k, demands);
    } else if Matches(w, k, Prefill, id, demands) {
      KeepOnlyFor(w, k);
      DropOnlyFor(w, k);
    }
  }

  lemma HoldOnlyFor(w: Worker, k: Key, demands: seq<Demand>)
    requires OwedSomething(demands)
    ensures OnlyFor(w, HoldNew(w, k, demands), k)
  {
    assert w.holds[k := demands] - {k} == w.holds - {k};
  }

  lemma KeepOnlyFor(w: Worker, k: Key)
    requires k in w.reservations && OwedSomething(w.reservations[k].demands)
    ensures OnlyFor(w, Keep(w, k), k)
  {
    assert w.reservations - {k} - {k} == w.reservations - {k};
    assert w.holds[k := w.reservations[k].demands] - {k} == w.holds - {k};
  }

  lemma DropOnlyFor(w: Worker, k: Key)
    requires k in w.reservations
    ensures OnlyFor(w, Drop(w, k), k)
  {
    assert w.reservations - {k} - {k} == w.reservations - {k};
  }

  lemma WorkerStepLocal(base: PerPool, w: Worker, w': Worker, k: Key)
    requires Balanced(base, w) && Called(w, w', k)
    ensures Balanced(base, w') && OnlyFor(w, w', k)
  {
    if w' != w {
      var call :| w' == Perform(w, k, call).0;
      StepsKeepBalance(base, w, k, call);
      CallOnlyFor(w, k, call);
    }
  }

  /** A call goes through the worker's queue, and leaves the cancelled bit and the history alone. */
  ghost predicate Quiet(k: Key, l: Local, l': Local) {
    && l'.cancelled == l.cancelled && l'.r.inTime == l.r.inTime && l'.r.pc != Done
    && Called(l.p, l'.p, k) && Called(l.d, l'.d, k)
  }

  lemma CallCounts(w: Worker, k: Key, call: Call)
    ensures Called(w, Answer(w, k, call).0, k)
  {
    assert Full(w) || Answer(w, k, call) == Perform(w, k, call);
  }

  lemma GoneQuiet(k: Key, l: Local, l': Local, now: int)
    requires Unanswered(l, l', now)
    ensures Quiet(k, l, l')
  {
  }

  lemma ReserveDQuiet(k: Key, l: Local, l': Local, now: int)
    requires ReserveDReply(k, l, l', now)
    ensures Quiet(k, l, l')
  {
    if Unanswered(l, l', now) {
      GoneQuiet(k, l, l', now);
    } else {
      CallCounts(l.d, k, ReserveCall(Decode, l.r.deadline, l.r.maxNewTokens, NoRequirements, now));
    }
  }

  lemma ReservedPQuiet(k: Key, l: Local, required: Required, now: int)
    ensures Quiet(k, l, ReservedP(k, l, required, now))
  {
    CallCounts(l.p, k, AskP(l, required, now));
  }

  lemma ReservePQuiet(k: Key, l: Local, l': Local, required: Required, now: int)
    requires ReservePReply(k, l, l', required, now)
    ensures Quiet(k, l, l')
  {
    if Unanswered(l, l', now) {
      GoneQuiet(k, l, l', now);
    } else {
      ReservedPQuiet(k, l, required, now);
    }
  }

  lemma PrefilledQuiet(k: Key, l: Local, bundle: Option<Bundle>, end: PrefillEnd, now: int)
    requires l.r.p.res.Some?
    ensures Quiet(k, l, Prefilled(k, l, bundle, end, now))
  {
    CallCounts(l.p, k, AskPrefill(l, bundle, end, now));
  }

  lemma PrefillQuiet(k: Key, l: Local, l': Local, bundle: Option<Bundle>, end: PrefillEnd, now: int)
    requires PrefillReply(k, l, l', bundle, end, now)
    ensures Quiet(k, l, l')
  {
    if Unanswered(l, l', now) {
      GoneQuiet(k, l, l', now);
    } else {
      PrefilledQuiet(k, l, bundle, end, now);
    }
  }

  lemma DecodeQuiet(k: Key, l: Local, l': Local, oddBytes: nat, success: bool, now: int, later: int)
    requires DecodeReply(k, l, l', oddBytes, success, now, later)
    ensures Quiet(k, l, l')
  {
    if Unanswered(l, l', later) {
      GoneQuiet(k, l, l', later);
    } else {
      CallCounts(l.d, k, DecodeCall(l.r.d.res.value, l.r.maxNewTokens, l.r.deadline, oddBytes, success, now, later));
    }
  }

  lemma UnreservePQuiet(k: Key, l: Local, l': Local)
    requires UnreservePReply(k, l, l')
    ensures Quiet(k, l, l')
  {
    CallCounts(l.p, k, UnreserveCall(l.r.p.res.value));
  }

  lemma UnreserveDQuiet(k: Key, l: Local, l': Local)
    requires UnreserveDReply(k, l, l')
    ensures Quiet(k, l, l')
  {
    CallCounts(l.d, k, UnreserveCall(l.r.d.res.value));
  }

  lemma ReleaseQuiet(k: Key, l: Local, l': Local)
    requires ReleaseReply(k, l, l')
    ensures Quiet(k, l, l')
  {
    CallCounts(l.p, k, ReleaseCall);
  }

  lemma CallsQuiet(k: Key, l: Local, l': Local)
    requires Proceed(k, l, l') && l.r.pc in {ReserveD, ReserveP, RunPrefill, RunDecode}
    ensures Quiet(k, l, l')
  {
    match l.r.pc
    case ReserveD => var now :| ReserveDReply(k, l, l', now); ReserveDQuiet(k, l, l', now);
    case ReserveP => var required, now :| ReservePReply(k, l, l', required, now); ReservePQuiet(k, l, l', required, now);
    case RunPrefill =>
      var bundle, end, now :| PrefillReply(k, l, l', bundle, end, now);
      PrefillQuiet(k, l, l', bundle, end, now);
    case RunDecode =>
      var oddBytes, success, now, later :| DecodeReply(k, l, l', oddBytes, success, now, later);
      DecodeQuiet(k, l, l', oddBytes, success, now, later);
  }

  lemma CleanUpQuiet(k: Key, l: Local, l': Local)
    requires Proceed(k, l, l') && l.r.pc in {ReclaimP, ReclaimD, ReclaimHandoff}
    ensures Quiet(k, l, l')
  {
    match l.r.pc
    case ReclaimP => if l.r.p.res.Some? { UnreservePQuiet(k, l, l'); }
    case ReclaimD => if l.r.d.res.Some? { UnreserveDQuiet(k, l, l'); }
    case ReclaimHandoff => if l.r.handoff { ReleaseQuiet(k, l, l'); }
  }

  /** Every other step leaves the workers and the history alone, and only Leave clears the bit. */
  ghost predicate Still(l: Local, l': Local) {
    && l'.p == l.p && l'.d == l.d && l'.r.inTime == l.r.inTime && l'.r.p == l.r.p && l'.r.d == l.r.d && l'.r.stuck == l.r.stuck
    && if l.r.pc == Leave then l'.r.pc == Done && !l'.cancelled else l'.r.pc != Done && (l.cancelled ==> l'.cancelled)
  }

  lemma CheckStill(l: Local, l': Local, pass: Req)
    requires CheckStep(l, l', pass) && pass.inTime == l.r.inTime && pass.p == l.r.p && pass.d == l.r.d && pass.stuck == l.r.stuck
    requires pass.pc != Done && l.r.pc != Leave
    ensures Still(l, l')
  {
  }

  lemma ChecksStill(k: Key, l: Local, l': Local)
    requires Proceed(k, l, l') && l.r.pc in {Check1, Check2, Check3, Check4, Check5, Check6}
    ensures Still(l, l')
  {
    match l.r.pc
    case Check1 => CheckStill(l, l', Move(l.r, Place, Encode));
    case Check2 => CheckStill(l, l', l.r.(pc := PlaceRoles));
    case Check3 => CheckStill(l, l', l.r.(pc := ReserveP));
    case Check4 => CheckStill(l, l', l.r.(pc := RunPrefill));
    case Check5 => CheckStill(l, l', l.r.(pc := MaybeCancel));
    case Check6 => CheckStill(l, l', l.r.(pc := Finish));
  }

  /** Going to another place, or recording a transition on the way. */
  lemma GoStill(l: Local, pc: Pc)
    requires pc != Done && l.r.pc != Leave
    ensures Still(l, At(l, pc)) && Still(l, At(l, pc).(cancelled := true))
  {
  }

  lemma MoveStill(l: Local, r: Req, target: Stage, next: Pc)
    requires next != Done && l.r.pc != Leave && r.inTime == l.r.inTime && r.p == l.r.p && r.d == l.r.d && r.stuck == l.r.stuck
    ensures Still(l, l.(r := Move(r, target, next)))
  {
  }

  lemma MainLineStill(k: Key, l: Local, l': Local)
    requires Proceed(k, l, l') && l.r.pc in {Encode, PlaceRoles, Probe}
    ensures Still(l, l')
  {
    GoStill(l, OnError);
    GoStill(l, OnTimeout);
    match l.r.pc
    case Encode => GoStill(l, Check2);
    case PlaceRoles => MoveStill(l, l.r.(placed := true), Reserve, Probe);
    case Probe => GoStill(l, ReserveD);
  }

  lemma EndOfLineStill(k: Key, l: Local, l': Local)
    requires Proceed(k, l, l') && l.r.pc in {MaybeCancel, Finish}
    ensures Still(l, l')
  {
    match l.r.pc
    case MaybeCancel => GoStill(l, OnCancelled); MoveStill(l, l.r, DecodeStage, RunDecode);
    case Finish => MoveStill(l, l.r, Finished, ReclaimP); MoveStill(l, l.r, Finished, OnError);
  }

  lemma HandlersStill(k: Key, l: Local, l': Local)
    requires Proceed(k, l, l') && (l.r.pc in {OnCancelled, OnTimeout, OnError} || l.r.pc.Settle?)
    ensures Still(l, l')
  {
    match l.r.pc
    case OnCancelled => MoveStill(l, l.r, Cancelled, ReclaimP);
    case OnTimeout =>
    case OnError => ErrorStill(l, l');
    case Settle(t) => MoveStill(l, l.r, t, ReclaimP);
  }

  lemma ErrorStill(l: Local, l': Local)
    requires l.r.pc == OnError && ErrorStep(l, l')
    ensures Still(l, l')
  {
    GoStill(l, ReclaimP);
    GoStill(l, Settle(Cancelled));
    GoStill(l, Settle(TimedOut));
    GoStill(l, Settle(Broken));
  }

  lemma SubmitStepEffects(k: Key, l: Local, l': Local)
    requires SubmitStep(k, l, l')
    ensures l.r.pc != Done && l'.r.inTime == l.r.inTime
    ensures Called(l.p, l'.p, k) && Called(l.d, l'.d, k)
    ensures if l'.r.pc == Done then !l'.cancelled else l.cancelled ==> l'.cancelled
  {
    if OutOfTime(l) { GoStill(l, OnTimeout); } else { ProceedEffects(k, l, l'); }
  }

  lemma ProceedEffects(k: Key, l: Local, l': Local)
    requires Proceed(k, l, l')
    ensures l.r.pc != Done && l'.r.inTime == l.r.inTime
    ensures Called(l.p, l'.p, k) && Called(l.d, l'.d, k)
    ensures if l'.r.pc == Done then !l'.cancelled else l.cancelled ==> l'.cancelled
  {
    match l.r.pc
    case ReserveD | ReserveP | RunPrefill | RunDecode => CallsQuiet(k, l, l');
    case ReclaimP | ReclaimD | ReclaimHandoff => CleanUpQuiet(k, l, l');
    case OnCancelled | OnTimeout | OnError | Settle(_) => HandlersStill(k, l, l');
    case Check1 | Check2 | Check3 | Check4 | Check5 | Check6 => ChecksStill(k, l, l');
    case MaybeCancel | Finish => EndOfLineStill(k, l, l');
    case Encode | PlaceRoles | Probe => MainLineStill(k, l, l');
    case Leave =>
  }

  lemma KnownStays(w: Worker, w': Worker, k: Key, reqs: map<Key, Req>, r: Req)
    requires Known(w, reqs) && OnlyFor(w, w', k) && k in reqs
    ensures Known(w', reqs[k := r])
  {
    forall j | j in w'.reservations ensures j in reqs && OwedSomething(w'.reservations[j].demands) {
      if j != k { assert j in w'.reservations - {k}; assert (w'.reservations - {k})[j] == (w.reservations - {k})[j]; }
    }
    forall j | j in w'.holds ensures j in reqs && OwedSomething(w'.holds[j]) {
      if j != k { assert j in w'.holds - {k}; assert (w'.holds - {k})[j] == (w.holds - {k})[j]; }
    }
  }

  /** Steps of one request do not disturb another. */
  lemma OthersKeep(k: Key, other: Key, l: Local, l': Local)
    requires LInv(other, l) && other != k
    requires l'.r == l.r && l'.cancelled == l.cancelled && OnlyFor(l.p, l'.p, k) && OnlyFor(l.d, l'.d, k)
    ensures LInv(other, l')
  {
    SameEntries(k, other, l.p, l'.p);
    SameEntries(k, other, l.d, l'.d);
  }

  lemma SameEntries(k: Key, other: Key, w: Worker, w': Worker)
    requires OnlyFor(w, w', k) && other != k
    ensures other in w'.reservations <==> other in w.reservations
    ensures other in w.reservations ==> w'.reservations[other] == w.reservations[other]
    ensures other in w'.holds <==> other in w.holds
  {
    assert other in w'.reservations - {k} <==> other in w'.reservations;
    assert other in w.reservations - {k} <==> other in w.reservations;
    assert other in w'.holds - {k} <==> other in w'.holds;
    assert other in w.holds - {k} <==> other in w.holds;
    if other in w.reservations { assert (w'.reservations - {k})[other] == (w.reservations - {k})[other]; }
  }

  // ---------- Every step keeps the invariant ----------

  lemma AdvancedKeeps(k: Key, l: Local, l': Local)
    requires LInv(k, l) && Advanced(k, l, l')
    ensures LInv(k, l') && Called(l.p, l'.p, k) && Called(l.d, l'.d, k)
    ensures l'.r.inTime == l.r.inTime
    ensures l.r.pc == Done ==> l'.r == l.r && l'.cancelled == l.cancelled
    ensures l.r.pc != Done ==> if l'.r.pc == Done then !l'.cancelled else l.cancelled ==> l'.cancelled
  {
    if SubmitStep(k, l, l') {
      StepKeepsLInv(k, l, l');
      SubmitStepEffects(k, l, l');
    }
  }

  lemma AdvanceKeepsReqs(baseP: PerPool, baseD: PerPool, s: Sys, k: Key, l: Local)
    requires SysInv(baseP, baseD, s) && k in s.reqs && Advanced(k, LocalOf(s, k), l)
    ensures SysInv(baseP, baseD, Put(s, k, l))
    ensures l.r.inTime == s.reqs[k].inTime
  {
    var s' := Put(s, k, l);
    assert LInv(k, LocalOf(s, k));
    AdvancedKeeps(k, LocalOf(s, k), l);
    WorkerStepLocal(baseP, s.p, l.p, k);
    WorkerStepLocal(baseD, s.d, l.d, k);
    KnownStays(s.p, l.p, k, s.reqs, l.r);
    KnownStays(s.d, l.d, k, s.reqs, l.r);
    PutGate(s, k, l);
    forall j {:trigger LInv(j, LocalOf(s', j))} | j in s'.reqs ensures LInv(j, LocalOf(s', j)) {
      assert LInv(j, LocalOf(s, j));
      PutFits(s, k, l, j);
    }
  }

  lemma PutFits(s: Sys, k: Key, l: Local, j: Key)
    requires k in s.reqs && j in s.reqs && LInv(k, l) && LInv(j, LocalOf(s, j)) && OnlyFor(s.p, l.p, k) && OnlyFor(s.d, l.d, k)
    requires (k in Put(s, k, l).gate.cancelled <==> l.cancelled)
    requires j != k ==> (j in Put(s, k, l).gate.cancelled <==> j in s.gate.cancelled)
    ensures LInv(j, LocalOf(Put(s, k, l), j))
  {
    if j == k {
      assert LocalOf(Put(s, k, l), j) == l;
    } else {
      OthersKeep(k, j, LocalOf(s, j), LocalOf(Put(s, k, l), j));
    }
  }

  lemma PutGate(s: Sys, k: Key, l: Local)
    requires GateFits(s) && k in s.reqs
    requires s.reqs[k].pc == Done ==> l.r == s.reqs[k] && l.cancelled == (k in s.gate.cancelled)
    requires s.reqs[k].pc != Done ==> if l.r.pc == Done then !l.cancelled else k in s.gate.cancelled ==> l.cancelled
    ensures GateFits(Put(s, k, l)) && (k in Put(s, k, l).gate.cancelled <==> l.cancelled)
    ensures forall j :: j != k ==> (j in Put(s, k, l).gate.cancelled <==> j in s.gate.cancelled)
  {
  }

  lemma SubmitKeeps(baseP: PerPool, baseD: PerPool, s: Sys, s': Sys, k: Key, deadline: int, maxNewTokens: int)
    requires SysInv(baseP, baseD, s) && Step(s, s', Submit(deadline, maxNewTokens), k)
    ensures SysInv(baseP, baseD, s')
  {
    if s' != s {
      AdmitFits(s, s', k, New(deadline, maxNewTokens));
      forall j {:trigger LInv(j, LocalOf(s', j))} | j in s'.reqs ensures LInv(j, LocalOf(s', j)) {
        if j == k {
          NewFits(s', k, deadline, maxNewTokens);
        } else {
          assert LInv(j, LocalOf(s, j)) && LocalOf(s', j) == LocalOf(s, j);
        }
      }
    }
  }

  /** An admitted key is new, and later than every earlier one with its id. */
  lemma AdmitFits(s: Sys, s': Sys, k: Key, r: Req)
    requires LogFits(s) && GateFits(s) && k.generation > LatestOf(s.gate.latest, k.requestId)
    requires s'.gate == Admit(s.gate, k) && r.pc != Done && s'.reqs == s.reqs[k := r] && s'.admitted == s.admitted + [k]
    ensures k !in s.reqs && LogFits(s') && GateFits(s')
  {
    assert k !in s.admitted;
    LogGrows(s, s', k, r);
  }

  lemma LogGrows(s: Sys, s': Sys, k: Key, r: Req)
    requires LogFits(s) && k.generation > LatestOf(s.gate.latest, k.requestId) && k !in s.admitted
    requires s'.gate == Admit(s.gate, k) && s'.reqs == s.reqs[k := r] && s'.admitted == s.admitted + [k]
    ensures LogFits(s')
  {
    forall j ensures j in s'.admitted <==> j in s.admitted || j == k { assert s'.admitted == s.admitted + [k]; }
  }

  /** A request that has just been admitted has no trace and nothing at the workers. */
  lemma NewFits(s: Sys, k: Key, deadline: int, maxNewTokens: int)
    requires k in s.reqs && s.reqs[k] == New(deadline, maxNewTokens)
    requires k !in s.p.reservations && k !in s.p.holds && k !in s.d.reservations && k !in s.d.holds
    ensures LInv(k, LocalOf(s, k))
  {
  }

  lemma CancelKeeps(baseP: PerPool, baseD: PerPool, s: Sys, s': Sys, k: Key)
    requires SysInv(baseP, baseD, s) && Step(s, s', Cancel, k)
    ensures SysInv(baseP, baseD, s')
  {
    if k in s.gate.active && k in s.reqs {
      MarkFits(s, s', k);
      forall j {:trigger LInv(j, LocalOf(s', j))} | j in s'.reqs ensures LInv(j, LocalOf(s', j)) {
        assert LInv(j, LocalOf(s, j));
        if j == k { CancelFitsNow(k, LocalOf(s, k), LocalOf(s', k)); } else { assert LocalOf(s', j) == LocalOf(s, j); }
      }
    }
  }

  lemma MarkFits(s: Sys, s': Sys, k: Key)
    requires LogFits(s) && GateFits(s) && k in s.gate.active
    requires s' == s.(gate := Mark(s.gate, k), reqs := s.reqs[k := Marked(s.reqs[k])])
    ensures LogFits(s') && GateFits(s')
  {
  }

  lemma CancelFitsNow(k: Key, l: Local, l': Local)
    requires LInv(k, l) && l.r.pc != Done && l' == l.(cancelled := true, r := Marked(l.r))
    ensures LInv(k, l')
  {
  }

  /** What a worker owes, and its block sizes. */
  ghost predicate SameLedger(w: Worker, w': Worker) {
    && w'.used == w.used && w'.reservations == w.reservations && w'.holds == w.holds
    && w'.blockBytes == w.blockBytes && w'.blockSize == w.blockSize
  }

  lemma SameLedgerFits(k: Key, l: Local, l': Local)
    requires LInv(k, l) && l' == l.(p := l'.p, d := l'.d, clock := l'.clock) && SameLedger(l.p, l'.p) && SameLedger(l.d, l'.d)
    ensures LInv(k, l')
  {
  }

  /** A cancel that reaches a worker, the clock, and whatever else a worker does leave all ledgers alone. */
  lemma AsideKeeps(baseP: PerPool, baseD: PerPool, s: Sys, s': Sys)
    requires SysInv(baseP, baseD, s) && s' == s.(p := s'.p, d := s'.d, clock := s'.clock)
    requires SameLedger(s.p, s'.p) && SameLedger(s.d, s'.d)
    ensures SysInv(baseP, baseD, s')
  {
    forall j {:trigger LInv(j, LocalOf(s', j))} | j in s'.reqs ensures LInv(j, LocalOf(s', j)) {
      assert LInv(j, LocalOf(s, j));
      SameLedgerFits(j, LocalOf(s, j), LocalOf(s', j));
    }
  }

  lemma TellKeeps(baseP: PerPool, baseD: PerPool, s: Sys, s': Sys, role: Role, k: Key)
    requires SysInv(baseP, baseD, s) && Step(s, s', Tell(role), k)
    ensures SysInv(baseP, baseD, s')
  {
    AsideKeeps(baseP, baseD, s, s');
  }

  lemma PassKeeps(baseP: PerPool, baseD: PerPool, s: Sys, s': Sys, k: Key)
    requires SysInv(baseP, baseD, s) && Step(s, s', Pass, k)
    ensures SysInv(baseP, baseD, s')
  {
    AsideKeeps(baseP, baseD, s, s');
  }

  lemma NextKeepsInv(baseP: PerPool, baseD: PerPool, s: Sys, s': Sys)
    requires SysInv(baseP, baseD, s) && Next(s, s')
    ensures SysInv(baseP, baseD, s')
  {
    var a, k :| Step(s, s', a, k);
    match a
    case Submit(deadline, maxNewTokens) => SubmitKeeps(baseP, baseD, s, s', k, deadline, maxNewTokens);
    case Cancel => CancelKeeps(baseP, baseD, s, s', k);
    case Advance =>
      var l :| Advanced(k, LocalOf(s, k), l) && s' == Put(s, k, l);
      AdvanceKeepsReqs(baseP, baseD, s, k, l);
    case Tell(role) => TellKeeps(baseP, baseD, s, s', role, k);
    case Pass => PassKeeps(baseP, baseD, s, s', k);
  }

  /** Every state of every run satisfies the invariant. */
  lemma {:induction false} RunKeepsInv(p: Worker, d: Worker, run: seq<Sys>, i: nat)
    requires Run(p, d, run) && i < |run|
    ensures SysInv(p.used, d.used, run[i])
  {
    if i == 0 {
      StartFits(p, d, run[0].clock);
    } else {
      RunKeepsInv(p, d, run, i - 1);
      RunStepKeeps(p, d, run, i);
    }
  }

  lemma RunStepKeeps(p: Worker, d: Worker, run: seq<Sys>, i: nat)
    requires Run(p, d, run) && 0 < i < |run| && SysInv(p.used, d.used, run[i - 1])
    ensures SysInv(p.used, d.used, run[i])
  {
    assert NextAt(run, i);
    NextKeepsInv(p.used, d.used, run[i - 1], run[i]);
  }

  lemma StartFits(p: Worker, d: Worker, clock: int)
    requires Fresh(p) && Fresh(d)
    ensures SysInv(p.used, d.used, Start(p, d, clock))
  {
    assert DemandsOf(map[]) == map[];
  }
}
