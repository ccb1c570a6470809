/** The Prefill/Decode coordinator as a state machine: any number of concurrent submit calls and external
    cancels, interleaved step by step, against a prefill and a decode worker. A step is one section under
    the coordinator's lock, one remote call, or one assignment that others can observe. */
module PdCoordinator {
  import opened MemoryBudget
  import opened PdLedger
  import opened Options

  // ---------- Stages ----------

  datatype Stage = Prepare | Place | Reserve | PrefillStage | Handoff | DecodeStage
                 | Finished | Cancelled | Broken | TimedOut | Rejected

  predicate Terminal(s: Stage) {
    s in {Finished, Cancelled, Broken, TimedOut, Rejected}
  }

  /** The transition table. `Broken` is the stage named failed. */
  predicate Allowed(from: Stage, to: Stage) {
    match from
    case Prepare => to in {Place, Cancelled, TimedOut, Rejected, Broken}
    case Place => to in {Reserve, Cancelled, TimedOut, Rejected, Broken}
    case Reserve => to in {PrefillStage, Cancelled, TimedOut, Rejected, Broken}
    case PrefillStage => to in {Handoff, Cancelled, TimedOut, Broken}
    case Handoff => to in {DecodeStage, Cancelled, TimedOut, Broken}
    case DecodeStage => to in {Finished, Cancelled, TimedOut, Broken}
    case _ => false
  }

  type Trace = seq<(Stage, Stage)>

  /** The records form one path through the table from Prepare to `stage`. */
  ghost predicate IsPath(trace: Trace, stage: Stage) {
    if trace == [] then stage == Prepare
    else
      var last := trace[|trace| - 1];
      last.1 == stage && Allowed(last.0, last.1) && IsPath(trace[..|trace| - 1], last.0)
  }

  /** On such a path only the last record can reach a terminal stage. */
  lemma {:induction false} OneTerminal(trace: Trace, stage: Stage, i: nat)
    requires IsPath(trace, stage) && i < |trace|
    ensures Terminal(trace[i].1) ==> i == |trace| - 1
    ensures i + 1 < |trace| ==> trace[i].1 == trace[i + 1].0
    ensures Allowed(trace[i].0, trace[i].1) && trace[0].0 == Prepare
  {
    var front := trace[..|trace| - 1];
    if i < |front| {
      OneTerminal(front, trace[|trace| - 1].0, i);
    } else if front != [] {
      OneTerminal(front, trace[|trace| - 1].0, 0);
    }
    assert front != [] ==> front[|front| - 1].1 == trace[|trace| - 1].0 by {
      assert IsPath(front, trace[|trace| - 1].0);
    }
  }

  // ---------- One request ----------

  /** Where a submit call stands. Settle(t) has chosen terminal stage `t` but not recorded it yet. */
  datatype Pc = Check1 | Encode | Check2 | PlaceRoles | Probe | ReserveD | Check3 | ReserveP | Check4
              | RunPrefill | Check5 | MaybeCancel | RunDecode | Check6 | Finish
              | OnCancelled | OnTimeout | OnError | Settle(target: Stage)
              | ReclaimP | ReclaimD | ReclaimHandoff | Leave | Done | Crashed

  /** One worker's reservation as the submit call sees it (`res`), with its history: acknowledged; named in an
      answered prefill or decode call; the answered call that used or returned it was turned away; times named
      in an unreserve call. */
  datatype Note = Note(res: Option<Positive>, ack: bool, used: bool, refused: bool, unreserved: nat)

  /** `placed`: the workers are chosen; `told`: a cancel of this request was sent to them; `handoff`: the
      prefill call was answered; `held`: it left a hand-off at the prefill worker; `stuck`: the answered call
      that releases it was turned away; `lost`: some call was never answered; `inTime`: an external cancel was
      accepted before the outcome was settled. */
  datatype Req = Req(pc: Pc, stage: Stage, trace: Trace, deadline: int, maxNewTokens: int, d: Note, p: Note,
                     placed: bool, told: bool, handoff: bool, held: bool, stuck: bool, lost: bool, inTime: bool)

  const BLANK := Note(None, false, false, false, 0)

  function New(deadline: int, maxNewTokens: int): Req {
    Req(Check1, Prepare, [], deadline, maxNewTokens, BLANK, BLANK, false, false, false, false, false, false, false)
  }

  /** A submit call with the workers it talks to, its bit in the set of cancelled keys, and the clock. */
  datatype Local = Local(r: Req, p: Worker, d: Worker, cancelled: bool, clock: int)

  /** Record a transition; an illegal one would escape the call. */
  function Move(r: Req, target: Stage, next: Pc): (m: Req)
    ensures (m.pc == next || m.pc == Crashed) && m.inTime == r.inTime && m.p == r.p && m.d == r.d
    ensures m.stuck == r.stuck
  {
    if Allowed(r.stage, target) then r.(stage := target, trace := r.trace + [(r.stage, target)], pc := next)
    else r.(pc := Crashed)
  }

  ghost function At(l: Local, pc: Pc): Local {
    l.(r := l.r.(pc := pc))
  }

  /** The activity check: cancelled, past the deadline, or on with `pass`. */
  ghost predicate CheckStep(l: Local, l': Local, pass: Req) {
    l' == if l.cancelled then At(l, OnCancelled) else if l.clock >= l.r.deadline then At(l, OnTimeout) else l.(r := pass)
  }

  /** A remote call without a reply ends in a timeout or another error; the worker may still execute it. */
  ghost predicate Unanswered(l: Local, l': Local, now: int) {
    var gone := l.(r := l.r.(lost := true), clock := now);
    l' == At(gone, OnTimeout) || l' == At(gone, OnError)
  }

  /** The decode worker is asked at time `now`. The answer comes from the queue, if that is full, or from the
      operation. */
  ghost predicate ReserveDReply(k: Key, l: Local, l': Local, now: int) {
    l.clock <= now && (Unanswered(l, l', now) || l' == ReservedD(k, l, now))
  }

  ghost function ReservedD(k: Key, l: Local, now: int): Local {
    var o := Answer(l.d, k, ReserveCall(Decode, l.r.deadline, l.r.maxNewTokens, NoRequirements, now));
    l.(d := o.0, clock := now,
       r := if o.1.Granted? then l.r.(d := l.r.d.(res := Some(o.1.id), ack := true), pc := Check3) else l.r.(pc := OnError))
  }

  /** `required` is what the probe said. */
  ghost predicate ReservePReply(k: Key, l: Local, l': Local, required: Required, now: int) {
    l.clock <= now && (Unanswered(l, l', now) || l' == ReservedP(k, l, required, now))
  }

  ghost function AskP(l: Local, required: Required, now: int): Call {
    ReserveCall(Prefill, l.r.deadline, l.r.maxNewTokens, required, now)
  }

  ghost function ReservedP(k: Key, l: Local, required: Required, now: int): Local {
    var o := Answer(l.p, k, AskP(l, required, now));
    if o.1.Granted? then
      var heard := GrantHeard(l, o.0, o.1.id, now);
      heard.(r := Move(heard.r, PrefillStage, Check4))
    else
      At(l, OnError).(p := o.0, clock := now)
  }

  /** The grant is noted; the stage has still to be recorded. */
  ghost function GrantHeard(l: Local, p: Worker, id: Positive, now: int): Local {
    l.(p := p, clock := now, r := l.r.(p := l.r.p.(res := Some(id), ack := true), pc := OnError))
  }

  /** The prefill call. Once it is answered, well or not, the coordinator forgets the reservation. */
  ghost predicate PrefillReply(k: Key, l: Local, l': Local, bundle: Option<Bundle>, end: PrefillEnd, now: int) {
    l.r.p.res.Some? && l.clock <= now && (Unanswered(l, l', now) || l' == Prefilled(k, l, bundle, end, now))
  }

  ghost function AskPrefill(l: Local, bundle: Option<Bundle>, end: PrefillEnd, now: int): Call
    requires l.r.p.res.Some?
  {
    PrefillCall(l.r.p.res.value, l.r.maxNewTokens, bundle, end, now)
  }

  ghost function Prefilled(k: Key, l: Local, bundle: Option<Bundle>, end: PrefillEnd, now: int): Local
    requires l.r.p.res.Some?
  {
    Concluded(PrefillHeard(k, l, bundle, end, now), Answer(l.p, k, AskPrefill(l, bundle, end, now)).1)
  }

  ghost function Concluded(heard: Local, reply: Reply): (m: Local)
    requires heard.r.pc == OnError
    ensures m.p == heard.p && m.d == heard.d && m.cancelled == heard.cancelled && m.r.pc != Done
    ensures m.r.inTime == heard.r.inTime && m.r.p == heard.r.p && m.r.d == heard.r.d && m.r.stuck == heard.r.stuck
  {
    if reply == Ok then heard.(r := Move(heard.r, Handoff, Check5)) else heard
  }

  /** What the answer tells about the reservation and the hand-off, whether it is good or bad. */
  ghost function PrefillHeard(k: Key, l: Local, bundle: Option<Bundle>, end: PrefillEnd, now: int): (m: Local)
    requires l.r.p.res.Some?
    ensures m.p == Answer(l.p, k, AskPrefill(l, bundle, end, now)).0 && m.d == l.d && m.cancelled == l.cancelled
    ensures m.r.pc == OnError && m.r.inTime == l.r.inTime && m.r.stuck == l.r.stuck && m.r.d == l.r.d && m.r.p.res == None
  {
    var p := Answer(l.p, k, AskPrefill(l, bundle, end, now)).0;
    var refused := PrefillTurnedAway(l.p, k, l.r.p.res.value, l.r.maxNewTokens, bundle);
    l.(p := p, clock := now,
       r := l.r.(p := l.r.p.(res := None, used := true, refused := refused), handoff := true, held := k in p.holds, pc := OnError))
  }

  /** The decode call: looked at at time `now`, its reservation taken over at time `later`. */
  ghost predicate DecodeReply(k: Key, l: Local, l': Local, oddBytes: nat, success: bool, now: int, later: int) {
    l.r.d.res.Some? && l.clock <= now <= later && (Unanswered(l, l', later) || l' == Decoded(k, l, oddBytes, success, now, later))
  }

  ghost function Decoded(k: Key, l: Local, oddBytes: nat, success: bool, now: int, later: int): Local
    requires l.r.d.res.Some?
  {
    var o := Answer(l.d, k, DecodeCall(l.r.d.res.value, l.r.maxNewTokens, l.r.deadline, oddBytes, success, now, later));
    var refused := DecodeTurnedAway(l.d, k, l.r.deadline, now);
    l.(d := o.0, clock := later,
       r := l.r.(d := l.r.d.(res := None, used := true, refused := refused), pc := if o.1 == Ok then Check6 else OnError))
  }

  /** The note of a reservation that was handed to an unreserve call. */
  function Forgotten(n: Note, refused: bool): Note {
    n.(res := None, refused := refused, unreserved := n.unreserved + 1)
  }

  /** A clean-up call, answered or not; whatever the answer, the clean-up goes on. */
  ghost predicate UnreservePReply(k: Key, l: Local, l': Local) {
    l.r.p.res.Some? && (l' == ReturnedP(k, l) || l' == l.(r := l.r.(p := Forgotten(l.r.p, false), pc := ReclaimD, lost := true)))
  }

  ghost function ReturnedP(k: Key, l: Local): Local
    requires l.r.p.res.Some?
  {
    var o := Answer(l.p, k, UnreserveCall(l.r.p.res.value));
    l.(p := o.0, r := l.r.(p := Forgotten(l.r.p, Full(l.p)), pc := ReclaimD))
  }

  ghost predicate UnreserveDReply(k: Key, l: Local, l': Local) {
    l.r.d.res.Some?
    && (l' == ReturnedD(k, l) || l' == l.(r := l.r.(d := Forgotten(l.r.d, false), pc := ReclaimHandoff, lost := true)))
  }

  ghost function ReturnedD(k: Key, l: Local): Local
    requires l.r.d.res.Some?
  {
    var o := Answer(l.d, k, UnreserveCall(l.r.d.res.value));
    l.(d := o.0, r := l.r.(d := Forgotten(l.r.d, Full(l.d)), pc := ReclaimHandoff))
  }

  ghost predicate ReleaseReply(k: Key, l: Local, l': Local) {
    l' == ReleasedHandoff(k, l) || l' == l.(r := l.r.(held := false, pc := Leave, lost := true))
  }

  ghost function ReleasedHandoff(k: Key, l: Local): Local {
    l.(p := Answer(l.p, k, ReleaseCall).0, r := l.r.(held := false, stuck := l.r.held && Full(l.p), pc := Leave))
  }

  /** The handler of other errors: it looks whether the key is cancelled, then at the message and the clock. */
  ghost predicate ErrorStep(l: Local, l': Local) {
    if Terminal(l.r.stage) then l' == At(l, ReclaimP)
    else if l.cancelled then l' == At(l, Settle(Cancelled))
    else l' == At(l, Settle(Cancelled)) || l' == At(l, Settle(TimedOut)) || (l.clock < l.r.deadline && l' == At(l, Settle(Broken)))
  }

  /** The handler of timeouts cancels the request, and tells the workers if there are any yet. */
  function TimeoutHandled(l: Local): Local {
    l.(r := l.r.(pc := Settle(TimedOut), told := l.r.told || l.r.placed), cancelled := true)
  }

  /** Before each remote call the time left is computed; none left is a timeout. */
  predicate OutOfTime(l: Local) {
    l.r.pc in {Probe, ReserveD, ReserveP, RunPrefill, RunDecode} && l.clock >= l.r.deadline
  }

  /** One step of the submit call for request `k`. */
  ghost predicate SubmitStep(k: Key, l: Local, l': Local) {
    if OutOfTime(l) then l' == At(l, OnTimeout) else Proceed(k, l, l')
  }

  ghost predicate Proceed(k: Key, l: Local, l': Local) {
    match l.r.pc
    case Check1 => CheckStep(l, l', Move(l.r, Place, Encode))
    case Encode => l' == At(l, Check2) || l' == At(l, OnError) || l' == At(l, OnTimeout)
    case Check2 => CheckStep(l, l', l.r.(pc := PlaceRoles))
    case PlaceRoles => l' == l.(r := Move(l.r.(placed := true), Reserve, Probe)) || l' == At(l, OnError)
    case Probe => l' == At(l, ReserveD) || l' == At(l, OnError) || l' == At(l, OnTimeout)
    case ReserveD => exists now :: ReserveDReply(k, l, l', now)
    case Check3 => CheckStep(l, l', l.r.(pc := ReserveP))
    case ReserveP => exists required, now :: ReservePReply(k, l, l', required, now)
    case Check4 => CheckStep(l, l', l.r.(pc := RunPrefill))
    case RunPrefill => exists bundle, end, now :: PrefillReply(k, l, l', bundle, end, now)
    case Check5 => CheckStep(l, l', l.r.(pc := MaybeCancel))
    case MaybeCancel => l' == At(l, OnCancelled).(cancelled := true) || l' == l.(r := Move(l.r, DecodeStage, RunDecode))
    case RunDecode => exists oddBytes, success, now, later :: DecodeReply(k, l, l', oddBytes, success, now, later)
    case Check6 => CheckStep(l, l', l.r.(pc := Finish))
    case Finish => l' == l.(r := Move(l.r, Finished, ReclaimP)) || l' == l.(r := Move(l.r, Finished, OnError))
    case OnCancelled => l' == l.(r := Move(l.r, Cancelled, ReclaimP))
    case OnTimeout => l' == TimeoutHandled(l)
    case OnError => ErrorStep(l, l')
    case Settle(t) => l' == l.(r := Move(l.r, t, ReclaimP))
    case ReclaimP => if l.r.p.res == None then l' == At(l, ReclaimD) else UnreservePReply(k, l, l')
    case ReclaimD => if l.r.d.res == None then l' == At(l, ReclaimHandoff) else UnreserveDReply(k, l, l')
    case ReclaimHandoff => if !l.r.handoff then l' == At(l, Leave) else ReleaseReply(k, l, l')
    case Leave => l' == At(l, Done).(cancelled := false)
    case Done => false
    case Crashed => false
  }

  /** A call whose reply was lost may still be executed by its worker, at any later time. */
  ghost predicate LateStep(k: Key, l: Local, l': Local) {
    && l.r.lost
    && l' == l.(p := l'.p, d := l'.d)
    && Called(l.p, l'.p, k) && Called(l.d, l'.d, k)
  }

  /** The worker has executed at most one call for `k`. */
  ghost predicate Called(w: Worker, w': Worker, k: Key) {
    w' == w || exists call :: w' == Perform(w, k, call).0
  }

  // ---------- What every request keeps ----------

  /** Which stages go with which points of the submit call; a terminal stage is reached exactly at clean-up,
      or just before an error that comes too late to matter. */
  ghost predicate StageFits(r: Req) {
    match r.pc
    case Check1 => r.stage == Prepare
    case Encode | Check2 | PlaceRoles => r.stage == Place
    case Probe | ReserveD | Check3 | ReserveP => r.stage == Reserve
    case Check4 | RunPrefill => r.stage == PrefillStage
    case Check5 | MaybeCancel => r.stage == Handoff
    case RunDecode | Check6 | Finish => r.stage == DecodeStage
    case OnCancelled | OnTimeout => !Terminal(r.stage)
    case OnError => !Terminal(r.stage) || r.stage == Finished
    case Settle(t) => !Terminal(r.stage) && t in {Cancelled, TimedOut, Broken}
    case ReclaimP | ReclaimD | ReclaimHandoff | Leave | Done => Terminal(r.stage) && r.stage != Rejected
    case Crashed => false
  }

  /** An acknowledged reservation is either still noted, or was used by an answered call, or was handed to
      exactly one unreserve call: never two of these. */
  ghost predicate Accounted(n: Note) {
    if n.res.Some? then n.ack && !n.used && n.unreserved == 0
    else if n.ack then (n.used && n.unreserved == 0) || (!n.used && n.unreserved == 1)
    else !n.used && n.unreserved == 0
  }

  /** How far a submit call has come; clean-up starts at 30. */
  function Rank(pc: Pc): nat {
    match pc
    case Check1 => 0 case Encode => 1 case Check2 => 2 case PlaceRoles => 3 case Probe => 4 case ReserveD => 5
    case Check3 => 6 case ReserveP => 7 case Check4 => 8 case RunPrefill => 9 case Check5 => 10 case MaybeCancel => 11
    case RunDecode => 12 case Check6 => 13 case Finish => 14
    case OnCancelled => 20 case OnTimeout => 20 case OnError => 20 case Settle(_) => 20
    case ReclaimP => 30 case ReclaimD => 31 case ReclaimHandoff => 32 case Leave => 33 case Done => 34 case Crashed => 40
  }

  /** Only a call that used or returned a reservation can have been turned away. */
  ghost predicate Excused(n: Note) {
    n.refused ==> n.res == None && n.ack
  }

  ghost predicate NotesFit(r: Req) {
    && Accounted(r.d) && Accounted(r.p)
    && (Rank(r.pc) <= 5 ==> !r.d.ack) && (Rank(r.pc) <= 7 ==> !r.p.ack)
    && (Rank(r.pc) >= 31 ==> r.p.res == None) && (Rank(r.pc) >= 32 ==> r.d.res == None) && (Rank(r.pc) >= 33 ==> !r.held)
    && (r.held ==> r.handoff) && (r.handoff ==> r.p.used) && (r.stuck ==> Rank(r.pc) >= 33)
    && Excused(r.d) && Excused(r.p)
  }

  /** The worker has a reservation for `k` exactly if the coordinator knows of it, or the one call
      that used or returned it was turned away. */
  ghost predicate Noted(w: Worker, k: Key, n: Note, role: Role, r: Req) {
    && (k in w.reservations <==> n.res.Some? || n.refused)
    && (n.res.Some? ==>
          && w.reservations[k].id == n.res.value && w.reservations[k].role == role
          && FewTokens(r.maxNewTokens)
          && (role == Decode ==> w.reservations[k].demands == DecodeDemands(w, r.maxNewTokens, 0)))
  }

  /** As long as every call was answered, the workers keep exactly what the coordinator knows of, plus what
      calls that were turned away left behind. */
  ghost predicate LedgerFits(k: Key, l: Local) {
    !l.r.lost ==>
      && Noted(l.d, k, l.r.d, Decode, l.r) && Noted(l.p, k, l.r.p, Prefill, l.r)
      && (k in l.p.holds <==> l.r.held || l.r.stuck) && k !in l.d.holds
  }

  /** A cancel accepted in time keeps the key cancelled and rules out the ends finished and failed. */
  ghost predicate CancelFits(l: Local) {
    l.r.inTime ==>
      && (l.r.pc != Done ==> l.cancelled) && l.r.pc != Finish
      && (l.r.pc.Settle? ==> l.r.pc.target in {Cancelled, TimedOut})
      && (Terminal(l.r.stage) ==> l.r.stage in {Cancelled, TimedOut})
  }

  ghost predicate LInv(k: Key, l: Local) {
    IsPath(l.r.trace, l.r.stage) && StageFits(l.r) && NotesFit(l.r) && LedgerFits(k, l) && CancelFits(l)
  }

  lemma MoveKeepsPath(r: Req, target: Stage, next: Pc)
    requires IsPath(r.trace, r.stage) && Allowed(r.stage, target)
    ensures IsPath(Move(r, target, next).trace, target)
  {
    var t := Move(r, target, next).trace;
    assert t[..|t| - 1] == r.trace;
  }

  lemma LostKeeps(k: Key, l: Local, now: int)
    requires LInv(k, l)
    ensures LInv(k, l.(r := l.r.(lost := true), clock := now))
  {
  }

  lemma UnansweredKeeps(k: Key, l: Local, l': Local, now: int)
    requires LInv(k, l) && Rank(l.r.pc) <= 14 && l.r.pc != Finish && Unanswered(l, l', now)
    ensures LInv(k, l')
  {
    var gone := l.(r := l.r.(lost := true), clock := now);
    LostKeeps(k, l, now);
    if l' == At(gone, OnTimeout) { HandlerEntered(k, gone, OnTimeout); } else { HandlerEntered(k, gone, OnError); }
  }

  lemma ReserveDKeeps(k: Key, l: Local, l': Local, now: int)
    requires LInv(k, l) && l.r.pc == ReserveD && ReserveDReply(k, l, l', now)
    ensures LInv(k, l')
  {
    if Unanswered(l, l', now) { UnansweredKeeps(k, l, l', now); } else { ReserveDAnswered(k, l, now); }
  }

  lemma ReserveDAnswered(k: Key, l: Local, now: int)
    requires LInv(k, l) && l.r.pc == ReserveD
    ensures LInv(k, ReservedD(k, l, now))
  {
    var o := Answer(l.d, k, ReserveCall(Decode, l.r.deadline, l.r.maxNewTokens, NoRequirements, now));
    if o.1.Granted? { ReserveDGranted(k, l, now); } else { DeniedKeeps(k, l, now); }
  }

  lemma ReserveDGranted(k: Key, l: Local, now: int)
    requires LInv(k, l) && l.r.pc == ReserveD
    requires Answer(l.d, k, ReserveCall(Decode, l.r.deadline, l.r.maxNewTokens, NoRequirements, now)).1.Granted?
    ensures LInv(k, ReservedD(k, l, now))
  {
  }

  lemma DeniedKeeps(k: Key, l: Local, now: int)
    requires LInv(k, l) && Rank(l.r.pc) <= 14
    ensures LInv(k, At(l, OnError).(clock := now))
  {
    HandlerEntered(k, l, OnError);
    ClockKeeps(k, At(l, OnError), now);
  }

  lemma ReservePKeeps(k: Key, l: Local, l': Local, required: Required, now: int)
    requires LInv(k, l) && l.r.pc == ReserveP && ReservePReply(k, l, l', required, now)
    ensures LInv(k, l')
  {
    if Unanswered(l, l', now) { UnansweredKeeps(k, l, l', now); } else { ReservePAnswered(k, l, required, now); }
  }

  lemma ReservePAnswered(k: Key, l: Local, required: Required, now: int)
    requires LInv(k, l) && l.r.pc == ReserveP
    ensures LInv(k, ReservedP(k, l, required, now))
  {
    var o := Answer(l.p, k, AskP(l, required, now));
    if o.1.Granted? {
      var heard := GrantHeard(l, o.0, o.1.id, now);
      GrantHeardKeeps(k, l, required, now);
      MoveKeepsPath(heard.r, PrefillStage, Check4);
      GrantMoves(k, heard);
    } else {
      DeniedKeeps(k, l, now);
    }
  }

  lemma ClockKeeps(k: Key, l: Local, now: int)
    requires LInv(k, l)
    ensures LInv(k, l.(clock := now))
  {
  }

  lemma GrantHeardKeeps(k: Key, l: Local, required: Required, now: int)
    requires LInv(k, l) && l.r.pc == ReserveP && Answer(l.p, k, AskP(l, required, now)).1.Granted?
    ensures var o := Answer(l.p, k, AskP(l, required, now)); LInv(k, GrantHeard(l, o.0, o.1.id, now))
  {
  }

  lemma GrantMoves(k: Key, heard: Local)
    requires LInv(k, heard) && heard.r.pc == OnError && heard.r.stage == Reserve
    requires IsPath(Move(heard.r, PrefillStage, Check4).trace, PrefillStage)
    ensures LInv(k, heard.(r := Move(heard.r, PrefillStage, Check4)))
  {
  }

  lemma PrefillKeeps(k: Key, l: Local, l': Local, bundle: Option<Bundle>, end: PrefillEnd, now: int)
    requires LInv(k, l) && l.r.pc == RunPrefill && PrefillReply(k, l, l', bundle, end, now)
    ensures LInv(k, l')
  {
    if Unanswered(l, l', now) { UnansweredKeeps(k, l, l', now); } else { PrefillAnswered(k, l, bundle, end, now); }
  }

  lemma PrefillAnswered(k: Key, l: Local, bundle: Option<Bundle>, end: PrefillEnd, now: int)
    requires LInv(k, l) && l.r.pc == RunPrefill && l.r.p.res.Some?
    ensures LInv(k, Prefilled(k, l, bundle, end, now))
  {
    PrefillHeardKeeps(k, l, bundle, end, now);
    var heard := PrefillHeard(k, l, bundle, end, now);
    MoveKeepsPath(heard.r, Handoff, Check5);
    PrefillMoves(k, heard);
  }

  lemma PrefillHeardKeeps(k: Key, l: Local, bundle: Option<Bundle>, end: PrefillEnd, now: int)
    requires LInv(k, l) && l.r.pc == RunPrefill && l.r.p.res.Some?
    ensures LInv(k, PrefillHeard(k, l, bundle, end, now))
  {
    if !l.r.lost {
      PrefillLeavesIffTurnedAway(l.p, k, l.r.p.res.value, l.r.maxNewTokens, bundle, end, now);
    }
  }

  lemma PrefillMoves(k: Key, heard: Local)
    requires LInv(k, heard) && heard.r.pc == OnError && heard.r.stage == PrefillStage
    requires IsPath(Move(heard.r, Handoff, Check5).trace, Handoff)
    ensures LInv(k, heard.(r := Move(heard.r, Handoff, Check5)))
  {
  }

  lemma DecodeKeeps(k: Key, l: Local, l': Local, oddBytes: nat, success: bool, now: int, later: int)
    requires LInv(k, l) && l.r.pc == RunDecode && DecodeReply(k, l, l', oddBytes, success, now, later)
    ensures LInv(k, l')
  {
    if Unanswered(l, l', later) { UnansweredKeeps(k, l, l', later); } else { DecodeAnswered(k, l, oddBytes, success, now, later); }
  }

  lemma DecodeAnswered(k: Key, l: Local, oddBytes: nat, success: bool, now: int, later: int)
    requires LInv(k, l) && l.r.pc == RunDecode && l.r.d.res.Some?
    ensures LInv(k, Decoded(k, l, oddBytes, success, now, later))
  {
    if !l.r.lost {
      DecodeLeavesIffTurnedAway(l.d, k, l.r.d.res.value, l.r.maxNewTokens, l.r.deadline, oddBytes, success, now, later);
    }
  }

  lemma UnreservePKeeps(k: Key, l: Local, l': Local)
    requires LInv(k, l) && l.r.pc == ReclaimP && UnreservePReply(k, l, l')
    ensures LInv(k, l')
  {
  }

  lemma UnreserveDKeeps(k: Key, l: Local, l': Local)
    requires LInv(k, l) && l.r.pc == ReclaimD && UnreserveDReply(k, l, l')
    ensures LInv(k, l')
  {
  }

  lemma ReleaseKeeps(k: Key, l: Local, l': Local)
    requires LInv(k, l) && l.r.pc == ReclaimHandoff && ReleaseReply(k, l, l')
    ensures LInv(k, l')
  {
  }

  /** Going forward without a call keeps the invariant if the stage fits the new place. */
  lemma ForwardKeeps(k: Key, l: Local, r: Req)
    requires LInv(k, l) && Rank(l.r.pc) < Rank(r.pc) <= 14
    requires r == l.r.(pc := r.pc, stage := r.stage, trace := r.trace, placed := r.placed) && StageFits(r) && IsPath(r.trace, r.stage)
    requires r.pc == Finish ==> !l.cancelled
    ensures LInv(k, l.(r := r))
  {
    assert !Terminal(r.stage);
  }

  lemma CheckKeeps(k: Key, l: Local, l': Local, pass: Req)
    requires LInv(k, l) && CheckStep(l, l', pass) && Rank(l.r.pc) < Rank(pass.pc) <= 14
    requires pass == l.r.(pc := pass.pc, stage := pass.stage, trace := pass.trace) && StageFits(pass)
    requires IsPath(pass.trace, pass.stage)
    ensures LInv(k, l')
  {
    if l' == l.(r := pass) && !l.cancelled {
      ForwardKeeps(k, l, pass);
    } else {
      HandlerEntered(k, l, l'.r.pc);
    }
  }

  /** Entering an exception handler from the main line. */
  lemma HandlerEntered(k: Key, l: Local, pc: Pc)
    requires LInv(k, l) && Rank(l.r.pc) <= 14 && pc in {OnCancelled, OnTimeout, OnError}
    ensures LInv(k, At(l, pc))
  {
  }

  lemma CancelledByItself(k: Key, l: Local, told: bool)
    requires LInv(k, l) && Rank(l.r.pc) <= 20 && l.r.pc != Finish
    ensures LInv(k, l.(cancelled := true, r := l.r.(told := told)))
  {
  }

  lemma SettleKeeps(k: Key, l: Local, t: Stage)
    requires LInv(k, l) && l.r.pc in {OnTimeout, OnError} && !Terminal(l.r.stage) && t in {Cancelled, TimedOut, Broken}
    requires t == Broken ==> !l.cancelled
    ensures LInv(k, At(l, Settle(t)))
  {
  }

  /** Recording the outcome: the last transition, then clean-up. */
  lemma OutcomeKeeps(k: Key, l: Local, t: Stage, next: Pc)
    requires LInv(k, l) && (l.r.pc == Settle(t) || (l.r.pc == OnCancelled && t == Cancelled) || (l.r.pc == Finish && t == Finished))
    requires next == ReclaimP || (next == OnError && t == Finished)
    ensures LInv(k, l.(r := Move(l.r, t, next)))
  {
    assert Allowed(l.r.stage, t);
    MoveKeepsPath(l.r, t, next);
    OutcomeFits(k, l, Move(l.r, t, next).trace, t, next);
  }

  lemma OutcomeFits(k: Key, l: Local, trace: Trace, t: Stage, next: Pc)
    requires LInv(k, l) && (l.r.pc == Settle(t) || (l.r.pc == OnCancelled && t == Cancelled) || (l.r.pc == Finish && t == Finished))
    requires (next == ReclaimP || (next == OnError && t == Finished)) && IsPath(trace, t)
    ensures LInv(k, l.(r := l.r.(stage := t, trace := trace, pc := next)))
  {
  }

  lemma MainLineKeeps(k: Key, l: Local, l': Local)
    requires LInv(k, l) && Proceed(k, l, l') && l.r.pc in {Encode, PlaceRoles, Probe, MaybeCancel}
    ensures LInv(k, l')
  {
    match l.r.pc
    case Encode => EncodeKeeps(k, l, l');
    case PlaceRoles => PlaceKeeps(k, l, l');
    case Probe => ProbeKeeps(k, l, l');
    case MaybeCancel => MaybeCancelKeeps(k, l, l');
  }

  lemma EncodeKeeps(k: Key, l: Local, l': Local)
    requires LInv(k, l) && l.r.pc == Encode && (l' == At(l, Check2) || l' == At(l, OnError) || l' == At(l, OnTimeout))
    ensures LInv(k, l')
  {
    if l' == At(l, Check2) { ForwardKeeps(k, l, l'.r); } else { HandlerEntered(k, l, l'.r.pc); }
  }

  lemma PlaceKeeps(k: Key, l: Local, l': Local)
    requires LInv(k, l) && l.r.pc == PlaceRoles
    requires l' == l.(r := Move(l.r.(placed := true), Reserve, Probe)) || l' == At(l, OnError)
    ensures LInv(k, l')
  {
    if l' == At(l, OnError) {
      HandlerEntered(k, l, OnError);
    } else {
      MoveKeepsPath(l.r.(placed := true), Reserve, Probe);
      ForwardKeeps(k, l, l'.r);
    }
  }

  lemma ProbeKeeps(k: Key, l: Local, l': Local)
    requires LInv(k, l) && l.r.pc == Probe && (l' == At(l, ReserveD) || l' == At(l, OnError) || l' == At(l, OnTimeout))
    ensures LInv(k, l')
  {
    if l' == At(l, ReserveD) { ForwardKeeps(k, l, l'.r); } else { HandlerEntered(k, l, l'.r.pc); }
  }

  lemma MaybeCancelKeeps(k: Key, l: Local, l': Local)
    requires LInv(k, l) && l.r.pc == MaybeCancel
    requires l' == At(l, OnCancelled).(cancelled := true) || l' == l.(r := Move(l.r, DecodeStage, RunDecode))
    ensures LInv(k, l')
  {
    if l' == At(l, OnCancelled).(cancelled := true) {
      HandlerEntered(k, l, OnCancelled);
      CancelledByItself(k, At(l, OnCancelled), l.r.told);
    } else {
      MoveKeepsPath(l.r, DecodeStage, RunDecode);
      ForwardKeeps(k, l, l'.r);
    }
  }

  lemma LeaveKeeps(k: Key, l: Local)
    requires LInv(k, l) && l.r.pc == Leave
    ensures LInv(k, At(l, Done).(cancelled := false))
  {
  }

  lemma LateErrorKeeps(k: Key, l: Local)
    requires LInv(k, l) && l.r.pc == OnError && Terminal(l.r.stage)
    ensures LInv(k, At(l, ReclaimP))
  {
  }

  /** Nothing to give back. */
  lemma SkipPKeeps(k: Key, l: Local)
    requires LInv(k, l) && l.r.pc == ReclaimP && l.r.p.res == None
    ensures LInv(k, At(l, ReclaimD))
  {
  }

  lemma SkipDKeeps(k: Key, l: Local)
    requires LInv(k, l) && l.r.pc == ReclaimD && l.r.d.res == None
    ensures LInv(k, At(l, ReclaimHandoff))
  {
  }

  lemma SkipHandoffKeeps(k: Key, l: Local)
    requires LInv(k, l) && l.r.pc == ReclaimHandoff && !l.r.handoff
    ensures LInv(k, At(l, Leave))
  {
  }

  /** Every step of a submit call keeps its invariant; in particular no transition is ever illegal. */
  lemma StepKeepsLInv(k: Key, l: Local, l': Local)
    requires LInv(k, l) && SubmitStep(k, l, l')
    ensures LInv(k, l')
  {
    if OutOfTime(l) { HandlerEntered(k, l, OnTimeout); } else { ProceedKeepsLInv(k, l, l'); }
  }

  lemma ProceedKeepsLInv(k: Key, l: Local, l': Local)
    requires LInv(k, l) && Proceed(k, l, l')
    ensures LInv(k, l')
  {
    match l.r.pc
    case Check1 | Check2 | Check3 | Check4 | Check5 | Check6 => ChecksKeep(k, l, l');
    case Encode | PlaceRoles | Probe | MaybeCancel => MainLineKeeps(k, l, l');
    case ReserveD | ReserveP | RunPrefill | RunDecode => CallKeeps(k, l, l');
    case Finish | OnCancelled | Settle(_) => OutcomesKeep(k, l, l');
    case OnTimeout | OnError => ErrorsKeep(k, l, l');
    case ReclaimP | ReclaimD | ReclaimHandoff => ReclaimKeeps(k, l, l');
    case Leave => LeaveKeeps(k, l);
  }

  lemma ChecksKeep(k: Key, l: Local, l': Local)
    requires LInv(k, l) && Proceed(k, l, l') && l.r.pc in {Check1, Check2, Check3, Check4, Check5, Check6}
    ensures LInv(k, l')
  {
    match l.r.pc
    case Check1 => FirstCheckKeeps(k, l, l');
    case Check2 => PlainCheckKeeps(k, l, l', PlaceRoles);
    case Check3 => PlainCheckKeeps(k, l, l', ReserveP);
    case Check4 => PlainCheckKeeps(k, l, l', RunPrefill);
    case Check5 => PlainCheckKeeps(k, l, l', MaybeCancel);
    case Check6 => PlainCheckKeeps(k, l, l', Finish);
  }

  lemma FirstCheckKeeps(k: Key, l: Local, l': Local)
    requires LInv(k, l) && l.r.pc == Check1 && CheckStep(l, l', Move(l.r, Place, Encode))
    ensures LInv(k, l')
  {
    MoveKeepsPath(l.r, Place, Encode);
    CheckKeeps(k, l, l', Move(l.r, Place, Encode));
  }

  lemma PlainCheckKeeps(k: Key, l: Local, l': Local, next: Pc)
    requires LInv(k, l) && CheckStep(l, l', l.r.(pc := next)) && Rank(l.r.pc) < Rank(next) <= 14 && StageFits(l.r.(pc := next))
    ensures LInv(k, l')
  {
    CheckKeeps(k, l, l', l.r.(pc := next));
  }

  lemma OutcomesKeep(k: Key, l: Local, l': Local)
    requires LInv(k, l) && Proceed(k, l, l')
    requires l.r.pc in {Finish, OnCancelled} || l.r.pc.Settle?
    ensures LInv(k, l')
  {
    match l.r.pc
    case Finish => FinishKeeps(k, l, l');
    case OnCancelled => OutcomeKeeps(k, l, Cancelled, ReclaimP);
    case Settle(t) => OutcomeKeeps(k, l, t, ReclaimP);
  }

  lemma FinishKeeps(k: Key, l: Local, l': Local)
    requires LInv(k, l) && l.r.pc == Finish
    requires l' == l.(r := Move(l.r, Finished, ReclaimP)) || l' == l.(r := Move(l.r, Finished, OnError))
    ensures LInv(k, l')
  {
    OutcomeKeeps(k, l, Finished, ReclaimP);
    OutcomeKeeps(k, l, Finished, OnError);
  }

  lemma ErrorsKeep(k: Key, l: Local, l': Local)
    requires LInv(k, l) && Proceed(k, l, l') && l.r.pc in {OnTimeout, OnError}
    ensures LInv(k, l')
  {
    match l.r.pc
    case OnTimeout => TimeoutKeeps(k, l);
    case OnError => ErrorKeeps(k, l, l');
  }

  lemma TimeoutKeeps(k: Key, l: Local)
    requires LInv(k, l) && l.r.pc == OnTimeout
    ensures LInv(k, TimeoutHandled(l))
  {
    var told := l.r.told || l.r.placed;
    CancelledByItself(k, l, told);
    SettleKeeps(k, l.(cancelled := true, r := l.r.(told := told)), TimedOut);
  }

  lemma ErrorKeeps(k: Key, l: Local, l': Local)
    requires LInv(k, l) && l.r.pc == OnError && ErrorStep(l, l')
    ensures LInv(k, l')
  {
    if Terminal(l.r.stage) {
      LateErrorKeeps(k, l);
    } else {
      SettleKeeps(k, l, Cancelled);
      SettleKeeps(k, l, TimedOut);
      if !l.cancelled { SettleKeeps(k, l, Broken); }
    }
  }

  lemma CallKeeps(k: Key, l: Local, l': Local)
    requires LInv(k, l) && Proceed(k, l, l') && l.r.pc in {ReserveD, ReserveP, RunPrefill, RunDecode}
    ensures LInv(k, l')
  {
    match l.r.pc
    case ReserveD => var now :| ReserveDReply(k, l, l', now); ReserveDKeeps(k, l, l', now);
    case ReserveP => var required, now :| ReservePReply(k, l, l', required, now); ReservePKeeps(k, l, l', required, now);
    case RunPrefill =>
      var bundle, end, now :| PrefillReply(k, l, l', bundle, end, now);
      PrefillKeeps(k, l, l', bundle, end, now);
    case RunDecode =>
      var oddBytes, success, now, later :| DecodeReply(k, l, l', oddBytes, success, now, later);
      DecodeKeeps(k, l, l', oddBytes, success, now, later);
  }

  lemma ReclaimKeeps(k: Key, l: Local, l': Local)
    requires LInv(k, l) && Proceed(k, l, l') && l.r.pc in {ReclaimP, ReclaimD, ReclaimHandoff}
    ensures LInv(k, l')
  {
    match l.r.pc
    case ReclaimP => if l.r.p.res == None { SkipPKeeps(k, l); } else { UnreservePKeeps(k, l, l'); }
    case ReclaimD => if l.r.d.res == None { SkipDKeeps(k, l); } else { UnreserveDKeeps(k, l, l'); }
    case ReclaimHandoff => if !l.r.handoff { SkipHandoffKeeps(k, l); } else { ReleaseKeeps(k, l, l'); }
  }
}
