/** What a client may rely on in every run of the Prefill/Decode system. */
module PdTheorems {
  import opened MemoryBudget
  import opened Options
  import opened PdLedger
  import opened PdCoordinator
  import opened PdSystem

  /** The records form one path through the transition table and exactly the last one is terminal. */
  ghost predicate OneOutcome(r: Req) {
    && IsPath(r.trace, r.stage) && r.trace != [] && Terminal(r.stage)
    && forall i :: 0 <= i < |r.trace| ==> (Terminal(r.trace[i].1) <==> i == |r.trace| - 1)
  }

  lemma EveryRequestHasOneOutcome(p: Worker, d: Worker, run: seq<Sys>, i: nat, k: Key)
    requires Run(p, d, run) && i < |run| && k in run[i].reqs
    ensures IsPath(run[i].reqs[k].trace, run[i].reqs[k].stage) && run[i].reqs[k].pc != Crashed
    ensures run[i].reqs[k].pc == Done ==> OneOutcome(run[i].reqs[k])
  {
    RunKeepsInv(p, d, run, i);
    assert LInv(k, LocalOf(run[i], k));
    var r := run[i].reqs[k];
    if r.pc == Done {
      forall j | 0 <= j < |r.trace| ensures Terminal(r.trace[j].1) <==> j == |r.trace| - 1 {
        OneTerminal(r.trace, r.stage, j);
      }
    }
  }

  /** Admitted generations of an id strictly increase, and only active requests are marked cancelled. */
  lemma AdmissionsIncrease(p: Worker, d: Worker, run: seq<Sys>, i: nat)
    requires Run(p, d, run) && i < |run|
    ensures Increasing(run[i].admitted)
    ensures forall k :: k in run[i].reqs <==> k in run[i].admitted
    ensures run[i].gate.cancelled <= run[i].gate.active
    ensures forall k :: k in run[i].gate.active <==> k in run[i].reqs && run[i].reqs[k].pc != Done
  {
    RunKeepsInv(p, d, run, i);
  }

  // ---------- Cancellation ----------

  /** A step that is not this request's own leaves it alone, or marks it cancelled. */
  lemma OthersLeave(s: Sys, s': Sys, a: Action, j: Key, k: Key)
    requires Step(s, s', a, j) && (a != Advance || j != k) && LogFits(s) && k in s.reqs
    ensures k in s'.reqs && (s'.reqs[k] == s.reqs[k] || s'.reqs[k] == Marked(s.reqs[k]))
  {
  }

  lemma InTimeStays(baseP: PerPool, baseD: PerPool, s: Sys, s': Sys, k: Key)
    requires SysInv(baseP, baseD, s) && Next(s, s') && k in s.reqs
    ensures k in s'.reqs && (s.reqs[k].inTime ==> s'.reqs[k].inTime)
  {
    var a, j :| Step(s, s', a, j);
    if a == Advance && j == k {
      var l :| Advanced(k, LocalOf(s, k), l) && s' == Put(s, k, l);
      AdvanceKeepsReqs(baseP, baseD, s, k, l);
    } else {
      OthersLeave(s, s', a, j, k);
    }
  }

  lemma {:induction false} InTimeForever(p: Worker, d: Worker, run: seq<Sys>, c: nat, i: nat, k: Key)
    requires Run(p, d, run) && c <= i < |run| && k in run[c].reqs && run[c].reqs[k].inTime
    ensures k in run[i].reqs && run[i].reqs[k].inTime
    decreases i
  {
    if c < i {
      InTimeForever(p, d, run, c, i - 1, k);
      RunKeepsInv(p, d, run, i - 1);
      assert NextAt(run, i);
      InTimeStays(p.used, d.used, run[i - 1], run[i], k);
    }
  }

  /** A cancel accepted up to the check after decoding decides the outcome: the request ends cancelled or
      timed out, never finished or failed, whatever else happens. */
  lemma TimelyCancelDecides(p: Worker, d: Worker, run: seq<Sys>, c: nat, i: nat, k: Key)
    requires Run(p, d, run) && c + 1 <= i < |run|
    requires k in run[c].gate.active && k in run[c].reqs && Rank(run[c].reqs[k].pc) <= Rank(Check6)
    requires Step(run[c], run[c + 1], Cancel, k)
    ensures k in run[i].reqs && (Terminal(run[i].reqs[k].stage) ==> run[i].reqs[k].stage in {Cancelled, TimedOut})
  {
    ReqsOfRun(p, d, run, c);
    CancelInTime(run[c], run[c + 1], k);
    InTimeForever(p, d, run, c + 1, i, k);
    ReqsOfRun(p, d, run, i);
    Decided(run[i], k);
  }

  lemma ReqsOfRun(p: Worker, d: Worker, run: seq<Sys>, i: nat)
    requires Run(p, d, run) && i < |run|
    ensures ReqsFit(run[i])
  {
    RunKeepsInv(p, d, run, i);
  }

  lemma CancelInTime(s: Sys, s': Sys, k: Key)
    requires ReqsFit(s) && k in s.reqs && k in s.gate.active && Rank(s.reqs[k].pc) <= Rank(Check6) && Step(s, s', Cancel, k)
    ensures k in s'.reqs && s'.reqs[k].inTime
  {
    assert LInv(k, LocalOf(s, k));
  }

  lemma Decided(s: Sys, k: Key)
    requires ReqsFit(s) && k in s.reqs && s.reqs[k].inTime
    ensures Terminal(s.reqs[k].stage) ==> s.reqs[k].stage in {Cancelled, TimedOut}
  {
    assert LInv(k, LocalOf(s, k));
  }

  // ---------- Reservations ----------

  /** Used by an answered prefill or decode call, or handed to one unreserve call: exactly one of the two for
      an acknowledged reservation, neither for one that was never acknowledged. */
  ghost predicate UsedOrReturned(n: Note) {
    && n.res == None && n.unreserved <= 1
    && (n.ack <==> n.used || n.unreserved == 1) && !(n.used && n.unreserved == 1)
  }

  lemma ReservationsAccounted(p: Worker, d: Worker, run: seq<Sys>, i: nat, k: Key)
    requires Run(p, d, run) && i < |run| && k in run[i].reqs && run[i].reqs[k].pc == Done
    ensures UsedOrReturned(run[i].reqs[k].p) && UsedOrReturned(run[i].reqs[k].d)
  {
    RunKeepsInv(p, d, run, i);
    assert LInv(k, LocalOf(run[i], k));
  }

  // ---------- Calls that are turned away ----------

  /** The calls that can leave something behind at a worker: the prefill and the decode call, the two unreserve
      calls and the release call. */
  datatype Kind = ToPrefill | ToDecode | ToReturnP | ToReturnD | ToRelease

  /** This step of the submit call for `k` is an answered call of this kind that the worker, as it stood, turned
      away: its queue was full, or a prefill or decode call was refused before it took its reservation over. */
  ghost predicate TurnsAway(kind: Kind, k: Key, l: Local, l': Local) {
    match kind
    case ToPrefill => TurnsPrefillAway(k, l, l')
    case ToDecode => TurnsDecodeAway(k, l, l')
    case ToReturnP => l.r.pc == ReclaimP && l.r.p.res.Some? && l' == ReturnedP(k, l) && Full(l.p)
    case ToReturnD => l.r.pc == ReclaimD && l.r.d.res.Some? && l' == ReturnedD(k, l) && Full(l.d)
    case ToRelease => l.r.pc == ReclaimHandoff && l.r.held && l' == ReleasedHandoff(k, l) && Full(l.p)
  }

  ghost predicate TurnsPrefillAway(k: Key, l: Local, l': Local) {
    && l.r.pc == RunPrefill && l.r.p.res.Some?
    && exists bundle, end, now ::
         l' == Prefilled(k, l, bundle, end, now) && PrefillTurnedAway(l.p, k, l.r.p.res.value, l.r.maxNewTokens, bundle)
  }

  ghost predicate TurnsDecodeAway(k: Key, l: Local, l': Local) {
    && l.r.pc == RunDecode && l.r.d.res.Some?
    && exists oddBytes, success, now, later ::
         l' == Decoded(k, l, oddBytes, success, now, later) && DecodeTurnedAway(l.d, k, l.r.deadline, now)
  }

  /** What the request has noted of calls that were turned away. */
  ghost predicate SameBits(l: Local, l': Local) {
    l'.r.p.refused == l.r.p.refused && l'.r.d.refused == l.r.d.refused && l'.r.stuck == l.r.stuck
  }

  /** The request notes a call that was turned away when it makes it, and keeps the note. */
  ghost predicate BitsTell(k: Key, l: Local, l': Local) {
    && (l'.r.p.refused <==> l.r.p.refused || TurnsAway(ToPrefill, k, l, l') || TurnsAway(ToReturnP, k, l, l'))
    && (l'.r.d.refused <==> l.r.d.refused || TurnsAway(ToDecode, k, l, l') || TurnsAway(ToReturnD, k, l, l'))
    && (l'.r.stuck <==> l.r.stuck || TurnsAway(ToRelease, k, l, l'))
  }

  /** Steps that make none of these calls. */
  lemma NoCall(k: Key, l: Local, l': Local)
    requires SameBits(l, l') && l.r.pc !in {RunPrefill, RunDecode, ReclaimP, ReclaimD, ReclaimHandoff}
    ensures BitsTell(k, l, l')
  {
  }

  /** Without an answer the coordinator does not forget a reservation it is about to use. */
  lemma NoAnswer(k: Key, l: Local, l': Local)
    requires l'.r.p == l.r.p && l'.r.d == l.r.d && l'.r.stuck == l.r.stuck && l'.r.held == l.r.held
    ensures BitsTell(k, l, l')
  {
    forall kind ensures !TurnsAway(kind, k, l, l') {
      if TurnsAway(kind, k, l, l') { Forgets(kind, k, l, l'); }
    }
  }

  /** Each such call makes the coordinator forget what it had noted. */
  lemma Forgets(kind: Kind, k: Key, l: Local, l': Local)
    requires TurnsAway(kind, k, l, l')
    ensures match kind
      case ToPrefill | ToReturnP => l.r.p.res.Some? && l'.r.p.res == None
      case ToDecode | ToReturnD => l.r.d.res.Some? && l'.r.d.res == None
      case ToRelease => l.r.held && !l'.r.held
  {
    match kind
    case ToPrefill => PrefillNoted(k, l, l');
    case ToDecode =>
      var o, s, n, m :| l' == Decoded(k, l, o, s, n, m) && DecodeTurnedAway(l.d, k, l.r.deadline, n);
      DecodedBits(k, l, o, s, n, m);
    case _ =>
  }

  lemma PrefillBits(k: Key, l: Local, bundle: Option<Bundle>, end: PrefillEnd, now: int)
    requires NotesFit(l.r) && l.r.pc == RunPrefill && l.r.p.res.Some?
    ensures BitsTell(k, l, Prefilled(k, l, bundle, end, now))
  {
    PrefilledBits(k, l, bundle, end, now);
    var l' := Prefilled(k, l, bundle, end, now);
    if PrefillTurnedAway(l.p, k, l.r.p.res.value, l.r.maxNewTokens, bundle) {
      assert TurnsPrefillAway(k, l, l');
    }
    if TurnsPrefillAway(k, l, l') { PrefillNoted(k, l, l'); }
    OnlyPrefillAsked(k, l, l');
  }

  lemma PrefillNoted(k: Key, l: Local, l': Local)
    requires TurnsPrefillAway(k, l, l')
    ensures l'.r.p.refused && l'.r.p.res == None
  {
    var b, e, n :| l' == Prefilled(k, l, b, e, n) && PrefillTurnedAway(l.p, k, l.r.p.res.value, l.r.maxNewTokens, b);
    PrefilledBits(k, l, b, e, n);
  }

  lemma OnlyPrefillAsked(k: Key, l: Local, l': Local)
    requires l.r.pc == RunPrefill && !l.r.p.refused && l'.r.d == l.r.d && l'.r.stuck == l.r.stuck
    requires l'.r.p.refused <==> TurnsPrefillAway(k, l, l')
    ensures BitsTell(k, l, l')
  {
  }

  lemma PrefilledBits(k: Key, l: Local, bundle: Option<Bundle>, end: PrefillEnd, now: int)
    requires l.r.p.res.Some?
    ensures var m := Prefilled(k, l, bundle, end, now).r;
      && (m.p.refused <==> PrefillTurnedAway(l.p, k, l.r.p.res.value, l.r.maxNewTokens, bundle))
      && m.p.res == None && m.d == l.r.d && m.stuck == l.r.stuck
  {
  }

  lemma DecodeBits(k: Key, l: Local, oddBytes: nat, success: bool, now: int, later: int)
    requires NotesFit(l.r) && l.r.pc == RunDecode && l.r.d.res.Some?
    ensures BitsTell(k, l, Decoded(k, l, oddBytes, success, now, later))
  {
    DecodedBits(k, l, oddBytes, success, now, later);
    var l' := Decoded(k, l, oddBytes, success, now, later);
    if TurnsDecodeAway(k, l, l') {
      var o, s, n, m :| l' == Decoded(k, l, o, s, n, m) && DecodeTurnedAway(l.d, k, l.r.deadline, n);
      DecodedBits(k, l, o, s, n, m);
    }
  }

  lemma DecodedBits(k: Key, l: Local, oddBytes: nat, success: bool, now: int, later: int)
    requires l.r.d.res.Some?
    ensures var m := Decoded(k, l, oddBytes, success, now, later).r;
      && (m.d.refused <==> DecodeTurnedAway(l.d, k, l.r.deadline, now))
      && m.d.res == None && m.p == l.r.p && m.stuck == l.r.stuck
  {
  }

  lemma RunBits(k: Key, l: Local, l': Local)
    requires NotesFit(l.r) && Proceed(k, l, l') && l.r.pc in {RunPrefill, RunDecode}
    ensures BitsTell(k, l, l')
  {
    match l.r.pc
    case RunPrefill =>
      var bundle, end, now :| PrefillReply(k, l, l', bundle, end, now);
      if Unanswered(l, l', now) { NoAnswer(k, l, l'); } else { PrefillBits(k, l, bundle, end, now); }
    case RunDecode =>
      var oddBytes, success, now, later :| DecodeReply(k, l, l', oddBytes, success, now, later);
      if Unanswered(l, l', later) { NoAnswer(k, l, l'); } else { DecodeBits(k, l, oddBytes, success, now, later); }
  }

  lemma ReserveBits(k: Key, l: Local, l': Local)
    requires Proceed(k, l, l') && l.r.pc in {ReserveD, ReserveP}
    ensures SameBits(l, l')
  {
    match l.r.pc
    case ReserveD => var now :| ReserveDReply(k, l, l', now); ReserveDBits(k, l, l', now);
    case ReserveP => var required, now :| ReservePReply(k, l, l', required, now); ReservePBits(k, l, l', required, now);
  }

  lemma ReserveDBits(k: Key, l: Local, l': Local, now: int)
    requires ReserveDReply(k, l, l', now)
    ensures SameBits(l, l')
  {
    if !Unanswered(l, l', now) { ReservedDBits(k, l, now); }
  }

  lemma ReservePBits(k: Key, l: Local, l': Local, required: Required, now: int)
    requires ReservePReply(k, l, l', required, now)
    ensures SameBits(l, l')
  {
    if !Unanswered(l, l', now) { ReservedPBits(k, l, required, now); }
  }

  lemma ReservedDBits(k: Key, l: Local, now: int)
    ensures SameBits(l, ReservedD(k, l, now))
  {
  }

  lemma ReservedPBits(k: Key, l: Local, required: Required, now: int)
    ensures SameBits(l, ReservedP(k, l, required, now))
  {
    var o := Answer(l.p, k, AskP(l, required, now));
    if o.1.Granted? {
      assert SameBits(l, GrantHeard(l, o.0, o.1.id, now));
    }
  }

  lemma ReturnPBits(k: Key, l: Local, l': Local)
    requires NotesFit(l.r) && l.r.pc == ReclaimP && UnreservePReply(k, l, l')
    ensures BitsTell(k, l, l')
  {
  }

  lemma ReturnDBits(k: Key, l: Local, l': Local)
    requires NotesFit(l.r) && l.r.pc == ReclaimD && UnreserveDReply(k, l, l')
    ensures BitsTell(k, l, l')
  {
  }

  lemma ReleaseBits(k: Key, l: Local, l': Local)
    requires NotesFit(l.r) && l.r.pc == ReclaimHandoff && ReleaseReply(k, l, l')
    ensures BitsTell(k, l, l')
  {
  }

  lemma ReclaimBits(k: Key, l: Local, l': Local)
    requires NotesFit(l.r) && Proceed(k, l, l') && l.r.pc in {ReclaimP, ReclaimD, ReclaimHandoff}
    ensures BitsTell(k, l, l')
  {
    match l.r.pc
    case ReclaimP => if l.r.p.res.Some? { ReturnPBits(k, l, l'); } else { NoAnswer(k, l, l'); }
    case ReclaimD => if l.r.d.res.Some? { ReturnDBits(k, l, l'); } else { NoAnswer(k, l, l'); }
    case ReclaimHandoff => if l.r.handoff { ReleaseBits(k, l, l'); } else { NoAnswer(k, l, l'); }
  }

  lemma OtherBits(k: Key, l: Local, l': Local)
    requires Proceed(k, l, l') && l.r.pc !in {ReserveD, ReserveP, RunPrefill, RunDecode, ReclaimP, ReclaimD, ReclaimHandoff}
    ensures SameBits(l, l')
  {
    match l.r.pc
    case OnCancelled | OnTimeout | OnError | Settle(_) => HandlersStill(k, l, l');
    case Check1 | Check2 | Check3 | Check4 | Check5 | Check6 => ChecksStill(k, l, l');
    case MaybeCancel | Finish => EndOfLineStill(k, l, l');
    case Encode | PlaceRoles | Probe => MainLineStill(k, l, l');
    case Leave =>
  }

  lemma ProceedBits(k: Key, l: Local, l': Local)
    requires NotesFit(l.r) && Proceed(k, l, l')
    ensures BitsTell(k, l, l')
  {
    match l.r.pc
    case RunPrefill | RunDecode => RunBits(k, l, l');
    case ReclaimP | ReclaimD | ReclaimHandoff => ReclaimBits(k, l, l');
    case ReserveD | ReserveP => ReserveBits(k, l, l'); NoCall(k, l, l');
    case _ => OtherBits(k, l, l'); NoCall(k, l, l');
  }

  lemma AdvancedBits(k: Key, l: Local, l': Local)
    requires NotesFit(l.r) && Advanced(k, l, l')
    ensures BitsTell(k, l, l')
  {
    if LateStep(k, l, l') || OutOfTime(l) { NoAnswer(k, l, l'); } else { ProceedBits(k, l, l'); }
  }

  lemma AdvanceBits(baseP: PerPool, baseD: PerPool, s: Sys, s': Sys, k: Key)
    requires SysInv(baseP, baseD, s) && Step(s, s', Advance, k) && k in s.reqs
    ensures k in s'.reqs && BitsTell(k, LocalOf(s, k), LocalOf(s', k))
  {
    var l :| Advanced(k, LocalOf(s, k), l) && s' == Put(s, k, l);
    assert LInv(k, LocalOf(s, k));
    AdvancedKeeps(k, LocalOf(s, k), l);
    PutGate(s, k, l);
    assert LocalOf(s', k) == l;
    AdvancedBits(k, LocalOf(s, k), l);
  }

  lemma NextBits(baseP: PerPool, baseD: PerPool, s: Sys, s': Sys, k: Key)
    requires SysInv(baseP, baseD, s) && Next(s, s') && k in s.reqs
    ensures k in s'.reqs && BitsTell(k, LocalOf(s, k), LocalOf(s', k))
  {
    var a, j :| Step(s, s', a, j);
    if a == Advance && j == k {
      AdvanceBits(baseP, baseD, s, s', k);
    } else {
      OthersLeave(s, s', a, j, k);
      NoAnswer(k, LocalOf(s, k), LocalOf(s', k));
    }
  }

  /** The step that leads to moment `j` is such a call for `k`. */
  ghost predicate TurnedAwayAt(kind: Kind, run: seq<Sys>, j: nat, k: Key)
    requires 0 < j < |run|
  {
    k in run[j - 1].reqs && k in run[j].reqs && TurnsAway(kind, k, LocalOf(run[j - 1], k), LocalOf(run[j], k))
  }

  /** The keys for which some step up to moment `i` is such a call. */
  ghost function TurnedAway(kind: Kind, run: seq<Sys>, i: nat): set<Key>
    requires i < |run|
  {
    if i == 0 then {} else TurnedAway(kind, run, i - 1) + set k | k in run[i].reqs && TurnedAwayAt(kind, run, i, k)
  }

  /** What the request of `k` has noted at moment `i` is what happened in the run so far. */
  ghost predicate NotedInRun(run: seq<Sys>, i: nat, k: Key)
    requires i < |run|
  {
    var known := k in run[i].reqs;
    && (known && run[i].reqs[k].p.refused <==> k in TurnedAway(ToPrefill, run, i) || k in TurnedAway(ToReturnP, run, i))
    && (known && run[i].reqs[k].d.refused <==> k in TurnedAway(ToDecode, run, i) || k in TurnedAway(ToReturnD, run, i))
    && (known && run[i].reqs[k].stuck <==> k in TurnedAway(ToRelease, run, i))
  }

  /** A request's note says that a call was turned away if and only if some step of the run was such a call. */
  lemma {:induction false} TurnedAwaySometime(p: Worker, d: Worker, run: seq<Sys>, i: nat, k: Key)
    requires Run(p, d, run) && i < |run|
    ensures NotedInRun(run, i, k)
    decreases i
  {
    if i > 0 {
      TurnedAwaySometime(p, d, run, i - 1, k);
      BitsAt(p, d, run, i, k);
      NotedOneMore(run, i, k);
    }
  }

  /** The step that leads to moment `i` does to the notes of `k` what it should. */
  ghost predicate BitsTellAt(run: seq<Sys>, i: nat, k: Key)
    requires 0 < i < |run|
  {
    if k in run[i - 1].reqs then k in run[i].reqs && BitsTell(k, LocalOf(run[i - 1], k), LocalOf(run[i], k))
    else k in run[i].reqs ==> Unmarked(run[i].reqs[k])
  }

  lemma BitsAt(p: Worker, d: Worker, run: seq<Sys>, i: nat, k: Key)
    requires Run(p, d, run) && 0 < i < |run|
    ensures BitsTellAt(run, i, k)
  {
    RunKeepsInv(p, d, run, i - 1);
    assert NextAt(run, i);
    if k in run[i - 1].reqs {
      NextBits(p.used, d.used, run[i - 1], run[i], k);
    } else {
      JustAdmitted(run[i - 1], run[i], k);
    }
  }

  lemma NotedOneMore(run: seq<Sys>, i: nat, k: Key)
    requires 0 < i < |run| && NotedInRun(run, i - 1, k) && BitsTellAt(run, i, k)
    ensures NotedInRun(run, i, k)
  {
    forall kind: Kind
      ensures k in TurnedAway(kind, run, i) <==>
                k in TurnedAway(kind, run, i - 1) || TurnedAwayAt(kind, run, i, k)
    {
    }
  }

  ghost predicate Unmarked(r: Req) {
    !r.p.refused && !r.d.refused && !r.stuck
  }

  lemma JustAdmitted(s: Sys, s': Sys, k: Key)
    requires Next(s, s') && k !in s.reqs
    ensures k in s'.reqs ==> Unmarked(s'.reqs[k])
  {
    var a, j :| Step(s, s', a, j);
  }

  // ---------- Hand-offs ----------

  /** A prefill that fails once its hold is entered leaves the bytes held, and the coordinator, though it is told
      of a failure, is going to release them. */
  lemma LateFailureIsHeld(k: Key, l: Local, bundle: Option<Bundle>, now: int)
    requires LInv(k, l) && l.r.pc == RunPrefill && !l.r.lost && l.r.p.res.Some?
    requires !PrefillTurnedAway(l.p, k, l.r.p.res.value, l.r.maxNewTokens, bundle) && now < l.p.reservations[k].deadline
    ensures var m := Prefilled(k, l, bundle, PublishedThenBroke, now);
      && m.r.pc == OnError && m.p.used == l.p.used && m.r.handoff && m.r.held
      && k !in m.p.reservations && k in m.p.holds && m.p.holds[k] == l.p.reservations[k].demands
  {
  }

  /** The answered release gives the held bytes back, unless the queue is full. */
  lemma ReleaseGivesBack(base: PerPool, k: Key, l: Local)
    requires LInv(k, l) && l.r.pc == ReclaimHandoff && !l.r.lost && l.r.held && !Full(l.p) && Balanced(base, l.p)
    ensures Covers(l.p.used, l.p.holds[k])
    ensures var m := ReleasedHandoff(k, l); k !in m.p.holds && m.p.used == Minus(l.p.used, l.p.holds[k])
  {
    RecordedIsCovered(base, l.p, k);
  }

  // ---------- Budgets ----------

  /** The request is over and every call it made was answered. */
  predicate Over(r: Req) {
    r.pc == Done && !r.lost
  }

  ghost predicate Settled(s: Sys) {
    forall k :: k in s.reqs ==> Over(s.reqs[k])
  }

  lemma ReservedMeansUsed(base: PerPool, w: Worker, k: Key)
    requires Balanced(base, w) && k in w.reservations && OwedSomething(w.reservations[k].demands)
    ensures w.used[IndexOf(KV)] > base[IndexOf(KV)]
  {
    HeldRemove(DemandsOf(w.reservations), k, IndexOf(KV));
  }

  lemma HeldMeansUsed(base: PerPool, w: Worker, k: Key)
    requires Balanced(base, w) && k in w.holds && OwedSomething(w.holds[k])
    ensures w.used[IndexOf(KV)] > base[IndexOf(KV)]
  {
    HeldRemove(w.holds, k, IndexOf(KV));
  }

  /** A worker is back where it began exactly if it keeps nothing. */
  lemma BackIffEmpty(base: PerPool, w: Worker, reqs: map<Key, Req>)
    requires Balanced(base, w) && Known(w, reqs)
    ensures w.used == base <==> w.reservations == map[] && w.holds == map[]
  {
    if k :| k in w.reservations {
      ReservedMeansUsed(base, w, k);
    } else if k :| k in w.holds {
      HeldMeansUsed(base, w, k);
    } else {
      assert w.reservations == map[] && w.holds == map[];
      NothingKept(base, w);
    }
  }

  lemma WhatIsKept(baseP: PerPool, baseD: PerPool, s: Sys, k: Key)
    requires SysInv(baseP, baseD, s) && k in s.reqs && Over(s.reqs[k])
    ensures k in s.p.reservations <==> s.reqs[k].p.refused
    ensures k in s.d.reservations <==> s.reqs[k].d.refused
    ensures k in s.p.holds <==> s.reqs[k].stuck
    ensures k !in s.d.holds
  {
    assert LInv(k, LocalOf(s, k));
  }

  /** A request that is over has left something behind exactly where one of its calls was turned away. */
  lemma LeftBehind(p: Worker, d: Worker, run: seq<Sys>, i: nat, k: Key)
    requires Run(p, d, run) && i < |run| && (k in run[i].reqs ==> Over(run[i].reqs[k]))
    ensures k in run[i].p.reservations <==> k in TurnedAway(ToPrefill, run, i) + TurnedAway(ToReturnP, run, i)
    ensures k in run[i].d.reservations <==> k in TurnedAway(ToDecode, run, i) + TurnedAway(ToReturnD, run, i)
    ensures k in run[i].p.holds <==> k in TurnedAway(ToRelease, run, i)
    ensures k !in run[i].d.holds
  {
    RunKeepsInv(p, d, run, i);
    TurnedAwaySometime(p, d, run, i, k);
    if k in run[i].reqs {
      WhatIsKept(p.used, d.used, run[i], k);
    }
  }

  /** Once all requests are over and every call was answered, the prefill worker's budget is back where it began
      if and only if no prefill, unreserve or release call of the run was turned away. */
  lemma PrefillBudgetReturnsIff(p: Worker, d: Worker, run: seq<Sys>, i: nat)
    requires Run(p, d, run) && i < |run| && Settled(run[i])
    ensures run[i].p.used == p.used <==>
              TurnedAway(ToPrefill, run, i) + TurnedAway(ToReturnP, run, i) + TurnedAway(ToRelease, run, i) == {}
  {
    RunKeepsInv(p, d, run, i);
    BackIffEmpty(p.used, run[i].p, run[i].reqs);
    forall k
      ensures k in run[i].p.reservations <==> k in TurnedAway(ToPrefill, run, i) + TurnedAway(ToReturnP, run, i)
      ensures k in run[i].p.holds <==> k in TurnedAway(ToRelease, run, i)
    {
      LeftBehind(p, d, run, i, k);
    }
    EmptyIff(run[i].p.reservations, TurnedAway(ToPrefill, run, i) + TurnedAway(ToReturnP, run, i));
    EmptyIff(run[i].p.holds, TurnedAway(ToRelease, run, i));
  }

  /** The same for the decode worker and its decode and unreserve calls. */
  lemma DecodeBudgetReturnsIff(p: Worker, d: Worker, run: seq<Sys>, i: nat)
    requires Run(p, d, run) && i < |run| && Settled(run[i])
    ensures run[i].d.used == d.used <==> TurnedAway(ToDecode, run, i) + TurnedAway(ToReturnD, run, i) == {}
  {
    RunKeepsInv(p, d, run, i);
    BackIffEmpty(d.used, run[i].d, run[i].reqs);
    forall k
      ensures k in run[i].d.reservations <==> k in TurnedAway(ToDecode, run, i) + TurnedAway(ToReturnD, run, i)
      ensures k !in run[i].d.holds
    {
      LeftBehind(p, d, run, i, k);
    }
    EmptyIff(run[i].d.reservations, TurnedAway(ToDecode, run, i) + TurnedAway(ToReturnD, run, i));
    assert run[i].d.holds == map[];
  }

  lemma EmptyIff<V>(m: map<Key, V>, keys: set<Key>)
    requires forall k :: k in m <==> k in keys
    ensures m == map[] <==> keys == {}
  {
    if keys == {} { assert m == map[]; }
    if m == map[] { assert keys == {}; }
  }
}
