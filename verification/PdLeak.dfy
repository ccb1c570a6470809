/** Two concrete runs in which every call is answered and yet a reservation stays at the decode worker for good:
    a prompt cancel makes the worker refuse the decode call, and a full queue turns the unreserve call away. */
module PdLeak {
  import opened MemoryBudget
  import opened Options
  import opened PdLedger
  import opened PdCoordinator
  import opened PdSystem
  import opened PdTheorems

  const K := Key("r", 1)
  const DEADLINE := 100
  const ROOM: PerPool := [0, 0, 8, 8, 8, 0, 0]
  const NOTHING: PerPool := [0, 0, 0, 0, 0, 0, 0]

  /** A worker with blocks of one byte and one token. */
  const IDLE := Worker(1, 1, ROOM, NOTHING, map[], map[], 1, map[], map[], false, true, 0)

  // ---------- What the workers do ----------

  const PROBED := Required(2, 1, 0)
  const BUNDLE := Bundle(1, 1, 0)
  const GROWTH := [Demand(KV, 1)]
  const PROMPT := [Demand(KV, 2), Demand(Bundles, 1), Demand(Staging, 0)]

  /** The decode worker after granting, and after it was told of the cancel. */
  const RESERVED_D := Reserving(IDLE, K, Decode, DEADLINE, 1, NoRequirements, 0).0
  const TOLD_D := Cancelling(RESERVED_D, K).0
  /** The prefill worker after granting, after prefilling, and after releasing. */
  const RESERVED_P := Reserving(IDLE, K, Prefill, DEADLINE, 1, PROBED, 0).0
  const PREFILLED_P := Prefilling(RESERVED_P, K, 1, 1, Some(BUNDLE), Published, 0).0
  const RELEASED_P := Releasing(PREFILLED_P, K).0

  lemma Totals(i: nat)
    ensures Total(GROWTH, i) == if i == 2 then 1 else 0
    ensures Total(PROMPT, i) == if i == 2 then 2 else if i == 3 then 1 else 0
  {
    assert GROWTH[..0] == [];
    assert PROMPT[..2] == [PROMPT[0], PROMPT[1]] && PROMPT[..2][..1] == [PROMPT[0]] && PROMPT[..2][..1][..0] == [];
    assert Total(PROMPT[..2][..1][..0], i) == 0;
    assert Total(PROMPT[..2][..1], i) == if i == 2 then 2 else 0;
  }

  lemma BothGrant()
    ensures Reserving(IDLE, K, Decode, DEADLINE, 1, NoRequirements, 0) == (RESERVED_D, Granted(1))
    ensures RESERVED_D == Grant(IDLE, K, Reservation(1, Decode, DEADLINE, GROWTH))
    ensures Reserving(IDLE, K, Prefill, DEADLINE, 1, PROBED, 0) == (RESERVED_P, Granted(1))
    ensures RESERVED_P == Grant(IDLE, K, Reservation(1, Prefill, DEADLINE, PROMPT))
  {
    forall i | 0 <= i < POOLS ensures NOTHING[i] + Total(GROWTH, i) <= ROOM[i] && NOTHING[i] + Total(PROMPT, i) <= ROOM[i] {
      Totals(i);
    }
    assert KvBytes(IDLE, 1) == 1;
    assert Fits(IDLE, GROWTH) && Fits(IDLE, PROMPT);
    assert Wanted(IDLE, Decode, 1, NoRequirements) == GROWTH && Wanted(IDLE, Prefill, 1, PROBED) == PROMPT;
  }

  lemma PrefillTaken()
    ensures Prefilling(RESERVED_P, K, 1, 1, Some(BUNDLE), Published, 0) == (PREFILLED_P, Ok)
    ensures !PrefillRefused(RESERVED_P, K, 1, 1, Some(BUNDLE))
    ensures Releasing(PREFILLED_P, K) == (RELEASED_P, Ok)
  {
    BothGrant();
    assert KvBytes(RESERVED_P, 2) == 2;
    assert PrefillDemands(RESERVED_P, 1, BUNDLE) == PROMPT;
  }

  /** Before the cancel reaches it the worker would take the decode call; after, it refuses it. */
  lemma RefusedByTheCancel()
    ensures !DecodeRefused(RESERVED_D, K, DEADLINE, 0)
    ensures DecodeRefused(TOLD_D, K, DEADLINE, 0)
    ensures Decoding(TOLD_D, K, 1, 1, DEADLINE, 0, false, 0, 0) == (TOLD_D, Failed)
    ensures TOLD_D.used != NOTHING
  {
    BothGrant();
    Totals(2);
    assert Cancelling(RESERVED_D, K).1 == Ok;
    CancelRefusesDecode(RESERVED_D, K, K, DEADLINE, 0);
    assert TOLD_D.used[2] == 1;
  }

  /** Without the cancel any decode call in time would have given the reservation back, whatever became of it. */
  lemma OtherwiseGivenBack(oddBytes: nat, success: bool, now: int, later: int)
    requires now < DEADLINE
    ensures K !in Decoding(RESERVED_D, K, 1, 1, DEADLINE, oddBytes, success, now, later).0.reservations
  {
    BothGrant();
    assert KvBytes(RESERVED_D, 1) == 1;
    DecodeLeavesIffTurnedAway(RESERVED_D, K, 1, 1, DEADLINE, oddBytes, success, now, later);
  }

  // ---------- Runs ----------

  ghost predicate Leads(from: Sys, to: Sys) {
    exists run: seq<Sys> :: RunBetween(run, from, to)
  }

  ghost predicate RunBetween(run: seq<Sys>, from: Sys, to: Sys) {
    |run| > 0 && run[0] == from && run[|run| - 1] == to && forall i :: 0 < i < |run| ==> NextAt(run, i)
  }

  lemma Extend(from: Sys, s: Sys, s': Sys)
    requires Leads(from, s) && Next(s, s')
    ensures Leads(from, s')
  {
    var run :| RunBetween(run, from, s);
    var longer := run + [s'];
    forall i | 0 < i < |longer| ensures NextAt(longer, i) {
      if i < |run| { assert NextAt(run, i); }
    }
    assert RunBetween(longer, from, s');
  }

  lemma Nowhere(s: Sys)
    ensures Leads(s, s)
  {
    assert RunBetween([s], s, s);
  }

  /** The system with the single request K at `l`. */
  function Only(l: Local): Sys {
    Sys(Gate(map["r" := 1], if l.r.pc == Done then {} else {K}, if l.cancelled then {K} else {}), map[K := l.r], [K], l.p, l.d, l.clock)
  }

  lemma Walk(from: Sys, l: Local, l': Local)
    requires Leads(from, Only(l)) && SubmitStep(K, l, l') && l.r.pc != Done && (l'.r.pc == Done <==> l.r.pc == Leave)
    requires if l'.r.pc == Done then !l'.cancelled else l.cancelled ==> l'.cancelled
    ensures Leads(from, Only(l'))
  {
    OneStep(l, l');
    Extend(from, Only(l), Only(l'));
  }

  lemma OneStep(l: Local, l': Local)
    requires SubmitStep(K, l, l') && l.r.pc != Done
    requires if l'.r.pc == Done then !l'.cancelled else l.cancelled ==> l'.cancelled
    ensures Next(Only(l), Only(l'))
  {
    ReadOff(l);
    WriteBack(l, l');
    assert Advanced(K, LocalOf(Only(l), K), l');
    assert Step(Only(l), Only(l'), Advance, K);
  }

  lemma ReadOff(l: Local)
    requires l.r.pc != Done
    ensures LocalOf(Only(l), K) == l
  {
  }

  lemma WriteBack(l: Local, l': Local)
    requires l.r.pc != Done && if l'.r.pc == Done then !l'.cancelled else l.cancelled ==> l'.cancelled
    ensures Put(Only(l), K, l') == Only(l')
  {
    assert map[K := l.r][K := l'.r] == map[K := l'.r];
  }

  // ---------- A prompt cancel ----------

  const START := Start(IDLE, IDLE, 0)

  const T1: Trace := [(Prepare, Place)]
  const T2: Trace := T1 + [(Place, Reserve)]
  const T3: Trace := T2 + [(Reserve, PrefillStage)]
  const T4: Trace := T3 + [(PrefillStage, Handoff)]
  const T5: Trace := T4 + [(Handoff, DecodeStage)]
  const T6: Trace := T5 + [(DecodeStage, Cancelled)]
  const GRANTED := Note(Some(1), true, false, false, 0)
  const USED := Note(None, true, true, false, 0)
  const LEFT := Note(None, true, true, true, 0)

  /** The request with these notes, of which no call was lost. */
  function Plain(pc: Pc, stage: Stage, trace: Trace, d: Note, p: Note): Req {
    Req(pc, stage, trace, DEADLINE, 1, d, p, stage != Place, false, p == USED, p == USED, false, false, false)
  }

  lemma ReachEncode()
    ensures Leads(START, Only(Local(Plain(Encode, Place, T1, BLANK, BLANK), IDLE, IDLE, false, 0)))
  {
    Nowhere(START);
    var l := Local(New(DEADLINE, 1), IDLE, IDLE, false, 0);
    assert Step(START, Only(l), Submit(DEADLINE, 1), K);
    Extend(START, START, Only(l));
    var m := l.(r := Plain(Encode, Place, T1, BLANK, BLANK));
    assert CheckStep(l, m, Move(l.r, Place, Encode));
    Walk(START, l, m);
  }

  lemma ReachReserveD()
    ensures Leads(START, Only(Local(Plain(ReserveD, Reserve, T2, BLANK, BLANK), IDLE, IDLE, false, 0)))
  {
    ReachEncode();
    var l := Local(Plain(Encode, Place, T1, BLANK, BLANK), IDLE, IDLE, false, 0);
    Walk(START, l, At(l, Check2));
    Walk(START, At(l, Check2), At(l, PlaceRoles));
    var m := l.(r := Plain(Probe, Reserve, T2, BLANK, BLANK));
    Walk(START, At(l, PlaceRoles), m);
    Walk(START, m, At(m, ReserveD));
  }

  lemma ReachGranted()
    ensures Leads(START, Only(Local(Plain(Check3, Reserve, T2, GRANTED, BLANK), IDLE, RESERVED_D, false, 0)))
  {
    ReachReserveD();
    BothGrant();
    var l := Local(Plain(ReserveD, Reserve, T2, BLANK, BLANK), IDLE, IDLE, false, 0);
    var m := Local(Plain(Check3, Reserve, T2, GRANTED, BLANK), IDLE, RESERVED_D, false, 0);
    assert ReserveDReply(K, l, m, 0);
    Walk(START, l, m);
  }

  lemma ReachReserveP()
    ensures Leads(START, Only(Local(Plain(ReserveP, Reserve, T2, GRANTED, BLANK), IDLE, RESERVED_D, false, 0)))
  {
    ReachGranted();
    var m := Local(Plain(Check3, Reserve, T2, GRANTED, BLANK), IDLE, RESERVED_D, false, 0);
    Walk(START, m, At(m, ReserveP));
  }

  lemma PrefillGranted()
    ensures ReservedP(K, Local(Plain(ReserveP, Reserve, T2, GRANTED, BLANK), IDLE, RESERVED_D, false, 0), PROBED, 0)
         == Local(Plain(Check4, PrefillStage, T3, GRANTED, GRANTED), RESERVED_P, RESERVED_D, false, 0)
  {
    BothGrant();
  }

  lemma ReachPrefill()
    ensures Leads(START, Only(Local(Plain(RunPrefill, PrefillStage, T3, GRANTED, GRANTED), RESERVED_P, RESERVED_D, false, 0)))
  {
    ReachReserveP();
    PrefillGranted();
    var l := Local(Plain(ReserveP, Reserve, T2, GRANTED, BLANK), IDLE, RESERVED_D, false, 0);
    var m := Local(Plain(Check4, PrefillStage, T3, GRANTED, GRANTED), RESERVED_P, RESERVED_D, false, 0);
    assert ReservePReply(K, l, m, PROBED, 0);
    Walk(START, l, m);
    Walk(START, m, At(m, RunPrefill));
  }

  lemma PrefillAnswered()
    ensures Prefilled(K, Local(Plain(RunPrefill, PrefillStage, T3, GRANTED, GRANTED), RESERVED_P, RESERVED_D, false, 0),
                      Some(BUNDLE), Published, 0)
         == Local(Plain(Check5, Handoff, T4, GRANTED, USED), PREFILLED_P, RESERVED_D, false, 0)
  {
    PrefillTaken();
    BothGrant();
  }

  lemma ReachHandoff()
    ensures Leads(START, Only(Local(Plain(Check5, Handoff, T4, GRANTED, USED), PREFILLED_P, RESERVED_D, false, 0)))
  {
    ReachPrefill();
    PrefillAnswered();
    var l := Local(Plain(RunPrefill, PrefillStage, T3, GRANTED, GRANTED), RESERVED_P, RESERVED_D, false, 0);
    var m := Local(Plain(Check5, Handoff, T4, GRANTED, USED), PREFILLED_P, RESERVED_D, false, 0);
    assert PrefillReply(K, l, m, Some(BUNDLE), Published, 0);
    Walk(START, l, m);
  }

  /** The request just before the decode call. */
  function BeforeCall(): Local {
    Local(Plain(RunDecode, DecodeStage, T5, GRANTED, USED), PREFILLED_P, RESERVED_D, false, 0)
  }

  lemma ReachDecode()
    ensures Leads(START, Only(BeforeCall()))
  {
    ReachHandoff();
    var m := Local(Plain(Check5, Handoff, T4, GRANTED, USED), PREFILLED_P, RESERVED_D, false, 0);
    Walk(START, m, At(m, MaybeCancel));
    StartsDecode(At(m, MaybeCancel));
  }

  lemma StartsDecode(m: Local)
    requires m == Local(Plain(MaybeCancel, Handoff, T4, GRANTED, USED), PREFILLED_P, RESERVED_D, false, 0) && Leads(START, Only(m))
    ensures Leads(START, Only(BeforeCall()))
  {
    assert m.(r := Move(m.r, DecodeStage, RunDecode)) == BeforeCall();
    Walk(START, m, BeforeCall());
  }

  /** A client's cancel has been accepted; the workers are being told. */
  function AfterCancel(): Local {
    BeforeCall().(cancelled := true, r := BeforeCall().r.(inTime := true, told := true))
  }

  /** A client's cancel of the active request. */
  lemma CancelAccepted(l: Local)
    requires l.r.pc != Done && !l.cancelled
    ensures Step(Only(l), Only(l.(cancelled := true, r := Marked(l.r))), Cancel, K)
  {
    assert map[K := l.r][K := Marked(l.r)] == map[K := Marked(l.r)];
  }

  lemma ReachCancelled()
    ensures Leads(START, Only(AfterCancel()))
  {
    ReachDecode();
    CancelAccepted(BeforeCall());
    Extend(START, Only(BeforeCall()), Only(AfterCancel()));
  }

  lemma Told()
    ensures Step(Only(AfterCancel()), Only(AfterCancel().(d := TOLD_D)), Tell(Decode), K)
  {
  }

  /** The decode worker, told of the cancel, refuses the call before it looks at the reservation; the
      coordinator has dropped its note of it. */
  function Ending(pc: Pc, stage: Stage, trace: Trace): Req {
    Plain(pc, stage, trace, LEFT, USED).(inTime := true, told := true)
  }

  lemma RefusedReply()
    ensures DecodeReply(K, AfterCancel().(d := TOLD_D), Local(Ending(OnError, DecodeStage, T5), PREFILLED_P, TOLD_D, true, 0),
                        0, false, 0, 0)
  {
    RefusedByTheCancel();
  }

  lemma RefusedCall()
    ensures var from := Only(AfterCancel().(d := TOLD_D));
      Leads(from, Only(Local(Ending(ReclaimP, Cancelled, T6), PREFILLED_P, TOLD_D, true, 0)))
  {
    RefusedReply();
    var l := AfterCancel().(d := TOLD_D);
    var from := Only(l);
    Nowhere(from);
    var m := Local(Ending(OnError, DecodeStage, T5), PREFILLED_P, TOLD_D, true, 0);
    Walk(from, l, m);
    Settles(from, m);
  }

  lemma Settles(from: Sys, m: Local)
    requires m == Local(Ending(OnError, DecodeStage, T5), PREFILLED_P, TOLD_D, true, 0) && Leads(from, Only(m))
    ensures Leads(from, Only(m.(r := Ending(ReclaimP, Cancelled, T6))))
  {
    Walk(from, m, At(m, Settle(Cancelled)));
    Walk(from, At(m, Settle(Cancelled)), m.(r := Ending(ReclaimP, Cancelled, T6)));
  }

  /** How it ends. */
  function Ended(): Local {
    Local(Ending(Done, Cancelled, T6).(held := false), RELEASED_P, TOLD_D, false, 0)
  }

  lemma CleanedUp()
    ensures Leads(Only(AfterCancel().(d := TOLD_D)), Only(Ended()))
  {
    RefusedCall();
    var from := Only(AfterCancel().(d := TOLD_D));
    var m := Local(Ending(ReclaimP, Cancelled, T6), PREFILLED_P, TOLD_D, true, 0);
    SkipsReservations(from, m);
    Releases(from, At(m, ReclaimHandoff));
    Leaves(from, m.(p := RELEASED_P, r := m.r.(held := false, pc := Leave)));
  }

  lemma Releases(from: Sys, m: Local)
    requires m == Local(Ending(ReclaimHandoff, Cancelled, T6), PREFILLED_P, TOLD_D, true, 0) && Leads(from, Only(m))
    ensures Leads(from, Only(m.(p := RELEASED_P, r := m.r.(held := false, pc := Leave))))
  {
    ReleaseAnswered(m);
    Walk(from, m, ReleasedHandoff(K, m));
  }

  lemma ReleaseAnswered(m: Local)
    requires m == Local(Ending(ReclaimHandoff, Cancelled, T6), PREFILLED_P, TOLD_D, true, 0)
    ensures ReleasedHandoff(K, m) == m.(p := RELEASED_P, r := m.r.(held := false, pc := Leave))
  {
    PrefillTaken();
    BothGrant();
    assert !Full(PREFILLED_P);
  }

  lemma SkipsReservations(from: Sys, m: Local)
    requires m == Local(Ending(ReclaimP, Cancelled, T6), PREFILLED_P, TOLD_D, true, 0) && Leads(from, Only(m))
    ensures Leads(from, Only(At(m, ReclaimHandoff)))
  {
    Walk(from, m, At(m, ReclaimD));
    Walk(from, At(m, ReclaimD), At(m, ReclaimHandoff));
  }

  lemma Leaves(from: Sys, n: Local)
    requires n == Local(Ending(Leave, Cancelled, T6).(held := false), RELEASED_P, TOLD_D, true, 0) && Leads(from, Only(n))
    ensures Leads(from, Only(Ended()))
  {
    Walk(from, n, Ended());
  }

  /** In the reachable state `before` the decode worker would take the decode call that comes next; told of the
      cancel, it refuses it; in the run that follows every call is answered and the request ends cancelled, yet
      the decode worker's budget is not what it was at the start. */
  ghost predicate LosesByCancel(before: Sys, after: Sys, last: Sys) {
    && Leads(START, before) && Step(before, after, Tell(Decode), K) && Leads(after, last)
    && DecodeIsNext(before) && !DecodeRefused(before.d, K, DEADLINE, before.clock)
    && DecodeRefused(after.d, K, DEADLINE, after.clock)
    && Settled(last) && StageOfK(last) == Cancelled && last.d.used != IDLE.used
  }

  /** The decode call of K, with its deadline, is next. */
  predicate DecodeIsNext(s: Sys) {
    K in s.reqs && s.reqs[K].pc == RunDecode && s.reqs[K].deadline == DEADLINE
  }

  function StageOfK(s: Sys): Stage {
    if K in s.reqs then s.reqs[K].stage else Prepare
  }

  lemma LastIsSettled()
    ensures Settled(Only(Ended())) && StageOfK(Only(Ended())) == Cancelled
  {
  }

  lemma BeforeAndAfter()
    ensures var before, after := Only(AfterCancel()), Only(AfterCancel().(d := TOLD_D));
      && DecodeIsNext(before) && !DecodeRefused(before.d, K, DEADLINE, before.clock)
      && DecodeRefused(after.d, K, DEADLINE, after.clock)
  {
    RefusedByTheCancel();
  }

  lemma CancelBeforeDecodeLeaks()
    ensures exists before, after, last :: LosesByCancel(before, after, last)
  {
    ReachCancelled();
    Told();
    CleanedUp();
    BeforeAndAfter();
    LastIsSettled();
    RefusedByTheCancel();
    assert LosesByCancel(Only(AfterCancel()), Only(AfterCancel().(d := TOLD_D)), Only(Ended()));
  }

  // ---------- A full queue ----------

  const T3C: Trace := T2 + [(Reserve, Cancelled)]
  const LEFT_BY_QUEUE := Note(None, true, false, true, 1)
  const BUSY_D := RESERVED_D.(queued := QUEUE_CAPACITY)

  /** The request at clean-up: cancelled when the decode worker had granted its reservation. */
  function CleaningUp(pc: Pc, d: Note): Req {
    Plain(pc, Cancelled, T3C, d, BLANK).(inTime := true, told := true)
  }

  lemma ReachReturn()
    ensures Leads(START, Only(Local(CleaningUp(ReclaimD, GRANTED), IDLE, RESERVED_D, true, 0)))
  {
    ReachMarked();
    var m := MarkedGranted();
    Walk(START, m, At(m, OnCancelled));
    ReturnsNext();
  }

  /** The client's cancel has been accepted when only the decode worker had granted its reservation. */
  function MarkedGranted(): Local {
    Local(Plain(Check3, Reserve, T2, GRANTED, BLANK).(inTime := true, told := true), IDLE, RESERVED_D, true, 0)
  }

  lemma ReachMarked()
    ensures Leads(START, Only(MarkedGranted()))
  {
    ReachGranted();
    var l := Local(Plain(Check3, Reserve, T2, GRANTED, BLANK), IDLE, RESERVED_D, false, 0);
    CancelAccepted(l);
    Extend(START, Only(l), Only(MarkedGranted()));
  }

  lemma ReturnsNext()
    requires Leads(START, Only(At(MarkedGranted(), OnCancelled)))
    ensures Leads(START, Only(Local(CleaningUp(ReclaimD, GRANTED), IDLE, RESERVED_D, true, 0)))
  {
    var n := Local(CleaningUp(ReclaimP, GRANTED), IDLE, RESERVED_D, true, 0);
    Walk(START, At(MarkedGranted(), OnCancelled), n);
    Walk(START, n, At(n, ReclaimD));
  }

  /** Just before the unreserve call; the decode worker's queue has filled up. */
  function BeforeReturn(): Local {
    Local(CleaningUp(ReclaimD, GRANTED), IDLE, BUSY_D, true, 0)
  }

  lemma ReachBusy()
    ensures Leads(START, Only(BeforeReturn()))
  {
    ReachReturn();
    var l := BeforeReturn().(d := RESERVED_D);
    assert Step(Only(l), Only(BeforeReturn()), Pass, K);
    Extend(START, Only(l), Only(BeforeReturn()));
  }

  /** The answer is a failure; the coordinator goes on with its clean-up. */
  function AfterReturn(): Local {
    Local(CleaningUp(ReclaimHandoff, LEFT_BY_QUEUE), IDLE, BUSY_D, true, 0)
  }

  lemma ReturnTurnedAway()
    ensures Step(Only(BeforeReturn()), Only(AfterReturn()), Advance, K)
    ensures TurnsAway(ToReturnD, K, BeforeReturn(), AfterReturn())
  {
    assert AfterReturn() == ReturnedD(K, BeforeReturn());
    ReadOff(BeforeReturn());
    WriteBack(BeforeReturn(), AfterReturn());
    assert Advanced(K, LocalOf(Only(BeforeReturn()), K), AfterReturn());
  }

  /** Over, and the queue is empty again. */
  function Emptied(): Local {
    Local(CleaningUp(Done, LEFT_BY_QUEUE), IDLE, RESERVED_D, false, 0)
  }

  lemma EndsEmptied()
    ensures Leads(Only(AfterReturn()), Only(Emptied()))
  {
    var from := Only(AfterReturn());
    Nowhere(from);
    Walk(from, AfterReturn(), At(AfterReturn(), Leave));
    Withdraws(from);
    Empties();
    Extend(from, Only(Emptied().(d := BUSY_D)), Only(Emptied()));
  }

  lemma Withdraws(from: Sys)
    requires Leads(from, Only(At(AfterReturn(), Leave)))
    ensures Leads(from, Only(Emptied().(d := BUSY_D)))
  {
    Walk(from, At(AfterReturn(), Leave), Emptied().(d := BUSY_D));
  }

  lemma Empties()
    ensures Next(Only(Emptied().(d := BUSY_D)), Only(Emptied()))
  {
    assert Step(Only(Emptied().(d := BUSY_D)), Only(Emptied()), Pass, K);
  }

  /** In the reachable state `before` the clean-up asks for the reservation to be returned, and a full queue turns
      that call away; no prefill or decode call has been answered at all, every call is answered, the request ends
      cancelled and the queue empties, yet the decode worker's budget is not what it was at the start. */
  ghost predicate LosesByFullQueue(before: Sys, after: Sys, last: Sys) {
    && Leads(START, before) && Step(before, after, Advance, K) && Leads(after, last)
    && K in before.reqs && K in after.reqs && TurnsAway(ToReturnD, K, LocalOf(before, K), LocalOf(after, K))
    && K in last.reqs && !last.reqs[K].p.used && !last.reqs[K].d.used
    && Settled(last) && StageOfK(last) == Cancelled && last.d.queued == 0 && last.d.used != IDLE.used
  }

  lemma FullQueueLeaks()
    ensures exists before, after, last :: LosesByFullQueue(before, after, last)
  {
    ReachBusy();
    ReturnTurnedAway();
    EndsEmptied();
    ReadOff(BeforeReturn());
    ReadOff(AfterReturn());
    EmptiedKeeps();
    assert LosesByFullQueue(Only(BeforeReturn()), Only(AfterReturn()), Only(Emptied()));
  }

  lemma EmptiedKeeps()
    ensures var last := Only(Emptied());
      && Settled(last) && StageOfK(last) == Cancelled && last.d.queued == 0 && last.d.used != IDLE.used
      && K in last.reqs && !last.reqs[K].p.used && !last.reqs[K].d.used
  {
    BothGrant();
    Totals(2);
    assert RESERVED_D.used[2] == 1;
  }
}
