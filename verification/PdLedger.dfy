/** What one Prefill/Decode worker keeps: the reservations and hand-off holds it owes its memory budget, and what
    it goes by when it refuses a call. Each queued operation is a function of that state, its arguments, the
    clock, and what the model, the GPU and the data node do. */
module PdLedger {
  import opened MemoryBudget
  import opened Options

  datatype Key = Key(requestId: string, generation: nat)

  datatype Role = Prefill | Decode

  type Positive = n: nat | n > 0 witness 1

  datatype Reservation = Reservation(id: Positive, role: Role, deadline: int, demands: seq<Demand>)

  /** `latest` and `cancelled` are generations per request id. `ownerAlive`: the data owner still answers with
      the incarnation this worker was started against. `queued`: calls that wait to be executed. */
  datatype Worker = Worker(blockBytes: Positive, blockSize: Positive, capacity: PerPool, used: PerPool,
                           reservations: map<Key, Reservation>, holds: map<Key, seq<Demand>>, nextId: Positive,
                           latest: map<string, nat>, cancelled: map<string, nat>, cancelAll: bool, ownerAlive: bool,
                           queued: nat)

  /** More calls than this never wait; the next one is answered with a failure at once. */
  const QUEUE_CAPACITY: nat := 16

  /** Replies of the queued operations. `Granted` carries a reservation id. */
  datatype Reply = Granted(id: Positive) | Ok | Failed

  // ---------- Sums over a table ----------

  ghost function Held(m: map<Key, seq<Demand>>, i: nat): nat
  {
    if m == map[] then 0 else
      var k :| k in m;
      Total(m[k], i) + Held(m - {k}, i)
  }

  lemma {:induction false} HeldRemove(m: map<Key, seq<Demand>>, k: Key, i: nat)
    requires k in m
    ensures Held(m, i) == Total(m[k], i) + Held(m - {k}, i)
    decreases m
  {
    var c :| c in m && Held(m, i) == Total(m[c], i) + Held(m - {c}, i);
    if c != k {
      HeldRemove(m - {c}, k, i);
      HeldRemove(m - {k}, c, i);
      assert m - {c} - {k} == m - {k} - {c};
    }
  }

  lemma HeldAdd(m: map<Key, seq<Demand>>, k: Key, demands: seq<Demand>, i: nat)
    requires k !in m
    ensures Held(m[k := demands], i) == Held(m, i) + Total(demands, i)
  {
    HeldRemove(m[k := demands], k, i);
    assert m[k := demands] - {k} == m;
  }

  function DemandsOf(reservations: map<Key, Reservation>): map<Key, seq<Demand>>
  {
    map k | k in reservations :: reservations[k].demands
  }

  lemma DemandsOfUpdates(reservations: map<Key, Reservation>, k: Key, r: Reservation)
    ensures DemandsOf(reservations[k := r]) == DemandsOf(reservations)[k := r.demands]
    ensures DemandsOf(reservations - {k}) == DemandsOf(reservations) - {k}
  {
  }

  // ---------- The ledger ----------

  /** Each pool's used bytes are the persistent demands plus all reservations plus all holds. */
  ghost predicate Balanced(base: PerPool, w: Worker)
  {
    forall i :: 0 <= i < POOLS ==> w.used[i] == base[i] + Held(DemandsOf(w.reservations), i) + Held(w.holds, i)
  }

  /** What is left after giving demands back. (Giving back more than is used ends the process.) */
  function Without(v: PerPool, demands: seq<Demand>): (r: PerPool)
    ensures Covers(v, demands) ==> r == Minus(v, demands)
  {
    var r := seq(POOLS, i requires 0 <= i < POOLS => if Total(demands, i) <= v[i] then v[i] - Total(demands, i) else 0);
    assert Covers(v, demands) ==> forall i :: 0 <= i < POOLS ==> r[i] == Minus(v, demands)[i];
    r
  }

  function Grant(w: Worker, key: Key, r: Reservation): Worker
  {
    w.(used := Plus(w.used, r.demands), reservations := w.reservations[key := r], nextId := w.nextId + 1)
  }

  /** Return a reservation's bytes and forget it. */
  function Drop(w: Worker, key: Key): Worker
    requires key in w.reservations
  {
    w.(used := Without(w.used, w.reservations[key].demands), reservations := w.reservations - {key})
  }

  /** A consumed reservation becomes the hold of a finished prefill; the bytes stay used. */
  function Keep(w: Worker, key: Key): Worker
    requires key in w.reservations
  {
    w.(reservations := w.reservations - {key}, holds := w.holds[key := w.reservations[key].demands])
  }

  function HoldNew(w: Worker, key: Key, demands: seq<Demand>): Worker
  {
    w.(used := Plus(w.used, demands), holds := w.holds[key := demands])
  }

  function Unhold(w: Worker, key: Key): Worker
    requires key in w.holds
  {
    w.(used := Without(w.used, w.holds[key]), holds := w.holds - {key})
  }

  lemma GrantBalanced(base: PerPool, w: Worker, key: Key, r: Reservation)
    requires Balanced(base, w) && key !in w.reservations
    ensures Balanced(base, Grant(w, key, r))
  {
    DemandsOfUpdates(w.reservations, key, r);
    forall i | 0 <= i < POOLS ensures Held(DemandsOf(w.reservations[key := r]), i) == Held(DemandsOf(w.reservations), i) + Total(r.demands, i) {
      HeldAdd(DemandsOf(w.reservations), key, r.demands, i);
    }
  }

  /** What is recorded is always covered by what is used, so no release can underflow. */
  lemma RecordedIsCovered(base: PerPool, w: Worker, key: Key)
    requires Balanced(base, w)
    ensures key in w.reservations ==> Covers(w.used, w.reservations[key].demands)
    ensures key in w.holds ==> Covers(w.used, w.holds[key])
  {
    if key in w.reservations {
      forall i | 0 <= i < POOLS ensures Total(w.reservations[key].demands, i) <= w.used[i] {
        HeldRemove(DemandsOf(w.reservations), key, i);
      }
    }
    if key in w.holds {
      forall i | 0 <= i < POOLS ensures Total(w.holds[key], i) <= w.used[i] {
        HeldRemove(w.holds, key, i);
      }
    }
  }

  lemma DropBalanced(base: PerPool, w: Worker, key: Key)
    requires Balanced(base, w) && key in w.reservations
    ensures Covers(w.used, w.reservations[key].demands) && Balanced(base, Drop(w, key))
  {
    RecordedIsCovered(base, w, key);
    DemandsOfUpdates(w.reservations, key, w.reservations[key]);
    forall i | 0 <= i < POOLS
      ensures Held(DemandsOf(w.reservations - {key}), i) == Held(DemandsOf(w.reservations), i) - Total(w.reservations[key].demands, i)
    {
      HeldRemove(DemandsOf(w.reservations), key, i);
    }
  }

  lemma KeepBalanced(base: PerPool, w: Worker, key: Key)
    requires Balanced(base, w) && key in w.reservations && key !in w.holds
    ensures Balanced(base, Keep(w, key))
  {
    var r := w.reservations[key];
    DemandsOfUpdates(w.reservations, key, r);
    forall i | 0 <= i < POOLS
      ensures Held(DemandsOf(w.reservations - {key}), i) == Held(DemandsOf(w.reservations), i) - Total(r.demands, i)
      ensures Held(w.holds[key := r.demands], i) == Held(w.holds, i) + Total(r.demands, i)
    {
      HeldRemove(DemandsOf(w.reservations), key, i);
      HeldAdd(w.holds, key, r.demands, i);
    }
  }

  lemma HoldNewBalanced(base: PerPool, w: Worker, key: Key, demands: seq<Demand>)
    requires Balanced(base, w) && key !in w.holds
    ensures Balanced(base, HoldNew(w, key, demands))
  {
    forall i | 0 <= i < POOLS ensures Held(w.holds[key := demands], i) == Held(w.holds, i) + Total(demands, i) {
      HeldAdd(w.holds, key, demands, i);
    }
  }

  lemma UnholdBalanced(base: PerPool, w: Worker, key: Key)
    requires Balanced(base, w) && key in w.holds
    ensures Covers(w.used, w.holds[key]) && Balanced(base, Unhold(w, key))
  {
    RecordedIsCovered(base, w, key);
    forall i | 0 <= i < POOLS ensures Held(w.holds - {key}, i) == Held(w.holds, i) - Total(w.holds[key], i) {
      HeldRemove(w.holds, key, i);
    }
  }

  /** A worker that keeps nothing uses exactly its persistent bytes. */
  lemma NothingKept(base: PerPool, w: Worker)
    requires Balanced(base, w) && w.reservations == map[] && w.holds == map[]
    ensures w.used == base
  {
    assert DemandsOf(w.reservations) == map[];
  }

  // ---------- What calls ask for ----------

  /** What a prefill reservation is asked to cover, if the caller says. */
  datatype Required = NoRequirements | Required(kvBytes: nat, bundleBytes: nat, stagingBytes: nat)

  /** The request bundle as the worker reads it from the data node. */
  datatype Bundle = Bundle(tokens: nat, bytes: nat, featureBytes: nat)

  /** Blocks that this many tokens can fill. */
  function BlocksFor(tokens: int, blockSize: Positive): (n: nat)
    requires tokens > 0
    ensures n > 0
  {
    DivideUp(tokens, blockSize);
    (tokens + blockSize - 1) / blockSize
  }

  lemma DivideUp(n: int, d: Positive)
    requires n > 0
    ensures (n + d - 1) / d > 0
  {
    var q := (n + d - 1) / d;
    assert n + d - 1 == d * q + (n + d - 1) % d;
    assert q <= 0 ==> d * q <= 0;
  }

  /** Bytes of the KV blocks for this many tokens. */
  function KvBytes(w: Worker, tokens: int): (n: nat)
    requires tokens > 0
    ensures n > 0
  {
    BlocksFor(tokens, w.blockSize) * w.blockBytes
  }

  /** What a reservation asks for: growth for a decode, the probed requirements for a prefill. */
  function Wanted(w: Worker, role: Role, maxNewTokens: int, required: Required): seq<Demand>
    requires maxNewTokens > 0
  {
    match role
    case Decode => [Demand(KV, KvBytes(w, maxNewTokens))]
    case Prefill =>
      if required.NoRequirements? then []
      else [Demand(KV, required.kvBytes), Demand(Bundles, required.bundleBytes), Demand(Staging, required.stagingBytes)]
  }

  function PrefillDemands(w: Worker, maxNewTokens: int, bundle: Bundle): seq<Demand>
    requires maxNewTokens > 0
  {
    [Demand(KV, KvBytes(w, bundle.tokens + maxNewTokens)), Demand(Bundles, bundle.bytes), Demand(Staging, bundle.featureBytes)]
  }

  /** The decode call does not check its token count; what a non-positive one asks for is left open. */
  function DecodeDemands(w: Worker, maxNewTokens: int, oddBytes: nat): seq<Demand>
  {
    [Demand(KV, if maxNewTokens > 0 then KvBytes(w, maxNewTokens) else oddBytes)]
  }

  /** Reservations always ask for KV bytes. */
  predicate OwedSomething(demands: seq<Demand>)
  {
    Total(demands, IndexOf(KV)) > 0
  }

  lemma FirstDemandOwed(demands: seq<Demand>)
    requires |demands| == 1 || |demands| == 3
    requires demands[0].pool == KV && demands[0].bytes > 0
    ensures OwedSomething(demands)
  {
    assert demands[..1] == [demands[0]];
    assert demands[..1][..0] == [];
    TotalMonotone(demands, 1, IndexOf(KV));
    assert Total(demands[..1], IndexOf(KV)) == demands[0].bytes;
  }

  // ---------- When calls are refused ----------

  /** A call made now is turned away unseen. */
  predicate Full(w: Worker)
  {
    w.queued >= QUEUE_CAPACITY
  }

  predicate Anonymous(key: Key)
  {
    key.requestId == "" || key.generation == 0
  }

  predicate IsCancelled(w: Worker, key: Key)
  {
    w.cancelAll || (key.requestId in w.cancelled && w.cancelled[key.requestId] >= key.generation)
  }

  /** A generation that is not newer than every admitted one of its request. */
  predicate Stale(w: Worker, key: Key)
  {
    key.requestId in w.latest && key.generation <= w.latest[key.requestId]
  }

  /** Generations only grow. */
  ghost predicate Newer(before: map<string, nat>, after: map<string, nat>)
  {
    forall id :: id in before ==> id in after && before[id] <= after[id]
  }

  /** Calls without a deadline have a long one of their own. */
  predicate Late(deadline: int, now: int)
  {
    deadline > 0 && now >= deadline
  }

  predicate FewTokens(maxNewTokens: int)
  {
    0 < maxNewTokens <= 256
  }

  /** Every pool has room for these demands. */
  predicate Fits(w: Worker, demands: seq<Demand>)
  {
    forall i :: 0 <= i < POOLS ==> w.used[i] + Total(demands, i) <= w.capacity[i]
  }

  /** The reservation a call names is there, for this role and exactly these demands. */
  predicate Matches(w: Worker, key: Key, role: Role, id: nat, demands: seq<Demand>)
  {
    && key in w.reservations && w.reservations[key].id == id && w.reservations[key].role == role
    && w.reservations[key].demands == demands
  }

  /** A decode call made now is refused before it looks at its reservation. */
  predicate DecodeRefused(w: Worker, key: Key, deadline: int, now: int)
  {
    !w.ownerAlive || Anonymous(key) || Late(deadline, now) || IsCancelled(w, key)
  }

  /** A prefill call made now is refused at its head: the first checks, and the generation. */
  predicate PrefillBarred(w: Worker, key: Key, maxNewTokens: int)
  {
    !w.ownerAlive || Anonymous(key) || !FewTokens(maxNewTokens) || key in w.holds || Stale(w, key)
  }

  /** A prefill call made now is refused before it takes its reservation over: at its head, because the bundle
      cannot be read, or because the bundle asks for other bytes than were reserved. */
  predicate PrefillRefused(w: Worker, key: Key, id: nat, maxNewTokens: int, bundle: Option<Bundle>)
  {
    || PrefillBarred(w, key, maxNewTokens) || bundle == None
    || !Matches(w, key, Prefill, id, PrefillDemands(w, maxNewTokens, bundle.value))
  }

  /** What an answered prefill or decode call made now does not take over: the queue turns it away, or the
      operation does. */
  predicate PrefillTurnedAway(w: Worker, key: Key, id: nat, maxNewTokens: int, bundle: Option<Bundle>)
  {
    Full(w) || PrefillRefused(w, key, id, maxNewTokens, bundle)
  }

  predicate DecodeTurnedAway(w: Worker, key: Key, deadline: int, now: int)
  {
    Full(w) || DecodeRefused(w, key, deadline, now)
  }

  // ---------- The queued operations ----------

  function Reserving(w: Worker, key: Key, role: Role, deadline: int, maxNewTokens: int, required: Required, now: int): (Worker, Reply)
  {
    if !w.ownerAlive || Anonymous(key) || deadline <= 0 || !FewTokens(maxNewTokens) then (w, Failed)
    else if now >= deadline || IsCancelled(w, key) then (w, Failed)
    else if key in w.reservations then
      (w, if w.reservations[key].role == role then Granted(w.reservations[key].id) else Failed)
    else if role == Prefill && (required.NoRequirements? || required.kvBytes == 0 || required.bundleBytes == 0) then (w, Failed)
    else if !Fits(w, Wanted(w, role, maxNewTokens, required)) then (w, Failed)
    else (Grant(w, key, Reservation(w.nextId, role, deadline, Wanted(w, role, maxNewTokens, required))), Granted(w.nextId))
  }

  function Unreserving(w: Worker, key: Key, id: nat): (Worker, Reply)
  {
    if key !in w.reservations then (w, Ok)
    else if id == 0 || id != w.reservations[key].id then (w, Failed)
    else (Drop(w, key), Ok)
  }

  function Admitted(w: Worker, key: Key): Worker
  {
    w.(latest := w.latest[key.requestId := key.generation])
  }

  /** How a prefill that owns its bytes ends: it fails before its hold is entered, it is answered with the
      hand-off, or the device is found over its limit when the hold has already been entered. */
  datatype PrefillEnd = Broke | Published | PublishedThenBroke

  /** `now` is when the reservation is taken over. */
  function Prefilling(w: Worker, key: Key, id: nat, maxNewTokens: int, bundle: Option<Bundle>, end: PrefillEnd, now: int): (Worker, Reply)
  {
    if PrefillBarred(w, key, maxNewTokens) then (w, Failed)
    else if bundle == None then (Admitted(w, key), Failed)
    else TakePrefill(Admitted(w, key), key, id, PrefillDemands(w, maxNewTokens, bundle.value), end, now)
  }

  /** An expired reservation is given back. Without a reservation the demands are asked for here. */
  function TakePrefill(w: Worker, key: Key, id: nat, demands: seq<Demand>, end: PrefillEnd, now: int): (Worker, Reply)
  {
    if id == 0 then
      if !Fits(w, demands) || end == Broke then (w, Failed) else (HoldNew(w, key, demands), AfterHold(end))
    else if !Matches(w, key, Prefill, id, demands) then (w, Failed)
    else if now >= w.reservations[key].deadline || end == Broke then (Drop(w, key), Failed)
    else (Keep(w, key), AfterHold(end))
  }

  /** The hold stays whatever the caller is told. */
  function AfterHold(end: PrefillEnd): Reply
  {
    if end == Published then Ok else Failed
  }

  /** `now` is when the call is looked at, `later` when its reservation is taken over; `success`: the hand-off
      was attached and decoded. Once taken over, the reservation is given back whatever happens. */
  function Decoding(w: Worker, key: Key, id: nat, maxNewTokens: int, deadline: int, oddBytes: nat, success: bool, now: int, later: int)
    : (Worker, Reply)
  {
    if DecodeRefused(w, key, deadline, now) then (w, Failed)
    else if id == 0 then (w, if success then Ok else Failed)
    else if !Matches(w, key, Decode, id, DecodeDemands(w, maxNewTokens, oddBytes)) then (w, Failed)
    else (Drop(w, key), if later < w.reservations[key].deadline && success then Ok else Failed)
  }

  function Releasing(w: Worker, key: Key): (Worker, Reply)
  {
    if key in w.holds then (Unhold(w, key), Ok) else (w, Failed)
  }

  /** A cancel is refused for a generation that a newer one has replaced; it is not queued. */
  function Cancelling(w: Worker, key: Key): (Worker, Reply)
  {
    if Anonymous(key) || (key.requestId in w.latest && key.generation < w.latest[key.requestId]) then (w, Failed)
    else
      var current := if key.requestId in w.cancelled then w.cancelled[key.requestId] else 0;
      (w.(cancelled := w.cancelled[key.requestId := if current < key.generation then key.generation else current]), Ok)
  }

  datatype Call =
    | ReserveCall(role: Role, deadline: int, maxNewTokens: int, required: Required, now: int)
    | UnreserveCall(id: nat)
    | PrefillCall(id: nat, maxNewTokens: int, bundle: Option<Bundle>, end: PrefillEnd, now: int)
    | DecodeCall(id: nat, maxNewTokens: int, deadline: int, oddBytes: nat, success: bool, now: int, later: int)
    | ReleaseCall

  function Perform(w: Worker, key: Key, call: Call): (Worker, Reply)
  {
    match call
    case ReserveCall(role, deadline, maxNewTokens, required, now) => Reserving(w, key, role, deadline, maxNewTokens, required, now)
    case UnreserveCall(id) => Unreserving(w, key, id)
    case PrefillCall(id, maxNewTokens, bundle, end, now) => Prefilling(w, key, id, maxNewTokens, bundle, end, now)
    case DecodeCall(id, maxNewTokens, deadline, oddBytes, success, now, later) =>
      Decoding(w, key, id, maxNewTokens, deadline, oddBytes, success, now, later)
    case ReleaseCall => Releasing(w, key)
  }

  /** What a caller is told: a full queue turns the call away, otherwise it is executed. */
  function Answer(w: Worker, key: Key, call: Call): (Worker, Reply)
  {
    if Full(w) then (w, Failed) else Perform(w, key, call)
  }

  // ---------- What the operations keep ----------

  lemma WantedIsOwed(w: Worker, role: Role, maxNewTokens: int, required: Required)
    requires maxNewTokens > 0 && (role == Prefill ==> required.Required? && required.kvBytes > 0)
    ensures OwedSomething(Wanted(w, role, maxNewTokens, required))
  {
    FirstDemandOwed(Wanted(w, role, maxNewTokens, required));
  }

  /** Every queued operation keeps the ledger balanced, on success and on every failure. */
  lemma StepsKeepBalance(base: PerPool, w: Worker, key: Key, call: Call)
    requires Balanced(base, w)
    ensures Balanced(base, Perform(w, key, call).0)
  {
    match call
    case ReserveCall(role, deadline, maxNewTokens, required, now) =>
      var r := Reserving(w, key, role, deadline, maxNewTokens, required, now);
      if r.1.Granted? && key !in w.reservations { GrantBalanced(base, w, key, r.0.reservations[key]); }
    case UnreserveCall(id) =>
      if key in w.reservations { DropBalanced(base, w, key); }
    case PrefillCall(id, maxNewTokens, bundle, end, now) =>
      if !PrefillBarred(w, key, maxNewTokens) && bundle != None {
        TakingKeepsBalance(base, Admitted(w, key), key, id, PrefillDemands(w, maxNewTokens, bundle.value), end, now);
      }
    case DecodeCall(_, _, _, _, _, _, _) =>
      if key in w.reservations { DropBalanced(base, w, key); }
    case ReleaseCall =>
      if key in w.holds { UnholdBalanced(base, w, key); }
  }

  lemma TakingKeepsBalance(base: PerPool, w: Worker, key: Key, id: nat, demands: seq<Demand>, end: PrefillEnd, now: int)
    requires Balanced(base, w) && key !in w.holds
    ensures Balanced(base, TakePrefill(w, key, id, demands, end, now).0)
  {
    if id == 0 {
      HoldNewBalanced(base, w, key, demands);
    } else if key in w.reservations {
      DropBalanced(base, w, key);
      KeepBalanced(base, w, key);
    }
  }

  /** An answered decode call leaves the reservation it names behind exactly when it is turned away. */
  lemma DecodeLeavesIffTurnedAway(w: Worker, key: Key, id: nat, maxNewTokens: int, deadline: int, oddBytes: nat, success: bool,
                                  now: int, later: int)
    requires id != 0 && Matches(w, key, Decode, id, DecodeDemands(w, maxNewTokens, oddBytes))
    ensures var after := Answer(w, key, DecodeCall(id, maxNewTokens, deadline, oddBytes, success, now, later)).0;
      key in after.reservations <==> DecodeTurnedAway(w, key, deadline, now)
  {
  }

  /** An answered prefill call leaves the reservation of its key behind exactly when it is turned away. Then, or
      when it gives the reservation back, it enters no hold. */
  lemma PrefillLeavesIffTurnedAway(w: Worker, key: Key, id: nat, maxNewTokens: int, bundle: Option<Bundle>, end: PrefillEnd, now: int)
    requires id != 0 && key in w.reservations
    ensures var after := Answer(w, key, PrefillCall(id, maxNewTokens, bundle, end, now)).0;
      && (key in after.reservations <==> PrefillTurnedAway(w, key, id, maxNewTokens, bundle))
      && (key !in w.holds ==>
           (key in after.holds <==> key !in after.reservations && now < w.reservations[key].deadline && end != Broke))
  {
  }

  /** The clean-up calls give back what they name exactly unless the queue is full. */
  lemma ReturnsUnlessFull(w: Worker, key: Key)
    ensures key in w.reservations ==>
              (key in Answer(w, key, UnreserveCall(w.reservations[key].id)).0.reservations <==> Full(w))
    ensures key in w.holds ==> (key in Answer(w, key, ReleaseCall).0.holds <==> Full(w))
  {
  }

  /** A cancel that is accepted makes every later decode of that key and of older generations refused. */
  lemma CancelRefusesDecode(w: Worker, key: Key, older: Key, deadline: int, now: int)
    requires Cancelling(w, key).1 == Ok && older.requestId == key.requestId && older.generation <= key.generation
    ensures DecodeRefused(Cancelling(w, key).0, older, deadline, now)
  {
  }
}
