/** The language worker's resource handling: the Prefill/Decode operations and batched inference, with every
    early exit. Calls into the model, the GPU and the data node are arbitrary: they may fail anywhere. Each
    Prefill/Decode operation does to the worker's state what the function of PdLedger says. */
module LanguageRole {
  import opened MemoryBudget
  import opened Options
  import opened PdLedger

  /** The data node as one worker sees it: leases are live from acquire to release. Releasing a lease that
      is not live is an error the worker must never make. */
  class DataClient {
    var live: set<nat>
    var nextLease: nat

    ghost predicate Valid()
      reads this
    {
      nextLease > 0 && forall l :: l in live ==> 0 < l < nextLease
    }

    constructor ()
      ensures Valid() && live == {}
    {
      live, nextLease := {}, 1;
    }

    /** 0 stands for a failed acquire. */
    method Acquire() returns (lease: nat)
      requires Valid()
      modifies this
      ensures Valid()
      ensures if lease == 0 then live == old(live) else lease !in old(live) && live == old(live) + {lease}
    {
      if * {
        return 0;
      }
      lease := nextLease;
      live, nextLease := live + {lease}, nextLease + 1;
    }

    method Release(lease: nat)
      requires Valid() && lease in live
      modifies this
      ensures Valid() && live == old(live) - {lease}
    {
      live := live - {lease};
    }
  }

  /** One admitted request of an inference batch: what it reserved and which bundle lease it holds. */
  datatype BatchEntry = BatchEntry(demands: seq<Demand>, lease: nat)

  ghost function BatchTotal(batch: seq<BatchEntry>, i: nat): nat
  {
    if batch == [] then 0 else Total(batch[0].demands, i) + BatchTotal(batch[1..], i)
  }

  ghost function Leases(batch: seq<BatchEntry>): set<nat>
  {
    set k | 0 <= k < |batch| :: batch[k].lease
  }

  lemma {:induction false} BatchTotalAppend(batch: seq<BatchEntry>, e: BatchEntry, i: nat)
    ensures BatchTotal(batch + [e], i) == BatchTotal(batch, i) + Total(e.demands, i)
  {
    if batch == [] {
      assert batch + [e] == [e];
    } else {
      assert (batch + [e])[1..] == batch[1..] + [e];
      BatchTotalAppend(batch[1..], e, i);
    }
  }

  /** Used bytes and live leases are what they were before, plus the batch's. */
  ghost predicate Charged(before: PerPool, live0: set<nat>, batch: seq<BatchEntry>, used: PerPool, live: set<nat>)
  {
    && (forall i :: 0 <= i < POOLS ==> used[i] == before[i] + BatchTotal(batch, i))
    && (forall j, k :: 0 <= j < k < |batch| ==> batch[j].lease != batch[k].lease)
    && (forall k :: 0 <= k < |batch| ==> batch[k].lease !in live0)
    && live == live0 + Leases(batch)
  }

  lemma ChargeOne(before: PerPool, live0: set<nat>, batch: seq<BatchEntry>, used: PerPool, live: set<nat>, e: BatchEntry)
    requires Charged(before, live0, batch, used, live) && e.lease !in live
    ensures Charged(before, live0, batch + [e], Plus(used, e.demands), live + {e.lease})
  {
    forall i | 0 <= i < POOLS ensures Plus(used, e.demands)[i] == before[i] + BatchTotal(batch + [e], i) {
      BatchTotalAppend(batch, e, i);
    }
    forall k | 0 <= k < |batch| ensures batch[k].lease in live { assert batch[k].lease in Leases(batch); }
    forall l ensures l in Leases(batch + [e]) <==> l in Leases(batch) || l == e.lease {
      if l in Leases(batch) {
        var k :| 0 <= k < |batch| && batch[k].lease == l;
        assert (batch + [e])[k].lease == l;
      }
      assert (batch + [e])[|batch|].lease == e.lease;
    }
  }

  lemma DischargeOne(before: PerPool, live0: set<nat>, batch: seq<BatchEntry>, used: PerPool, live: set<nat>)
    requires Charged(before, live0, batch, used, live) && batch != []
    ensures Covers(used, batch[0].demands) && batch[0].lease in live
    ensures Charged(before, live0, batch[1..], Minus(used, batch[0].demands), live - {batch[0].lease})
  {
    assert batch[0].lease in Leases(batch);
    forall l ensures l in Leases(batch[1..]) <==> l in Leases(batch) && l != batch[0].lease {
      if l in Leases(batch) && l != batch[0].lease {
        var k :| 0 <= k < |batch| && batch[k].lease == l;
        assert batch[1..][k - 1].lease == l;
      }
      if l in Leases(batch[1..]) {
        var k :| 0 <= k < |batch[1..]| && batch[1..][k].lease == l;
        assert batch[k + 1].lease == l;
      }
    }
  }

  /** What a queued command asks for. */
  datatype Command =
    | Reserve(role: Role, deadline: int, maxNewTokens: int, required: Required)
    | Unreserve(id: nat)
    | RunPrefill(id: nat, maxNewTokens: int)
    | RunDecode(id: nat, maxNewTokens: int, deadline: int)
    | Release

  class LanguageRole {
    const budget: NodeMemoryBudget
    const client: DataClient
    const blockBytes: Positive
    const blockSize: Positive
    ghost const base: PerPool
    var reservations: map<Key, Reservation>
    var holds: map<Key, seq<Demand>>
    var nextReservationId: Positive
    var latestGenerations: map<string, nat>
    var cancelledGenerations: map<string, nat>
    var cancelAll: bool
    /** Whether the data owner still answers with the incarnation this worker was started against. */
    var ownerAlive: bool
    /** Commands that wait for the thread that owns the model. */
    var queue: seq<(Key, Command)>

    /** `base` is what the worker reserved for itself at start-up. */
    constructor (budget: NodeMemoryBudget, client: DataClient, blockBytes: Positive, blockSize: Positive)
      requires budget.Valid() && client.Valid()
      ensures Valid() && this.budget == budget && this.client == client && base == budget.used
      ensures reservations == map[] && holds == map[]
    {
      this.budget, this.client, this.blockBytes, this.blockSize := budget, client, blockBytes, blockSize;
      base := budget.used;
      reservations, holds, nextReservationId := map[], map[], 1;
      latestGenerations, cancelledGenerations, cancelAll, ownerAlive := map[], map[], false, true;
      queue := [];
      new;
      assert DemandsOf(reservations) == map[];
    }

    ghost function State(): Worker
      reads this, budget
    {
      Worker(blockBytes, blockSize, budget.capacity, budget.used, reservations, holds, nextReservationId,
             latestGenerations, cancelledGenerations, cancelAll, ownerAlive, |queue|)
    }

    ghost predicate Valid()
      reads this, budget, client
    {
      && budget.Valid() && client.Valid()
      && Balanced(base, State())
      && (forall k :: k in reservations ==> reservations[k].id < nextReservationId)
    }

    // ---------- Generations and cancellation ----------

    /** Admit a generation only if it is newer than every admitted one of the same request. */
    method AdmitGeneration(key: Key) returns (ok: bool)
      modifies `latestGenerations
      ensures ok <==> !Stale(old(State()), key)
      ensures State() == if ok then Admitted(old(State()), key) else old(State())
    {
      if key.requestId in latestGenerations && key.generation <= latestGenerations[key.requestId] {
        return false;
      }
      latestGenerations := latestGenerations[key.requestId := key.generation];
      ok := true;
    }

    predicate CancelSeen(key: Key)
      reads this, budget
      ensures CancelSeen(key) <==> IsCancelled(State(), key)
    {
      cancelAll || (key.requestId in cancelledGenerations && cancelledGenerations[key.requestId] >= key.generation)
    }

    /** Refuse to cancel a generation that a newer one has replaced; otherwise cancel it and all older ones,
        for good. */
    method Cancel(key: Key) returns (reply: Reply)
      modifies `cancelledGenerations
      ensures (State(), reply) == Cancelling(old(State()), key)
      ensures reply == Ok <==>
                !Anonymous(key) && (key.requestId in latestGenerations ==> key.generation >= latestGenerations[key.requestId])
      ensures forall k :: IsCancelled(State(), k) <==>
                (old(IsCancelled(State(), k)) || (reply == Ok && k.requestId == key.requestId && k.generation <= key.generation))
    {
      if key.requestId == "" || key.generation == 0 {
        return Failed;
      }
      if key.requestId in latestGenerations && key.generation < latestGenerations[key.requestId] {
        return Failed;
      }
      var current := if key.requestId in cancelledGenerations then cancelledGenerations[key.requestId] else 0;
      cancelledGenerations := cancelledGenerations[key.requestId := if current < key.generation then key.generation else current];
      reply := Ok;
    }

    // ---------- Prefill/Decode operations ----------

    /** Reserve this worker's share of a request. A key already reserved for the same role is answered with
        its id again; the budget is asked at most once per key. */
    method PDReserve(key: Key, role: Role, deadline: int, maxNewTokens: int, required: Required, now: int)
      returns (reply: Reply)
      requires Valid()
      modifies `reservations, `nextReservationId, budget
      ensures Valid() && (State(), reply) == Reserving(old(State()), key, role, deadline, maxNewTokens, required, now)
      ensures reply.Granted? ==> key in reservations && reservations[key].id == reply.id
      ensures reply.Granted? && key !in old(reservations) ==>
                reservations[key] == Reservation(reply.id, role, deadline, Wanted(old(State()), role, maxNewTokens, required))
                && now < deadline && OwedSomething(reservations[key].demands)
      ensures reply.Granted? <==>
                && ownerAlive && !Anonymous(key) && deadline > now && deadline > 0
                && FewTokens(maxNewTokens) && !IsCancelled(old(State()), key)
                && if key in old(reservations) then old(reservations)[key].role == role
                   else (role == Prefill ==> required.Required? && required.kvBytes > 0 && required.bundleBytes > 0)
                        && Fits(old(State()), Wanted(old(State()), role, maxNewTokens, required))
    {
      if !ownerAlive || key.requestId == "" || key.generation == 0 || deadline <= 0
         || maxNewTokens <= 0 || maxNewTokens > 256 {
        return Failed;
      }
      if now >= deadline || CancelSeen(key) {
        return Failed;
      }
      if key in reservations {
        if reservations[key].role != role {
          return Failed;
        }
        return Granted(reservations[key].id);
      }
      var demands: seq<Demand>;
      match role {
        case Decode =>
          demands := [Demand(KV, BlocksFor(maxNewTokens, blockSize) * blockBytes)];
        case Prefill =>
          if required.NoRequirements? || required.kvBytes == 0 || required.bundleBytes == 0 {
            return Failed;
          }
          demands := [Demand(KV, required.kvBytes), Demand(Bundles, required.bundleBytes), Demand(Staging, required.stagingBytes)];
      }
      WantedIsOwed(State(), role, maxNewTokens, required);
      reply := Enter(key, role, deadline, demands);
    }

    /** Take the bytes and enter the reservation under its key, or refuse without effect. */
    method Enter(key: Key, role: Role, deadline: int, demands: seq<Demand>) returns (reply: Reply)
      requires Valid() && key !in reservations
      modifies `reservations, `nextReservationId, budget
      ensures Valid()
      ensures if Fits(old(State()), demands)
              then reply == Granted(old(nextReservationId))
                   && State() == Grant(old(State()), key, Reservation(old(nextReservationId), role, deadline, demands))
              else reply == Failed && State() == old(State())
    {
      var granted := budget.Reserve(demands);
      if !granted {
        return Failed;
      }
      ghost var r := Reservation(nextReservationId, role, deadline, demands);
      GrantBalanced(base, old(State()), key, r);
      reservations := reservations[key := Reservation(nextReservationId, role, deadline, demands)];
      reply := Granted(nextReservationId);
      nextReservationId := nextReservationId + 1;
      assert State() == Grant(old(State()), key, r);
    }

    method PDUnreserve(key: Key, id: nat) returns (reply: Reply)
      requires Valid()
      modifies `reservations, budget
      ensures Valid() && (State(), reply) == Unreserving(old(State()), key, id)
      ensures reply == Ok <==> key !in old(reservations) || (id != 0 && id == old(reservations)[key].id)
      ensures reply == Ok ==> key !in reservations
    {
      if key !in reservations {
        return Ok;
      }
      if id == 0 || id != reservations[key].id {
        return Failed;
      }
      DropReservation(key);
      reply := Ok;
    }

    method DropReservation(key: Key)
      requires Valid() && key in reservations
      modifies `reservations, budget
      ensures Valid() && State() == Drop(old(State()), key)
    {
      DropBalanced(base, State(), key);
      ghost var after := Drop(State(), key);
      budget.Release(reservations[key].demands);
      reservations := reservations - {key};
      assert State() == after;
    }

    /** Take a reservation over for use. It must exist under this id, role and exact demands; an expired one
        is given back instead. */
    method ConsumePDReservation(key: Key, role: Role, id: nat, expected: seq<Demand>, now: int) returns (ok: bool)
      requires Valid()
      modifies `reservations, budget
      ensures ok <==> Matches(old(State()), key, role, id, expected) && now < old(reservations)[key].deadline
      ensures ok ==> State() == old(State()).(reservations := old(reservations) - {key}) && budget.Valid()
      ensures !ok ==> Valid() && State() == if Matches(old(State()), key, role, id, expected) then Drop(old(State()), key)
                                            else old(State())
    {
      if key !in reservations {
        return false;
      }
      var found := reservations[key];
      if found.id != id || found.role != role || |found.demands| != |expected| {
        return false;
      }
      var i := 0;
      while i < |expected|
        invariant 0 <= i <= |expected| && found.demands[..i] == expected[..i]
      {
        if found.demands[i].pool != expected[i].pool || found.demands[i].bytes != expected[i].bytes {
          assert found.demands[i] != expected[i];
          return false;
        }
        assert found.demands[..i + 1] == found.demands[..i] + [found.demands[i]];
        assert expected[..i + 1] == expected[..i] + [expected[i]];
        i := i + 1;
      }
      assert found.demands == found.demands[..i] && expected == expected[..i];
      if now >= found.deadline {
        DropReservation(key);
        return false;
      }
      reservations := reservations - {key};
      ok := true;
    }

    /** Run a prefill. Its demands come from the reservation, or are reserved here when `id` is 0; on success
        they become the hold of the hand-off, on failure after that point they are given back. The bundle
        lease never outlives the call. A device over its limit fails the call even after its hold is entered; then
        the hold stays. `bundle` and `end` are what the data node and the model made of it. */
    method PDPrefill(key: Key, id: nat, maxNewTokens: int, now: int)
      returns (reply: Reply, ghost bundle: Option<Bundle>, ghost end: PrefillEnd)
      requires Valid()
      modifies `reservations, `holds, `latestGenerations, budget, client
      ensures Valid() && (State(), reply) == Prefilling(old(State()), key, id, maxNewTokens, bundle, end, now)
      ensures client.live == old(client.live)
      ensures id != 0 && key in old(reservations) ==>
                (key in reservations <==> PrefillRefused(old(State()), key, id, maxNewTokens, bundle))
    {
      bundle, end := None, Broke;
      if !ownerAlive || key.requestId == "" || key.generation == 0 || maxNewTokens <= 0 || maxNewTokens > 256 {
        return Failed, bundle, end;
      }
      if key in holds {
        return Failed, bundle, end;
      }
      var admitted := AdmitGeneration(key);
      if !admitted {
        return Failed, bundle, end;
      }
      if * {
        return Failed, bundle, end; // malformed content or representation id
      }
      var lease := client.Acquire();
      if lease == 0 {
        return Failed, bundle, end;
      }
      reply, bundle, end := PrefillBundle(key, id, maxNewTokens, now);
      client.Release(lease);
    }

    /** The part of a prefill during which the bundle lease is held. */
    method PrefillBundle(key: Key, id: nat, maxNewTokens: int, now: int)
      returns (reply: Reply, ghost bundle: Option<Bundle>, ghost end: PrefillEnd)
      requires Valid() && maxNewTokens > 0 && key !in holds
      modifies `reservations, `holds, budget
      ensures Valid()
      ensures if bundle == None then State() == old(State()) && reply == Failed
              else var demands := PrefillDemands(old(State()), maxNewTokens, bundle.value);
                   (State(), reply) == TakePrefill(old(State()), key, id, demands, end, now)
    {
      bundle, end := None, Broke;
      if * {
        return Failed, bundle, end; // bundle preflight, shape or semantic check
      }
      var tokens: nat, bundleBytes: nat, featureBytes: nat := *, *, *;
      bundle := Some(Bundle(tokens, bundleBytes, featureBytes));
      var demands := [Demand(KV, BlocksFor(tokens + maxNewTokens, blockSize) * blockBytes), Demand(Bundles, bundleBytes),
                      Demand(Staging, featureBytes)];
      if id != 0 {
        var consumed := ConsumePDReservation(key, Prefill, id, demands, now);
        if !consumed {
          return Failed, bundle, end;
        }
      } else {
        var granted := budget.Reserve(demands);
        if !granted {
          return Failed, bundle, end;
        }
      }
      // The bytes are now owned by this call and by nothing recorded.
      var ran: bool, withinLimit: bool := *, *;
      if ran {
        HoldDemands(key, id, demands, old(State()));
        // The device is sampled once more; by now nothing gives the bytes back.
        reply := if withinLimit then Ok else Failed;
        end := if withinLimit then Published else PublishedThenBroke;
      } else {
        ReturnDemands(key, id, demands, old(State())); // scheduling, forward pass, sampling, export or publishing failed
        reply := Failed;
      }
    }

    /** The bytes become those of the hand-off. */
    method HoldDemands(key: Key, id: nat, demands: seq<Demand>, ghost before: Worker)
      requires budget.Valid() && client.Valid() && Balanced(base, before) && key !in before.holds
      requires forall k :: k in reservations ==> reservations[k].id < nextReservationId
      requires if id != 0 then key in before.reservations && before.reservations[key].demands == demands
                               && State() == before.(reservations := before.reservations - {key})
               else State() == before.(used := Plus(before.used, demands))
      modifies `holds
      ensures Valid() && State() == if id != 0 then Keep(before, key) else HoldNew(before, key, demands)
    {
      holds := holds[key := demands];
      if id != 0 {
        KeepBalanced(base, before, key);
        assert State() == Keep(before, key);
      } else {
        HoldNewBalanced(base, before, key, demands);
        assert State() == HoldNew(before, key, demands);
      }
    }

    /** The bytes are given back. */
    method ReturnDemands(key: Key, id: nat, demands: seq<Demand>, ghost before: Worker)
      requires budget.Valid() && client.Valid() && Balanced(base, before)
      requires forall k :: k in reservations ==> reservations[k].id < nextReservationId
      requires if id != 0 then key in before.reservations && before.reservations[key].demands == demands
                               && State() == before.(reservations := before.reservations - {key})
               else State() == before.(used := Plus(before.used, demands))
      modifies budget
      ensures Valid() && State() == if id != 0 then Drop(before, key) else before
    {
      OwnedIsCovered(before, key, id, demands);
      budget.Release(demands);
      assert id != 0 ==> State() == Drop(before, key);
      assert id == 0 ==> State() == before;
    }

    lemma OwnedIsCovered(before: Worker, key: Key, id: nat, demands: seq<Demand>)
      requires Balanced(base, before)
      requires id != 0 ==> key in before.reservations && before.reservations[key].demands == demands
      ensures id != 0 ==> Covers(before.used, demands) && Balanced(base, Drop(before, key))
      ensures Covers(Plus(before.used, demands), demands) && Minus(Plus(before.used, demands), demands) == before.used
    {
      PlusMinus(before.used, demands);
      if id != 0 {
        DropBalanced(base, before, key);
      }
    }

    /** Run a decode. A consumed reservation is given back when the call ends, however it ends; a call that
        fails before consuming it leaves it in place. `later` is the clock when the reservation is consumed. */
    method PDDecode(key: Key, id: nat, maxNewTokens: int, deadline: int, now: int, later: int)
      returns (reply: Reply, ghost oddBytes: nat, ghost success: bool)
      requires Valid()
      modifies `reservations, budget, client
      ensures Valid() && (State(), reply) == Decoding(old(State()), key, id, maxNewTokens, deadline, oddBytes, success, now, later)
      ensures client.live == old(client.live)
      ensures id != 0 && Matches(old(State()), key, Decode, id, DecodeDemands(old(State()), maxNewTokens, oddBytes)) ==>
                (key in reservations <==> DecodeRefused(old(State()), key, deadline, now))
    {
      oddBytes, success := 0, false;
      if !ownerAlive || key.requestId == "" || key.generation == 0 || (deadline > 0 && now >= deadline) || CancelSeen(key) {
        return Failed, oddBytes, success;
      }
      var demands := [];
      if id != 0 {
        // The operation does not check its token count; what a non-positive one asks for is left open.
        var bytes: nat := *;
        oddBytes := bytes;
        if maxNewTokens > 0 {
          bytes := BlocksFor(maxNewTokens, blockSize) * blockBytes;
        }
        demands := [Demand(KV, bytes)];
        var consumed := ConsumePDReservation(key, Decode, id, demands, later);
        if !consumed {
          return Failed, oddBytes, success;
        }
      }
      reply := DecodeHandoff();
      success := reply == Ok;
      OwnedIsCovered(old(State()), key, id, demands);
      if id != 0 {
        budget.Release(demands);
        assert State() == Drop(old(State()), key);
      }
    }

    /** Attaching to the hand-off and decoding: any of its steps may fail; the hand-off lease is returned. */
    method DecodeHandoff() returns (reply: Reply)
      requires client.Valid()
      modifies client
      ensures client.Valid() && client.live == old(client.live)
      ensures reply == Ok || reply == Failed
    {
      if * {
        return Failed;
      }
      var lease := client.Acquire();
      if lease == 0 {
        return Failed;
      }
      if * { reply := Failed; } else { reply := Ok; }
      client.Release(lease);
    }

    method PDRelease(key: Key) returns (reply: Reply)
      requires Valid()
      modifies `holds, budget
      ensures Valid() && (State(), reply) == Releasing(old(State()), key)
      ensures reply == Ok <==> key in old(holds)
      ensures key !in holds
    {
      if key !in holds {
        return Failed;
      }
      UnholdBalanced(base, State(), key);
      ghost var after := Unhold(State(), key);
      budget.Release(holds[key]);
      holds := holds - {key};
      assert State() == after;
      reply := Ok;
    }

    // ---------- The command queue ----------

    /** The reader thread: a command that finds the queue full is answered with a failure and never executed. */
    method Offer(key: Key, command: Command) returns (queued: bool)
      requires Valid()
      modifies `queue
      ensures Valid() && (queued <==> !Full(old(State())))
      ensures queue == if queued then old(queue) + [(key, command)] else old(queue)
    {
      if |queue| >= QUEUE_CAPACITY {
        return false;
      }
      queue := queue + [(key, command)];
      queued := true;
    }

    /** The owner thread: take the oldest command and execute it. `call` is the command with what the data node
        and the model made of it. */
    method Serve(now: int, later: int) returns (reply: Reply, ghost key: Key, ghost call: Call)
      requires Valid() && queue != []
      modifies `queue, `reservations, `holds, `nextReservationId, `latestGenerations, budget, client
      ensures Valid() && client.live == old(client.live) && queue == old(queue)[1..]
      ensures key == old(queue)[0].0 && Executes(old(queue)[0].1, call, now, later)
      ensures (State(), reply) == Perform(old(State()).(queued := |old(queue)| - 1), key, call)
    {
      var head := queue[0];
      key := head.0;
      queue := queue[1..];
      match head.1 {
        case Reserve(role, deadline, maxNewTokens, required) =>
          call := ReserveCall(role, deadline, maxNewTokens, required, now);
          reply := PDReserve(head.0, role, deadline, maxNewTokens, required, now);
        case Unreserve(id) =>
          call := UnreserveCall(id);
          reply := PDUnreserve(head.0, id);
        case RunPrefill(id, maxNewTokens) =>
          ghost var bundle, end;
          reply, bundle, end := PDPrefill(head.0, id, maxNewTokens, now);
          call := PrefillCall(id, maxNewTokens, bundle, end, now);
        case RunDecode(id, maxNewTokens, deadline) =>
          ghost var oddBytes, success;
          reply, oddBytes, success := PDDecode(head.0, id, maxNewTokens, deadline, now, later);
          call := DecodeCall(id, maxNewTokens, deadline, oddBytes, success, now, later);
        case Release =>
          call := ReleaseCall;
          reply := PDRelease(head.0);
      }
    }

    /** `call` is an execution of `command` at these times. */
    static ghost predicate Executes(command: Command, call: Call, now: int, later: int)
    {
      match command
      case Reserve(role, deadline, maxNewTokens, required) => call == ReserveCall(role, deadline, maxNewTokens, required, now)
      case Unreserve(id) => call == UnreserveCall(id)
      case RunPrefill(id, maxNewTokens) =>
        call.PrefillCall? && call == PrefillCall(id, maxNewTokens, call.bundle, call.end, now)
      case RunDecode(id, maxNewTokens, deadline) =>
        call.DecodeCall? && call == DecodeCall(id, maxNewTokens, deadline, call.oddBytes, call.success, now, later)
      case Release => call == ReleaseCall
    }

    // ---------- Batched inference ----------

    /** Give back everything a batch holds, once. */
    method ReleaseBatch(batch: seq<BatchEntry>, ghost before: PerPool, ghost live0: set<nat>)
      requires budget.Valid() && client.Valid() && Charged(before, live0, batch, budget.used, client.live)
      modifies budget`used, client
      ensures budget.Valid() && client.Valid() && budget.used == before && client.live == live0
    {
      var k := 0;
      assert batch[0..] == batch;
      while k < |batch|
        invariant 0 <= k <= |batch| && budget.Valid() && client.Valid()
        invariant Charged(before, live0, batch[k..], budget.used, client.live)
      {
        DischargeOne(before, live0, batch[k..], budget.used, client.live);
        assert batch[k..][1..] == batch[k + 1..];
        budget.Release(batch[k].demands);
        client.Release(batch[k].lease);
        k := k + 1;
      }
      assert batch[k..] == [] && Leases([]) == {};
      assert forall i :: 0 <= i < POOLS ==> budget.used[i] == before[i];
    }

    /** One request of a batch: reject it, fail the call, or admit it with its bytes and lease. */
    method AdmitOne(key: Key, maxNewTokens: int, now: int) returns (failed: bool, entry: seq<BatchEntry>)
      requires budget.Valid() && client.Valid()
      modifies `latestGenerations, budget, client
      ensures budget.Valid() && client.Valid()
      ensures |entry| <= 1 && (failed ==> entry == []) && budget.capacity == old(budget.capacity)
      ensures Newer(old(latestGenerations), latestGenerations)
      ensures entry == [] ==> budget.used == old(budget.used) && client.live == old(client.live)
      ensures entry != [] ==>
                && entry[0].lease !in old(client.live) && client.live == old(client.live) + {entry[0].lease}
                && budget.used == Plus(old(budget.used), entry[0].demands)
    {
      if key.requestId == "" || key.generation == 0 || maxNewTokens <= 0 || maxNewTokens > 256 {
        return true, [];
      }
      var admitted := AdmitGeneration(key);
      if !admitted {
        return false, [];
      }
      if * {
        return true, []; // malformed content, representation or feature id
      }
      var lease := client.Acquire();
      if lease == 0 {
        return true, [];
      }
      if * {
        client.Release(lease); // preflight, shape, hidden size, image span or semantic key
        return true, [];
      }
      var tokens: nat, bundleBytes: nat, featureBytes: nat, deadline: int := *, *, *, *;
      var demands := [Demand(KV, BlocksFor(tokens + maxNewTokens, blockSize) * blockBytes), Demand(Bundles, bundleBytes),
                      Demand(Staging, featureBytes)];
      var fits := false;
      if now < deadline {
        fits := budget.Reserve(demands);
      }
      if !fits {
        client.Release(lease);
        return false, [];
      }
      PlusMinus(old(budget.used), demands);
      if * {
        budget.Release(demands); // the device has no memory left
        client.Release(lease);
        return false, [];
      }
      return false, [BatchEntry(demands, lease)];
    }

    /** Run a batch. Whatever happens, all bytes and all bundle leases taken for it are given back exactly once,
        and the Prefill/Decode ledger is untouched. */
    method Infer(requests: seq<(Key, int)>, now: int) returns (reply: Reply)
      requires Valid()
      modifies `latestGenerations, budget, client
      ensures Valid() && client.live == old(client.live)
      ensures State() == old(State()).(latest := latestGenerations) && Newer(old(latestGenerations), latestGenerations)
    {
      if !ownerAlive || |requests| == 0 || |requests| > 8 {
        return Failed;
      }
      var batch: seq<BatchEntry> := [];
      assert Leases([]) == {};
      for k := 0 to |requests|
        invariant budget.Valid() && client.Valid() && budget.capacity == old(budget.capacity)
        invariant Newer(old(latestGenerations), latestGenerations)
        invariant Charged(old(budget.used), old(client.live), batch, budget.used, client.live)
      {
        ghost var used, live := budget.used, client.live;
        var failed, entry := AdmitOne(requests[k].0, requests[k].1, now);
        if failed {
          ReleaseBatch(batch, old(budget.used), old(client.live));
          return Failed;
        }
        if entry != [] {
          ChargeOne(old(budget.used), old(client.live), batch, used, live, entry[0]);
          batch := batch + [entry[0]];
        }
      }
      // Scheduling and the forward passes may throw; the guard releases the batch either way.
      if * { reply := Failed; } else { reply := Ok; }
      ReleaseBatch(batch, old(budget.used), old(client.live));
    }
  }
}
