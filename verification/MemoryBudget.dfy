/** The node memory budget: per-pool counters with all-or-nothing reservation. */
module MemoryBudget {
  const SIZE_MAX: nat := 0xFFFF_FFFF_FFFF_FFFF

  datatype MemoryPool = Weights | Workspaces | KV | Bundles | Staging | Quarantine | HostCache

  const POOLS: nat := 7

  function IndexOf(pool: MemoryPool): (i: nat)
    ensures i < POOLS
  {
    match pool
    case Weights => 0
    case Workspaces => 1
    case KV => 2
    case Bundles => 3
    case Staging => 4
    case Quarantine => 5
    case HostCache => 6
  }

  datatype Demand = Demand(pool: MemoryPool, bytes: nat)

  type PerPool = s: seq<nat> | |s| == POOLS witness [0, 0, 0, 0, 0, 0, 0]

  /** Bytes that a list of demands asks of pool `i`. */
  function Total(demands: seq<Demand>, i: nat): nat
  {
    if demands == [] then 0
    else Total(demands[..|demands| - 1], i)
         + if IndexOf(demands[|demands| - 1].pool) == i then demands[|demands| - 1].bytes else 0
  }

  lemma {:induction false} TotalMonotone(demands: seq<Demand>, k: nat, i: nat)
    requires k <= |demands|
    ensures Total(demands[..k], i) <= Total(demands, i)
  {
    if k < |demands| {
      var front := demands[..|demands| - 1];
      assert demands[..k] == front[..k];
      TotalMonotone(front, k, i);
    } else {
      assert demands[..k] == demands;
    }
  }

  function Plus(v: PerPool, demands: seq<Demand>): (r: PerPool)
    ensures forall i :: 0 <= i < POOLS ==> r[i] == v[i] + Total(demands, i)
  {
    seq(POOLS, i requires 0 <= i < POOLS => v[i] + Total(demands, i))
  }

  predicate Covers(v: PerPool, demands: seq<Demand>)
  {
    forall i :: 0 <= i < POOLS ==> Total(demands, i) <= v[i]
  }

  function Minus(v: PerPool, demands: seq<Demand>): (r: PerPool)
    requires Covers(v, demands)
    ensures forall i :: 0 <= i < POOLS ==> r[i] == v[i] - Total(demands, i)
  {
    seq(POOLS, i requires 0 <= i < POOLS => v[i] - Total(demands, i))
  }

  /** `release` is the inverse of `reserve`. */
  lemma PlusMinus(v: PerPool, demands: seq<Demand>)
    ensures Covers(Plus(v, demands), demands) && Minus(Plus(v, demands), demands) == v
  {
    assert forall i :: 0 <= i < POOLS ==> Minus(Plus(v, demands), demands)[i] == v[i];
  }

  class NodeMemoryBudget {
    var capacity: PerPool
    var used: PerPool
    var peak: PerPool
    var frozen: bool

    /** Counters are machine words and never exceed their pool's capacity. */
    ghost predicate Valid()
      reads this
    {
      forall i :: 0 <= i < POOLS ==> used[i] <= peak[i] <= capacity[i] <= SIZE_MAX
    }

    constructor ()
      ensures Valid() && !frozen && used == capacity == [0, 0, 0, 0, 0, 0, 0]
    {
      capacity, used, peak := [0, 0, 0, 0, 0, 0, 0], [0, 0, 0, 0, 0, 0, 0], [0, 0, 0, 0, 0, 0, 0];
      frozen := false;
    }

    /** Any capacity that covers what is used now is accepted; `peak` is not looked at. */
    method SetCapacity(pool: MemoryPool, bytes: nat) returns (ok: bool)
      requires Valid() && bytes <= SIZE_MAX
      modifies this
      ensures ok <==> !old(frozen) && bytes >= old(used)[IndexOf(pool)]
      ensures used == old(used) && peak == old(peak) && frozen == old(frozen)
      ensures capacity == if ok then old(capacity)[IndexOf(pool) := bytes] else old(capacity)
      ensures Valid() <==> (ok ==> bytes >= old(peak)[IndexOf(pool)])
    {
      var i := IndexOf(pool);
      if frozen || bytes < used[i] {
        return false;
      }
      capacity := capacity[i := bytes];
      ok := true;
    }

    /** The per-pool sums of a demand list, or nothing if one does not fit a machine word. */
    static method Sum(demands: seq<Demand>) returns (ok: bool, delta: PerPool)
      ensures ok <==> forall i :: 0 <= i < POOLS ==> Total(demands, i) <= SIZE_MAX
      ensures ok ==> forall i :: 0 <= i < POOLS ==> delta[i] == Total(demands, i)
    {
      delta := [0, 0, 0, 0, 0, 0, 0];
      for k := 0 to |demands|
        invariant forall i :: 0 <= i < POOLS ==> delta[i] == Total(demands[..k], i) <= SIZE_MAX
      {
        var i := IndexOf(demands[k].pool);
        assert demands[..k + 1][..k] == demands[..k];
        if demands[k].bytes > SIZE_MAX - delta[i] {
          TotalMonotone(demands, k + 1, i);
          assert Total(demands[..k + 1], i) == delta[i] + demands[k].bytes;
          return false, delta;
        }
        delta := delta[i := delta[i] + demands[k].bytes];
      }
      assert demands[..|demands|] == demands;
      ok := true;
    }

    /** All-or-nothing across pools: granted exactly when every pool can take its share; a refusal changes
        no counter. */
    method Reserve(demands: seq<Demand>) returns (ok: bool)
      requires Valid()
      modifies this
      ensures Valid() && capacity == old(capacity) && frozen == old(frozen)
      ensures ok <==> forall i :: 0 <= i < POOLS ==> Total(demands, i) <= old(capacity)[i] - old(used)[i]
      ensures used == if ok then Plus(old(used), demands) else old(used)
      ensures !ok ==> peak == old(peak)
    {
      var summed, delta := Sum(demands);
      if !summed {
        return false;
      }
      var i := 0;
      while i < POOLS
        invariant 0 <= i <= POOLS
        invariant forall j :: 0 <= j < i ==> delta[j] <= capacity[j] - used[j]
      {
        if delta[i] > capacity[i] - used[i] {
          return false;
        }
        i := i + 1;
      }
      i := 0;
      while i < POOLS
        invariant 0 <= i <= POOLS && capacity == old(capacity) && frozen == old(frozen)
        invariant forall j :: 0 <= j < POOLS ==> used[j] == old(used)[j] + if j < i then delta[j] else 0
        invariant forall j :: 0 <= j < POOLS ==> used[j] <= peak[j] <= capacity[j]
      {
        used := used[i := used[i] + delta[i]];
        peak := peak[i := if peak[i] < used[i] then used[i] else peak[i]];
        i := i + 1;
      }
      assert used == Plus(old(used), demands);
      ok := true;
    }

    /** The process terminates when more is released than is used; callers must never get there. */
    method Release(demands: seq<Demand>)
      requires Valid() && Covers(used, demands)
      modifies `used
      ensures Valid() && used == Minus(old(used), demands)
    {
      var summed, delta := Sum(demands);
      var i := 0;
      while i < POOLS
        invariant 0 <= i <= POOLS && summed
        invariant forall j :: 0 <= j < POOLS ==> used[j] == old(used)[j] - if j < i then delta[j] else 0
      {
        used := used[i := used[i] - delta[i]];
        i := i + 1;
      }
      assert used == Minus(old(used), demands);
    }
  }
}
