/** The sweep over GPU kernel records that measures how long two processes really share a device. Time is in
    integer nanoseconds, so the measure of a set of instants is its number of elements. */
module MpsOverlap {
  import opened Numbers
  import opened Options

  datatype Kernel = Kernel(start: int, end: int, pid: int)

  /** A heap entry: when a kernel ends, and its index. */
  datatype Ending = Ending(end: int, index: nat)

  /** `first` and `second` run together for `duration` from `start` on. */
  datatype Longest = Longest(duration: int, start: int, first: nat, second: nat)

  datatype Summary = Summary(pairs: nat, overlapNs: int, unionNs: int, longest: Option<Longest>)

  // ---------- What is measured ----------

  predicate Runs(k: Kernel, t: int) {
    k.start <= t < k.end
  }

  ghost predicate Sweepable(ks: seq<Kernel>) {
    && |ks| > 0
    && (forall i :: 0 <= i < |ks| ==> ks[i].start < ks[i].end)
    && (forall i, j {:trigger InOrder(ks, i, j)} :: 0 <= i <= j < |ks| ==> InOrder(ks, i, j))
  }

  ghost predicate InOrder(ks: seq<Kernel>, i: nat, j: nat)
    requires i <= j < |ks|
  {
    ks[i].start <= ks[j].start
  }

  /** Nothing still to come starts before `t`. */
  ghost predicate LaterThan(ks: seq<Kernel>, n: nat, t: int) {
    forall i :: n <= i < |ks| ==> t <= ks[i].start
  }

  lemma RestIsLater(ks: seq<Kernel>, n: nat)
    requires Sweepable(ks) && n < |ks|
    ensures LaterThan(ks, n, ks[n].start)
  {
    forall i | n <= i < |ks| ensures ks[n].start <= ks[i].start { assert InOrder(ks, n, i); }
  }

  /** Instants at which some kernel runs. */
  ghost function Busy(ks: seq<Kernel>): set<int> {
    set i, t | 0 <= i < |ks| && ks[i].start <= t < ks[i].end && Runs(ks[i], t) :: t
  }

  /** Instants at which kernels of at least two processes run. */
  ghost function Shared(ks: seq<Kernel>): set<int> {
    set i, j, t | 0 <= i < |ks| && 0 <= j < |ks| && ks[i].pid != ks[j].pid
                  && ks[i].start <= t < ks[i].end && Runs(ks[i], t) && Runs(ks[j], t) :: t
  }

  /** How long two kernels run together; not positive when they do not. */
  function Together(a: Kernel, b: Kernel): int {
    Min(a.end, b.end) - Max(a.start, b.start)
  }

  /** Pairs among the first `n` kernels, of different processes, that run together. */
  ghost function Pairs(ks: seq<Kernel>, n: nat): set<(nat, nat)>
    requires n <= |ks|
  {
    set i: nat, j: nat | 0 <= i < j < n && Crossing(ks, i, j) :: (i, j)
  }

  predicate Crossing(ks: seq<Kernel>, i: nat, j: nat)
    requires i < |ks| && j < |ks|
  {
    ks[i].pid != ks[j].pid && Together(ks[i], ks[j]) > 0
  }

  /** Pairs are met by second kernel, then by first. */
  predicate Earlier(i: nat, j: nat, a: nat, b: nat) {
    j < b || (j == b && i < a)
  }

  /** The first pair met whose kernels run together longest, if there is any pair. */
  ghost predicate IsLongest(ks: seq<Kernel>, n: nat, m: nat, best: Option<Longest>)
    requires m <= n <= |ks|
  {
    match best
    case None => forall i: nat, j: nat {:trigger Crossing(ks, i, j)} :: i < j < |ks| && Met(i, j, n, m) ==> !Crossing(ks, i, j)
    case Some(b) =>
      && b.first < b.second < |ks| && Met(b.first, b.second, n, m) && Crossing(ks, b.first, b.second)
      && b.duration == Together(ks[b.first], ks[b.second]) && b.start == Max(ks[b.first].start, ks[b.second].start)
      && forall i: nat, j: nat {:trigger Crossing(ks, i, j)} :: i < j < |ks| && Met(i, j, n, m) && Crossing(ks, i, j) ==>
           && Together(ks[i], ks[j]) <= b.duration
           && (Earlier(i, j, b.first, b.second) ==> Together(ks[i], ks[j]) < b.duration)
  }

  /** Second kernels below `n` are done; of those with second kernel `n`, first kernels below `m`. */
  predicate Met(i: nat, j: nat, n: nat, m: nat) {
    j < n || (j == n && i < m)
  }

  // ---------- Counting instants ----------

  ghost function Before(s: set<int>, t: int): set<int> {
    set x | x in s && x < t
  }

  lemma {:induction false} Stretch(s: set<int>, a: int, b: int)
    requires a <= b && forall t :: a <= t < b ==> t in s
    ensures |Before(s, b)| == |Before(s, a)| + b - a
    decreases b - a
  {
    if a < b {
      Stretch(s, a, b - 1);
      assert Before(s, b) == Before(s, b - 1) + {b - 1};
    }
  }

  lemma Gap(s: set<int>, a: int, b: int)
    requires a <= b && forall t :: a <= t < b ==> t !in s
    ensures |Before(s, b)| == |Before(s, a)|
  {
    assert Before(s, b) == Before(s, a);
  }

  // ---------- The sweep ----------

  /** The sweep has come to `previous` and met the first `n` kernels: exactly those that have not ended before
      are active, and each active one waits in the heap. */
  ghost predicate Swept(ks: seq<Kernel>, n: nat, active: map<nat, Kernel>, endings: set<Ending>, previous: int) {
    && n <= |ks|
    && (forall i :: i in active ==> i < n && active[i] == ks[i] && ks[i].start <= previous <= ks[i].end)
    && (forall i :: 0 <= i < n && i !in active ==> ks[i].end <= previous)
    && (forall i :: i in active ==> Ending(ks[i].end, i) in endings)
    && (forall e :: e in endings ==> e.index in active && e.end == active[e.index].end)
  }

  /** Nothing starts or ends between `previous` and `next`. */
  ghost predicate Calm(ks: seq<Kernel>, n: nat, active: map<nat, Kernel>, previous: int, next: int) {
    && previous <= next
    && (forall i :: i in active ==> next <= active[i].end)
    && LaterThan(ks, n, next)
  }

  function Pids(active: map<nat, Kernel>): set<int> {
    set i | i in active :: active[i].pid
  }

  /** More than one process is active exactly when two active kernels differ in theirs. */
  lemma SeveralPids(active: map<nat, Kernel>)
    ensures |Pids(active)| > 1 <==> exists i, j :: i in active && j in active && active[i].pid != active[j].pid
  {
    var pids := Pids(active);
    if i, j :| i in active && j in active && active[i].pid != active[j].pid {
      assert {active[i].pid, active[j].pid} <= pids;
      SubsetSize({active[i].pid, active[j].pid}, pids);
    } else if p :| p in pids {
      assert pids == {p};
    }
  }

  lemma CalmBusy(ks: seq<Kernel>, n: nat, active: map<nat, Kernel>, endings: set<Ending>, previous: int, next: int)
    requires Swept(ks, n, active, endings, previous) && Calm(ks, n, active, previous, next)
    ensures |Before(Busy(ks), next)| == |Before(Busy(ks), previous)| + if active != map[] then next - previous else 0
  {
    if i :| i in active {
      forall t | previous <= t < next ensures t in Busy(ks) { assert Runs(ks[i], t); }
      Stretch(Busy(ks), previous, next);
    } else {
      Gap(Busy(ks), previous, next);
    }
  }

  lemma CalmShared(ks: seq<Kernel>, n: nat, active: map<nat, Kernel>, endings: set<Ending>, previous: int, next: int)
    requires Swept(ks, n, active, endings, previous) && Calm(ks, n, active, previous, next)
    ensures |Before(Shared(ks), next)| == |Before(Shared(ks), previous)| + if |Pids(active)| > 1 then next - previous else 0
  {
    SeveralPids(active);
    if i, j :| i in active && j in active && active[i].pid != active[j].pid {
      forall t | previous <= t < next ensures t in Shared(ks) {
        assert Runs(ks[i], t) && Runs(ks[j], t);
      }
      Stretch(Shared(ks), previous, next);
    } else {
      Gap(Shared(ks), previous, next);
    }
  }

  lemma {:induction false} EarliestExists(endings: set<Ending>)
    requires endings != {}
    ensures exists e :: Earliest(endings, e)
  {
    var e :| e in endings;
    if endings == {e} {
      assert Earliest(endings, e);
    } else {
      var rest := endings - {e};
      EarliestExists(rest);
      var m :| Earliest(rest, m);
      var first := if NotAfter(e, m) then e else m;
      forall f | f in endings ensures NotAfter(first, f) {
        if f != e { assert f in rest; }
      }
      assert Earliest(endings, first);
    }
  }

  predicate NotAfter(a: Ending, b: Ending) {
    a.end < b.end || (a.end == b.end && a.index <= b.index)
  }

  /** What a heap pop yields. */
  ghost predicate Earliest(endings: set<Ending>, e: Ending) {
    e in endings && forall f :: f in endings ==> NotAfter(e, f)
  }

  /** Pop the heap. */
  method Pop(endings: set<Ending>) returns (e: Ending, rest: set<Ending>)
    requires endings != {}
    ensures Earliest(endings, e) && rest == endings - {e}
  {
    EarliestExists(endings);
    e :| e in endings && forall f :: f in endings ==> NotAfter(e, f);
    rest := endings - {e};
  }

  /** What the totals stand for when the sweep has come to `previous`. */
  ghost predicate Totals(ks: seq<Kernel>, previous: int, unionNs: int, overlapNs: int) {
    unionNs == |Before(Busy(ks), previous)| && overlapNs == |Before(Shared(ks), previous)|
  }

  /** Over a calm stretch each total grows by the whole stretch or not at all. */
  lemma Passes(ks: seq<Kernel>, n: nat, active: map<nat, Kernel>, endings: set<Ending>, previous: int, next: int,
      unionNs: int, overlapNs: int)
    requires Swept(ks, n, active, endings, previous) && Calm(ks, n, active, previous, next)
    requires Totals(ks, previous, unionNs, overlapNs)
    ensures Totals(ks, next, unionNs + if active != map[] then next - previous else 0,
                   overlapNs + if |Pids(active)| > 1 then next - previous else 0)
  {
    CalmBusy(ks, n, active, endings, previous, next);
    CalmShared(ks, n, active, endings, previous, next);
  }

  /** The earliest ending is the next thing that happens. */
  lemma Expires(ks: seq<Kernel>, n: nat, active: map<nat, Kernel>, endings: set<Ending>, previous: int, e: Ending)
    requires Swept(ks, n, active, endings, previous) && Earliest(endings, e)
    requires LaterThan(ks, n, e.end)
    ensures active != map[] && Calm(ks, n, active, previous, e.end)
    ensures Swept(ks, n, active - {e.index}, endings - {e}, e.end)
  {
    assert e.index in active;
    forall i | i in active ensures e.end <= ks[i].end {
      assert NotAfter(e, Ending(ks[i].end, i));
    }
  }

  ghost predicate Outlast(active: map<nat, Kernel>, now: int) {
    forall i :: i in active ==> active[i].end > now
  }

  /** Add a calm stretch to the totals. */
  method Accrue(active: map<nat, Kernel>, span: int, unionNs0: int, overlapNs0: int) returns (unionNs: int, overlapNs: int)
    ensures unionNs == unionNs0 + if active != map[] then span else 0
    ensures overlapNs == overlapNs0 + if |Pids(active)| > 1 then span else 0
  {
    unionNs, overlapNs := unionNs0, overlapNs0;
    if active != map[] { unionNs := unionNs + span; }
    if |Pids(active)| > 1 { overlapNs := overlapNs + span; }
  }

  /** The outer loop's inner loop: expire every kernel that ends by `now`. */
  method Expire(ks: seq<Kernel>, n: nat, now: int, active0: map<nat, Kernel>, endings0: set<Ending>, previous0: int,
      unionNs0: int, overlapNs0: int)
    returns (active: map<nat, Kernel>, endings: set<Ending>, previous: int, unionNs: int, overlapNs: int)
    requires Swept(ks, n, active0, endings0, previous0) && previous0 <= now
    requires LaterThan(ks, n, now)
    requires Totals(ks, previous0, unionNs0, overlapNs0)
    ensures Swept(ks, n, active, endings, previous) && previous <= now
    ensures Outlast(active, now) && Totals(ks, previous, unionNs, overlapNs)
  {
    active, endings, previous, unionNs, overlapNs := active0, endings0, previous0, unionNs0, overlapNs0;
    while exists e :: e in endings && e.end <= now
      invariant Swept(ks, n, active, endings, previous) && previous <= now
      invariant Totals(ks, previous, unionNs, overlapNs)
      decreases endings
    {
      var e, rest := Pop(endings);
      Expires(ks, n, active, endings, previous, e);
      Passes(ks, n, active, endings, previous, e.end, unionNs, overlapNs);
      unionNs, overlapNs := Accrue(active, e.end - previous, unionNs, overlapNs);
      previous := e.end;
      active := active - {e.index};
      endings := rest;
    }
    forall i | i in active ensures active[i].end > now {
      assert Ending(ks[i].end, i) in endings;
    }
  }

  /** Come to the start of kernel `n`. */
  method AdvanceTo(ks: seq<Kernel>, n: nat, active0: map<nat, Kernel>, endings0: set<Ending>, previous: int,
      unionNs0: int, overlapNs0: int)
    returns (active: map<nat, Kernel>, endings: set<Ending>, unionNs: int, overlapNs: int)
    requires n < |ks| && Swept(ks, n, active0, endings0, previous) && previous <= ks[n].start
    requires LaterThan(ks, n, ks[n].start) && Totals(ks, previous, unionNs0, overlapNs0)
    ensures Swept(ks, n, active, endings, ks[n].start) && Totals(ks, ks[n].start, unionNs, overlapNs)
    ensures Outlast(active, ks[n].start)
  {
    var now := ks[n].start;
    var last: int;
    active, endings, last, unionNs, overlapNs := Expire(ks, n, now, active0, endings0, previous, unionNs0, overlapNs0);
    Passes(ks, n, active, endings, last, now, unionNs, overlapNs);
    unionNs, overlapNs := Accrue(active, now - last, unionNs, overlapNs);
  }

  function Better(best: Option<Longest>, l: Longest): Option<Longest> {
    if best == None || l.duration > best.value.duration then Some(l) else best
  }

  lemma LongestStep(ks: seq<Kernel>, n: nat, m: nat, best: Option<Longest>)
    requires m < n < |ks| && IsLongest(ks, n, m, best)
    ensures !Crossing(ks, m, n) ==> IsLongest(ks, n, m + 1, best)
    ensures Crossing(ks, m, n) ==>
              IsLongest(ks, n, m + 1, Better(best, Longest(Together(ks[m], ks[n]), Max(ks[m].start, ks[n].start), m, n)))
  {
  }

  /** Pairs with second kernel `n` and first below `m`. */
  ghost function PairsAt(ks: seq<Kernel>, n: nat, m: nat): set<(nat, nat)>
    requires m <= n < |ks|
  {
    set i: nat | 0 <= i < m && Crossing(ks, i, n) :: (i, n)
  }

  lemma PairsStep(ks: seq<Kernel>, n: nat, m: nat)
    requires m < n < |ks|
    ensures |PairsAt(ks, n, m + 1)| == |PairsAt(ks, n, m)| + if Crossing(ks, m, n) then 1 else 0
  {
    assert PairsAt(ks, n, m + 1) == PairsAt(ks, n, m) + if Crossing(ks, m, n) then {(m, n)} else {};
  }

  lemma PairsDone(ks: seq<Kernel>, n: nat)
    requires n < |ks|
    ensures |Pairs(ks, n + 1)| == |Pairs(ks, n)| + |PairsAt(ks, n, n)|
  {
    assert Pairs(ks, n + 1) == Pairs(ks, n) + PairsAt(ks, n, n);
  }

  /** The sweep's innermost loop: pair the new kernel `n` with every active one, oldest first. */
  method MeetActive(ks: seq<Kernel>, n: nat, active: map<nat, Kernel>, ghost endings: set<Ending>, pairs0: nat,
      best0: Option<Longest>)
    returns (pairs: nat, best: Option<Longest>)
    requires Sweepable(ks) && n < |ks|
    requires Swept(ks, n, active, endings, ks[n].start) && Outlast(active, ks[n].start)
    requires pairs0 == |Pairs(ks, n)| && IsLongest(ks, n, 0, best0)
    ensures pairs == |Pairs(ks, n + 1)| && IsLongest(ks, n + 1, 0, best)
  {
    pairs, best := pairs0, best0;
    for i := 0 to n
      invariant pairs == pairs0 + |PairsAt(ks, n, i)| && IsLongest(ks, n, i, best)
    {
      LongestStep(ks, n, i, best);
      assert InOrder(ks, i, n);
      PairsStep(ks, n, i);
      if i in active && active[i].pid != ks[n].pid {
        var duration := Min(active[i].end, ks[n].end) - ks[n].start;
        pairs := pairs + 1;
        if best == None || duration > best.value.duration {
          best := Some(Longest(duration, ks[n].start, i, n));
        }
      }
    }
    PairsDone(ks, n);
    LongestDone(ks, n, best);
  }

  lemma LongestDone(ks: seq<Kernel>, n: nat, best: Option<Longest>)
    requires n < |ks| && IsLongest(ks, n, n, best)
    ensures IsLongest(ks, n + 1, 0, best)
  {
  }

  lemma Arrives(ks: seq<Kernel>, n: nat, active: map<nat, Kernel>, endings: set<Ending>)
    requires Sweepable(ks) && n < |ks| && Swept(ks, n, active, endings, ks[n].start) && Outlast(active, ks[n].start)
    ensures Swept(ks, n + 1, active[n := ks[n]], endings + {Ending(ks[n].end, n)}, ks[n].start)
  {
  }

  lemma NothingYet(ks: seq<Kernel>)
    requires Sweepable(ks)
    ensures Totals(ks, ks[0].start, 0, 0) && Pairs(ks, 0) == {}
  {
    RestIsLater(ks, 0);
    assert Before(Busy(ks), ks[0].start) == {} && Before(Shared(ks), ks[0].start) == {};
  }

  lemma Finished(ks: seq<Kernel>, previous: int, unionNs: int, overlapNs: int)
    requires Totals(ks, previous, unionNs, overlapNs) && forall i :: 0 <= i < |ks| ==> ks[i].end <= previous
    ensures unionNs == |Busy(ks)| && overlapNs == |Shared(ks)|
  {
    assert Before(Busy(ks), previous) == Busy(ks) && Before(Shared(ks), previous) == Shared(ks);
  }

  /** The body of the outer loop: come to the start of kernel `n` and let it in. */
  method Meet(ks: seq<Kernel>, n: nat, active0: map<nat, Kernel>, endings0: set<Ending>, previous: int,
      unionNs0: int, overlapNs0: int, pairs0: nat, best0: Option<Longest>)
    returns (active: map<nat, Kernel>, endings: set<Ending>, unionNs: int, overlapNs: int, pairs: nat, best: Option<Longest>)
    requires Sweepable(ks) && n < |ks| && Swept(ks, n, active0, endings0, previous) && previous <= ks[n].start
    requires Totals(ks, previous, unionNs0, overlapNs0) && pairs0 == |Pairs(ks, n)| && IsLongest(ks, n, 0, best0)
    ensures Swept(ks, n + 1, active, endings, ks[n].start) && Totals(ks, ks[n].start, unionNs, overlapNs)
    ensures pairs == |Pairs(ks, n + 1)| && IsLongest(ks, n + 1, 0, best)
  {
    RestIsLater(ks, n);
    active, endings, unionNs, overlapNs := AdvanceTo(ks, n, active0, endings0, previous, unionNs0, overlapNs0);
    Arrives(ks, n, active, endings);
    pairs, best := MeetActive(ks, n, active, endings, pairs0, best0);
    active := active[n := ks[n]];
    endings := endings + {Ending(ks[n].end, n)};
  }

  method OverlapSummary(ks: seq<Kernel>) returns (s: Summary)
    requires Sweepable(ks)
    ensures s.unionNs == |Busy(ks)| && s.overlapNs == |Shared(ks)|
    ensures s.pairs == |Pairs(ks, |ks|)| && IsLongest(ks, |ks|, 0, s.longest)
  {
    var active: map<nat, Kernel>, endings: set<Ending> := map[], {};
    var pairs, overlapNs, unionNs := 0, 0, 0;
    var previous := ks[0].start;
    var best: Option<Longest> := None;
    NothingYet(ks);
    for n := 0 to |ks|
      invariant Swept(ks, n, active, endings, previous) && Totals(ks, previous, unionNs, overlapNs)
      invariant n < |ks| ==> previous <= ks[n].start
      invariant pairs == |Pairs(ks, n)| && IsLongest(ks, n, 0, best)
    {
      active, endings, unionNs, overlapNs, pairs, best :=
        Meet(ks, n, active, endings, previous, unionNs, overlapNs, pairs, best);
      previous := ks[n].start;
      if n + 1 < |ks| { assert InOrder(ks, n, n + 1); }
    }
    unionNs, overlapNs := Drain(ks, active, endings, previous, unionNs, overlapNs);
    s := Summary(pairs, overlapNs, unionNs, best);
  }

  /** The last loop: after the last arrival, expire what is left. */
  method Drain(ks: seq<Kernel>, active0: map<nat, Kernel>, endings0: set<Ending>, previous0: int, unionNs0: int, overlapNs0: int)
    returns (unionNs: int, overlapNs: int)
    requires Swept(ks, |ks|, active0, endings0, previous0) && Totals(ks, previous0, unionNs0, overlapNs0)
    ensures unionNs == |Busy(ks)| && overlapNs == |Shared(ks)|
  {
    var active, endings, previous := active0, endings0, previous0;
    unionNs, overlapNs := unionNs0, overlapNs0;
    while endings != {}
      invariant Swept(ks, |ks|, active, endings, previous) && Totals(ks, previous, unionNs, overlapNs)
      decreases endings
    {
      var e, rest := Pop(endings);
      Expires(ks, |ks|, active, endings, previous, e);
      Passes(ks, |ks|, active, endings, previous, e.end, unionNs, overlapNs);
      unionNs := unionNs + e.end - previous;
      if |Pids(active)| > 1 { overlapNs := overlapNs + e.end - previous; }
      previous := e.end;
      active := active - {e.index};
      endings := rest;
    }
    Finished(ks, previous, unionNs, overlapNs);
  }
}
