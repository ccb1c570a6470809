/** The audit of a memory owner's trace: which leases of the shared arena were live when, and whether two
    models really used the same bytes one after the other. */
module LeaseTraceAudit {
  import opened Numbers

  datatype Lease = Lease(epoch: int, id: int, generation: int, offset: int, bytes: int, model: string)

  datatype Identity = Identity(epoch: int, id: int, generation: int)

  datatype Event = Acquire(lease: Lease) | Release(lease: Lease) | Other

  datatype Verdict = Accepted(acquires: nat, releases: nat, peak: int, reused: nat) | Refused

  type Trace = seq<Event>

  function IdOf(l: Lease): Identity {
    Identity(l.epoch, l.id, l.generation)
  }

  function Overlap(a: Lease, b: Lease): int {
    Max(0, Min(a.offset + a.bytes, b.offset + b.bytes) - Max(a.offset, b.offset))
  }

  // ---------- What a sound trace is ----------

  /** Event `i` acquires a lease that no event between it and event `n` releases. */
  ghost predicate OpenAt(t: Trace, n: nat, i: nat)
    requires n <= |t|
  {
    && i < n && t[i].Acquire?
    && forall j {:trigger Closes(t, i, j)} :: i < j < n ==> !Closes(t, i, j)
  }

  /** Event `j` releases the identity that event `i` names. */
  ghost predicate Closes(t: Trace, i: nat, j: nat)
    requires i < |t| && j < |t| && !t[i].Other?
  {
    t[j].Release? && IdOf(t[j].lease) == IdOf(t[i].lease)
  }

  /** The acquiring events whose leases are live when the first `n` events have happened. */
  ghost function LiveAt(t: Trace, n: nat): set<nat>
    requires n <= |t|
  {
    set i: nat | i < n && OpenAt(t, n, i)
  }

  ghost function LeasesAt(t: Trace, n: nat): set<Lease>
    requires n <= |t|
  {
    set i | i in LiveAt(t, n) :: LeaseOf(t, i)
  }

  function LeaseOf(t: Trace, i: nat): Lease
    requires i < |t| && !t[i].Other?
  {
    t[i].lease
  }

  /** Live leases have different identities and share no byte. */
  ghost predicate DisjointAt(t: Trace, n: nat)
    requires n <= |t|
  {
    forall i, j {:trigger Apart(LeaseOf(t, i), LeaseOf(t, j))} ::
      i in LiveAt(t, n) && j in LiveAt(t, n) && i != j ==> Apart(LeaseOf(t, i), LeaseOf(t, j))
  }

  predicate Apart(a: Lease, b: Lease) {
    IdOf(a) != IdOf(b) && Overlap(a, b) == 0
  }

  /** The released lease is live, exactly as it was acquired. */
  ghost predicate MatchedAt(t: Trace, j: nat)
    requires j < |t| && t[j].Release?
  {
    exists i :: i in LiveAt(t, j) && t[i].lease == t[j].lease
  }

  /** Event `j` acquires bytes that another model released before. */
  ghost predicate ReusesAt(t: Trace, j: nat)
    requires j < |t|
  {
    t[j].Acquire? && exists i {:trigger Hands(t[i], t[j].lease)} :: 0 <= i < j && Hands(t[i], t[j].lease)
  }

  predicate Hands(e: Event, l: Lease) {
    e.Release? && e.lease.model != l.model && Overlap(l, e.lease) > 0
  }

  ghost function Acquires(t: Trace, n: nat): set<nat>
    requires n <= |t|
  {
    set i: nat | i < n && t[i].Acquire?
  }

  ghost function Releases(t: Trace, n: nat): set<nat>
    requires n <= |t|
  {
    set i: nat | i < n && t[i].Release?
  }

  ghost function Reuses(t: Trace, n: nat): set<nat>
    requires n <= |t|
  {
    set j: nat | j < n && ReusesAt(t, j)
  }

  /** All leases name one epoch. */
  ghost predicate OneEpoch(t: Trace) {
    forall i, j :: 0 <= i < |t| && 0 <= j < |t| && !t[i].Other? && !t[j].Other? ==> t[i].lease.epoch == t[j].lease.epoch
  }

  ghost predicate SoundTo(t: Trace, n: nat)
    requires n <= |t|
  {
    && (forall m {:trigger DisjointAt(t, m)} :: 0 <= m <= n ==> DisjointAt(t, m))
    && (forall j {:trigger MatchedAt(t, j)} :: 0 <= j < n && t[j].Release? ==> MatchedAt(t, j))
  }

  ghost predicate Sound(t: Trace) {
    && SoundTo(t, |t|) && LiveAt(t, |t|) == {} && OneEpoch(t)
    && Acquires(t, |t|) != {} && Reuses(t, |t|) != {}
  }

  // ---------- Live bytes ----------

  ghost function TotalBytes(s: set<Lease>): int {
    if s == {} then 0 else
      var l :| l in s;
      l.bytes + TotalBytes(s - {l})
  }

  lemma {:induction false} TotalRemove(s: set<Lease>, l: Lease)
    requires l in s
    ensures TotalBytes(s) == l.bytes + TotalBytes(s - {l})
    decreases s
  {
    var c :| c in s && TotalBytes(s) == c.bytes + TotalBytes(s - {c});
    if c != l {
      TotalRemove(s - {c}, l);
      TotalRemove(s - {l}, c);
      assert s - {c} - {l} == s - {l} - {c};
    }
  }

  ghost function Addresses(s: set<Lease>): set<int> {
    set l, a | l in s && l.offset <= a < l.offset + l.bytes && Within(l, a) :: a
  }

  predicate Within(l: Lease, a: int) {
    l.offset <= a < l.offset + l.bytes
  }

  ghost function Span(l: Lease): set<int> {
    Interval(l.offset, l.offset + l.bytes)
  }

  ghost function Interval(lo: int, hi: int): set<int>
    ensures forall a :: a in Interval(lo, hi) <==> lo <= a < hi
    decreases hi - lo
  {
    if hi <= lo then {} else Interval(lo, hi - 1) + {hi - 1}
  }

  lemma {:induction false} IntervalSize(lo: int, hi: int)
    requires lo <= hi
    ensures |Interval(lo, hi)| == hi - lo
    decreases hi - lo
  {
    if lo < hi { IntervalSize(lo, hi - 1); }
  }

  lemma SpanSize(l: Lease)
    requires l.bytes >= 0
    ensures |Span(l)| == l.bytes
  {
    IntervalSize(l.offset, l.offset + l.bytes);
  }

  /** Leases that share no byte take as many bytes together as there are addresses in them. */
  lemma {:induction false} BytesAreAddresses(s: set<Lease>)
    requires forall l :: l in s ==> l.bytes >= 0
    requires forall a, b {:trigger Overlap(a, b)} :: a in s && b in s && a != b ==> Overlap(a, b) == 0
    ensures TotalBytes(s) == |Addresses(s)|
    decreases s
  {
    if s == {} {
      assert Addresses(s) == {};
    } else {
      var l :| l in s;
      var rest := s - {l};
      TotalRemove(s, l);
      BytesAreAddresses(rest);
      forall m | m in rest ensures Overlap(l, m) == 0 { assert m != l; }
      AddressesGrow(s, l);
    }
  }

  lemma AddressesGrow(s: set<Lease>, l: Lease)
    requires l in s && l.bytes >= 0 && forall m :: m in s - {l} ==> Overlap(l, m) == 0
    ensures |Addresses(s)| == |Addresses(s - {l})| + l.bytes
  {
    SpanSize(l);
    AddressesSplit(s, l);
    NoCommonAddress(s - {l}, l);
    UnionSize(Addresses(s - {l}), Span(l), Addresses(s));
  }

  lemma NoCommonAddress(s: set<Lease>, l: Lease)
    requires forall m :: m in s ==> Overlap(l, m) == 0
    ensures Addresses(s) !! Span(l)
  {
    forall a | a in Span(l) ensures a !in Addresses(s) {
      forall m | m in s ensures !Within(m, a) { assert Overlap(l, m) == 0; }
    }
  }

  lemma UnionSize(a: set<int>, b: set<int>, c: set<int>)
    requires a !! b && c == a + b
    ensures |c| == |a| + |b|
  {
  }

  lemma AddressesSplit(s: set<Lease>, l: Lease)
    requires l in s
    ensures Addresses(s) == Addresses(s - {l}) + Span(l)
  {
    var rest := s - {l};
    forall a | a in Addresses(s) ensures a in Addresses(rest) + Span(l) {
      var m :| m in s && Within(m, a);
      if m != l { assert m in rest; }
    }
    forall a | a in Span(l) ensures a in Addresses(s) { assert Within(l, a); }
    forall a | a in Addresses(rest) ensures a in Addresses(s) {
      var m :| m in rest && Within(m, a);
      assert m in s;
    }
  }

  method SumBytes(leases: set<Lease>) returns (total: int)
    ensures total == TotalBytes(leases)
  {
    total := 0;
    var rest := leases;
    while rest != {}
      invariant rest <= leases && total == TotalBytes(leases) - TotalBytes(rest)
      decreases rest
    {
      var l :| l in rest;
      TotalRemove(rest, l);
      total, rest := total + l.bytes, rest - {l};
    }
  }

  // ---------- One event ----------

  lemma LaterEvent(t: Trace, n: nat, i: nat)
    requires i < n < |t| && t[i].Acquire?
    ensures OpenAt(t, n + 1, i) <==> OpenAt(t, n, i) && !Closes(t, i, n)
  {
    if OpenAt(t, n + 1, i) {
      assert !Closes(t, i, n);
      forall j | i < j < n ensures !Closes(t, i, j) {}
    }
  }

  lemma AcquireOpens(t: Trace, n: nat)
    requires n < |t| && t[n].Acquire?
    ensures LiveAt(t, n + 1) == LiveAt(t, n) + {n}
  {
    forall i: nat | i < n && t[i].Acquire? ensures OpenAt(t, n + 1, i) <==> OpenAt(t, n, i) { LaterEvent(t, n, i); }
    assert OpenAt(t, n + 1, n);
  }

  lemma ReleaseCloses(t: Trace, n: nat)
    requires n < |t| && t[n].Release?
    ensures LiveAt(t, n + 1) == set i | i in LiveAt(t, n) && IdOf(t[i].lease) != IdOf(t[n].lease)
  {
    forall i: nat | i < n && t[i].Acquire? ensures OpenAt(t, n + 1, i) <==> OpenAt(t, n, i) && !Closes(t, i, n) {
      LaterEvent(t, n, i);
    }
  }

  lemma OtherKeeps(t: Trace, n: nat)
    requires n < |t| && t[n].Other?
    ensures LiveAt(t, n + 1) == LiveAt(t, n)
  {
    forall i: nat | i < n && t[i].Acquire? ensures OpenAt(t, n + 1, i) <==> OpenAt(t, n, i) { LaterEvent(t, n, i); }
  }

  /** The table holds exactly the live leases, by identity. */
  ghost predicate Tracks(t: Trace, n: nat, active: map<Identity, Lease>)
    requires n <= |t|
  {
    && (forall i :: i in LiveAt(t, n) ==> IdOf(t[i].lease) in active && active[IdOf(t[i].lease)] == t[i].lease)
    && (forall k :: k in active ==> exists i :: i in LiveAt(t, n) && t[i].lease == active[k] && IdOf(t[i].lease) == k)
  }

  lemma AcquireTracks(t: Trace, n: nat, active: map<Identity, Lease>)
    requires n < |t| && t[n].Acquire? && Tracks(t, n, active) && DisjointAt(t, n)
    requires IdOf(t[n].lease) !in active && forall k :: k in active ==> Overlap(t[n].lease, active[k]) == 0
    ensures Tracks(t, n + 1, active[IdOf(t[n].lease) := t[n].lease]) && DisjointAt(t, n + 1)
  {
    AcquireOpens(t, n);
    forall i | i in LiveAt(t, n) ensures Apart(LeaseOf(t, i), LeaseOf(t, n)) && Apart(LeaseOf(t, n), LeaseOf(t, i)) {
      assert IdOf(t[i].lease) in active;
    }
    assert n in LiveAt(t, n + 1);
  }

  /** A lease that repeats a live identity or touches a live byte spoils the trace. */
  lemma AcquireClashes(t: Trace, n: nat, active: map<Identity, Lease>)
    requires n < |t| && t[n].Acquire? && Tracks(t, n, active)
    requires IdOf(t[n].lease) in active || exists k :: k in active && Overlap(t[n].lease, active[k]) != 0
    ensures !Sound(t)
  {
    AcquireOpens(t, n);
    var k :| k in active && (k == IdOf(t[n].lease) || Overlap(t[n].lease, active[k]) != 0);
    var i :| i in LiveAt(t, n) && t[i].lease == active[k] && IdOf(t[i].lease) == k;
    assert i in LiveAt(t, n + 1) && n in LiveAt(t, n + 1) && !Apart(LeaseOf(t, n), LeaseOf(t, i));
    assert !DisjointAt(t, n + 1);
  }

  lemma ReleaseTracks(t: Trace, n: nat, active: map<Identity, Lease>)
    requires n < |t| && t[n].Release? && Tracks(t, n, active) && DisjointAt(t, n)
    requires IdOf(t[n].lease) in active && active[IdOf(t[n].lease)] == t[n].lease
    ensures Tracks(t, n + 1, active - {IdOf(t[n].lease)}) && DisjointAt(t, n + 1) && MatchedAt(t, n)
  {
    ReleaseCloses(t, n);
    forall k | k in active - {IdOf(t[n].lease)}
      ensures exists i :: i in LiveAt(t, n + 1) && t[i].lease == active[k] && IdOf(t[i].lease) == k
    {
      var i :| i in LiveAt(t, n) && t[i].lease == active[k] && IdOf(t[i].lease) == k;
      assert i in LiveAt(t, n + 1);
    }
  }

  lemma ReleaseUnmatched(t: Trace, n: nat, active: map<Identity, Lease>)
    requires n < |t| && t[n].Release? && Tracks(t, n, active)
    requires IdOf(t[n].lease) !in active || active[IdOf(t[n].lease)] != t[n].lease
    ensures !Sound(t)
  {
    assert !MatchedAt(t, n);
  }

  lemma TrackedValues(t: Trace, n: nat, active: map<Identity, Lease>)
    requires n <= |t| && Tracks(t, n, active)
    ensures active.Values == LeasesAt(t, n)
  {
    forall l | l in LeasesAt(t, n) ensures l in active.Values {
      var i :| i in LiveAt(t, n) && LeaseOf(t, i) == l;
      assert IdOf(t[i].lease) in active;
    }
    forall l | l in active.Values ensures l in LeasesAt(t, n) {
      var k :| k in active && active[k] == l;
      var i :| i in LiveAt(t, n) && t[i].lease == active[k] && IdOf(t[i].lease) == k;
      assert LeaseOf(t, i) == l;
    }
  }

  // ---------- The counters ----------

  ghost function Epochs(t: Trace, n: nat): set<int>
    requires n <= |t|
  {
    set i | 0 <= i < n && !t[i].Other? :: t[i].lease.epoch
  }

  lemma OneEpochIsOneElement(t: Trace)
    requires OneEpoch(t) && Epochs(t, |t|) != {}
    ensures |Epochs(t, |t|)| == 1
  {
    var e :| e in Epochs(t, |t|);
    assert Epochs(t, |t|) == {e};
  }

  lemma OneElementIsOneEpoch(t: Trace)
    requires |Epochs(t, |t|)| == 1
    ensures OneEpoch(t)
  {
    var es := Epochs(t, |t|);
    var e :| e in es;
    assert |es - {e}| == 0;
    forall i, j | 0 <= i < |t| && 0 <= j < |t| && !t[i].Other? && !t[j].Other? ensures t[i].lease.epoch == t[j].lease.epoch {
      assert t[i].lease.epoch in es && t[j].lease.epoch in es;
    }
  }

  /** The most bytes live after any acquire among the first `n` events, and at least 0. */
  ghost predicate IsPeak(t: Trace, n: nat, peak: int)
    requires n <= |t|
  {
    && peak >= 0
    && (forall m {:trigger Reaches(t, m)} :: 0 <= m < n && t[m].Acquire? ==> Reaches(t, m) <= peak)
    && (peak == 0 || exists m {:trigger Reaches(t, m)} :: 0 <= m < n && t[m].Acquire? && Reaches(t, m) == peak)
  }

  /** Live bytes right after event `m`. */
  ghost function Reaches(t: Trace, m: nat): int
    requires m < |t|
  {
    LiveBytes(t, m + 1)
  }

  ghost function LiveBytes(t: Trace, n: nat): int
    requires n <= |t|
  {
    TotalBytes(LeasesAt(t, n))
  }

  lemma AcquiresStep(t: Trace, n: nat)
    requires n < |t|
    ensures |Acquires(t, n + 1)| == |Acquires(t, n)| + if t[n].Acquire? then 1 else 0
  {
    assert Acquires(t, n + 1) == Acquires(t, n) + if t[n].Acquire? then {n} else {};
  }

  lemma ReleasesStep(t: Trace, n: nat)
    requires n < |t|
    ensures |Releases(t, n + 1)| == |Releases(t, n)| + if t[n].Release? then 1 else 0
  {
    assert Releases(t, n + 1) == Releases(t, n) + if t[n].Release? then {n} else {};
  }

  lemma EpochsStep(t: Trace, n: nat)
    requires n < |t|
    ensures t[n].Other? ==> Epochs(t, n + 1) == Epochs(t, n)
    ensures !t[n].Other? ==> Epochs(t, n + 1) == Epochs(t, n) + {t[n].lease.epoch}
  {
  }

  lemma ReusesStep(t: Trace, n: nat)
    requires n < |t|
    ensures |Reuses(t, n + 1)| == |Reuses(t, n)| + if ReusesAt(t, n) then 1 else 0
  {
    assert Reuses(t, n + 1) == Reuses(t, n) + if ReusesAt(t, n) then {n} else {};
  }

  ghost predicate Released(t: Trace, n: nat, released: seq<Lease>)
    requires n <= |t|
  {
    && (forall i {:trigger Gives(t, i)} :: 0 <= i < n && t[i].Release? ==> Gives(t, i) in released)
    && (forall l :: l in released ==> exists i {:trigger Gives(t, i)} :: 0 <= i < n && t[i].Release? && Gives(t, i) == l)
  }

  ghost function Gives(t: Trace, i: nat): Lease
    requires i < |t| && t[i].Release?
  {
    t[i].lease
  }

  lemma ReleasedStep(t: Trace, n: nat, released: seq<Lease>)
    requires n < |t| && Released(t, n, released)
    ensures Released(t, n + 1, if t[n].Release? then released + [t[n].lease] else released)
  {
    if t[n].Release? {
      assert Gives(t, n) == t[n].lease;
      forall l | l in released + [t[n].lease] ensures exists i :: 0 <= i < n + 1 && t[i].Release? && Gives(t, i) == l {
        if l in released { var i :| 0 <= i < n && t[i].Release? && Gives(t, i) == l; }
      }
    }
  }

  ghost predicate Counted(t: Trace, n: nat, acquired: nat, returned: nat, reused: nat, peak: int)
    requires n <= |t|
  {
    acquired == |Acquires(t, n)| && returned == |Releases(t, n)| && reused == |Reuses(t, n)| && IsPeak(t, n, peak)
  }

  /** Whether an earlier release handed over some of these bytes. */
  method Reuse(ghost t: Trace, ghost n: nat, lease: Lease, released: seq<Lease>) returns (found: bool)
    requires n < |t| && t[n] == Acquire(lease) && Released(t, n, released)
    ensures found <==> ReusesAt(t, n)
  {
    for k := 0 to |released|
      invariant forall m :: 0 <= m < k ==> !Hands(Release(released[m]), lease)
    {
      if released[k].model != lease.model && Overlap(lease, released[k]) > 0 {
        assert released[k] in released;
        ghost var i :| 0 <= i < n && t[i].Release? && Gives(t, i) == released[k];
        assert Hands(t[i], lease);
        return true;
      }
    }
    assert forall l :: l in released ==> !Hands(Release(l), lease);
    assert forall i {:trigger Gives(t, i)} :: 0 <= i < n && t[i].Release? ==> !Hands(Release(Gives(t, i)), lease);
    forall i | 0 <= i < n ensures !Hands(t[i], lease) {
      if t[i].Release? { assert t[i] == Release(Gives(t, i)); }
    }
    return false;
  }

  lemma PeakStep(t: Trace, n: nat, peak: int)
    requires n < |t| && IsPeak(t, n, peak)
    ensures IsPeak(t, n + 1, if t[n].Acquire? then Max(peak, Reaches(t, n)) else peak)
  {
  }

  lemma CountedStep(t: Trace, n: nat, acquired: nat, returned: nat, reused: nat, peak: int)
    requires n < |t| && Counted(t, n, acquired, returned, reused, peak)
    ensures Counted(t, n + 1, acquired + if t[n].Acquire? then 1 else 0, returned + if t[n].Release? then 1 else 0,
                    reused + if ReusesAt(t, n) then 1 else 0, if t[n].Acquire? then Max(peak, Reaches(t, n)) else peak)
  {
    AcquiresStep(t, n);
    ReleasesStep(t, n);
    ReusesStep(t, n);
    PeakStep(t, n, peak);
  }

  lemma SoundStep(t: Trace, n: nat)
    requires n < |t| && SoundTo(t, n) && DisjointAt(t, n + 1) && (t[n].Release? ==> MatchedAt(t, n))
    ensures SoundTo(t, n + 1)
  {
  }

  /** What the audit keeps. */
  datatype Books = Books(active: map<Identity, Lease>, released: seq<Lease>, epochs: set<int>, acquired: nat, returned: nat, reused: nat, peak: int)

  ghost predicate Fits(t: Trace, n: nat, b: Books)
    requires n <= |t|
  {
    Tracks(t, n, b.active) && SoundTo(t, n) && Released(t, n, b.released) && b.epochs == Epochs(t, n)
    && Counted(t, n, b.acquired, b.returned, b.reused, b.peak)
  }

  lemma Start(t: Trace)
    ensures Fits(t, 0, Books(map[], [], {}, 0, 0, 0, 0))
  {
    assert Acquires(t, 0) == {} && Releases(t, 0) == {} && Reuses(t, 0) == {};
  }

  lemma OtherFits(t: Trace, n: nat, b: Books)
    requires n < |t| && t[n].Other? && Fits(t, n, b)
    ensures Fits(t, n + 1, b)
  {
    OtherKeeps(t, n);
    assert DisjointAt(t, n);
    SoundStep(t, n);
    ReleasedStep(t, n, b.released);
    EpochsStep(t, n);
    CountedStep(t, n, b.acquired, b.returned, b.reused, b.peak);
  }

  lemma AcquireFits(t: Trace, n: nat, b: Books, b': Books)
    requires n < |t| && t[n].Acquire? && Fits(t, n, b)
    requires IdOf(t[n].lease) !in b.active && forall k :: k in b.active ==> Overlap(t[n].lease, b.active[k]) == 0
    requires b' == Books(b.active[IdOf(t[n].lease) := t[n].lease], b.released, b.epochs + {t[n].lease.epoch}, b.acquired + 1, b.returned,
                         b.reused + if ReusesAt(t, n) then 1 else 0, Max(b.peak, Reaches(t, n)))
    ensures Fits(t, n + 1, b')
  {
    assert DisjointAt(t, n);
    AcquireTracks(t, n, b.active);
    SoundStep(t, n);
    ReleasedStep(t, n, b.released);
    EpochsStep(t, n);
    CountedStep(t, n, b.acquired, b.returned, b.reused, b.peak);
  }

  lemma ReleaseFits(t: Trace, n: nat, b: Books)
    requires n < |t| && t[n].Release? && Fits(t, n, b)
    requires IdOf(t[n].lease) in b.active && b.active[IdOf(t[n].lease)] == t[n].lease
    ensures Fits(t, n + 1, b.(active := b.active - {IdOf(t[n].lease)}, released := b.released + [t[n].lease],
                              epochs := b.epochs + {t[n].lease.epoch}, returned := b.returned + 1))
  {
    assert DisjointAt(t, n);
    ReleaseTracks(t, n, b.active);
    SoundStep(t, n);
    ReleasedStep(t, n, b.released);
    EpochsStep(t, n);
    CountedStep(t, n, b.acquired, b.returned, b.reused, b.peak);
  }

  /** An acquire is entered in the books, or the trace is not sound. */
  method OnAcquire(ghost t: Trace, ghost n: nat, b: Books, lease: Lease) returns (ok: bool, b': Books)
    requires n < |t| && t[n] == Acquire(lease) && Fits(t, n, b)
    ensures if ok then Fits(t, n + 1, b') else !Sound(t)
  {
    var identity := IdOf(lease);
    if identity in b.active || exists k :: k in b.active && Overlap(lease, b.active[k]) != 0 {
      AcquireClashes(t, n, b.active);
      return false, b;
    }
    var found := Reuse(t, n, lease, b.released);
    var active := b.active[identity := lease];
    AcquireLive(t, n, b.active, active);
    var live := SumBytes(active.Values);
    b' := Books(active, b.released, b.epochs + {lease.epoch}, b.acquired + 1, b.returned, if found then b.reused + 1 else b.reused, Max(b.peak, live));
    AcquireFits(t, n, b, b');
    return true, b';
  }

  lemma AcquireLive(t: Trace, n: nat, active: map<Identity, Lease>, active': map<Identity, Lease>)
    requires n < |t| && t[n].Acquire? && Tracks(t, n, active) && SoundTo(t, n)
    requires IdOf(t[n].lease) !in active && forall k :: k in active ==> Overlap(t[n].lease, active[k]) == 0
    requires active' == active[IdOf(t[n].lease) := t[n].lease]
    ensures TotalBytes(active'.Values) == Reaches(t, n)
  {
    assert DisjointAt(t, n);
    AcquireTracks(t, n, active);
    TrackedValues(t, n + 1, active');
  }

  method OnRelease(ghost t: Trace, ghost n: nat, b: Books, lease: Lease) returns (ok: bool, b': Books)
    requires n < |t| && t[n] == Release(lease) && Fits(t, n, b)
    ensures if ok then Fits(t, n + 1, b') else !Sound(t)
  {
    var identity := IdOf(lease);
    if identity !in b.active || b.active[identity] != lease {
      ReleaseUnmatched(t, n, b.active);
      return false, b;
    }
    ReleaseFits(t, n, b);
    b' := b.(active := b.active - {identity}, released := b.released + [lease], epochs := b.epochs + {lease.epoch},
            returned := b.returned + 1);
    return true, b';
  }

  /** The last line of the audit. */
  lemma Final(t: Trace, b: Books)
    requires Fits(t, |t|, b)
    ensures |b.epochs| == 1 && b.acquired > 0 && b.active == map[] && b.reused > 0 <==> Sound(t)
  {
    if |Epochs(t, |t|)| == 1 { OneElementIsOneEpoch(t); }
    if i :| i in Acquires(t, |t|) {
      assert t[i].lease.epoch in Epochs(t, |t|);
      if OneEpoch(t) { OneEpochIsOneElement(t); }
    }
    if i :| i in LiveAt(t, |t|) { assert IdOf(t[i].lease) in b.active; }
    if b.active != map[] { var k :| k in b.active; }
  }

  /** The loop body. */
  method OnEvent(t: Trace, n: nat, b: Books) returns (ok: bool, b': Books)
    requires n < |t| && Fits(t, n, b)
    ensures if ok then Fits(t, n + 1, b') else !Sound(t)
  {
    match t[n]
    case Acquire(lease) => ok, b' := OnAcquire(t, n, b, lease);
    case Release(lease) => ok, b' := OnRelease(t, n, b, lease);
    case Other =>
      OtherFits(t, n, b);
      return true, b;
  }

  /** The loop over the events. */
  method Replay(t: Trace) returns (ok: bool, b: Books)
    ensures if ok then Fits(t, |t|, b) else !Sound(t)
  {
    b := Books(map[], [], {}, 0, 0, 0, 0);
    Start(t);
    for n := 0 to |t|
      invariant Fits(t, n, b) == true
    {
      ok, b := OnEvent(t, n, b);
      if !ok { return; }
    }
    ok := true;
  }

  /** The audit accepts exactly the sound traces, and its report is true of them. */
  method AuditTrace(t: Trace) returns (v: Verdict)
    ensures v.Accepted? <==> Sound(t)
    ensures v.Accepted? ==> Counted(t, |t|, v.acquires, v.releases, v.reused, v.peak)
  {
    var ok, b := Replay(t);
    if !ok { return Refused; }
    Final(t, b);
    if |b.epochs| != 1 || b.acquired == 0 || b.active != map[] || b.reused == 0 { return Refused; }
    return Accepted(b.acquired, b.returned, b.peak, b.reused);
  }

  // ---------- What acceptance means ----------

  lemma {:induction false} NotMoreThan(t: Trace, n: nat)
    requires n <= |t| && SoundTo(t, n)
    ensures |Acquires(t, n)| == |Releases(t, n)| + |LiveAt(t, n)|
  {
    if n == 0 {
      assert Acquires(t, 0) == {} && Releases(t, 0) == {} && LiveAt(t, 0) == {};
    } else {
      NotMoreThan(t, n - 1);
      AcquiresStep(t, n - 1);
      ReleasesStep(t, n - 1);
      LiveStep(t, n - 1);
    }
  }

  lemma LiveStep(t: Trace, n: nat)
    requires n < |t| && SoundTo(t, n + 1)
    ensures |LiveAt(t, n + 1)| == |LiveAt(t, n)| + (match t[n] case Acquire(_) => 1 case Release(_) => -1 case Other => 0)
  {
    match t[n]
    case Acquire(_) => AcquireOpens(t, n);
    case Other => OtherKeeps(t, n);
    case Release(l) =>
      ReleaseCloses(t, n);
      assert MatchedAt(t, n) && DisjointAt(t, n);
      var i :| i in LiveAt(t, n) && t[i].lease == l;
      forall j | j in LiveAt(t, n) && j != i ensures IdOf(t[j].lease) != IdOf(l) {
        assert Apart(LeaseOf(t, j), LeaseOf(t, i));
      }
      assert LiveAt(t, n + 1) == LiveAt(t, n) - {i};
  }

  /** A sound trace releases exactly as often as it acquires. */
  lemma AsManyReleases(t: Trace)
    requires Sound(t)
    ensures |Acquires(t, |t|)| == |Releases(t, |t|)|
  {
    NotMoreThan(t, |t|);
  }

  /** Without negative sizes, the live bytes at a time are the addresses some live lease covers. */
  lemma LiveBytesAreAddresses(t: Trace, n: nat)
    requires n <= |t| && DisjointAt(t, n) && Sized(t)
    ensures LiveBytes(t, n) == |Addresses(LeasesAt(t, n))|
  {
    forall a, b | a in LeasesAt(t, n) && b in LeasesAt(t, n) && a != b ensures Overlap(a, b) == 0 {
      var i :| i in LiveAt(t, n) && LeaseOf(t, i) == a;
      var j :| j in LiveAt(t, n) && LeaseOf(t, j) == b;
      assert Apart(LeaseOf(t, i), LeaseOf(t, j));
    }
    forall l | l in LeasesAt(t, n) ensures l.bytes >= 0 {
      var i :| i in LiveAt(t, n) && LeaseOf(t, i) == l;
      assert SizedAt(t, i);
    }
    BytesAreAddresses(LeasesAt(t, n));
  }

  ghost predicate Sized(t: Trace) {
    forall i {:trigger SizedAt(t, i)} :: 0 <= i < |t| ==> SizedAt(t, i)
  }

  ghost predicate SizedAt(t: Trace, i: nat)
    requires i < |t|
  {
    !t[i].Other? ==> t[i].lease.bytes >= 0
  }

  /** Without an acquire the live bytes do not grow. */
  lemma NoGrowth(t: Trace, m: nat)
    requires 0 < m <= |t| && !t[m - 1].Acquire? && DisjointAt(t, m - 1) && DisjointAt(t, m) && Sized(t)
    ensures LiveBytes(t, m) <= LiveBytes(t, m - 1)
  {
    if t[m - 1].Release? { ReleaseCloses(t, m - 1); } else { OtherKeeps(t, m - 1); }
    assert LiveAt(t, m) <= LiveAt(t, m - 1);
    LiveBytesAreAddresses(t, m - 1);
    LiveBytesAreAddresses(t, m);
    FewerAddresses(LeasesAt(t, m), LeasesAt(t, m - 1));
  }

  lemma {:induction false} LiveBytesBelowPeak(t: Trace, n: nat, m: nat, peak: int)
    requires m <= n <= |t| && SoundTo(t, n) && IsPeak(t, n, peak) && Sized(t)
    ensures LiveBytes(t, m) <= peak
  {
    if m == 0 {
      NothingLive(t);
    } else if t[m - 1].Acquire? {
      AcquireBelowPeak(t, n, m, peak);
    } else {
      LiveBytesBelowPeak(t, n, m - 1, peak);
      assert DisjointAt(t, m - 1) && DisjointAt(t, m);
      NoGrowth(t, m);
    }
  }

  lemma AcquireBelowPeak(t: Trace, n: nat, m: nat, peak: int)
    requires 0 < m <= n <= |t| && IsPeak(t, n, peak) && t[m - 1].Acquire?
    ensures LiveBytes(t, m) <= peak
  {
    assert Reaches(t, m - 1) <= peak;
  }

  lemma NothingLive(t: Trace)
    ensures LiveBytes(t, 0) == 0
  {
    assert LiveAt(t, 0) == {} && LeasesAt(t, 0) == {};
  }

  lemma FewerAddresses(a: set<Lease>, b: set<Lease>)
    requires a <= b
    ensures |Addresses(a)| <= |Addresses(b)|
  {
    forall x | x in Addresses(a) ensures x in Addresses(b) { var l :| l in a && Within(l, x); assert l in b; }
    SubsetSize(Addresses(a), Addresses(b));
  }

  /** Every lease lies in an arena of this size. */
  ghost predicate InArena(t: Trace, arena: nat) {
    forall i {:trigger t[i]} :: 0 <= i < |t| && !t[i].Other? ==>
      0 <= t[i].lease.bytes && 0 <= t[i].lease.offset && t[i].lease.offset + t[i].lease.bytes <= arena
  }

  lemma ArenaHolds(t: Trace, n: nat, arena: nat)
    requires n <= |t| && InArena(t, arena)
    ensures |Addresses(LeasesAt(t, n))| <= arena
  {
    IntervalSize(0, arena);
    forall a | a in Addresses(LeasesAt(t, n)) ensures a in Interval(0, arena) {
      var l :| l in LeasesAt(t, n) && Within(l, a);
      var i :| i in LiveAt(t, n) && LeaseOf(t, i) == l;
    }
    SubsetSize(Addresses(LeasesAt(t, n)), Interval(0, arena));
  }

  /** The reported peak is the largest number of addresses live at any time, so it is at most the size of an
      arena that holds every lease. */
  lemma PeakIsTrueMaximum(t: Trace, peak: int, arena: nat)
    requires Sound(t) && IsPeak(t, |t|, peak) && InArena(t, arena)
    ensures forall m :: 0 <= m <= |t| ==> |Addresses(LeasesAt(t, m))| <= peak
    ensures exists m :: 0 <= m <= |t| && |Addresses(LeasesAt(t, m))| == peak
    ensures peak <= arena
  {
    assert Sized(t);
    forall m | 0 <= m <= |t| ensures |Addresses(LeasesAt(t, m))| == LiveBytes(t, m) <= peak {
      assert DisjointAt(t, m);
      LiveBytesAreAddresses(t, m);
      LiveBytesBelowPeak(t, |t|, m, peak);
    }
    NothingLive(t);
    var m :| 0 <= m <= |t| && LiveBytes(t, m) == peak by {
      if peak != 0 {
        var k :| 0 <= k < |t| && t[k].Acquire? && Reaches(t, k) == peak;
        assert LiveBytes(t, k + 1) == peak;
      }
    }
    assert |Addresses(LeasesAt(t, m))| == peak;
    ArenaHolds(t, m, arena);
  }
}
