/** The tokenizer's byte-pair encoding: a loop over cut points with cached ranks, and the naive algorithm it
    stands for. */
module BytePairEncoding {
  import opened ByteStrings
  import opened Options

  /** Ranks of the mergeable byte strings, which double as token numbers. */
  type Table = map<Bytes, int>

  /** The largest 32-bit integer stands for "no rank". */
  const NO_RANK: int := 0x7FFF_FFFF

  predicate Ranked(ranks: Table) {
    forall k :: k in ranks ==> ranks[k] < NO_RANK
  }

  // ---------- The naive algorithm ----------

  /** Rank of the pair that starts at piece `i`. */
  function PairRank(pieces: seq<Bytes>, ranks: Table, i: nat): int {
    if i + 1 < |pieces| && pieces[i] + pieces[i + 1] in ranks then ranks[pieces[i] + pieces[i + 1]] else NO_RANK
  }

  /** Pair `i` has the lowest rank, and no pair before it has the same. */
  ghost predicate IsBest(pieces: seq<Bytes>, ranks: Table, i: nat) {
    && PairRank(pieces, ranks, i) < NO_RANK
    && (forall j: nat :: PairRank(pieces, ranks, i) <= PairRank(pieces, ranks, j))
    && (forall j: nat :: j < i ==> PairRank(pieces, ranks, i) < PairRank(pieces, ranks, j))
  }

  function Merge(pieces: seq<Bytes>, i: nat): seq<Bytes>
    requires i + 1 < |pieces|
  {
    pieces[..i] + [pieces[i] + pieces[i + 1]] + pieces[i + 2..]
  }

  /** Merge the leftmost lowest-ranked adjacent pair until no pair is in the table. */
  ghost function Naive(pieces: seq<Bytes>, ranks: Table): seq<Bytes>
    decreases |pieces|
  {
    if exists i :: IsBest(pieces, ranks, i) then
      var i :| IsBest(pieces, ranks, i);
      Naive(Merge(pieces, i), ranks)
    else pieces
  }

  lemma BestIsUnique(pieces: seq<Bytes>, ranks: Table, i: nat, j: nat)
    requires IsBest(pieces, ranks, i) && IsBest(pieces, ranks, j)
    ensures i == j
  {
  }

  lemma NaiveStep(pieces: seq<Bytes>, ranks: Table, i: nat)
    requires IsBest(pieces, ranks, i)
    ensures Naive(pieces, ranks) == Naive(Merge(pieces, i), ranks)
  {
    var j :| IsBest(pieces, ranks, j) && Naive(pieces, ranks) == Naive(Merge(pieces, j), ranks);
    BestIsUnique(pieces, ranks, i, j);
  }

  lemma JoinedPair(x: Bytes, y: Bytes)
    ensures Joined([x, y]) == Joined([x + y])
  {
    assert [x, y][1..] == [y] && [y][1..] == [] && [x + y][1..] == [];
    assert Joined([y]) == y;
  }

  lemma JoinedAround(a: seq<Bytes>, m: seq<Bytes>, b: seq<Bytes>)
    ensures Joined(a + m + b) == Joined(a) + Joined(m) + Joined(b)
  {
    JoinedSplit(a + m, b);
    JoinedSplit(a, m);
  }

  lemma PairOut(pieces: seq<Bytes>, i: nat)
    requires i + 1 < |pieces|
    ensures pieces == pieces[..i] + [pieces[i], pieces[i + 1]] + pieces[i + 2..]
  {
    assert pieces == pieces[..i] + pieces[i..];
    assert pieces[i..] == [pieces[i], pieces[i + 1]] + pieces[i + 2..];
  }

  lemma MergeJoins(pieces: seq<Bytes>, i: nat)
    requires i + 1 < |pieces|
    ensures Joined(Merge(pieces, i)) == Joined(pieces)
  {
    PairOut(pieces, i);
    JoinedAround(pieces[..i], [pieces[i], pieces[i + 1]], pieces[i + 2..]);
    JoinedAround(pieces[..i], [pieces[i] + pieces[i + 1]], pieces[i + 2..]);
    JoinedPair(pieces[i], pieces[i + 1]);
  }

  /** The naive algorithm only regroups its input, and stops when no adjacent pair is in the table. */
  lemma {:induction false} NaivePartitions(pieces: seq<Bytes>, ranks: Table)
    requires Ranked(ranks)
    ensures Joined(Naive(pieces, ranks)) == Joined(pieces)
    ensures forall i :: 0 <= i && i + 1 < |Naive(pieces, ranks)| ==>
              Naive(pieces, ranks)[i] + Naive(pieces, ranks)[i + 1] !in ranks
    decreases |pieces|
  {
    if i :| IsBest(pieces, ranks, i) {
      NaiveStep(pieces, ranks, i);
      MergeJoins(pieces, i);
      NaivePartitions(Merge(pieces, i), ranks);
    } else {
      forall i | 0 <= i && i + 1 < |pieces| ensures pieces[i] + pieces[i + 1] !in ranks {
        if pieces[i] + pieces[i + 1] in ranks { BestExists(pieces, ranks, i); }
      }
    }
  }

  lemma BestExists(pieces: seq<Bytes>, ranks: Table, i: nat)
    requires PairRank(pieces, ranks, i) < NO_RANK && Ranked(ranks)
    ensures exists j :: IsBest(pieces, ranks, j)
  {
    var best := LowestBelow(pieces, ranks, |pieces|);
    assert PairRank(pieces, ranks, best) <= PairRank(pieces, ranks, i);
    forall j: nat ensures PairRank(pieces, ranks, best) <= PairRank(pieces, ranks, j) {
      if j >= |pieces| { assert PairRank(pieces, ranks, j) == NO_RANK; }
    }
    assert IsBest(pieces, ranks, best);
  }

  /** The leftmost lowest pair among the first `n`. */
  ghost function LowestBelow(pieces: seq<Bytes>, ranks: Table, n: nat): (b: nat)
    requires n <= |pieces|
    ensures n > 0 ==> b < n
    ensures forall j: nat :: j < n ==> PairRank(pieces, ranks, b) <= PairRank(pieces, ranks, j)
    ensures forall j: nat :: j < b ==> PairRank(pieces, ranks, b) < PairRank(pieces, ranks, j)
  {
    if n <= 1 then 0 else
      var b := LowestBelow(pieces, ranks, n - 1);
      if PairRank(pieces, ranks, n - 1) < PairRank(pieces, ranks, b) then n - 1 else b
  }

  // ---------- The loop with cached ranks ----------

  /** A cut point and the cached rank of the pair that starts there. */
  datatype Part = Part(start: nat, rank: int)

  /** Piece `i` is a non-empty stretch of the whole. */
  predicate CutAt(piece: Bytes, parts: seq<Part>, i: nat)
    requires i + 1 < |parts|
  {
    parts[i].start < parts[i + 1].start <= |piece|
  }

  /** The cut points of a non-empty piece: from its start to its end, strictly rising. */
  ghost predicate Cuts(piece: Bytes, parts: seq<Part>) {
    && |parts| >= 2 && parts[0].start == 0 && parts[|parts| - 1].start == |piece|
    && forall i {:trigger CutAt(piece, parts, i)} :: 0 <= i < |parts| - 1 ==> CutAt(piece, parts, i)
  }

  function PieceAt(piece: Bytes, parts: seq<Part>, i: nat): Bytes
    requires i + 1 < |parts| && CutAt(piece, parts, i)
  {
    piece[parts[i].start..parts[i + 1].start]
  }

  ghost function Between(piece: Bytes, parts: seq<Part>): (r: seq<Bytes>)
    requires Cuts(piece, parts)
    ensures |r| == |parts| - 1
    ensures forall i {:trigger r[i]} :: 0 <= i < |r| ==> CutAt(piece, parts, i) && r[i] == PieceAt(piece, parts, i)
  {
    seq(|parts| - 1, i requires 0 <= i < |parts| - 1 && CutAt(piece, parts, i) => PieceAt(piece, parts, i))
  }

  ghost predicate CachedAt(piece: Bytes, ranks: Table, parts: seq<Part>, i: nat)
    requires Cuts(piece, parts) && i < |parts|
  {
    parts[i].rank == PairRank(Between(piece, parts), ranks, i)
  }

  ghost predicate Cached(piece: Bytes, ranks: Table, parts: seq<Part>)
    requires Cuts(piece, parts)
  {
    forall i {:trigger CachedAt(piece, ranks, parts, i)} :: 0 <= i < |parts| - 1 ==> CachedAt(piece, ranks, parts, i)
  }

  /** Look up the string from cut `i` over the next 2 + `skip` pieces. */
  function GetRank(piece: Bytes, ranks: Table, parts: seq<Part>, i: nat, skip: nat): Option<int>
    requires i + skip + 2 < |parts| ==> parts[i].start <= parts[i + skip + 2].start <= |piece|
  {
    if i + skip + 2 < |parts| then
      var key := piece[parts[i].start..parts[i + skip + 2].start];
      if key in ranks then Some(ranks[key]) else None
    else None
  }

  function OrNone(r: Option<int>): int {
    if r.Some? then r.value else NO_RANK
  }

  ghost function Singles(piece: Bytes): (r: seq<Bytes>)
    ensures |r| == |piece|
  {
    seq(|piece|, i requires 0 <= i < |piece| => [piece[i]])
  }

  lemma {:induction false} JoinedSingles(piece: Bytes)
    ensures Joined(Singles(piece)) == piece
  {
    if piece != [] {
      assert Singles(piece)[1..] == Singles(piece[1..]);
      JoinedSingles(piece[1..]);
    }
  }

  /** What the loop keeps: good cuts, true cached ranks, and the naive result still to come. */
  ghost predicate Loop(piece: Bytes, ranks: Table, parts: seq<Part>) {
    && Cuts(piece, parts) && Cached(piece, ranks, parts)
    && Naive(Between(piece, parts), ranks) == Naive(Singles(piece), ranks)
  }

  function Erase(parts: seq<Part>, i: nat): seq<Part>
    requires i < |parts|
  {
    parts[..i] + parts[i + 1..]
  }

  lemma EraseAt(parts: seq<Part>, i: nat, j: nat)
    requires i < |parts| && j < |parts| - 1
    ensures Erase(parts, i)[j] == parts[if j < i then j else j + 1]
  {
  }

  /** Erasing the cut after piece `i` joins it with the next one. */
  lemma EraseCuts(piece: Bytes, parts: seq<Part>, i: nat)
    requires Cuts(piece, parts) && i + 2 < |parts|
    ensures Cuts(piece, Erase(parts, i + 1))
  {
    var less := Erase(parts, i + 1);
    EraseAt(parts, i + 1, 0);
    EraseAt(parts, i + 1, |less| - 1);
    forall j {:trigger CutAt(piece, less, j)} | 0 <= j < |less| - 1 ensures CutAt(piece, less, j) {
      EraseAt(parts, i + 1, j);
      EraseAt(parts, i + 1, j + 1);
      assert CutAt(piece, parts, j) && CutAt(piece, parts, j + 1);
    }
  }

  lemma ErasedPiece(piece: Bytes, parts: seq<Part>, i: nat, j: nat)
    requires Cuts(piece, parts) && i + 2 < |parts| && j < |parts| - 2 && Cuts(piece, Erase(parts, i + 1))
    ensures Between(piece, Erase(parts, i + 1))[j] == Merge(Between(piece, parts), i)[j]
  {
    EraseAt(parts, i + 1, j);
    EraseAt(parts, i + 1, j + 1);
    if j == i {
      assert CutAt(piece, parts, i) && CutAt(piece, parts, i + 1);
      assert PieceAt(piece, Erase(parts, i + 1), i) == PieceAt(piece, parts, i) + PieceAt(piece, parts, i + 1);
    }
  }

  lemma EraseMerges(piece: Bytes, parts: seq<Part>, i: nat)
    requires Cuts(piece, parts) && i + 2 < |parts|
    ensures Cuts(piece, Erase(parts, i + 1))
    ensures Between(piece, Erase(parts, i + 1)) == Merge(Between(piece, parts), i)
  {
    EraseCuts(piece, parts, i);
    var after, merged := Between(piece, Erase(parts, i + 1)), Merge(Between(piece, parts), i);
    forall j | 0 <= j < |after| ensures after[j] == merged[j] {
      ErasedPiece(piece, parts, i, j);
    }
  }

  lemma GetRankIsPairRank(piece: Bytes, ranks: Table, parts: seq<Part>, i: nat)
    requires Cuts(piece, parts) && i < |parts| - 1
    ensures i + 2 < |parts| ==> parts[i].start <= parts[i + 2].start <= |piece|
    ensures OrNone(GetRank(piece, ranks, parts, i, 0)) == PairRank(Between(piece, parts), ranks, i)
  {
    if i + 2 < |parts| {
      assert CutAt(piece, parts, i) && CutAt(piece, parts, i + 1);
      assert piece[parts[i].start..parts[i + 2].start] == PieceAt(piece, parts, i) + PieceAt(piece, parts, i + 1);
    }
  }

  /** Skipping a cut reads what erasing it would leave. */
  lemma SkipIsErase(piece: Bytes, ranks: Table, parts: seq<Part>, i: nat, j: nat)
    requires Cuts(piece, parts) && i + 2 < |parts| && j <= i <= j + 1
    ensures j + 3 < |parts| ==> parts[j].start <= parts[j + 3].start <= |piece|
    ensures OrNone(GetRank(piece, ranks, parts, j, 1)) == PairRank(Merge(Between(piece, parts), i), ranks, j)
  {
    var less := Erase(parts, i + 1);
    EraseMerges(piece, parts, i);
    GetRankIsPairRank(piece, ranks, less, j);
    EraseAt(parts, i + 1, j);
    if j + 3 < |parts| { EraseAt(parts, i + 1, j + 2); }
  }

  /** Ranks are cached beside the cut points; the pieces do not depend on them. */
  lemma SameStarts(piece: Bytes, a: seq<Part>, b: seq<Part>)
    requires Cuts(piece, a) && |a| == |b| && forall i :: 0 <= i < |a| ==> a[i].start == b[i].start
    ensures Cuts(piece, b) && Between(piece, a) == Between(piece, b)
  {
    forall i {:trigger CutAt(piece, b, i)} | 0 <= i < |b| - 1 ensures CutAt(piece, b, i) {
      assert CutAt(piece, a, i);
    }
    assert forall i :: 0 <= i < |a| - 1 ==> Between(piece, a)[i] == Between(piece, b)[i];
  }

  /** Merging pair `i` changes the ranks of the pairs at `i - 1` and `i` only. */
  lemma OtherRanksStay(pieces: seq<Bytes>, ranks: Table, i: nat, j: nat)
    requires i + 1 < |pieces|
    ensures j + 1 < i ==> PairRank(Merge(pieces, i), ranks, j) == PairRank(pieces, ranks, j)
    ensures j > i ==> PairRank(Merge(pieces, i), ranks, j) == PairRank(pieces, ranks, j + 1)
  {
  }

  /** `updated` differs from `parts` in the ranks at `i - 1` and `i` only, which are those after the merge. */
  ghost predicate Updated(piece: Bytes, ranks: Table, parts: seq<Part>, i: nat, updated: seq<Part>)
    requires Cuts(piece, parts) && i + 2 < |parts|
  {
    && |updated| == |parts|
    && updated[i] == parts[i].(rank := PairRank(Merge(Between(piece, parts), i), ranks, i))
    && (i > 0 ==> updated[i - 1] == parts[i - 1].(rank := PairRank(Merge(Between(piece, parts), i), ranks, i - 1)))
    && forall k :: 0 <= k < |parts| && k != i && k != i - 1 ==> updated[k] == parts[k]
  }

  /** The ranks looked up again belong to the merged pieces, the others keep theirs. */
  lemma RanksAfter(piece: Bytes, ranks: Table, parts: seq<Part>, i: nat, updated: seq<Part>, j: nat)
    requires Cuts(piece, parts) && Cached(piece, ranks, parts) && i + 2 < |parts| && j < |parts| - 2
    requires Updated(piece, ranks, parts, i, updated)
    ensures Erase(updated, i + 1)[j].rank == PairRank(Merge(Between(piece, parts), i), ranks, j)
  {
    EraseAt(updated, i + 1, j);
    if j != i && j + 1 != i {
      OtherRanksStay(Between(piece, parts), ranks, i, j);
      assert CachedAt(piece, ranks, parts, if j < i then j else j + 1);
    }
  }

  lemma UpdatedCuts(piece: Bytes, ranks: Table, parts: seq<Part>, i: nat, updated: seq<Part>)
    requires Cuts(piece, parts) && i + 2 < |parts| && Updated(piece, ranks, parts, i, updated)
    ensures Cuts(piece, Erase(updated, i + 1))
    ensures Between(piece, Erase(updated, i + 1)) == Merge(Between(piece, parts), i)
  {
    var less, after := Erase(parts, i + 1), Erase(updated, i + 1);
    EraseMerges(piece, parts, i);
    forall j | 0 <= j < |less| ensures less[j].start == after[j].start {
      EraseAt(parts, i + 1, j);
      EraseAt(updated, i + 1, j);
    }
    SameStarts(piece, less, after);
  }

  lemma MergedFits(piece: Bytes, ranks: Table, parts: seq<Part>, i: nat, updated: seq<Part>)
    requires Loop(piece, ranks, parts) && IsBest(Between(piece, parts), ranks, i) && i + 2 < |parts|
    requires Updated(piece, ranks, parts, i, updated)
    ensures Loop(piece, ranks, Erase(updated, i + 1))
  {
    var after := Erase(updated, i + 1);
    UpdatedCuts(piece, ranks, parts, i, updated);
    forall j {:trigger CachedAt(piece, ranks, after, j)} | 0 <= j < |after| - 1 ensures CachedAt(piece, ranks, after, j) {
      RanksAfter(piece, ranks, parts, i, updated, j);
    }
    NaiveStep(Between(piece, parts), ranks, i);
  }

  /** One round: the pair at `i` becomes one piece, and the two ranks it touches are looked up again. */
  method MergeAt(piece: Bytes, ranks: Table, parts0: seq<Part>, i: nat) returns (parts: seq<Part>)
    requires Loop(piece, ranks, parts0) && IsBest(Between(piece, parts0), ranks, i)
    ensures Loop(piece, ranks, parts) && |parts| == |parts0| - 1
  {
    SkipIsErase(piece, ranks, parts0, i, i);
    var here := OrNone(GetRank(piece, ranks, parts0, i, 1));
    parts := parts0[i := parts0[i].(rank := here)];
    if i > 0 {
      SkipIsErase(piece, ranks, parts0, i, i - 1);
      var before := OrNone(GetRank(piece, ranks, parts, i - 1, 1));
      assert before == OrNone(GetRank(piece, ranks, parts0, i - 1, 1));
      parts := parts[i - 1 := parts[i - 1].(rank := before)];
    }
    assert Updated(piece, ranks, parts0, i, parts);
    MergedFits(piece, ranks, parts0, i, parts);
    parts := Erase(parts, i + 1);
  }

  /** The scan for the lowest cached rank. */
  method FindLowest(ghost piece: Bytes, ghost ranks: Table, parts: seq<Part>) returns (rank: int, at: nat)
    requires Cuts(piece, parts) && Cached(piece, ranks, parts)
    ensures rank == NO_RANK ==> forall i: nat :: !IsBest(Between(piece, parts), ranks, i)
    ensures rank != NO_RANK ==> IsBest(Between(piece, parts), ranks, at)
  {
    ghost var pieces := Between(piece, parts);
    rank, at := NO_RANK, 0;
    for i := 0 to |parts| - 1
      invariant rank <= NO_RANK && (rank < NO_RANK ==> at < i && rank == PairRank(pieces, ranks, at))
      invariant forall j: nat :: j < i ==> rank <= PairRank(pieces, ranks, j)
      invariant rank < NO_RANK ==> forall j: nat :: j < at ==> rank < PairRank(pieces, ranks, j)
    {
      assert CachedAt(piece, ranks, parts, i);
      if parts[i].rank < rank {
        rank, at := parts[i].rank, i;
      }
    }
    forall j: nat | j >= |pieces| ensures PairRank(pieces, ranks, j) == NO_RANK {}
  }

  /** One cut before every byte and one at the end, with the ranks of all adjacent byte pairs. */
  method Prepare(piece: Bytes, ranks: Table) returns (parts: seq<Part>)
    requires piece != []
    ensures Loop(piece, ranks, parts)
  {
    parts := [];
    for i := 0 to |piece| + 1
      invariant |parts| == i && forall j :: 0 <= j < i ==> parts[j] == Part(j, NO_RANK)
    {
      parts := parts + [Part(i, NO_RANK)];
    }
    ghost var bare := parts;
    BareCuts(piece, bare);
    for i := 0 to |parts| - 2
      invariant |parts| == |piece| + 1 && forall j :: 0 <= j < |parts| ==> parts[j].start == j
      invariant forall j :: 0 <= j < i ==> parts[j].rank == PairRank(Singles(piece), ranks, j)
      invariant forall j :: i <= j < |parts| ==> parts[j].rank == NO_RANK
    {
      SameStarts(piece, bare, parts);
      GetRankIsPairRank(piece, ranks, parts, i);
      var rank := GetRank(piece, ranks, parts, i, 0);
      if rank.Some? {
        parts := parts[i := parts[i].(rank := rank.value)];
      }
    }
    SameStarts(piece, bare, parts);
  }

  lemma BareCuts(piece: Bytes, parts: seq<Part>)
    requires piece != [] && |parts| == |piece| + 1 && forall j :: 0 <= j < |parts| ==> parts[j].start == j
    ensures Cuts(piece, parts) && Between(piece, parts) == Singles(piece)
  {
    assert Cuts(piece, parts);
    forall i | 0 <= i < |piece| ensures Between(piece, parts)[i] == Singles(piece)[i] {
      assert PieceAt(piece, parts, i) == [piece[i]];
    }
  }

  /** The merge loop computes exactly what the naive algorithm computes. */
  method BytePairMerge(piece: Bytes, ranks: Table) returns (parts: seq<Part>)
    requires piece != []
    ensures Cuts(piece, parts) && Between(piece, parts) == Naive(Singles(piece), ranks)
  {
    parts := Prepare(piece, ranks);
    while true
      invariant Loop(piece, ranks, parts)
      decreases |parts|
    {
      if |parts| == 1 { break; }
      var rank, at := FindLowest(piece, ranks, parts);
      if rank != NO_RANK {
        parts := MergeAt(piece, ranks, parts, at);
      } else {
        break;
      }
    }
  }
}
