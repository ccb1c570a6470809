/** Rotary position embedding in its two layouts, the partners of a pair next to each other or half a head
    apart, and the permutation of weight rows that leads from one to the other. Numbers are reals: rounding is
    not modelled. */
module RotaryLayout {
  import opened Division
  import opened Options
  import opened Sequences

  // ---------- One head ----------

  /** Seen as two halves, the entries of a head, partner after partner: the two axes swapped. */
  function Pairs<T>(x: seq<T>): (r: seq<T>)
    requires |x| % 2 == 0
    ensures |r| == |x|
  {
    seq(|x|, r requires 0 <= r < |x| => if r % 2 == 0 then x[r / 2] else x[|x| / 2 + r / 2])
  }

  /** Seen as pairs, all first partners and then all second partners. */
  function Halves<T>(x: seq<T>): (r: seq<T>)
    requires |x| % 2 == 0
    ensures |r| == |x|
  {
    seq(|x|, r requires 0 <= r < |x| => if r < |x| / 2 then x[2 * r] else x[2 * (r - |x| / 2) + 1])
  }

  lemma PairsAt<T>(x: seq<T>, p: nat)
    requires |x| % 2 == 0 && p < |x| / 2
    ensures Pairs(x)[2 * p] == x[p] && Pairs(x)[2 * p + 1] == x[|x| / 2 + p]
  {
    assert 2 * p / 2 == p && (2 * p + 1) / 2 == p;
  }

  lemma HalvesAt<T>(x: seq<T>, p: nat)
    requires |x| % 2 == 0 && p < |x| / 2
    ensures Halves(x)[p] == x[2 * p] && Halves(x)[|x| / 2 + p] == x[2 * p + 1]
  {
  }

  predicate PairAgrees<T(==)>(x: seq<T>, y: seq<T>, p: nat)
    requires |x| == |y| && 2 * p + 1 < |x|
  {
    x[2 * p] == y[2 * p] && x[2 * p + 1] == y[2 * p + 1]
  }

  predicate HalvesAgree<T(==)>(x: seq<T>, y: seq<T>, p: nat)
    requires |x| == |y| && |x| / 2 + p < |x|
  {
    x[p] == y[p] && x[|x| / 2 + p] == y[|x| / 2 + p]
  }

  /** Entries that agree pair by pair, or half by half, agree. */
  lemma SameByPair<T>(x: seq<T>, y: seq<T>)
    requires |x| == |y| && |x| % 2 == 0
    requires forall p {:trigger PairAgrees(x, y, p)} :: 0 <= p < |x| / 2 ==> PairAgrees(x, y, p)
    ensures x == y
  {
    forall r | 0 <= r < |x| ensures x[r] == y[r] {
      assert PairAgrees(x, y, r / 2);
    }
  }

  lemma SameByHalf<T>(x: seq<T>, y: seq<T>)
    requires |x| == |y| && |x| % 2 == 0
    requires forall p {:trigger HalvesAgree(x, y, p)} :: 0 <= p < |x| / 2 ==> HalvesAgree(x, y, p)
    ensures x == y
  {
    forall r | 0 <= r < |x| ensures x[r] == y[r] {
      var half := |x| / 2;
      assert HalvesAgree(x, y, if r >= half then r - half else r);
    }
  }

  lemma PairOfHalves<T>(x: seq<T>, p: nat)
    requires |x| % 2 == 0 && p < |x| / 2
    ensures PairAgrees(Pairs(Halves(x)), x, p)
  {
    HalvesAt(x, p);
    PairsAt(Halves(x), p);
  }

  lemma HalfOfPairs<T>(x: seq<T>, p: nat)
    requires |x| % 2 == 0 && p < |x| / 2
    ensures HalvesAgree(Halves(Pairs(x)), x, p)
  {
    PairsAt(x, p);
    HalvesAt(Pairs(x), p);
  }

  lemma PairsHalves<T>(x: seq<T>)
    requires |x| % 2 == 0
    ensures Pairs(Halves(x)) == x
  {
    forall p {:trigger PairAgrees(Pairs(Halves(x)), x, p)} | 0 <= p < |x| / 2 ensures PairAgrees(Pairs(Halves(x)), x, p) {
      PairOfHalves(x, p);
    }
    SameByPair(Pairs(Halves(x)), x);
  }

  lemma HalvesPairs<T>(x: seq<T>)
    requires |x| % 2 == 0
    ensures Halves(Pairs(x)) == x
  {
    forall p {:trigger HalvesAgree(Halves(Pairs(x)), x, p)} | 0 <= p < |x| / 2 ensures HalvesAgree(Halves(Pairs(x)), x, p) {
      HalfOfPairs(x, p);
    }
    SameByHalf(Halves(Pairs(x)), x);
  }

  // ---------- All heads ----------

  function AllPairs<T>(w: seq<T>, heads: nat, d: nat): (r: seq<T>)
    requires d % 2 == 0 && |w| == heads * d
    ensures |r| == |w|
  {
    if heads == 0 then [] else
      OneHeadLess(heads, d);
      Pairs(w[..d]) + AllPairs(w[d..], heads - 1, d)
  }

  function AllHalves<T>(w: seq<T>, heads: nat, d: nat): (r: seq<T>)
    requires d % 2 == 0 && |w| == heads * d
    ensures |r| == |w|
  {
    if heads == 0 then [] else
      OneHeadLess(heads, d);
      Halves(w[..d]) + AllHalves(w[d..], heads - 1, d)
  }

  lemma OneHeadLess(heads: nat, d: nat)
    requires heads > 0
    ensures (heads - 1) * d == heads * d - d >= 0
  {
  }

  lemma FirstHead<T>(w: seq<T>, heads: nat, d: nat)
    requires heads > 0 && d % 2 == 0 && |w| == heads * d
    ensures (heads - 1) * d == |w| - d >= 0
    ensures AllPairs(w, heads, d)[..d] == Pairs(w[..d]) && AllPairs(w, heads, d)[d..] == AllPairs(w[d..], heads - 1, d)
    ensures AllHalves(w, heads, d)[..d] == Halves(w[..d]) && AllHalves(w, heads, d)[d..] == AllHalves(w[d..], heads - 1, d)
  {
    OneHeadLess(heads, d);
    TakeDrop(Pairs(w[..d]), AllPairs(w[d..], heads - 1, d));
    TakeDrop(Halves(w[..d]), AllHalves(w[d..], heads - 1, d));
  }

  lemma SamePieces<T>(x: seq<T>, y: seq<T>, d: nat)
    requires d <= |x| && d <= |y| && x[..d] == y[..d] && x[d..] == y[d..]
    ensures x == y
  {
    assert x == x[..d] + x[d..] && y == y[..d] + y[d..];
  }

  /** Pairing undoes halving and halving undoes pairing. */
  lemma {:induction false} PairsUndo<T>(w: seq<T>, heads: nat, d: nat)
    requires d % 2 == 0 && |w| == heads * d
    ensures AllPairs(AllHalves(w, heads, d), heads, d) == w
  {
    if heads > 0 {
      FirstHead(w, heads, d);
      PairsUndo(w[d..], heads - 1, d);
      PairsHalves(w[..d]);
      FirstHead(AllHalves(w, heads, d), heads, d);
      SamePieces(AllPairs(AllHalves(w, heads, d), heads, d), w, d);
    }
  }

  lemma {:induction false} HalvesUndo<T>(w: seq<T>, heads: nat, d: nat)
    requires d % 2 == 0 && |w| == heads * d
    ensures AllHalves(AllPairs(w, heads, d), heads, d) == w
  {
    if heads > 0 {
      FirstHead(w, heads, d);
      HalvesUndo(w[d..], heads - 1, d);
      HalvesPairs(w[..d]);
      FirstHead(AllPairs(w, heads, d), heads, d);
      SamePieces(AllHalves(AllPairs(w, heads, d), heads, d), w, d);
    }
  }

  /** Head `h` of a vector of heads. */
  function Head<T>(w: seq<T>, heads: nat, d: nat, h: nat): (r: seq<T>)
    requires |w| == heads * d && h < heads
    ensures |r| == d
  {
    HeadBound(heads, d, h);
    w[h * d..h * d + d]
  }

  lemma HeadBound(heads: nat, d: nat, h: nat)
    requires h < heads
    ensures h * d + d <= heads * d
  {
    MulSpread(heads, h + 1, d);
    if heads - (h + 1) >= 1 && d > 0 { MulAtLeast(heads - (h + 1), d); }
    assert (h + 1) * d == h * d + d;
  }

  lemma HeadShift<T>(w: seq<T>, heads: nat, d: nat, h: nat)
    requires |w| == heads * d && 0 < h < heads
    ensures |w| >= d && |w[d..]| == (heads - 1) * d && Head(w, heads, d, h) == Head(w[d..], heads - 1, d, h - 1)
  {
    OneHeadLess(heads, d);
    OneHeadLess(h, d);
    HeadBound(heads, d, h);
    SliceShift(w, d, (h - 1) * d, d);
  }

  /** The permutation works head by head. */
  lemma {:induction false} PairsByHead<T>(w: seq<T>, heads: nat, d: nat, h: nat)
    requires d % 2 == 0 && |w| == heads * d && h < heads
    ensures Head(AllPairs(w, heads, d), heads, d, h) == Pairs(Head(w, heads, d, h))
  {
    FirstHead(w, heads, d);
    if h == 0 {
      assert 0 * d == 0;
    } else {
      PairsByHead(w[d..], heads - 1, d, h - 1);
      HeadShift(w, heads, d, h);
      HeadShift(AllPairs(w, heads, d), heads, d, h);
    }
  }

  // ---------- The weight permutations ----------

  /** Rows regrouped from halves to pairs, head by head; no result when the rows do not divide up. */
  function PermuteReverse<T>(w: seq<T>, heads: nat): Option<seq<T>> {
    if heads == 0 then None
    else
      var half := |w| / heads / 2;
      if heads * (2 * half) != |w| then None else Some(AllPairs(w, heads, 2 * half))
  }

  /** Rows regrouped from pairs to halves. */
  function PermuteOriginal<T>(w: seq<T>, heads: nat): Option<seq<T>> {
    if heads == 0 then None
    else
      var half := |w| / heads / 2;
      if heads * (2 * half) != |w| then None else Some(AllHalves(w, heads, 2 * half))
  }

  lemma HalfOf(n: nat, heads: nat, half: nat)
    requires heads > 0 && n == heads * (2 * half)
    ensures n / heads / 2 == half
  {
    assert heads * (2 * half) == 2 * half * heads;
    DivUnique(n, heads, 2 * half, 0);
  }

  /** Both are defined exactly when all heads have the same even number of rows, and undo each other. */
  lemma PermutationsInverse<T>(w: seq<T>, heads: nat)
    ensures PermuteReverse(w, heads).Some? <==> heads > 0 && exists half: nat :: |w| == heads * (2 * half)
    ensures PermuteOriginal(w, heads).Some? <==> PermuteReverse(w, heads).Some?
    ensures PermuteReverse(w, heads).Some? ==>
              && PermuteOriginal(PermuteReverse(w, heads).value, heads) == Some(w)
              && PermuteReverse(PermuteOriginal(w, heads).value, heads) == Some(w)
  {
    if heads > 0 {
      var half := |w| / heads / 2;
      if |w| == heads * (2 * half) {
        PairsUndo(w, heads, 2 * half);
        HalvesUndo(w, heads, 2 * half);
      } else if other: nat :| |w| == heads * (2 * other) {
        HalfOf(|w|, heads, other);
      }
    }
  }

  // ---------- Rotation ----------

  type Vec = seq<real>

  /** Partners next to each other: each pair turns by its own angle. */
  function RotateInterleaved(x: Vec, cos: Vec, sin: Vec): (r: Vec)
    requires |x| == 2 * |cos| && |sin| == |cos|
    ensures |r| == |x|
  {
    seq(|x|, r requires 0 <= r < |x| =>
      if r % 2 == 0 then x[r] * cos[r / 2] - x[r + 1] * sin[r / 2]
      else x[r - 1] * sin[r / 2] + x[r] * cos[r / 2])
  }

  function RotateHalf(x: Vec): (r: Vec)
    requires |x| % 2 == 0
    ensures |r| == |x|
  {
    var half := |x| / 2;
    seq(half, i requires 0 <= i < half => -x[half + i]) + x[..half]
  }

  /** Partners half a head apart; cosines and sines are given once for each half. */
  function RotateSplit(x: Vec, cos: Vec, sin: Vec): (r: Vec)
    requires |x| == 2 * |cos| && |sin| == |cos|
    ensures |r| == |x|
  {
    var twiceCos, twiceSin, half := cos + cos, sin + sin, RotateHalf(x);
    seq(|x|, i requires 0 <= i < |x| => x[i] * twiceCos[i] + half[i] * twiceSin[i])
  }

  lemma InterleavedAt(x: Vec, cos: Vec, sin: Vec, p: nat)
    requires |x| == 2 * |cos| && |sin| == |cos| && p < |cos|
    ensures RotateInterleaved(x, cos, sin)[2 * p] == x[2 * p] * cos[p] - x[2 * p + 1] * sin[p]
    ensures RotateInterleaved(x, cos, sin)[2 * p + 1] == x[2 * p] * sin[p] + x[2 * p + 1] * cos[p]
  {
    assert 2 * p / 2 == p && (2 * p + 1) / 2 == p;
  }

  lemma SplitAt(x: Vec, cos: Vec, sin: Vec, p: nat)
    requires |x| == 2 * |cos| && |sin| == |cos| && p < |cos|
    ensures RotateSplit(x, cos, sin)[p] == x[p] * cos[p] - x[|cos| + p] * sin[p]
    ensures RotateSplit(x, cos, sin)[|cos| + p] == x[p] * sin[p] + x[|cos| + p] * cos[p]
  {
    assert (cos + cos)[p] == cos[p] && (cos + cos)[|cos| + p] == cos[p];
    assert (sin + sin)[p] == sin[p] && (sin + sin)[|cos| + p] == sin[p];
    assert RotateHalf(x)[p] == -x[|cos| + p] && RotateHalf(x)[|cos| + p] == x[p];
  }

  lemma RotatedPair(x: Vec, cos: Vec, sin: Vec, p: nat)
    requires |x| == 2 * |cos| && |sin| == |cos| && p < |cos|
    ensures PairAgrees(RotateInterleaved(Pairs(x), cos, sin), Pairs(RotateSplit(x, cos, sin)), p)
  {
    PairsAt(x, p);
    InterleavedPair(Pairs(x), cos, sin, p, x[p], x[|cos| + p]);
    SplitPair(x, cos, sin, p);
    PairsAt(RotateSplit(x, cos, sin), p);
  }

  /** A pair (a, b) turned by the angle with this cosine and sine. */
  function TurnFirst(a: real, b: real, c: real, s: real): real { a * c - b * s }
  function TurnSecond(a: real, b: real, c: real, s: real): real { a * s + b * c }

  lemma InterleavedPair(x: Vec, cos: Vec, sin: Vec, p: nat, a: real, b: real)
    requires |x| == 2 * |cos| && |sin| == |cos| && p < |cos| && a == x[2 * p] && b == x[2 * p + 1]
    ensures RotateInterleaved(x, cos, sin)[2 * p] == TurnFirst(a, b, cos[p], sin[p])
    ensures RotateInterleaved(x, cos, sin)[2 * p + 1] == TurnSecond(a, b, cos[p], sin[p])
  {
    InterleavedAt(x, cos, sin, p);
  }

  lemma SplitPair(x: Vec, cos: Vec, sin: Vec, p: nat)
    requires |x| == 2 * |cos| && |sin| == |cos| && p < |cos|
    ensures RotateSplit(x, cos, sin)[p] == TurnFirst(x[p], x[|cos| + p], cos[p], sin[p])
    ensures RotateSplit(x, cos, sin)[|cos| + p] == TurnSecond(x[p], x[|cos| + p], cos[p], sin[p])
  {
    SplitAt(x, cos, sin, p);
  }

  /** The permutation carries one rotation to the other. */
  lemma PairsCarryRotation(x: Vec, cos: Vec, sin: Vec)
    requires |x| == 2 * |cos| && |sin| == |cos|
    ensures RotateInterleaved(Pairs(x), cos, sin) == Pairs(RotateSplit(x, cos, sin))
  {
    var u, v := RotateInterleaved(Pairs(x), cos, sin), Pairs(RotateSplit(x, cos, sin));
    forall p {:trigger PairAgrees(u, v, p)} | 0 <= p < |x| / 2 ensures PairAgrees(u, v, p) {
      RotatedPair(x, cos, sin, p);
    }
    SameByPair(u, v);
  }

  // ---------- Dot products ----------

  function Dot(x: Vec, y: Vec): real
    requires |x| == |y|
  {
    if x == [] then 0.0 else Dot(x[..|x| - 1], y[..|y| - 1]) + x[|x| - 1] * y[|y| - 1]
  }

  lemma {:induction false} DotSplit(a: Vec, b: Vec, c: Vec, d: Vec)
    requires |a| == |c| && |b| == |d|
    ensures Dot(a + b, c + d) == Dot(a, c) + Dot(b, d)
  {
    if b == [] {
      assert a + b == a && c + d == c;
    } else {
      var n := |b| - 1;
      assert (a + b)[..|a| + n] == a + b[..n] && (c + d)[..|c| + n] == c + d[..n];
      DotSplit(a, b[..n], c, d[..n]);
    }
  }

  ghost predicate Zipped(u: Vec, x: Vec, y: Vec, i: nat)
    requires 2 * i + 1 < |u| && i < |x| && i < |y|
  {
    u[2 * i] == x[i] && u[2 * i + 1] == y[i]
  }

  ghost predicate ZippedAll(u: Vec, x: Vec, y: Vec) {
    |u| == 2 * |x| && |y| == |x| && forall i {:trigger Zipped(u, x, y, i)} :: 0 <= i < |x| ==> Zipped(u, x, y, i)
  }

  lemma ZippedFront(u: Vec, x: Vec, y: Vec)
    requires ZippedAll(u, x, y) && |x| > 0
    ensures ZippedAll(u[..|u| - 2], x[..|x| - 1], y[..|y| - 1])
  {
    var u', x', y' := u[..|u| - 2], x[..|x| - 1], y[..|y| - 1];
    forall i {:trigger Zipped(u', x', y', i)} | 0 <= i < |x'| ensures Zipped(u', x', y', i) {
      assert Zipped(u, x, y, i);
    }
  }

  lemma DotOne(u: Vec, v: Vec, a: real, b: real)
    requires |u| == |v| > 0 && a == u[|u| - 1] && b == v[|v| - 1]
    ensures Dot(u, v) == Dot(u[..|u| - 1], v[..|v| - 1]) + a * b
  {
  }

  lemma DotTwo(u: Vec, v: Vec, a: real, b: real, a': real, b': real)
    requires |u| == |v| >= 2 && a == u[|u| - 2] && b == v[|v| - 2] && a' == u[|u| - 1] && b' == v[|v| - 1]
    ensures Dot(u, v) == Dot(u[..|u| - 2], v[..|v| - 2]) + a * b + a' * b'
  {
    var n := |u| - 1;
    DotOne(u, v, a', b');
    DotOne(u[..n], v[..n], a, b);
    assert u[..n][..n - 1] == u[..n - 1] && v[..n][..n - 1] == v[..n - 1];
  }

  /** A dot product of zipped vectors is the sum of those of their parts. */
  lemma {:induction false} DotOfPairs(u: Vec, v: Vec, x: Vec, y: Vec, x': Vec, y': Vec)
    requires ZippedAll(u, x, x') && ZippedAll(v, y, y') && |u| == |v|
    ensures Dot(u, v) == Dot(x, y) + Dot(x', y')
    decreases |x|
  {
    if |x| > 0 {
      var q := |x| - 1;
      ZippedFront(u, x, x');
      ZippedFront(v, y, y');
      DotOfPairs(u[..|u| - 2], v[..|v| - 2], x[..q], y[..q], x'[..q], y'[..q]);
      assert Zipped(u, x, x', q) && Zipped(v, y, y', q);
      DotTwo(u, v, x[q], y[q], x'[q], y'[q]);
      DotOne(x, y, x[q], y[q]);
      DotOne(x', y', x'[q], y'[q]);
    }
  }

  lemma PairsZip(x: Vec)
    requires |x| % 2 == 0
    ensures ZippedAll(Pairs(x), x[..|x| / 2], x[|x| / 2..])
  {
    var u, a, b := Pairs(x), x[..|x| / 2], x[|x| / 2..];
    forall i {:trigger Zipped(u, a, b, i)} | 0 <= i < |a| ensures Zipped(u, a, b, i) { PairsAt(x, i); }
  }

  lemma DotCut(x: Vec, y: Vec, k: nat)
    requires |x| == |y| && k <= |x|
    ensures Dot(x, y) == Dot(x[..k], y[..k]) + Dot(x[k..], y[k..])
  {
    DotSplit(x[..k], x[k..], y[..k], y[k..]);
    assert x[..k] + x[k..] == x && y[..k] + y[k..] == y;
  }

  lemma PairsKeepDot(x: Vec, y: Vec)
    requires |x| == |y| && |x| % 2 == 0
    ensures Dot(Pairs(x), Pairs(y)) == Dot(x, y)
  {
    var half := |x| / 2;
    PairsZip(x);
    PairsZip(y);
    DotOfPairs(Pairs(x), Pairs(y), x[..half], y[..half], x[half..], y[half..]);
    DotCut(x, y, half);
  }

  // ---------- From weights to attention scores ----------

  type Matrix = seq<Vec>

  /** Rows of weights applied to an input. */
  function Apply(w: Matrix, x: Vec): (r: Vec)
    requires forall i :: 0 <= i < |w| ==> |w[i]| == |x|
    ensures |r| == |w|
  {
    seq(|w|, i requires 0 <= i < |w| => Dot(w[i], x))
  }

  predicate RowsFit(w: Matrix, n: nat) {
    forall i :: 0 <= i < |w| ==> |w[i]| == n
  }

  lemma PairsOfRows(w: Matrix, x: Vec)
    requires RowsFit(w, |x|) && |w| % 2 == 0
    ensures RowsFit(Pairs(w), |x|) && Apply(Pairs(w), x) == Pairs(Apply(w, x))
  {
  }

  lemma ApplyAppend(a: Matrix, b: Matrix, x: Vec)
    requires RowsFit(a, |x|) && RowsFit(b, |x|)
    ensures RowsFit(a + b, |x|) && Apply(a + b, x) == Apply(a, x) + Apply(b, x)
  {
  }

  /** Permuted weights give permuted activations. */
  lemma {:induction false} PermutedWeights(w: Matrix, x: Vec, heads: nat, d: nat)
    requires RowsFit(w, |x|) && d % 2 == 0 && |w| == heads * d
    ensures RowsFit(AllPairs(w, heads, d), |x|) && Apply(AllPairs(w, heads, d), x) == AllPairs(Apply(w, x), heads, d)
  {
    if heads > 0 {
      OneHeadLess(heads, d);
      PairsOfRows(w[..d], x);
      PermutedWeights(w[d..], x, heads - 1, d);
      ApplyAppend(Pairs(w[..d]), AllPairs(w[d..], heads - 1, d), x);
      assert Apply(w, x)[..d] == Apply(w[..d], x) && Apply(w, x)[d..] == Apply(w[d..], x);
    }
  }

  /** One side of a score: weights applied, the head cut out. */
  function HeadOf(w: Matrix, x: Vec, heads: nat, d: nat, h: nat): (r: Vec)
    requires RowsFit(w, |x|) && |w| == heads * d && h < heads
    ensures |r| == d
  {
    Head(Apply(w, x), heads, d, h)
  }

  lemma ConvertedHead(w: Matrix, x: Vec, heads: nat, d: nat, h: nat, cos: Vec, sin: Vec)
    requires RowsFit(w, |x|) && |w| == heads * d && h < heads && d == 2 * |cos| && |sin| == |cos|
    ensures var v := PermuteReverse(w, heads);
            && v.Some? && |v.value| == heads * d && RowsFit(v.value, |x|)
            && RotateInterleaved(HeadOf(v.value, x, heads, d, h), cos, sin) == Pairs(RotateSplit(HeadOf(w, x, heads, d, h), cos, sin))
  {
    HalfOf(|w|, heads, |cos|);
    PermutedWeights(w, x, heads, d);
    PairsByHead(Apply(w, x), heads, d, h);
    PairsCarryRotation(HeadOf(w, x, heads, d, h), cos, sin);
  }

  /** Converting both weight matrices and switching from split to interleaved rotation changes no attention
      score: for every query and key head, every input and every pair of positions. */
  lemma ScoresUnchanged(wq: Matrix, wk: Matrix, xq: Vec, xk: Vec, heads: nat, kvHeads: nat, d: nat, h: nat, g: nat,
      cosQ: Vec, sinQ: Vec, cosK: Vec, sinK: Vec)
    requires RowsFit(wq, |xq|) && |wq| == heads * d && h < heads && RowsFit(wk, |xk|) && |wk| == kvHeads * d && g < kvHeads
    requires d == 2 * |cosQ| == 2 * |cosK| && |sinQ| == |cosQ| && |sinK| == |cosK|
    ensures var vq, vk := PermuteReverse(wq, heads), PermuteReverse(wk, kvHeads);
            && vq.Some? && |vq.value| == heads * d && RowsFit(vq.value, |xq|)
            && vk.Some? && |vk.value| == kvHeads * d && RowsFit(vk.value, |xk|)
            && Dot(RotateInterleaved(HeadOf(vq.value, xq, heads, d, h), cosQ, sinQ),
                   RotateInterleaved(HeadOf(vk.value, xk, kvHeads, d, g), cosK, sinK))
            == Dot(RotateSplit(HeadOf(wq, xq, heads, d, h), cosQ, sinQ), RotateSplit(HeadOf(wk, xk, kvHeads, d, g), cosK, sinK))
  {
    ConvertedHead(wq, xq, heads, d, h, cosQ, sinQ);
    ConvertedHead(wk, xk, kvHeads, d, g, cosK, sinK);
    PairsKeepDot(RotateSplit(HeadOf(wq, xq, heads, d, h), cosQ, sinQ), RotateSplit(HeadOf(wk, xk, kvHeads, d, g), cosK, sinK));
  }
}
