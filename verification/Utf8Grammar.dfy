/** Well-formed UTF-8 as defined by the grammar in section 4 of RFC 3629. */
module Utf8Grammar {
  import opened ByteStrings

  predicate Tail(b: byte) {
    0x80 <= b <= 0xBF
  }

  predicate Char2(s: Bytes)
    requires |s| == 2
  {
    0xC2 <= s[0] <= 0xDF && Tail(s[1])
  }

  predicate Char3(s: Bytes)
    requires |s| == 3
  {
    || (s[0] == 0xE0 && 0xA0 <= s[1] <= 0xBF && Tail(s[2]))
    || (0xE1 <= s[0] <= 0xEC && Tail(s[1]) && Tail(s[2]))
    || (s[0] == 0xED && 0x80 <= s[1] <= 0x9F && Tail(s[2]))
    || (0xEE <= s[0] <= 0xEF && Tail(s[1]) && Tail(s[2]))
  }

  predicate Char4(s: Bytes)
    requires |s| == 4
  {
    || (s[0] == 0xF0 && 0x90 <= s[1] <= 0xBF && Tail(s[2]) && Tail(s[3]))
    || (0xF1 <= s[0] <= 0xF3 && Tail(s[1]) && Tail(s[2]) && Tail(s[3]))
    || (s[0] == 0xF4 && 0x80 <= s[1] <= 0x8F && Tail(s[2]) && Tail(s[3]))
  }

  /** One encoded character. */
  predicate Utf8Char(s: Bytes) {
    || (|s| == 1 && s[0] <= 0x7F)
    || (|s| == 2 && Char2(s))
    || (|s| == 3 && Char3(s))
    || (|s| == 4 && Char4(s))
  }

  predicate CharAtFront(s: Bytes, k: nat) {
    1 <= k <= 4 && k <= |s| && Utf8Char(s[..k])
  }

  /** A row of encoded characters. */
  ghost predicate WellFormed(s: Bytes) {
    s == [] || exists k: nat :: CharAtFront(s, k) && WellFormed(s[k..])
  }

  /** Some text goes on from here. */
  ghost predicate Extendable(s: Bytes) {
    exists t: Bytes :: WellFormed(s + t)
  }

  /** How long the character starting with this byte is; 0 if none starts with it. */
  function LengthOf(first: byte): nat {
    if first < 0x80 then 1
    else if 0xC2 <= first <= 0xDF then 2
    else if 0xE0 <= first <= 0xEF then 3
    else if 0xF0 <= first <= 0xF4 then 4
    else 0
  }

  /** Whether byte `b` may stand at place `j` > 0 of a character starting with `first`. */
  predicate Fits(first: byte, j: nat, b: byte) {
    && 0x80 <= b <= 0xBF
    && !(j == 1 && ((first == 0xE0 && b < 0xA0) || (first == 0xED && b > 0x9F)
                    || (first == 0xF0 && b < 0x90) || (first == 0xF4 && b > 0x8F)))
  }

  /** The first `n` bytes could begin a character. */
  predicate FrontFits(s: Bytes, n: nat)
    requires s != []
  {
    forall j {:trigger Fits(s[0], j, s[j])} :: 1 <= j < n && j < |s| ==> Fits(s[0], j, s[j])
  }

  /** The byte tests characterise the grammar. */
  lemma CharByLength(s: Bytes, k: nat)
    requires s != []
    ensures CharAtFront(s, k) <==> k == LengthOf(s[0]) && 0 < k <= |s| && FrontFits(s, k)
  {
    if k == LengthOf(s[0]) && 0 < k <= |s| && FrontFits(s, k) {
      if k > 1 { assert Fits(s[0], 1, s[1]); }
      if k > 2 { assert Fits(s[0], 2, s[2]); }
      if k > 3 { assert Fits(s[0], 3, s[3]); }
    } else if CharAtFront(s, k) {
      LongChar(s, k);
    }
  }

  lemma LongChar(s: Bytes, k: nat)
    requires s != [] && CharAtFront(s, k)
    ensures k == LengthOf(s[0]) && FrontFits(s, k)
  {
    assert s[..k][0] == s[0];
    assert k > 1 ==> s[..k][1] == s[1];
    assert k > 2 ==> s[..k][2] == s[2];
    assert k > 3 ==> s[..k][3] == s[3];
  }

  lemma FrontStays(a: Bytes, b: Bytes, k: nat)
    requires CharAtFront(a, k)
    ensures CharAtFront(a + b, k) && (a + b)[k..] == a[k..] + b
  {
    assert (a + b)[..k] == a[..k];
  }

  lemma OneMore(s: Bytes, k: nat)
    requires CharAtFront(s, k) && WellFormed(s[k..])
    ensures WellFormed(s)
  {
  }

  lemma {:induction false} WellFormedJoins(a: Bytes, b: Bytes)
    requires WellFormed(a) && WellFormed(b)
    ensures WellFormed(a + b)
    decreases |a|
  {
    if a == [] {
      assert a + b == b;
    } else {
      var k: nat :| CharAtFront(a, k) && WellFormed(a[k..]);
      WellFormedJoins(a[k..], b);
      FrontStays(a, b, k);
      OneMore(a + b, k);
    }
  }

  lemma OneCharIsWellFormed(s: Bytes)
    requires Utf8Char(s)
    ensures WellFormed(s)
  {
    assert s[..|s|] == s && CharAtFront(s, |s|) && s[|s|..] == [];
  }

  /** A beginning of a character: some but not all of its bytes. */
  predicate Partial(s: Bytes) {
    s != [] && |s| < LengthOf(s[0]) && FrontFits(s, |s|)
  }

  function Filler(first: byte, j: nat): byte {
    if j == 1 && first == 0xE0 then 0xA0 else if j == 1 && first == 0xF0 then 0x90 else 0x80
  }

  /** Bytes for places `j` up to `k`. */
  function Fill(first: byte, j: nat, k: nat): (r: Bytes)
    requires j <= k
    ensures |r| == k - j && forall i {:trigger r[i]} :: 0 <= i < |r| ==> r[i] == Filler(first, j + i)
    decreases k - j
  {
    if j == k then [] else [Filler(first, j)] + Fill(first, j + 1, k)
  }

  /** Every such beginning can be completed. */
  lemma PartialExtends(s: Bytes)
    requires Partial(s)
    ensures Extendable(s)
  {
    var k := LengthOf(s[0]);
    var whole := s + Fill(s[0], |s|, k);
    forall j {:trigger Fits(whole[0], j, whole[j])} | 1 <= j < k ensures Fits(whole[0], j, whole[j]) {
      if j < |s| { assert Fits(s[0], j, s[j]); } else { assert whole[j] == Filler(s[0], j); }
    }
    CharByLength(whole, k);
    assert whole[..k] == whole;
    OneCharIsWellFormed(whole);
  }

  /** Cutting a character off the front of a well-formed text is forced. */
  lemma FirstCharOff(s: Bytes, k: nat)
    requires WellFormed(s) && CharAtFront(s, k)
    ensures WellFormed(s[k..])
  {
    var j: nat :| CharAtFront(s, j) && WellFormed(s[j..]);
    CharByLength(s, k);
    CharByLength(s, j);
  }
}
