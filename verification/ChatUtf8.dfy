/** The chat program's own UTF-8 buffer, and where it agrees with the drain. */
module ChatUtf8 {
  import opened ByteStrings
  import opened Utf8Grammar
  import opened Utf8Stream

  // ---------- The longest valid prefix ----------

  /** No longer front of `s` is well formed. */
  ghost predicate IsLongestPrefix(s: Bytes, n: nat) {
    n <= |s| && WellFormed(s[..n]) && forall m: nat :: m <= |s| && WellFormed(s[..m]) ==> m <= n
  }

  /** Length of the characters that can be cut off the front one after the other. */
  function LongestPrefix(s: Bytes): (n: nat)
    ensures n <= |s|
    decreases |s|
  {
    if s != [] && CharAtFront(s, LengthOf(s[0])) then
      var k := LengthOf(s[0]);
      k + LongestPrefix(s[k..])
    else 0
  }

  lemma LongestTakes(s: Bytes, k: nat)
    requires s != [] && CharAtFront(s, k)
    ensures LongestPrefix(s) == k + LongestPrefix(s[k..])
  {
    CharByLength(s, k);
  }

  lemma FrontOfPrefix(s: Bytes, m: nat, k: nat)
    requires k <= m <= |s|
    ensures CharAtFront(s[..m], k) <==> CharAtFront(s, k)
    ensures s[..m][k..] == s[k..][..m - k]
  {
    assert s[..m][..k] == s[..k];
  }

  lemma {:induction false} LongestPrefixIsLongest(s: Bytes)
    ensures IsLongestPrefix(s, LongestPrefix(s))
    decreases |s|
  {
    var n := LongestPrefix(s);
    if n == 0 {
      assert s[..n] == [];
    } else {
      var k := LengthOf(s[0]);
      LongestTakes(s, k);
      LongestPrefixIsLongest(s[k..]);
      FrontOfPrefix(s, n, k);
      OneMore(s[..n], k);
    }
    forall m: nat | m <= |s| && WellFormed(s[..m]) ensures m <= n { NoLongerPrefix(s, m); }
  }

  lemma {:induction false} NoLongerPrefix(s: Bytes, m: nat)
    requires m <= |s| && WellFormed(s[..m])
    ensures m <= LongestPrefix(s)
    decreases |s|
  {
    if m > 0 {
      var k: nat :| CharAtFront(s[..m], k) && WellFormed(s[..m][k..]);
      FrontOfPrefix(s, m, k);
      LongestTakes(s, k);
      NoLongerPrefix(s[k..], m - k);
    }
  }

  /** The top bits of a byte, as the program's masks test them. */
  predicate IsContinuation(c: byte) { c / 0x40 == 2 }

  /** The loop's own idea of a character's length: by mask, with the excluded leading bytes; 0 to stop. */
  function MaskedLength(c: byte): nat {
    if c / 0x80 == 0 then 1
    else if c / 0x20 == 6 then if c < 0xC2 then 0 else 2
    else if c / 0x10 == 14 then 3
    else if c / 8 == 30 then if c > 0xF4 then 0 else 4
    else 0
  }

  lemma MaskedLengthFits(c: byte)
    ensures MaskedLength(c) == LengthOf(c)
  {
  }

  /** Does a character of the masked length start at `i`? */
  method CharHere(s: Bytes, i: nat, length: nat) returns (ok: bool)
    requires i < |s| && length == MaskedLength(s[i]) && 0 < length && i + length <= |s|
    ensures ok == CharAtFront(s[i..], length)
  {
    ghost var here := s[i..];
    CharByLength(here, length);
    var c := s[i];
    for j := 1 to length
      invariant forall m :: 1 <= m < j ==> IsContinuation(here[m])
    {
      assert here[j] == s[i + j];
      if !IsContinuation(s[i + j]) {
        assert !Fits(here[0], j, here[j]);
        return false;
      }
    }
    if length == 3 {
      var c1 := s[i + 1];
      assert here[1] == c1;
      if (c == 0xE0 && c1 < 0xA0) || (c == 0xED && c1 >= 0xA0) {
        assert !Fits(here[0], 1, here[1]);
        return false;
      }
    }
    if length == 4 {
      var c1 := s[i + 1];
      assert here[1] == c1;
      if (c == 0xF0 && c1 < 0x90) || (c == 0xF4 && c1 > 0x8F) {
        assert !Fits(here[0], 1, here[1]);
        return false;
      }
    }
    assert FrontFits(here, length);
    return true;
  }

  /** The length of the character at `i`, or 0 where the loop stops. */
  method LengthHere(s: Bytes, i: nat) returns (length: nat)
    requires i < |s|
    ensures if length == 0 then StopsAt(s, i) else CharAtFront(s[i..], length)
  {
    ghost var here := s[i..];
    assert here[0] == s[i];
    MaskedLengthFits(s[i]);
    length := MaskedLength(s[i]);
    if length == 0 || i + length > |s| { return 0; }
    var ok := CharHere(s, i, length);
    if !ok { return 0; }
  }

  /** No character starts at `i`. */
  ghost predicate StopsAt(s: Bytes, i: nat)
    requires i < |s|
  {
    LongestPrefix(s[i..]) == 0
  }

  method LongestValidUtf8Prefix(s: Bytes) returns (lastGood: nat)
    ensures lastGood == LongestPrefix(s) && IsLongestPrefix(s, lastGood)
  {
    lastGood := Advance(s);
    LongestPrefixIsLongest(s);
  }

  /** The characters before `i` are cut off. */
  ghost predicate CutTo(s: Bytes, i: nat)
    requires i <= |s|
  {
    LongestPrefix(s) == i + LongestPrefix(s[i..])
  }

  lemma CutMore(s: Bytes, i: nat, k: nat)
    requires i < |s| && CutTo(s, i) && CharAtFront(s[i..], k)
    ensures i < i + k <= |s| && CutTo(s, i + k)
  {
    LongestTakes(s[i..], k);
    assert s[i..][k..] == s[i + k..];
  }

  lemma CutWhole(s: Bytes)
    ensures CutTo(s, 0) && (CutTo(s, |s|) ==> LongestPrefix(s) == |s|)
  {
    assert s[0..] == s && s[|s|..] == [];
  }

  /** The loop. */
  method Advance(s: Bytes) returns (lastGood: nat)
    ensures lastGood == LongestPrefix(s)
  {
    var i := 0;
    lastGood := 0;
    CutWhole(s);
    while i < |s|
      invariant i == lastGood <= |s| && CutTo(s, i)
    {
      var length := LengthHere(s, i);
      if length == 0 { return; }
      CutMore(s, i, length);
      i := i + length;
      lastGood := i;
    }
  }

  // ---------- The buffer ----------

  class Utf8StreamBuffer {
    var pendingBytes: Bytes
    var emittedText: Bytes

    constructor ()
      ensures pendingBytes == [] && emittedText == []
    {
      pendingBytes, emittedText := [], [];
    }

    /** The longest well-formed front leaves the buffer. It is handed to the listener and recorded, or, when
        nobody listens, dropped. */
    method PushPiece(piece: Bytes, listening: bool) returns (emitted: Bytes)
      modifies this
      ensures var all := old(pendingBytes) + piece;
              var n := LongestPrefix(all);
              pendingBytes == all[n..] && emitted == (if listening then all[..n] else [])
      ensures emittedText == old(emittedText) + emitted
    {
      pendingBytes := pendingBytes + piece;
      var flushSize := LongestValidUtf8Prefix(pendingBytes);
      if flushSize == 0 {
        return [];
      }
      var toEmit := pendingBytes[..flushSize];
      pendingBytes := pendingBytes[flushSize..];
      if toEmit != [] && listening {
        emittedText := emittedText + toEmit;
        return toEmit;
      }
      return [];
    }
  }

  // ---------- Agreement ----------

  /** What the buffer with a listener does to the bytes it holds. */
  function Pushed(s: Bytes): Drained {
    Drained(s[..LongestPrefix(s)], s[LongestPrefix(s)..])
  }

  /** Both take the same characters off the front. */
  lemma PushedTakes(s: Bytes, k: nat)
    requires s != [] && CharAtFront(s, k)
    ensures Pushed(s) == Drained(s[..k] + Pushed(s[k..]).output, Pushed(s[k..]).rest)
  {
    LongestTakes(s, k);
    FrontAndRest(s, k, LongestPrefix(s[k..]));
  }

  lemma FrontAndRest(s: Bytes, k: nat, n: nat)
    requires k + n <= |s|
    ensures s[..k + n] == s[..k] + s[k..][..n] && s[k + n..] == s[k..][n..]
  {
  }

  lemma {:induction false} AgreeIfExtendable(s: Bytes)
    requires Extendable(s)
    ensures DrainOf(s, false) == Pushed(s)
    decreases |s|
  {
    if s != [] {
      var t: Bytes :| WellFormed(s + t);
      var k: nat :| CharAtFront(s + t, k) && WellFormed((s + t)[k..]);
      CharByLength(s + t, k);
      assert (s + t)[0] == s[0];
      if k <= |s| {
        assert s[..k] == (s + t)[..k] && (s + t)[k..] == s[k..] + t;
        assert CharAtFront(s, k) && Extendable(s[k..]);
        AgreeIfExtendable(s[k..]);
        CharIsTaken(s, k, false);
        DrainTakes(s, false, k, s[..k]);
        PushedTakes(s, k);
      } else {
        PartialHolds(s, t, k);
      }
    }
  }

  /** A beginning of a character makes both wait. */
  lemma PartialHolds(s: Bytes, t: Bytes, k: nat)
    requires s != [] && |s| < k == LengthOf(s[0]) && k <= |s + t| && FrontFits(s + t, k)
    ensures DrainOf(s, false) == Pushed(s)
  {
    forall j {:trigger Fits(s[0], j, s[j])} | 1 <= j < k && j < |s| ensures Fits(s[0], j, s[j]) {
      assert (s + t)[j] == s[j] && (s + t)[0] == s[0];
      assert Fits((s + t)[0], j, (s + t)[j]);
    }
    assert NextOf(s, false) == Hold;
    assert s[..0] == [] && s[0..] == s;
  }

  /** The two decoders do the same to some bytes exactly when these begin some well-formed text. */
  lemma AgreeIffExtendable(s: Bytes)
    ensures DrainOf(s, false) == Pushed(s) <==> Extendable(s)
  {
    if Extendable(s) { AgreeIfExtendable(s); }
    if DrainOf(s, false) == Pushed(s) { AgreeOnlyIfExtendable(s); }
  }

  lemma AgreeOnlyIfExtendable(s: Bytes)
    requires DrainOf(s, false) == Pushed(s)
    ensures Extendable(s)
  {
    var n := LongestPrefix(s);
    LongestPrefixIsLongest(s);
    PendingIsPartial(s, false);
    assert s[n..] == DrainOf(s, false).rest;
    RestExtends(s, n);
  }

  lemma RestExtends(s: Bytes, n: nat)
    requires n <= |s| && WellFormed(s[..n]) && (s[n..] == [] || Partial(s[n..]))
    ensures Extendable(s)
  {
    if s[n..] == [] {
      assert s + [] == s[..n] && WellFormed(s + []);
    } else {
      PartialExtends(s[n..]);
      AfterWellFormed(s[..n], s[n..]);
      assert s[..n] + s[n..] == s;
    }
  }

  lemma AfterWellFormed(a: Bytes, b: Bytes)
    requires WellFormed(a) && Extendable(b)
    ensures Extendable(a + b)
  {
    var t: Bytes :| WellFormed(b + t);
    WellFormedJoins(a, b + t);
    assert a + (b + t) == a + b + t;
  }

  /** What each decoder puts out and keeps, chunk by chunk. */
  function DrainSteps(chunks: seq<Bytes>, pending: Bytes): seq<Drained> {
    if chunks == [] then []
    else
      var d := DrainOf(pending + chunks[0], false);
      [d] + DrainSteps(chunks[1..], d.rest)
  }

  function PushSteps(chunks: seq<Bytes>, pending: Bytes): seq<Drained> {
    if chunks == [] then []
    else
      var d := Pushed(pending + chunks[0]);
      [d] + PushSteps(chunks[1..], d.rest)
  }

  lemma ExtendableFront(a: Bytes, b: Bytes)
    requires Extendable(a + b)
    ensures Extendable(a)
  {
    var t: Bytes :| WellFormed(a + b + t);
    assert a + b + t == a + (b + t);
  }

  lemma ExtendableTail(a: Bytes, b: Bytes, k: nat)
    requires Extendable(a + b) && CharAtFront(a, k)
    ensures Extendable(a[k..] + b)
  {
    var t: Bytes :| WellFormed(a + b + t);
    assert a + b + t == a + (b + t);
    FrontStays(a, b + t, k);
    FirstCharOff(a + (b + t), k);
    assert a[k..] + (b + t) == a[k..] + b + t;
  }

  lemma PushedStops(a: Bytes)
    requires LongestPrefix(a) == 0
    ensures Pushed(a) == Drained([], a)
  {
    assert a[..0] == [] && a[0..] == a;
  }

  /** Taking the longest valid prefix away leaves something that can still go on. */
  lemma {:induction false} ExtendableRest(a: Bytes, b: Bytes)
    requires Extendable(a + b)
    ensures Extendable(Pushed(a).rest + b)
    decreases |a|
  {
    if a != [] && CharAtFront(a, LengthOf(a[0])) {
      var k := LengthOf(a[0]);
      ExtendableTail(a, b, k);
      ExtendableRest(a[k..], b);
      PushedTakes(a, k);
    } else {
      PushedStops(a);
    }
  }

  lemma {:induction false} StepsAgree(chunks: seq<Bytes>, pending: Bytes)
    requires Extendable(pending + Joined(chunks))
    ensures DrainSteps(chunks, pending) == PushSteps(chunks, pending)
  {
    if chunks != [] {
      var a, b := pending + chunks[0], Joined(chunks[1..]);
      assert pending + Joined(chunks) == a + b;
      ExtendableFront(a, b);
      AgreeIfExtendable(a);
      ExtendableRest(a, b);
      StepsAgree(chunks[1..], Pushed(a).rest);
    }
  }

  /** The two decoders agree at every step of every cutting of a text exactly when the text can be completed
      to a well-formed one; in particular they do for every well-formed text. */
  lemma AgreeOnAllCuttings(text: Bytes)
    ensures (forall chunks :: Joined(chunks) == text ==> DrainSteps(chunks, []) == PushSteps(chunks, [])) <==> Extendable(text)
    ensures WellFormed(text) ==> Extendable(text)
  {
    if WellFormed(text) { assert text + [] == text; }
    if Extendable(text) {
      forall chunks | Joined(chunks) == text ensures DrainSteps(chunks, []) == PushSteps(chunks, []) {
        assert [] + Joined(chunks) == text;
        StepsAgree(chunks, []);
      }
    } else {
      AgreeIffExtendable(text);
      var whole := [text];
      assert Joined(whole) == text + Joined([]) == text;
      assert [] + whole[0] == text;
      assert DrainSteps(whole, [])[0] == DrainOf(text, false) && PushSteps(whole, [])[0] == Pushed(text);
    }
  }
}
