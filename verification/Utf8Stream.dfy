/** Decoding a stream of UTF-8 bytes that arrives in arbitrary chunks: the drain that replaces malformed bytes. */
module Utf8Stream {
  import opened ByteStrings
  import opened Utf8Grammar

  /** What a drain puts out and what stays pending. */
  datatype Drained = Drained(output: Bytes, rest: Bytes)

  /** U+FFFD. */
  const REPLACEMENT: Bytes := [0xEF, 0xBF, 0xBD]

  // ---------- The drain as a function ----------

  /** At the front of the pending bytes: take `n` of them and put out `text`, or wait for more. */
  datatype Next = Hold | Take(n: nat, text: Bytes)

  function NextOf(s: Bytes, final: bool): Next
    requires s != []
    ensures NextOf(s, final).Take? ==> 0 < NextOf(s, final).n <= |s|
  {
    var k := LengthOf(s[0]);
    if k == 0 || !FrontFits(s, k) then Take(1, REPLACEMENT)
    else if |s| < k then if final then Take(|s|, REPLACEMENT) else Hold
    else Take(k, s[..k])
  }

  function DrainOf(s: Bytes, final: bool): Drained
    decreases |s|
  {
    if s == [] then Drained([], [])
    else
      match NextOf(s, final)
      case Hold => Drained([], s)
      case Take(n, text) => Drained(text + DrainOf(s[n..], final).output, DrainOf(s[n..], final).rest)
  }

  /** The pending bytes behind the pointer that the drain is handed. */
  class Pending {
    var bytes: Bytes

    constructor ()
      ensures bytes == []
    {
      bytes := [];
    }

    method Drain(final: bool) returns (output: Bytes)
      modifies this
      ensures Drained(output, bytes) == DrainOf(old(bytes), final)
    {
      var consumed;
      output, consumed := Scan(bytes, final);
      bytes := bytes[consumed..];
    }
  }

  /** The loop over the pending bytes. */
  method Scan(bytes: Bytes, final: bool) returns (output: Bytes, i: nat)
    ensures i <= |bytes| && Drained(output, bytes[i..]) == DrainOf(bytes, final)
  {
    output, i := [], 0;
    while i < |bytes|
      invariant i <= |bytes| && Progress(bytes, i, output, final)
    {
      var front := Front(bytes, i, final);
      if front.Hold? {
        Waits(bytes, i);
        return;
      }
      Further(bytes, i, front.n, output, front.text, final);
      output, i := output + front.text, i + front.n;
    }
    assert bytes[i..] == [];
  }

  /** What to do with the bytes at `i`. */
  method Front(bytes: Bytes, i: nat, final: bool) returns (front: Next)
    requires i < |bytes|
    ensures front == NextOf(bytes[i..], final)
  {
    var first, available := bytes[i], |bytes| - i;
    var length := LengthOf(first);
    if length == 0 { return Take(1, REPLACEMENT); }
    var valid := Valid(bytes, i, length);
    if !valid { return Take(1, REPLACEMENT); }
    if available < length {
      return if final then Take(available, REPLACEMENT) else Hold;
    }
    assert bytes[i..][..length] == bytes[i..i + length];
    return Take(length, bytes[i..i + length]);
  }

  /** The inner loop: do the bytes that are there fit a character of this length? */
  method Valid(bytes: Bytes, i: nat, length: nat) returns (valid: bool)
    requires i < |bytes|
    ensures valid == FrontFits(bytes[i..], length)
  {
    ghost var here := bytes[i..];
    valid := true;
    var j := 1;
    while j < length && j < |bytes| - i
      invariant 1 <= j <= |here| && (j == 1 || j <= length) && valid == FrontFits(here, j)
    {
      assert here[0] == bytes[i] && here[j] == bytes[i + j];
      if !Fits(bytes[i], j, bytes[i + j]) { valid := false; }
      j := j + 1;
    }
    FrontUpTo(here, j, length);
  }

  /** Places beyond the end, and the first place, do not matter. */
  lemma FrontUpTo(s: Bytes, a: nat, b: nat)
    requires s != [] && 1 <= a && (a == b || (b <= 1 && a == 1) || (|s| <= a && a <= b))
    ensures FrontFits(s, a) == FrontFits(s, b)
  {
  }

  /** The first `i` bytes are dealt with and gave `output`. */
  ghost predicate Progress(s: Bytes, i: nat, output: Bytes, final: bool)
    requires i <= |s|
  {
    DrainOf(s, final) == Drained(output + DrainOf(s[i..], final).output, DrainOf(s[i..], final).rest)
  }

  lemma Further(s: Bytes, i: nat, n: nat, output: Bytes, text: Bytes, final: bool)
    requires i < |s| && Progress(s, i, output, final) && i + n <= |s|
    requires NextOf(s[i..], final) == Take(n, text)
    ensures Progress(s, i + n, output + text, final)
  {
    var more := DrainOf(s[i + n..], final).output;
    assert s[i..][n..] == s[i + n..];
    assert output + (text + more) == output + text + more;
  }

  lemma Waits(s: Bytes, i: nat)
    requires i < |s| && NextOf(s[i..], false) == Hold
    ensures DrainOf(s[i..], false) == Drained([], s[i..])
  {
  }

  // ---------- Chunks do not matter ----------

  /** A step that does not wait is the same however the bytes go on. */
  lemma NextStays(a: Bytes, b: Bytes, final: bool)
    requires a != [] && NextOf(a, false).Take?
    ensures NextOf(a + b, final) == NextOf(a, false)
  {
    var k := LengthOf(a[0]);
    var s := a + b;
    assert s[0] == a[0];
    if FrontFits(a, k) {
      assert s[..k] == a[..k];
      forall j {:trigger Fits(s[0], j, s[j])} | 1 <= j < k ensures Fits(s[0], j, s[j]) { assert Fits(a[0], j, a[j]); }
    } else {
      var j :| 1 <= j < k && j < |a| && !Fits(a[0], j, a[j]);
      assert !Fits(s[0], j, s[j]);
    }
  }

  /** What draining `b` after a drain gave `d` yields altogether. */
  function Then(d: Drained, b: Bytes, final: bool): Drained {
    Drained(d.output + DrainOf(d.rest + b, final).output, DrainOf(d.rest + b, final).rest)
  }

  lemma ThenAfter(text: Bytes, d: Drained, b: Bytes, final: bool)
    ensures Then(Drained(text + d.output, d.rest), b, final)
         == Drained(text + Then(d, b, final).output, Then(d, b, final).rest)
  {
    var more := DrainOf(d.rest + b, final).output;
    assert text + d.output + more == text + (d.output + more);
  }

  lemma DrainTakes(s: Bytes, final: bool, n: nat, text: Bytes)
    requires s != [] && NextOf(s, final) == Take(n, text)
    ensures DrainOf(s, final) == Drained(text + DrainOf(s[n..], final).output, DrainOf(s[n..], final).rest)
  {
  }

  /** Draining a first chunk and going on with the rest and a second chunk is draining both at once. */
  lemma {:induction false} DrainSplits(a: Bytes, b: Bytes, final: bool)
    ensures DrainOf(a + b, final) == Then(DrainOf(a, false), b, final)
    decreases |a|
  {
    if a == [] {
      assert a + b == b;
    } else if NextOf(a, false).Take? {
      var n, text := NextOf(a, false).n, NextOf(a, false).text;
      NextStays(a, b, final);
      assert (a + b)[n..] == a[n..] + b;
      DrainSplits(a[n..], b, final);
      DrainTakes(a, false, n, text);
      DrainTakes(a + b, final, n, text);
      ThenAfter(text, DrainOf(a[n..], false), b, final);
    } else {
      HoldThen(a, b, final);
    }
  }

  lemma HoldThen(a: Bytes, b: Bytes, final: bool)
    requires a != [] && NextOf(a, false) == Hold
    ensures Then(DrainOf(a, false), b, final) == DrainOf(a + b, final)
  {
    assert [] + DrainOf(a + b, final).output == DrainOf(a + b, final).output;
  }

  /** All that comes out: a non-final drain after each chunk and a final drain at the end. */
  function Stream(chunks: seq<Bytes>, pending: Bytes): Bytes {
    if chunks == [] then DrainOf(pending, true).output
    else
      var d := DrainOf(pending + chunks[0], false);
      d.output + Stream(chunks[1..], d.rest)
  }

  /** However the bytes are cut, the stream puts out what one final drain of the whole does. */
  lemma {:induction false} ChunkIndependent(chunks: seq<Bytes>, pending: Bytes)
    ensures Stream(chunks, pending) == DrainOf(pending + Joined(chunks), true).output
  {
    if chunks == [] {
      assert pending + [] == pending;
    } else {
      var d := DrainOf(pending + chunks[0], false);
      ChunkIndependent(chunks[1..], d.rest);
      DrainSplits(pending + chunks[0], Joined(chunks[1..]), true);
      assert pending + chunks[0] + Joined(chunks[1..]) == pending + Joined(chunks);
    }
  }

  // ---------- What comes out ----------

  lemma ReplacementWellFormed()
    ensures WellFormed(REPLACEMENT)
  {
    OneCharIsWellFormed(REPLACEMENT);
  }

  /** The output is always well formed. */
  lemma {:induction false} OutputWellFormed(s: Bytes, final: bool)
    ensures WellFormed(DrainOf(s, final).output)
    decreases |s|
  {
    if s != [] && NextOf(s, final).Take? {
      var front := NextOf(s, final);
      OutputWellFormed(s[front.n..], final);
      if front.text == REPLACEMENT {
        ReplacementWellFormed();
      } else {
        CharByLength(s, front.n);
        OneCharIsWellFormed(front.text);
      }
      WellFormedJoins(front.text, DrainOf(s[front.n..], final).output);
    }
  }

  lemma CharIsTaken(s: Bytes, k: nat, final: bool)
    requires s != [] && CharAtFront(s, k)
    ensures NextOf(s, final) == Take(k, s[..k])
  {
    CharByLength(s, k);
  }

  lemma TakenWhole(s: Bytes, k: nat)
    requires k <= |s|
    ensures Drained(s[..k] + s[k..], []) == Drained(s, [])
  {
    assert s[..k] + s[k..] == s;
  }

  /** Well-formed input passes through, and nothing stays pending. */
  lemma {:induction false} WellFormedPasses(s: Bytes, final: bool)
    requires WellFormed(s)
    ensures DrainOf(s, final) == Drained(s, [])
    decreases |s|
  {
    if s != [] {
      var k: nat :| CharAtFront(s, k) && WellFormed(s[k..]);
      CharIsTaken(s, k, final);
      WellFormedPasses(s[k..], final);
      DrainTakes(s, final, k, s[..k]);
      TakenWhole(s, k);
    }
  }

  /** A final drain leaves its input unchanged exactly when the input is well formed. */
  lemma UnchangedIffWellFormed(s: Bytes)
    ensures DrainOf(s, true).output == s <==> WellFormed(s)
  {
    OutputWellFormed(s, true);
    if WellFormed(s) { WellFormedPasses(s, true); }
  }

  /** Only a beginning of one character stays pending, so at most three bytes, and nothing after a final drain. */
  lemma {:induction false} PendingIsPartial(s: Bytes, final: bool)
    ensures var rest := DrainOf(s, final).rest;
            rest == [] || (!final && Partial(rest) && |rest| <= 3 && |rest| <= |s| && rest == s[|s| - |rest|..])
    decreases |s|
  {
    if s != [] && NextOf(s, final).Take? {
      PendingIsPartial(s[NextOf(s, final).n..], final);
    } else if s != [] {
      FrontUpTo(s, |s|, LengthOf(s[0]));
    }
  }
}
