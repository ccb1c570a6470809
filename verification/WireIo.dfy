/** Fixed-width little-endian integers in byte strings, written by appending and read by moving a cursor. */
module WireIo {
  import opened ByteStrings

  /** What a read leaves: a value and the bytes after it, or nothing when too few bytes are there. */
  datatype Got<T> = Nothing | Got(value: T, rest: Bytes)

  /** The number of values that fit into `k` bytes. */
  function Range(k: nat): (r: nat)
    ensures r > 0
  {
    if k == 0 then 1 else 256 * Range(k - 1)
  }

  const R2: nat := 0x1_0000
  const R4: nat := 0x1_0000_0000
  const R8: nat := 0x1_0000_0000_0000_0000

  lemma Ranges()
    ensures Range(2) == R2 && Range(4) == R4 && Range(8) == R8
  {
    assert Range(4) == 0x1_0000_0000 by { assert Range(3) == 0x100_0000 by { assert Range(2) == 0x1_0000; } }
    assert Range(8) == 0x1_0000_0000_0000_0000 by {
      assert Range(6) == 0x1_0000_0000_0000 by { assert Range(5) == 0x100_0000_0000; }
      assert Range(7) == 0x100_0000_0000_0000;
    }
  }

  /** The low `k` bytes of a number, least significant first. */
  function LittleEndian(v: nat, k: nat): (r: Bytes)
    ensures |r| == k
  {
    if k == 0 then [] else [v % 256] + LittleEndian(v / 256, k - 1)
  }

  function FromLittleEndian(s: Bytes): nat {
    if s == [] then 0 else s[0] + 256 * FromLittleEndian(s[1..])
  }

  lemma {:induction false} FromTo(v: nat, k: nat)
    requires v < Range(k)
    ensures FromLittleEndian(LittleEndian(v, k)) == v
  {
    if k > 0 {
      assert v / 256 < Range(k - 1);
      FromTo(v / 256, k - 1);
      assert LittleEndian(v, k)[1..] == LittleEndian(v / 256, k - 1);
    }
  }

  lemma {:induction false} ToFrom(s: Bytes)
    ensures FromLittleEndian(s) < Range(|s|) && LittleEndian(FromLittleEndian(s), |s|) == s
  {
    if s != [] {
      ToFrom(s[1..]);
      var v := FromLittleEndian(s);
      assert v % 256 == s[0] && v / 256 == FromLittleEndian(s[1..]);
      assert [s[0]] + s[1..] == s;
    }
  }

  function GetNat(s: Bytes, k: nat): (g: Got<nat>)
    ensures g.Got? ==> g.value < Range(k)
  {
    if |s| < k then Nothing else
      ToFrom(s[..k]);
      Got(FromLittleEndian(s[..k]), s[k..])
  }

  lemma GetPut(v: nat, k: nat, rest: Bytes)
    requires v < Range(k)
    ensures GetNat(LittleEndian(v, k) + rest, k) == Got(v, rest)
  {
    FromTo(v, k);
    assert (LittleEndian(v, k) + rest)[..k] == LittleEndian(v, k);
    assert (LittleEndian(v, k) + rest)[k..] == rest;
  }

  lemma PutGet(s: Bytes, k: nat)
    requires GetNat(s, k).Got?
    ensures s == LittleEndian(GetNat(s, k).value, k) + GetNat(s, k).rest
  {
    ToFrom(s[..k]);
    assert s == s[..k] + s[k..];
  }

  // ---------- Several fields in a row ----------

  function PutNats(values: seq<nat>, widths: seq<nat>): Bytes
    requires |values| == |widths|
  {
    if values == [] then [] else LittleEndian(values[0], widths[0]) + PutNats(values[1..], widths[1..])
  }

  function Sum(widths: seq<nat>): nat {
    if widths == [] then 0 else widths[0] + Sum(widths[1..])
  }

  lemma {:induction false} PutNatsSize(values: seq<nat>, widths: seq<nat>)
    requires |values| == |widths|
    ensures |PutNats(values, widths)| == Sum(widths)
  {
    if values != [] { PutNatsSize(values[1..], widths[1..]); }
  }

  function GetNats(s: Bytes, widths: seq<nat>): Got<seq<nat>>
    ensures GetNats(s, widths).Got? ==> |GetNats(s, widths).value| == |widths|
  {
    if widths == [] then Got([], s)
    else
      match GetNat(s, widths[0])
      case Nothing => Nothing
      case Got(v, rest) =>
        match GetNats(rest, widths[1..])
        case Nothing => Nothing
        case Got(vs, end) => Got([v] + vs, end)
  }

  /** Every value fits its field. */
  predicate FitAll(values: seq<nat>, widths: seq<nat>)
    requires |values| == |widths|
  {
    values == [] || (values[0] < Range(widths[0]) && FitAll(values[1..], widths[1..]))
  }

  lemma {:induction false} GetPutNats(values: seq<nat>, widths: seq<nat>, rest: Bytes)
    requires |values| == |widths| && FitAll(values, widths)
    ensures GetNats(PutNats(values, widths) + rest, widths) == Got(values, rest)
  {
    if values == [] {
      assert PutNats(values, widths) + rest == rest;
    } else {
      var first, more := LittleEndian(values[0], widths[0]), PutNats(values[1..], widths[1..]);
      assert first + more + rest == first + (more + rest);
      GetPut(values[0], widths[0], more + rest);
      GetPutNats(values[1..], widths[1..], rest);
      assert [values[0]] + values[1..] == values;
    }
  }

  lemma {:induction false} PutGetNats(s: Bytes, widths: seq<nat>)
    requires GetNats(s, widths).Got?
    ensures FitAll(GetNats(s, widths).value, widths)
    ensures s == PutNats(GetNats(s, widths).value, widths) + GetNats(s, widths).rest
  {
    if widths == [] {
      assert [] + s == s;
    } else {
      var g := GetNat(s, widths[0]);
      var more := GetNats(g.rest, widths[1..]);
      PutGet(s, widths[0]);
      PutGetNats(g.rest, widths[1..]);
      assert ([g.value] + more.value)[1..] == more.value;
      var first, others := LittleEndian(g.value, widths[0]), PutNats(more.value, widths[1..]);
      assert first + (others + more.rest) == first + others + more.rest;
    }
  }

  /** Append one integer, byte by byte. */
  method Put(v: nat, k: nat, output: Bytes) returns (out: Bytes)
    ensures out == output + LittleEndian(v, k)
  {
    out := output;
    var left := v;
    for i := 0 to k
      invariant out + LittleEndian(left, k - i) == output + LittleEndian(v, k)
    {
      assert out + ([left % 256] + LittleEndian(left / 256, k - i - 1)) == out + [left % 256] + LittleEndian(left / 256, k - i - 1);
      out := out + [left % 256];
      left := left / 256;
    }
  }

  /** Append several integers. */
  method PutAll(values: seq<nat>, widths: seq<nat>, output: Bytes) returns (out: Bytes)
    requires |values| == |widths|
    ensures out == output + PutNats(values, widths)
  {
    out := output;
    for i := 0 to |values|
      invariant out + PutNats(values[i..], widths[i..]) == output + PutNats(values, widths)
    {
      ghost var before := out;
      out := Put(values[i], widths[i], out);
      assert values[i..][1..] == values[i + 1..] && widths[i..][1..] == widths[i + 1..];
      assert before + (LittleEndian(values[i], widths[i]) + PutNats(values[i + 1..], widths[i + 1..]))
          == out + PutNats(values[i + 1..], widths[i + 1..]);
    }
  }

  lemma {:induction false} OneByteMore(s: Bytes, b: byte)
    ensures FromLittleEndian(s + [b]) == FromLittleEndian(s) + Range(|s|) * b
  {
    if s == [] {
      assert s + [b] == [b] && [b][1..] == [];
    } else {
      assert (s + [b])[1..] == s[1..] + [b] && (s + [b])[0] == s[0];
      OneByteMore(s[1..], b);
      var r := Range(|s| - 1);
      assert 256 * (r * b) == 256 * r * b;
    }
  }

  /** Read one integer at the cursor and move past it, or stay when too few bytes are left. */
  method Get(bytes: Bytes, cursor: nat, k: nat) returns (ok: bool, value: nat, next: nat)
    requires cursor <= |bytes|
    ensures cursor <= next <= |bytes|
    ensures GetNat(bytes[cursor..], k) == if ok then Got(value, bytes[next..]) else Nothing
  {
    if |bytes| - cursor < k { return false, 0, cursor; }
    value := 0;
    var scale: nat := 1;
    for i := 0 to k
      invariant value == FromLittleEndian(bytes[cursor..cursor + i]) && scale == Range(i)
    {
      OneByteMore(bytes[cursor..cursor + i], bytes[cursor + i]);
      assert bytes[cursor..cursor + i] + [bytes[cursor + i]] == bytes[cursor..cursor + i + 1];
      value := value + scale * bytes[cursor + i];
      scale := 256 * scale;
    }
    assert bytes[cursor..][..k] == bytes[cursor..cursor + k] && bytes[cursor..][k..] == bytes[cursor + k..];
    return true, value, cursor + k;
  }

  /** What was read before, and then what else is read. */
  function Prepend<T>(front: seq<T>, g: Got<seq<T>>): Got<seq<T>> {
    match g
    case Nothing => Nothing
    case Got(more, rest) => Got(front + more, rest)
  }

  lemma PrependMore<T>(front: seq<T>, x: T, g: Got<seq<T>>)
    ensures Prepend(front, Prepend([x], g)) == Prepend(front + [x], g)
  {
    if g.Got? { assert front + ([x] + g.value) == front + [x] + g.value; }
  }

  /** Read several integers. */
  method GetAll(bytes: Bytes, widths: seq<nat>) returns (ok: bool, values: seq<nat>, cursor: nat)
    ensures cursor <= |bytes|
    ensures GetNats(bytes, widths) == if ok then Got(values, bytes[cursor..]) else Nothing
  {
    values, cursor := [], 0;
    assert bytes[0..] == bytes && widths[0..] == widths;
    PrependNothing(GetNats(bytes, widths));
    for i := 0 to |widths|
      invariant cursor <= |bytes| && |values| == i
      invariant GetNats(bytes, widths) == Prepend(values, GetNats(bytes[cursor..], widths[i..]))
    {
      var got, v, next := Get(bytes, cursor, widths[i]);
      if !got { return false, [], 0; }
      assert widths[i..][1..] == widths[i + 1..];
      assert GetNats(bytes[cursor..], widths[i..]) == Prepend([v], GetNats(bytes[next..], widths[i + 1..]));
      PrependMore(values, v, GetNats(bytes[next..], widths[i + 1..]));
      values, cursor := values + [v], next;
    }
    assert values + [] == values;
    ok := true;
  }

  lemma PrependNothing<T>(g: Got<seq<T>>)
    ensures Prepend([], g) == g
  {
    if g.Got? { assert [] + g.value == g.value; }
  }

  lemma {:induction false} FitEach(values: seq<nat>, widths: seq<nat>)
    requires |values| == |widths|
    ensures FitAll(values, widths) <==> forall i :: 0 <= i < |values| ==> values[i] < Range(widths[i])
  {
    if values != [] {
      FitEach(values[1..], widths[1..]);
      assert forall i :: 0 < i < |values| ==> values[i] == values[1..][i - 1] && widths[i] == widths[1..][i - 1];
    }
  }

  // ---------- Two's complement ----------

  predicate InWidth(v: int, range: nat) {
    0 <= 2 * v + range < 2 * range
  }

  /** The unsigned reading of a signed number, and back. */
  function Unsigned(v: int, range: nat): (u: nat)
    requires InWidth(v, range)
    ensures u < range
  {
    if v < 0 then v + range else v
  }

  function Signed(u: nat, range: nat): int {
    if 2 * u < range then u else u - range
  }

  lemma SignedUnsigned(v: int, range: nat)
    requires InWidth(v, range)
    ensures Signed(Unsigned(v, range), range) == v
  {
  }

  lemma UnsignedSigned(u: nat, range: nat)
    requires u < range
    ensures InWidth(Signed(u, range), range) && Unsigned(Signed(u, range), range) == u
  {
  }
}
