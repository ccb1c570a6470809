/** The payload that carries a finished prefill to the decode worker: one flat byte string, packed on one side
    and unpacked, with all its checks, on the other. */
module PdPayload {
  import opened ByteStrings
  import opened Options
  import opened WireIo

  type int32 = v: int | -0x8000_0000 <= v < 0x8000_0000
  type int64 = v: int | -0x8000_0000_0000_0000 <= v < 0x8000_0000_0000_0000
  type uint64 = v: nat | v < 0x1_0000_0000_0000_0000

  datatype LeaseToken = LeaseToken(service: uint64, consumer: uint64, leaseId: uint64)

  datatype Layer = Layer(ids: seq<int32>)

  datatype Sizes = Sizes(block: int32, layers: int32, valid: int32, committed: int32)

  /** The exported state of a request's KV blocks, one list of block ids per layer. */
  datatype KvState = KvState(schemaVersion: uint64, sizes: Sizes, blockIds: seq<Layer>)

  datatype Handoff = Handoff(state: KvState, lease: LeaseToken, firstToken: int32, ropeDelta: int64, prompt: seq<int32>,
                             provider: uint64)

  const MAGIC: nat := 0x4450_5650
  const VERSION: nat := 2
  const MAX_LAYERS: nat := 256
  const MAX_IDS: nat := 65536

  // ---------- Packing ----------

  /** Magic, version, reserved, the lease, the provider, first token, delta, four sizes, prompt length. */
  const WIDTHS: seq<nat> := [4, 2, 2, 8, 8, 8, 8, 4, 8, 4, 4, 4, 4, 8]

  function HeaderOf(h: Handoff): (r: seq<nat>)
    ensures |r| == |WIDTHS|
  {
    [MAGIC, VERSION, 0, h.lease.service, h.lease.consumer, h.lease.leaseId, h.provider,
     Unsigned(h.firstToken, R4), Unsigned(h.ropeDelta, R8), Unsigned(h.state.sizes.block, R4),
     Unsigned(h.state.sizes.layers, R4), Unsigned(h.state.sizes.valid, R4), Unsigned(h.state.sizes.committed, R4),
     |h.prompt|]
  }

  function PutInts(vs: seq<int32>): Bytes {
    if vs == [] then [] else LittleEndian(Unsigned(vs[0], R4), 4) + PutInts(vs[1..])
  }

  function PutLayer(layer: Layer): Bytes {
    LittleEndian(|layer.ids|, 4) + PutInts(layer.ids)
  }

  function PutLayers(layers: seq<Layer>): Bytes {
    if layers == [] then [] else PutLayer(layers[0]) + PutLayers(layers[1..])
  }

  function PackOf(h: Handoff): Bytes {
    PutNats(HeaderOf(h), WIDTHS) + (PutLayers(h.state.blockIds) + PutInts(h.prompt))
  }

  method PackInts(vs: seq<int32>, output: Bytes) returns (out: Bytes)
    ensures out == output + PutInts(vs)
  {
    out := output;
    for i := 0 to |vs|
      invariant out + PutInts(vs[i..]) == output + PutInts(vs)
    {
      ghost var before := out;
      out := Put(Unsigned(vs[i], R4), 4, out);
      assert vs[i..][1..] == vs[i + 1..];
      assert before + (LittleEndian(Unsigned(vs[i], R4), 4) + PutInts(vs[i + 1..])) == out + PutInts(vs[i + 1..]);
    }
  }

  method PackLayers(layers: seq<Layer>, output: Bytes) returns (out: Bytes)
    ensures out == output + PutLayers(layers)
  {
    out := output;
    for i := 0 to |layers|
      invariant out + PutLayers(layers[i..]) == output + PutLayers(layers)
    {
      ghost var before := out;
      out := Put(|layers[i].ids|, 4, out);
      out := PackInts(layers[i].ids, out);
      assert layers[i..][1..] == layers[i + 1..];
      LayerAppended(before, layers[i], PutLayers(layers[i + 1..]));
    }
  }

  lemma LayerAppended(before: Bytes, layer: Layer, rest: Bytes)
    ensures before + LittleEndian(|layer.ids|, 4) + PutInts(layer.ids) + rest == before + (PutLayer(layer) + rest)
  {
  }

  method Pack(h: Handoff) returns (output: Bytes)
    ensures output == PackOf(h)
  {
    output := PutAll(HeaderOf(h), WIDTHS, []);
    assert [] + PutNats(HeaderOf(h), WIDTHS) == PutNats(HeaderOf(h), WIDTHS);
    output := PackLayers(h.state.blockIds, output);
    output := PackInts(h.prompt, output);
    Grouped(PutNats(HeaderOf(h), WIDTHS), PutLayers(h.state.blockIds), PutInts(h.prompt));
  }

  // ---------- Unpacking ----------

  /** Read `n` 32-bit integers, all of them non-negative if asked. */
  function GetInts(s: Bytes, n: nat, nonNegative: bool): (g: Got<seq<int32>>)
    ensures g.Got? ==> |g.value| == n
    decreases n
  {
    if n == 0 then Got([], s)
    else
      match GetNat(s, 4)
      case Nothing => Nothing
      case Got(raw, rest) =>
        Ranges();
        if nonNegative && raw > 0x7FFF_FFFF then Nothing
        else
          match GetInts(rest, n - 1, nonNegative)
          case Nothing => Nothing
          case Got(more, end) => Got([Signed(raw, R4)] + more, end)
  }

  function GetLayer(s: Bytes): Got<Layer> {
    match GetNat(s, 4)
    case Nothing => Nothing
    case Got(count, rest) =>
      if count > MAX_IDS then Nothing
      else
        match GetInts(rest, count, true)
        case Nothing => Nothing
        case Got(ids, end) => Got(Layer(ids), end)
  }

  function GetLayers(s: Bytes, n: nat): (g: Got<seq<Layer>>)
    ensures g.Got? ==> |g.value| == n
    decreases n
  {
    if n == 0 then Got([], s)
    else
      match GetLayer(s)
      case Nothing => Nothing
      case Got(layer, rest) =>
        match GetLayers(rest, n - 1)
        case Nothing => Nothing
        case Got(more, end) => Got([layer] + more, end)
  }

  predicate NonNegative(vs: seq<int32>) {
    forall i :: 0 <= i < |vs| ==> vs[i] >= 0
  }

  predicate GoodLayer(layer: Layer) {
    |layer.ids| <= MAX_IDS && NonNegative(layer.ids)
  }

  lemma {:induction false} GetPutInts(vs: seq<int32>, rest: Bytes, nonNegative: bool)
    requires nonNegative ==> NonNegative(vs)
    ensures GetInts(PutInts(vs) + rest, |vs|, nonNegative) == Got(vs, rest)
  {
    if vs == [] {
      assert PutInts(vs) + rest == rest;
    } else {
      var raw, more := Unsigned(vs[0], R4), PutInts(vs[1..]);
      Ranges();
      assert LittleEndian(raw, 4) + more + rest == LittleEndian(raw, 4) + (more + rest);
      GetPut(raw, 4, more + rest);
      SignedUnsigned(vs[0], R4);
      GetPutInts(vs[1..], rest, nonNegative);
      assert [vs[0]] + vs[1..] == vs;
    }
  }

  lemma {:induction false} PutGetInts(s: Bytes, n: nat, nonNegative: bool)
    requires GetInts(s, n, nonNegative).Got?
    ensures var g := GetInts(s, n, nonNegative);
            s == PutInts(g.value) + g.rest && (nonNegative ==> NonNegative(g.value))
    decreases n
  {
    if n == 0 {
      assert [] + s == s;
    } else {
      var g := GetNat(s, 4);
      Ranges();
      PutGet(s, 4);
      PutGetInts(g.rest, n - 1, nonNegative);
      var more := GetInts(g.rest, n - 1, nonNegative);
      var all := [Signed(g.value, R4)] + more.value;
      UnsignedSigned(g.value, R4);
      assert all[1..] == more.value;
      Grouped(LittleEndian(g.value, 4), PutInts(more.value), more.rest);
    }
  }

  lemma GetPutLayer(layer: Layer, rest: Bytes)
    requires GoodLayer(layer)
    ensures GetLayer(PutLayer(layer) + rest) == Got(layer, rest)
  {
    Ranges();
    Grouped(LittleEndian(|layer.ids|, 4), PutInts(layer.ids), rest);
    GetPut(|layer.ids|, 4, PutInts(layer.ids) + rest);
    GetPutInts(layer.ids, rest, true);
  }

  lemma PutGetLayer(s: Bytes)
    requires GetLayer(s).Got?
    ensures s == PutLayer(GetLayer(s).value) + GetLayer(s).rest && GoodLayer(GetLayer(s).value)
  {
    var g := GetNat(s, 4);
    PutGet(s, 4);
    PutGetInts(g.rest, g.value, true);
    var ids := GetInts(g.rest, g.value, true);
    Grouped(LittleEndian(g.value, 4), PutInts(ids.value), ids.rest);
  }

  lemma {:induction false} GetPutLayers(layers: seq<Layer>, rest: Bytes)
    requires forall i :: 0 <= i < |layers| ==> GoodLayer(layers[i])
    ensures GetLayers(PutLayers(layers) + rest, |layers|) == Got(layers, rest)
  {
    if layers == [] {
      assert PutLayers(layers) + rest == rest;
    } else {
      Grouped(PutLayer(layers[0]), PutLayers(layers[1..]), rest);
      GetPutLayer(layers[0], PutLayers(layers[1..]) + rest);
      GetPutLayers(layers[1..], rest);
      assert [layers[0]] + layers[1..] == layers;
    }
  }

  lemma {:induction false} PutGetLayers(s: Bytes, n: nat)
    requires GetLayers(s, n).Got?
    ensures s == PutLayers(GetLayers(s, n).value) + GetLayers(s, n).rest
    ensures forall i :: 0 <= i < n ==> GoodLayer(GetLayers(s, n).value[i])
    decreases n
  {
    if n == 0 {
      assert [] + s == s;
    } else {
      PutGetLayer(s);
      var g := GetLayer(s);
      PutGetLayers(g.rest, n - 1);
      var more := GetLayers(g.rest, n - 1);
      assert ([g.value] + more.value)[1..] == more.value;
      Grouped(PutLayer(g.value), PutLayers(more.value), more.rest);
    }
  }

  /** Exactly enough bytes are never too few. */
  lemma {:induction false} EnoughInts(s: Bytes, n: nat)
    requires |s| == 4 * n
    ensures GetInts(s, n, false).Got? && GetInts(s, n, false).rest == []
    decreases n
  {
    if n > 0 { EnoughInts(GetNat(s, 4).rest, n - 1); }
  }

  lemma {:induction false} IntsSize(vs: seq<int32>)
    ensures |PutInts(vs)| == 4 * |vs|
  {
    if vs != [] { IntsSize(vs[1..]); }
  }

  // ---------- The whole payload ----------

  /** Header values in the ranges of their fields. */
  ghost predicate HeaderFits(v: seq<nat>) {
    |v| == |WIDTHS| && forall i :: 0 <= i < |v| ==> v[i] < Range(WIDTHS[i])
  }

  /** The checks made on the header. */
  predicate HeaderGood(v: seq<nat>)
    requires |v| == |WIDTHS|
  {
    v[0] == MAGIC && v[1] == VERSION && v[2] == 0 && 0 < v[10] <= MAX_LAYERS && v[5] != 0 && v[6] != 0
  }

  lemma FieldRanges(v: seq<nat>)
    requires HeaderFits(v)
    ensures v[3] < R8 && v[4] < R8 && v[5] < R8 && v[6] < R8 && v[7] < R4 && v[8] < R8
    ensures v[9] < R4 && v[10] < R4 && v[11] < R4 && v[12] < R4 && v[13] < R8
  {
    Ranges();
    assert WIDTHS[3] == 8 && WIDTHS[4] == 8 && WIDTHS[5] == 8 && WIDTHS[6] == 8 && WIDTHS[7] == 4 && WIDTHS[8] == 8;
    assert WIDTHS[9] == 4 && WIDTHS[10] == 4 && WIDTHS[11] == 4 && WIDTHS[12] == 4 && WIDTHS[13] == 8;
  }

  function HandoffFrom(v: seq<nat>, layers: seq<Layer>, prompt: seq<int32>): Handoff
    requires HeaderFits(v)
  {
    FieldRanges(v);
    Handoff(KvState(1, Sizes(Signed(v[9], R4), Signed(v[10], R4), Signed(v[11], R4), Signed(v[12], R4)), layers),
            LeaseToken(v[3], v[4], v[5]), Signed(v[7], R4), Signed(v[8], R8), prompt, v[6])
  }

  /** What unpacking accepts, as a function of the bytes. */
  function Parse(s: Bytes): Option<Handoff> {
    match GetNats(s, WIDTHS)
    case Nothing => None
    case Got(v, rest) =>
      if !HeaderGood(v) then None
      else
        match GetLayers(rest, v[10])
        case Nothing => None
        case Got(layers, tail) =>
          if v[13] > |tail| / 4 || v[13] * 4 != |tail| then None
          else
            match GetInts(tail, v[13], false)
            case Nothing => None
            case Got(prompt, _) =>
              PutGetNats(s, WIDTHS);
              FitEach(v, WIDTHS);
              Some(HandoffFrom(v, layers, prompt))
  }

  /** The values that survive the way through the payload. The last bound holds of every vector in memory. */
  predicate WellFormed(h: Handoff) {
    && h.state.schemaVersion == 1 && h.state.sizes.layers == |h.state.blockIds| && 0 < |h.state.blockIds| <= MAX_LAYERS
    && (forall i :: 0 <= i < |h.state.blockIds| ==> GoodLayer(h.state.blockIds[i]))
    && h.lease.leaseId != 0 && h.provider != 0 && |h.prompt| < R8
  }

  lemma HeaderOfFits(h: Handoff)
    requires |h.prompt| < R8
    ensures HeaderFits(HeaderOf(h))
  {
    Ranges();
    var v := HeaderOf(h);
    forall i | 0 <= i < |v| ensures v[i] < Range(WIDTHS[i]) {
      if i == 0 || i == 7 || 9 <= i <= 12 { assert WIDTHS[i] == 4; }
      else if i == 1 || i == 2 { assert WIDTHS[i] == 2; }
      else { assert WIDTHS[i] == 8; }
    }
  }

  lemma HeaderBack(h: Handoff)
    requires |h.prompt| < R8 && h.state.schemaVersion == 1
    ensures HeaderFits(HeaderOf(h)) && HandoffFrom(HeaderOf(h), h.state.blockIds, h.prompt) == h
  {
    HeaderOfFits(h);
    SignedUnsigned(h.firstToken, R4);
    SignedUnsigned(h.ropeDelta, R8);
    SignedUnsigned(h.state.sizes.block, R4);
    SignedUnsigned(h.state.sizes.layers, R4);
    SignedUnsigned(h.state.sizes.valid, R4);
    SignedUnsigned(h.state.sizes.committed, R4);
  }

  lemma HeaderForth(v: seq<nat>, layers: seq<Layer>, prompt: seq<int32>)
    requires HeaderFits(v) && HeaderGood(v) && |prompt| == v[13]
    ensures HeaderOf(HandoffFrom(v, layers, prompt)) == v
  {
    FieldRanges(v);
    UnsignedSigned(v[7], R4);
    UnsignedSigned(v[8], R8);
    UnsignedSigned(v[9], R4);
    UnsignedSigned(v[10], R4);
    UnsignedSigned(v[11], R4);
    UnsignedSigned(v[12], R4);
  }

  lemma HeaderReads(h: Handoff, rest: Bytes)
    requires |h.prompt| < R8 && h.state.schemaVersion == 1
    ensures GetNats(PutNats(HeaderOf(h), WIDTHS) + rest, WIDTHS) == Got(HeaderOf(h), rest)
    ensures HeaderFits(HeaderOf(h)) && HandoffFrom(HeaderOf(h), h.state.blockIds, h.prompt) == h
  {
    HeaderBack(h);
    FitEach(HeaderOf(h), WIDTHS);
    GetPutNats(HeaderOf(h), WIDTHS, rest);
  }

  lemma PromptReads(prompt: seq<int32>)
    ensures |PutInts(prompt)| == 4 * |prompt| && GetInts(PutInts(prompt), |prompt|, false) == Got(prompt, [])
  {
    IntsSize(prompt);
    assert PutInts(prompt) + [] == PutInts(prompt);
    GetPutInts(prompt, [], false);
  }

  /** Unpacking a packed well-formed value yields it. */
  lemma ParsePack(h: Handoff)
    requires WellFormed(h)
    ensures Parse(PackOf(h)) == Some(h)
  {
    var prompt := PutInts(h.prompt);
    HeaderReads(h, PutLayers(h.state.blockIds) + prompt);
    GetPutLayers(h.state.blockIds, prompt);
    PromptReads(h.prompt);
  }

  /** Every accepted byte string is the packing of what it was unpacked to, which is well formed. */
  lemma PackParse(s: Bytes)
    requires Parse(s).Some?
    ensures WellFormed(Parse(s).value) && s == PackOf(Parse(s).value)
  {
    var header := GetNats(s, WIDTHS);
    var v := header.value;
    PutGetNats(s, WIDTHS);
    FitEach(v, WIDTHS);
    FieldRanges(v);
    PutGetLayers(header.rest, v[10]);
    var layers := GetLayers(header.rest, v[10]);
    EnoughInts(layers.rest, v[13]);
    PutGetInts(layers.rest, v[13], false);
    var prompt := GetInts(layers.rest, v[13], false);
    assert PutInts(prompt.value) + [] == PutInts(prompt.value);
    HeaderForth(v, layers.value, prompt.value);
  }

  /** The codec is a bijection between the well-formed values and the accepted byte strings. */
  lemma RoundTripIffWellFormed(h: Handoff)
    ensures Parse(PackOf(h)) == Some(h) <==> WellFormed(h)
  {
    if WellFormed(h) { ParsePack(h); }
    if Parse(PackOf(h)) == Some(h) { PackParse(PackOf(h)); }
  }

  // ---------- The unpacking loops ----------

  method UnpackInts(bytes: Bytes, start: nat, n: nat, nonNegative: bool) returns (ok: bool, vs: seq<int32>, cursor: nat)
    requires start <= |bytes|
    ensures cursor <= |bytes|
    ensures GetInts(bytes[start..], n, nonNegative) == if ok then Got(vs, bytes[cursor..]) else Nothing
  {
    vs, cursor := [], start;
    PrependNothing(GetInts(bytes[start..], n, nonNegative));
    for i := 0 to n
      invariant cursor <= |bytes|
      invariant GetInts(bytes[start..], n, nonNegative) == Prepend(vs, GetInts(bytes[cursor..], n - i, nonNegative))
    {
      var got, raw, next := Get(bytes, cursor, 4);
      if !got || (nonNegative && raw > 0x7FFF_FFFF) { return false, [], 0; }
      Ranges();
      ghost var more := GetInts(bytes[next..], n - i - 1, nonNegative);
      assert GetInts(bytes[cursor..], n - i, nonNegative) == Prepend([Signed(raw, R4)], more);
      PrependMore(vs, Signed(raw, R4), more);
      vs, cursor := vs + [Signed(raw, R4)], next;
    }
    assert vs + [] == vs;
    ok := true;
  }

  method UnpackLayers(bytes: Bytes, start: nat, n: nat) returns (ok: bool, layers: seq<Layer>, cursor: nat)
    requires start <= |bytes|
    ensures cursor <= |bytes|
    ensures GetLayers(bytes[start..], n) == if ok then Got(layers, bytes[cursor..]) else Nothing
  {
    layers, cursor := [], start;
    PrependNothing(GetLayers(bytes[start..], n));
    for i := 0 to n
      invariant cursor <= |bytes|
      invariant GetLayers(bytes[start..], n) == Prepend(layers, GetLayers(bytes[cursor..], n - i))
    {
      var got, count, next := Get(bytes, cursor, 4);
      if !got || count > MAX_IDS { return false, [], 0; }
      var ids: seq<int32>, end: nat;
      got, ids, end := UnpackInts(bytes, next, count, true);
      if !got { return false, [], 0; }
      ghost var more := GetLayers(bytes[end..], n - i - 1);
      assert GetLayers(bytes[cursor..], n - i) == Prepend([Layer(ids)], more);
      PrependMore(layers, Layer(ids), more);
      layers, cursor := layers + [Layer(ids)], end;
    }
    assert layers + [] == layers;
    ok := true;
  }

  /** Unpack accepts exactly the packings of well-formed values, and yields the value that was packed. */
  method Unpack(bytes: Bytes) returns (r: Option<Handoff>)
    ensures r == Parse(bytes)
    ensures r.Some? ==> WellFormed(r.value) && bytes == PackOf(r.value)
    ensures r.None? ==> forall h :: WellFormed(h) ==> bytes != PackOf(h)
  {
    forall h | WellFormed(h) ensures Parse(PackOf(h)) == Some(h) { ParsePack(h); }
    if Parse(bytes).Some? { PackParse(bytes); }
    var ok, v, cursor := GetAll(bytes, WIDTHS);
    if !ok || !HeaderGood(v) { return None; }
    var layers: seq<Layer>;
    ok, layers, cursor := UnpackLayers(bytes, cursor, v[10]);
    if !ok { return None; }
    var left := |bytes| - cursor;
    if v[13] > left / 4 || v[13] * 4 != left { return None; }
    var prompt: seq<int32>;
    EnoughInts(bytes[cursor..], v[13]);
    ok, prompt, cursor := UnpackInts(bytes, cursor, v[13], false);
    PutGetNats(bytes, WIDTHS);
    FitEach(v, WIDTHS);
    return Some(HandoffFrom(v, layers, prompt));
  }
}
