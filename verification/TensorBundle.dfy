/** The tensor bundle: a header, one record per component and aligned payloads, each with its checksum. The
    checksum is a parameter: any function from byte strings to 32 bytes. */
module TensorBundle {
  import opened ByteStrings
  import opened Division
  import opened Options
  import opened Utf8Grammar
  import opened WireIo
  import ChatUtf8

  type Digest = d: Bytes | |d| == 32 witness seq(32, _ => 0)

  /** A component to be encoded; its name is given by the bytes of its text. */
  datatype Component = Component(name: Bytes, dtype: string, shape: seq<int>, value: Bytes)

  /** A decoded component carries the code of its type. */
  datatype Entry = Entry(name: Bytes, code: nat, shape: seq<nat>, payload: Bytes)

  const MAGIC: nat := 0x4e42_4250
  const VERSION: nat := 1
  const HEADER_WIDTHS: seq<nat> := [4, 2, 2, 8, 4, 4]
  const RECORD_WIDTHS: seq<nat> := [2, 2, 2, 2, 8, 8]

  function CodeOf(dtype: string): Option<nat> {
    if dtype == "float32" then Some(1)
    else if dtype == "float16" then Some(2)
    else if dtype == "bfloat16" then Some(3)
    else if dtype == "int32" then Some(4)
    else if dtype == "int64" then Some(5)
    else if dtype == "uint8" then Some(6)
    else None
  }

  // ---------- Layout ----------

  function Align(cursor: nat, alignment: nat): (r: nat)
    requires alignment > 0
  {
    (cursor + alignment - 1) / alignment * alignment
  }

  lemma AlignIsNext(cursor: nat, alignment: nat)
    requires alignment > 0
    ensures Align(cursor, alignment) % alignment == 0 && cursor <= Align(cursor, alignment) < cursor + alignment
  {
    var q := (cursor + alignment - 1) / alignment;
    assert q * alignment <= cursor + alignment - 1 < q * alignment + alignment;
    MultipleMod(q, alignment);
  }

  /** Padding up to the next multiple, as the encoder computes it for its own length. */
  lemma PaddingIsAlign(n: nat, alignment: nat)
    requires alignment > 0
    ensures n + (alignment - n % alignment) % alignment == Align(n, alignment)
  {
    var k, r := n / alignment, n % alignment;
    assert n == k * alignment + r;
    if r == 0 {
      DivUnique(n + alignment - 1, alignment, k, alignment - 1);
      DivUnique(alignment, alignment, 1, 0);
    } else {
      assert (k + 1) * alignment == k * alignment + alignment;
      DivUnique(n + alignment - 1, alignment, k + 1, r - 1);
      DivUnique(alignment - r, alignment, 0, alignment - r);
    }
  }

  /** Length of the header and all records. */
  function MetaSize(cs: seq<Component>): nat {
    if cs == [] then 24 else MetaSize(cs[..|cs| - 1]) + RecordSize(cs[|cs| - 1])
  }

  function RecordSize(c: Component): nat {
    56 + |c.name| + 8 * |c.shape|
  }

  /** Where the next payload may go at the earliest. */
  function CursorAfter(cs: seq<Component>, start: nat, alignment: nat): nat
    requires alignment > 0
  {
    if cs == [] then start else Align(CursorAfter(cs[..|cs| - 1], start, alignment), alignment) + |cs[|cs| - 1].value|
  }

  function StartOf(cs: seq<Component>, alignment: nat): nat
    requires alignment > 0
  {
    Align(MetaSize(cs), alignment)
  }

  function CursorAt(cs: seq<Component>, alignment: nat, i: nat): nat
    requires alignment > 0 && i <= |cs|
  {
    CursorAfter(cs[..i], StartOf(cs, alignment), alignment)
  }

  function OffsetOf(cs: seq<Component>, alignment: nat, i: nat): nat
    requires alignment > 0 && i <= |cs|
  {
    Align(CursorAt(cs, alignment, i), alignment)
  }

  function Total(cs: seq<Component>, alignment: nat): nat
    requires alignment > 0
  {
    CursorAt(cs, alignment, |cs|)
  }

  lemma CursorStep(cs: seq<Component>, alignment: nat, i: nat)
    requires alignment > 0 && i < |cs|
    ensures CursorAt(cs, alignment, i + 1) == OffsetOf(cs, alignment, i) + |cs[i].value|
    ensures CursorAt(cs, alignment, i) <= OffsetOf(cs, alignment, i)
    ensures MetaSize(cs[..i + 1]) == MetaSize(cs[..i]) + RecordSize(cs[i])
  {
    assert cs[..i + 1][..i] == cs[..i];
    AlignIsNext(CursorAt(cs, alignment, i), alignment);
  }

  lemma {:induction false} CursorsRise(cs: seq<Component>, alignment: nat, i: nat, j: nat)
    requires alignment > 0 && i <= j <= |cs|
    ensures CursorAt(cs, alignment, i) <= CursorAt(cs, alignment, j) && StartOf(cs, alignment) <= CursorAt(cs, alignment, i)
    decreases j + i
  {
    if i < j {
      CursorStep(cs, alignment, j - 1);
      CursorsRise(cs, alignment, i, j - 1);
    } else if i > 0 {
      CursorStep(cs, alignment, i - 1);
      CursorsRise(cs, alignment, i - 1, i - 1);
    }
  }

  /** Payload regions are aligned, lie after the metadata, come one after the other without overlap, and end
      with the bundle. */
  lemma RegionsAreSeparate(cs: seq<Component>, alignment: nat, i: nat, j: nat)
    requires alignment > 0 && i < j <= |cs|
    ensures OffsetOf(cs, alignment, i) % alignment == 0 && MetaSize(cs) <= OffsetOf(cs, alignment, i)
    ensures OffsetOf(cs, alignment, i) + |cs[i].value| <= OffsetOf(cs, alignment, j)
    ensures OffsetOf(cs, alignment, i) + |cs[i].value| <= Total(cs, alignment)
  {
    AlignIsNext(CursorAt(cs, alignment, i), alignment);
    AlignIsNext(CursorAt(cs, alignment, j), alignment);
    AlignIsNext(MetaSize(cs), alignment);
    CursorStep(cs, alignment, i);
    CursorsRise(cs, alignment, 0, i);
    CursorsRise(cs, alignment, i + 1, j);
    CursorsRise(cs, alignment, i + 1, |cs|);
    CursorsRise(cs, alignment, i, i);
  }

  // ---------- The bytes of a bundle ----------

  /** What the fields of a record can hold. */
  predicate Good(c: Component) {
    |c.name| < R2 && CodeOf(c.dtype).Some? && |c.shape| < R2 && forall k :: 0 <= k < |c.shape| ==> 0 <= c.shape[k] < R8
  }

  predicate Encodable(cs: seq<Component>, alignment: int) {
    && 0 < alignment < R4 && |cs| < R2 && Total(cs, alignment) < R8
    && forall i :: 0 <= i < |cs| ==> Good(cs[i])
  }

  function Zeros(n: nat): Bytes {
    seq(n, _ => 0)
  }

  function Eights(n: nat): seq<nat> {
    if n == 0 then [] else [8] + Eights(n - 1)
  }

  lemma {:induction false} EightsSize(n: nat)
    ensures |Eights(n)| == n && Sum(Eights(n)) == 8 * n
  {
    if n > 0 {
      EightsSize(n - 1);
      assert Eights(n)[1..] == Eights(n - 1);
    }
  }

  function HeaderFields(count: nat, total: nat, alignment: nat): (r: seq<nat>)
    ensures |r| == |HEADER_WIDTHS|
  {
    [MAGIC, VERSION, count, total, alignment, 0]
  }

  function RecordFields(c: Component, offset: nat): (r: seq<nat>)
    requires Good(c)
    ensures |r| == |RECORD_WIDTHS|
  {
    [|c.name|, CodeOf(c.dtype).value, |c.shape|, 0, offset, |c.value|]
  }

  function ShapeBytes(c: Component): Bytes
    requires Good(c)
  {
    EightsSize(|c.shape|);
    PutNats(c.shape, Eights(|c.shape|))
  }

  function RecordOf(c: Component, offset: nat, sum: Bytes -> Digest): Bytes
    requires Good(c)
  {
    PutNats(RecordFields(c, offset), RECORD_WIDTHS) + (sum(c.value) + (c.name + ShapeBytes(c)))
  }

  /** The records from the `i`-th on. */
  function RecordsFrom(cs: seq<Component>, alignment: nat, sum: Bytes -> Digest, i: nat): Bytes
    requires Encodable(cs, alignment) && i <= |cs|
    decreases |cs| - i
  {
    if i == |cs| then [] else RecordOf(cs[i], OffsetOf(cs, alignment, i), sum) + RecordsFrom(cs, alignment, sum, i + 1)
  }

  /** Gaps and payloads from the `i`-th on. */
  function PayloadsFrom(cs: seq<Component>, alignment: nat, i: nat): Bytes
    requires alignment > 0 && i <= |cs|
    decreases |cs| - i
  {
    if i == |cs| then []
    else
      CursorStep(cs, alignment, i);
      Zeros(OffsetOf(cs, alignment, i) - CursorAt(cs, alignment, i)) + (cs[i].value + PayloadsFrom(cs, alignment, i + 1))
  }

  /** Padding after the metadata and everything that follows. */
  function AfterMeta(cs: seq<Component>, alignment: nat): Bytes
    requires alignment > 0
  {
    AlignIsNext(MetaSize(cs), alignment);
    Zeros(StartOf(cs, alignment) - MetaSize(cs)) + PayloadsFrom(cs, alignment, 0)
  }

  function HeaderOf(cs: seq<Component>, alignment: nat): Bytes
    requires Encodable(cs, alignment)
  {
    PutNats(HeaderFields(|cs|, Total(cs, alignment), alignment), HEADER_WIDTHS)
  }

  function BundleOf(cs: seq<Component>, alignment: nat, sum: Bytes -> Digest): Bytes
    requires Encodable(cs, alignment)
  {
    HeaderOf(cs, alignment) + (RecordsFrom(cs, alignment, sum, 0) + AfterMeta(cs, alignment))
  }

  lemma RecordOfSize(c: Component, offset: nat, sum: Bytes -> Digest)
    requires Good(c)
    ensures |RecordOf(c, offset, sum)| == RecordSize(c)
  {
    PutNatsSize(RecordFields(c, offset), RECORD_WIDTHS);
    RecordWidths();
    EightsSize(|c.shape|);
    PutNatsSize(c.shape, Eights(|c.shape|));
  }

  lemma RecordWidths()
    ensures Sum(RECORD_WIDTHS) == 24 && Sum(HEADER_WIDTHS) == 24
  {
    assert RECORD_WIDTHS[1..] == [2, 2, 2, 8, 8] && [2, 2, 2, 8, 8][1..] == [2, 2, 8, 8] && [2, 2, 8, 8][1..] == [2, 8, 8];
    assert [2, 8, 8][1..] == [8, 8] && [8, 8][1..] == [8] && [8][1..] == [];
    assert Sum([8, 8]) == 16 && Sum([2, 2, 8, 8]) == 20;
    assert HEADER_WIDTHS[1..] == [2, 2, 8, 4, 4] && [2, 2, 8, 4, 4][1..] == [2, 8, 4, 4] && [2, 8, 4, 4][1..] == [8, 4, 4];
    assert [8, 4, 4][1..] == [4, 4] && [4, 4][1..] == [4] && [4][1..] == [];
    assert Sum([4, 4]) == 8 && Sum([2, 8, 4, 4]) == 18;
  }

  lemma {:induction false} RecordsSize(cs: seq<Component>, alignment: nat, sum: Bytes -> Digest, i: nat)
    requires Encodable(cs, alignment) && i <= |cs|
    ensures MetaSize(cs[..i]) + |RecordsFrom(cs, alignment, sum, i)| == MetaSize(cs)
    decreases |cs| - i
  {
    if i == |cs| {
      assert cs[..i] == cs;
    } else {
      RecordOfSize(cs[i], OffsetOf(cs, alignment, i), sum);
      CursorStep(cs, alignment, i);
      RecordsSize(cs, alignment, sum, i + 1);
    }
  }

  lemma {:induction false} PayloadsSize(cs: seq<Component>, alignment: nat, i: nat)
    requires alignment > 0 && i <= |cs|
    ensures CursorAt(cs, alignment, i) + |PayloadsFrom(cs, alignment, i)| == Total(cs, alignment)
    decreases |cs| - i
  {
    if i < |cs| {
      CursorStep(cs, alignment, i);
      PayloadsSize(cs, alignment, i + 1);
    }
  }

  lemma BundleSize(cs: seq<Component>, alignment: nat, sum: Bytes -> Digest)
    requires Encodable(cs, alignment)
    ensures |BundleOf(cs, alignment, sum)| == Total(cs, alignment) && |HeaderOf(cs, alignment)| == 24
  {
    PutNatsSize(HeaderFields(|cs|, Total(cs, alignment), alignment), HEADER_WIDTHS);
    RecordWidths();
    RecordsSize(cs, alignment, sum, 0);
    PayloadsSize(cs, alignment, 0);
    AlignIsNext(MetaSize(cs), alignment);
    assert cs[..0] == [];
  }

  // ---------- Decoding ----------

  /** A record as it is read: the entry, the reserved field, the digest, and where the next record starts. */
  datatype Raw = Raw(entry: Entry, reserved: nat, digest: Bytes, next: nat)

  /** A slice that stops at the end of the bytes. */
  function Slice(s: Bytes, from: nat, to: nat): Bytes {
    if from <= to <= |s| then s[from..to] else if from <= |s| && from <= to then s[from..] else []
  }

  /** Fields at a place that must lie within the bytes. */
  function GetAt(s: Bytes, cursor: nat, widths: seq<nat>): Got<seq<nat>> {
    if cursor > |s| then Nothing else GetNats(s[cursor..], widths)
  }

  function ReadRecord(s: Bytes, cursor: nat): Option<Raw> {
    match GetAt(s, cursor, RECORD_WIDTHS)
    case Nothing => None
    case Got(v, _) =>
      EightsSize(v[2]);
      match GetAt(s, cursor + 56 + v[0], Eights(v[2]))
      case Nothing => None
      case Got(shape, _) =>
        var name, payload := Slice(s, cursor + 56, cursor + 56 + v[0]), Slice(s, v[4], v[4] + v[5]);
        Some(Raw(Entry(name, v[1], shape, payload), v[3], Slice(s, cursor + 24, cursor + 56), cursor + 56 + v[0] + 8 * v[2]))
  }

  /** The checks on a record. `text` tells which names decode as text. */
  predicate Accepts(raw: Raw, sum: Bytes -> Digest, text: Bytes -> bool) {
    text(raw.entry.name) && raw.reserved == 0 && sum(raw.entry.payload) == raw.digest
  }

  /** `n` records in a row; `read` reads the one at a place. */
  function DecodeFrom(read: nat -> Option<Raw>, cursor: nat, n: nat, sum: Bytes -> Digest, text: Bytes -> bool): Option<seq<Entry>>
    decreases n
  {
    if n == 0 then Some([])
    else
      match read(cursor)
      case None => None
      case Some(raw) =>
        if !Accepts(raw, sum, text) then None
        else
          match DecodeFrom(read, raw.next, n - 1, sum, text)
          case None => None
          case Some(more) => Some([raw.entry] + more)
  }

  function Reader(s: Bytes): nat -> Option<Raw> {
    (cursor: nat) => ReadRecord(s, cursor)
  }

  function Decoding(s: Bytes, sum: Bytes -> Digest, text: Bytes -> bool): Option<seq<Entry>> {
    match GetAt(s, 0, HEADER_WIDTHS)
    case Nothing => None
    case Got(v, _) =>
      if v[0] != MAGIC || v[1] != VERSION || v[3] != |s| || v[5] != 0 then None else DecodeFrom(Reader(s), 24, v[2], sum, text)
  }

  // ---------- Round trip ----------

  function EntryOf(c: Component): Entry
    requires Good(c)
  {
    Entry(c.name, CodeOf(c.dtype).value, c.shape, c.value)
  }

  lemma SliceOff(s: Bytes, cursor: nat, a: Bytes, b: Bytes)
    requires cursor <= |s| && s[cursor..] == a + b
    ensures cursor + |a| <= |s| && Slice(s, cursor, cursor + |a|) == a && s[cursor + |a|..] == b
  {
    assert s[cursor..cursor + |a|] == (a + b)[..|a|];
    assert s[cursor + |a|..] == s[cursor..][|a|..] == (a + b)[|a|..];
  }

  lemma RecordFieldsFit(c: Component, offset: nat)
    requires Good(c) && offset < R8 && |c.value| < R8
    ensures FitAll(RecordFields(c, offset), RECORD_WIDTHS)
  {
    Ranges();
    var v := RecordFields(c, offset);
    forall i | 0 <= i < |v| ensures v[i] < Range(RECORD_WIDTHS[i]) {
      if i < 4 { assert RECORD_WIDTHS[i] == 2; } else { assert RECORD_WIDTHS[i] == 8; }
    }
    FitEach(v, RECORD_WIDTHS);
  }

  lemma {:induction false} EightsAre(n: nat, i: nat)
    requires i < n
    ensures |Eights(n)| == n && Eights(n)[i] == 8
  {
    EightsSize(n);
    if i > 0 { EightsAre(n - 1, i - 1); }
  }

  lemma ShapeFits(c: Component)
    requires Good(c)
    ensures |Eights(|c.shape|)| == |c.shape| && FitAll(c.shape, Eights(|c.shape|))
  {
    Ranges();
    EightsSize(|c.shape|);
    forall i | 0 <= i < |c.shape| ensures c.shape[i] < Range(Eights(|c.shape|)[i]) { EightsAre(|c.shape|, i); }
    FitEach(c.shape, Eights(|c.shape|));
  }

  lemma RecordParts(a: Bytes, b: Bytes, c: Bytes, d: Bytes, e: Bytes)
    ensures a + (b + (c + d)) + e == a + (b + (c + (d + e)))
  {
    Grouped(a, b + (c + d), e);
    Grouped(b, c + d, e);
    Grouped(c, d, e);
  }

  lemma ReadParts(s: Bytes, cursor: nat, v: seq<nat>, after: Bytes, shape: seq<nat>, end: Bytes, name: Bytes, payload: Bytes, digest: Bytes)
    requires |v| == |RECORD_WIDTHS| && GetAt(s, cursor, RECORD_WIDTHS) == Got(v, after) && v[0] == |name|
    requires GetAt(s, cursor + 56 + |name|, Eights(v[2])) == Got(shape, end) && |shape| == |Eights(v[2])| == v[2]
    requires Slice(s, cursor + 24, cursor + 56) == digest && Slice(s, cursor + 56, cursor + 56 + |name|) == name
    requires Slice(s, v[4], v[4] + v[5]) == payload
    ensures ReadRecord(s, cursor) == Some(Raw(Entry(name, v[1], shape, payload), v[3], digest, cursor + 56 + |name| + 8 * v[2]))
  {
  }

  /** What follows the fixed fields of a record. */
  function RestOf(c: Component, sum: Bytes -> Digest, rest: Bytes): Bytes
    requires Good(c)
  {
    sum(c.value) + (c.name + (ShapeBytes(c) + rest))
  }

  lemma FieldsRead(s: Bytes, cursor: nat, c: Component, offset: nat, sum: Bytes -> Digest, rest: Bytes)
    requires cursor <= |s| && Good(c) && s[cursor..] == RecordOf(c, offset, sum) + rest && offset + |c.value| < R8
    ensures GetAt(s, cursor, RECORD_WIDTHS) == Got(RecordFields(c, offset), RestOf(c, sum, rest))
    ensures cursor + 24 <= |s| && s[cursor + 24..] == RestOf(c, sum, rest)
  {
    var fields := PutNats(RecordFields(c, offset), RECORD_WIDTHS);
    RecordParts(fields, sum(c.value), c.name, ShapeBytes(c), rest);
    PutNatsSize(RecordFields(c, offset), RECORD_WIDTHS);
    RecordWidths();
    RecordFieldsFit(c, offset);
    GetPutNats(RecordFields(c, offset), RECORD_WIDTHS, RestOf(c, sum, rest));
    SliceOff(s, cursor, fields, RestOf(c, sum, rest));
  }

  lemma RestRead(s: Bytes, at: nat, c: Component, sum: Bytes -> Digest, rest: Bytes)
    requires at <= |s| && Good(c) && s[at..] == RestOf(c, sum, rest)
    ensures Slice(s, at, at + 32) == sum(c.value) && Slice(s, at + 32, at + 32 + |c.name|) == c.name
    ensures |Eights(|c.shape|)| == |c.shape| && GetAt(s, at + 32 + |c.name|, Eights(|c.shape|)) == Got(c.shape, rest)
  {
    SliceOff(s, at, sum(c.value), c.name + (ShapeBytes(c) + rest));
    SliceOff(s, at + 32, c.name, ShapeBytes(c) + rest);
    ShapeFits(c);
    GetPutNats(c.shape, Eights(|c.shape|), rest);
  }

  /** A record followed by anything reads back as its component. */
  lemma RecordReads(s: Bytes, cursor: nat, c: Component, offset: nat, sum: Bytes -> Digest, rest: Bytes)
    requires cursor <= |s| && Good(c) && s[cursor..] == RecordOf(c, offset, sum) + rest
    requires offset + |c.value| < R8 && Slice(s, offset, offset + |c.value|) == c.value
    ensures ReadRecord(s, cursor) == Some(Raw(EntryOf(c), 0, sum(c.value), cursor + RecordSize(c)))
  {
    FieldsRead(s, cursor, c, offset, sum, rest);
    RestRead(s, cursor + 24, c, sum, rest);
    ReadParts(s, cursor, RecordFields(c, offset), RestOf(c, sum, rest), c.shape, rest, c.name, c.value, sum(c.value));
  }

  lemma FirstPayload(cs: seq<Component>, alignment: nat, sum: Bytes -> Digest, s: Bytes)
    requires Encodable(cs, alignment) && s == BundleOf(cs, alignment, sum)
    ensures StartOf(cs, alignment) <= |s| && s[StartOf(cs, alignment)..] == PayloadsFrom(cs, alignment, 0)
  {
    BundleSize(cs, alignment, sum);
    RecordsSize(cs, alignment, sum, 0);
    AlignIsNext(MetaSize(cs), alignment);
    assert cs[..0] == [] && s[0..] == s;
    SliceOff(s, 0, HeaderOf(cs, alignment), RecordsFrom(cs, alignment, sum, 0) + AfterMeta(cs, alignment));
    SliceOff(s, 24, RecordsFrom(cs, alignment, sum, 0), AfterMeta(cs, alignment));
    SliceOff(s, MetaSize(cs), Zeros(StartOf(cs, alignment) - MetaSize(cs)), PayloadsFrom(cs, alignment, 0));
  }

  lemma NextPayload(cs: seq<Component>, alignment: nat, i: nat, s: Bytes)
    requires alignment > 0 && i < |cs|
    requires CursorAt(cs, alignment, i) <= |s| && s[CursorAt(cs, alignment, i)..] == PayloadsFrom(cs, alignment, i)
    ensures CursorAt(cs, alignment, i + 1) <= |s| && s[CursorAt(cs, alignment, i + 1)..] == PayloadsFrom(cs, alignment, i + 1)
    ensures var at := OffsetOf(cs, alignment, i);
            at + |cs[i].value| <= |s| && Slice(s, at, at + |cs[i].value|) == cs[i].value
  {
    CursorStep(cs, alignment, i);
    var at := CursorAt(cs, alignment, i);
    var gap := Zeros(OffsetOf(cs, alignment, i) - at);
    SliceOff(s, at, gap, cs[i].value + PayloadsFrom(cs, alignment, i + 1));
    SliceOff(s, at + |gap|, cs[i].value, PayloadsFrom(cs, alignment, i + 1));
  }

  /** From the place of payload `i` on the bundle is its gap, its payload and the rest. */
  lemma {:induction false} PayloadsAt(cs: seq<Component>, alignment: nat, i: nat, s: Bytes)
    requires alignment > 0 && i <= |cs|
    requires StartOf(cs, alignment) <= |s| && s[StartOf(cs, alignment)..] == PayloadsFrom(cs, alignment, 0)
    ensures CursorAt(cs, alignment, i) <= |s| && s[CursorAt(cs, alignment, i)..] == PayloadsFrom(cs, alignment, i)
  {
    if i == 0 {
      assert cs[..0] == [];
    } else {
      PayloadsAt(cs, alignment, i - 1, s);
      NextPayload(cs, alignment, i - 1, s);
    }
  }

  /** Each payload stands at its offset. */
  lemma PayloadAt(cs: seq<Component>, alignment: nat, sum: Bytes -> Digest, i: nat, s: Bytes)
    requires Encodable(cs, alignment) && i < |cs| && s == BundleOf(cs, alignment, sum)
    ensures var at := OffsetOf(cs, alignment, i);
            at + |cs[i].value| <= |s| && Slice(s, at, at + |cs[i].value|) == cs[i].value
  {
    FirstPayload(cs, alignment, sum, s);
    PayloadsAt(cs, alignment, i, s);
    NextPayload(cs, alignment, i, s);
  }

  lemma NextRecordPlace(cs: seq<Component>, alignment: nat, sum: Bytes -> Digest, i: nat, s: Bytes, tail: Bytes)
    requires Encodable(cs, alignment) && i < |cs|
    requires MetaSize(cs[..i]) <= |s| && s[MetaSize(cs[..i])..] == RecordsFrom(cs, alignment, sum, i) + tail
    ensures MetaSize(cs[..i + 1]) <= |s| && s[MetaSize(cs[..i + 1])..] == RecordsFrom(cs, alignment, sum, i + 1) + tail
    ensures s[MetaSize(cs[..i])..] == RecordOf(cs[i], OffsetOf(cs, alignment, i), sum) + (RecordsFrom(cs, alignment, sum, i + 1) + tail)
  {
    CursorStep(cs, alignment, i);
    var record, more := RecordOf(cs[i], OffsetOf(cs, alignment, i), sum), RecordsFrom(cs, alignment, sum, i + 1);
    RecordOfSize(cs[i], OffsetOf(cs, alignment, i), sum);
    Grouped(record, more, tail);
    SliceOff(s, MetaSize(cs[..i]), record, more + tail);
  }

  lemma {:induction false} RecordsAt(cs: seq<Component>, alignment: nat, sum: Bytes -> Digest, i: nat, s: Bytes, tail: Bytes)
    requires Encodable(cs, alignment) && i <= |cs|
    requires 24 <= |s| && s[24..] == RecordsFrom(cs, alignment, sum, 0) + tail
    ensures MetaSize(cs[..i]) <= |s| && s[MetaSize(cs[..i])..] == RecordsFrom(cs, alignment, sum, i) + tail
  {
    if i == 0 {
      assert cs[..0] == [];
    } else {
      RecordsAt(cs, alignment, sum, i - 1, s, tail);
      NextRecordPlace(cs, alignment, sum, i - 1, s, tail);
    }
  }

  lemma FirstRecord(cs: seq<Component>, alignment: nat, sum: Bytes -> Digest, s: Bytes)
    requires Encodable(cs, alignment) && s == BundleOf(cs, alignment, sum)
    ensures 24 <= |s| && s[24..] == RecordsFrom(cs, alignment, sum, 0) + AfterMeta(cs, alignment)
  {
    BundleSize(cs, alignment, sum);
    assert s[0..] == s;
    SliceOff(s, 0, HeaderOf(cs, alignment), RecordsFrom(cs, alignment, sum, 0) + AfterMeta(cs, alignment));
  }

  function EntriesFrom(cs: seq<Component>, i: nat): seq<Entry>
    requires i <= |cs| && forall j :: 0 <= j < |cs| ==> Good(cs[j])
    decreases |cs| - i
  {
    if i == |cs| then [] else [EntryOf(cs[i])] + EntriesFrom(cs, i + 1)
  }

  /** Reading at the place of record `i` yields component `i` and the place of the next record. */
  ghost predicate ReadsAt(read: nat -> Option<Raw>, cs: seq<Component>, sum: Bytes -> Digest, i: nat)
    requires i < |cs| && Good(cs[i])
  {
    read(MetaSize(cs[..i])) == Some(Raw(EntryOf(cs[i]), 0, sum(cs[i].value), MetaSize(cs[..i + 1])))
  }

  lemma OffsetBound(cs: seq<Component>, alignment: nat, i: nat)
    requires Encodable(cs, alignment) && i < |cs|
    ensures OffsetOf(cs, alignment, i) + |cs[i].value| < R8 && MetaSize(cs[..i + 1]) == MetaSize(cs[..i]) + RecordSize(cs[i])
  {
    RegionsAreSeparate(cs, alignment, i, i + 1);
    CursorStep(cs, alignment, i);
  }

  /** Record and payload `i` stand where they belong. */
  ghost predicate PlacedAt(s: Bytes, cs: seq<Component>, alignment: nat, sum: Bytes -> Digest, i: nat)
    requires alignment > 0 && i < |cs| && Good(cs[i])
  {
    var at := OffsetOf(cs, alignment, i);
    && MetaSize(cs[..i]) <= |s|
    && (exists rest: Bytes :: s[MetaSize(cs[..i])..] == RecordOf(cs[i], at, sum) + rest)
    && Slice(s, at, at + |cs[i].value|) == cs[i].value
  }

  lemma BundlePlacedAt(cs: seq<Component>, alignment: nat, sum: Bytes -> Digest, i: nat, s: Bytes)
    requires Encodable(cs, alignment) && i < |cs| && s == BundleOf(cs, alignment, sum)
    ensures PlacedAt(s, cs, alignment, sum, i)
  {
    FirstRecord(cs, alignment, sum, s);
    RecordsAt(cs, alignment, sum, i, s, AfterMeta(cs, alignment));
    NextRecordPlace(cs, alignment, sum, i, s, AfterMeta(cs, alignment));
    PayloadAt(cs, alignment, sum, i, s);
  }

  lemma PlacedReads(s: Bytes, cs: seq<Component>, alignment: nat, sum: Bytes -> Digest, i: nat)
    requires Encodable(cs, alignment) && i < |cs| && PlacedAt(s, cs, alignment, sum, i)
    ensures ReadsAt(Reader(s), cs, sum, i)
  {
    var at := OffsetOf(cs, alignment, i);
    var rest: Bytes :| s[MetaSize(cs[..i])..] == RecordOf(cs[i], at, sum) + rest;
    OffsetBound(cs, alignment, i);
    RecordReads(s, MetaSize(cs[..i]), cs[i], at, sum, rest);
  }

  /** Names that are texts, from the `i`-th component on. */
  predicate TextsFrom(cs: seq<Component>, text: Bytes -> bool, i: nat) {
    forall j :: i <= j < |cs| ==> text(cs[j].name)
  }

  lemma {:induction false} RecordsDecode(read: nat -> Option<Raw>, cs: seq<Component>, sum: Bytes -> Digest, text: Bytes -> bool, i: nat)
    requires i <= |cs| && forall j :: 0 <= j < |cs| ==> Good(cs[j])
    requires forall j {:trigger ReadsAt(read, cs, sum, j)} :: 0 <= j < |cs| ==> ReadsAt(read, cs, sum, j)
    ensures DecodeFrom(read, MetaSize(cs[..i]), |cs| - i, sum, text)
         == if TextsFrom(cs, text, i) then Some(EntriesFrom(cs, i)) else None
    decreases |cs| - i
  {
    if i < |cs| {
      assert ReadsAt(read, cs, sum, i);
      RecordsDecode(read, cs, sum, text, i + 1);
    }
  }

  lemma HeaderFits(cs: seq<Component>, alignment: nat)
    requires Encodable(cs, alignment)
    ensures FitAll(HeaderFields(|cs|, Total(cs, alignment), alignment), HEADER_WIDTHS)
  {
    Ranges();
    var v := HeaderFields(|cs|, Total(cs, alignment), alignment);
    forall i | 0 <= i < |v| ensures v[i] < Range(HEADER_WIDTHS[i]) {
      if i == 3 { assert HEADER_WIDTHS[i] == 8; }
      else if i == 1 || i == 2 { assert HEADER_WIDTHS[i] == 2; }
      else { assert HEADER_WIDTHS[i] == 4; }
    }
    FitEach(v, HEADER_WIDTHS);
  }

  lemma HeaderReads(cs: seq<Component>, alignment: nat, sum: Bytes -> Digest)
    requires Encodable(cs, alignment)
    ensures GetAt(BundleOf(cs, alignment, sum), 0, HEADER_WIDTHS)
         == Got(HeaderFields(|cs|, Total(cs, alignment), alignment),
                RecordsFrom(cs, alignment, sum, 0) + AfterMeta(cs, alignment))
  {
    HeaderFits(cs, alignment);
    GetPutNats(HeaderFields(|cs|, Total(cs, alignment), alignment), HEADER_WIDTHS,
               RecordsFrom(cs, alignment, sum, 0) + AfterMeta(cs, alignment));
    assert BundleOf(cs, alignment, sum)[0..] == BundleOf(cs, alignment, sum);
  }

  lemma GoodHeader(s: Bytes, v: seq<nat>, after: Bytes, sum: Bytes -> Digest, text: Bytes -> bool)
    requires |v| == |HEADER_WIDTHS| && GetAt(s, 0, HEADER_WIDTHS) == Got(v, after)
    requires v[0] == MAGIC && v[1] == VERSION && v[3] == |s| && v[5] == 0
    ensures Decoding(s, sum, text) == DecodeFrom(Reader(s), 24, v[2], sum, text)
  {
  }

  lemma AllRead(cs: seq<Component>, alignment: nat, sum: Bytes -> Digest, s: Bytes)
    requires Encodable(cs, alignment) && s == BundleOf(cs, alignment, sum)
    ensures forall j {:trigger ReadsAt(Reader(s), cs, sum, j)} :: 0 <= j < |cs| ==> ReadsAt(Reader(s), cs, sum, j)
  {
    forall j {:trigger ReadsAt(Reader(s), cs, sum, j)} | 0 <= j < |cs| ensures ReadsAt(Reader(s), cs, sum, j) {
      BundlePlacedAt(cs, alignment, sum, j, s);
      PlacedReads(s, cs, alignment, sum, j);
    }
  }

  lemma BundleHeader(cs: seq<Component>, alignment: nat, sum: Bytes -> Digest, text: Bytes -> bool, s: Bytes)
    requires Encodable(cs, alignment) && s == BundleOf(cs, alignment, sum)
    ensures Decoding(s, sum, text) == DecodeFrom(Reader(s), 24, |cs|, sum, text)
  {
    BundleSize(cs, alignment, sum);
    HeaderReads(cs, alignment, sum);
    GoodHeader(s, HeaderFields(|cs|, Total(cs, alignment), alignment),
               RecordsFrom(cs, alignment, sum, 0) + AfterMeta(cs, alignment), sum, text);
  }

  /** Decoding an encoded bundle yields its components, and fails exactly when some name is not text. */
  lemma RoundTrip(cs: seq<Component>, alignment: nat, sum: Bytes -> Digest, text: Bytes -> bool, s: Bytes)
    requires Encodable(cs, alignment) && s == BundleOf(cs, alignment, sum)
    ensures Decoding(s, sum, text) == if TextsFrom(cs, text, 0) then Some(EntriesFrom(cs, 0)) else None
  {
    BundleHeader(cs, alignment, sum, text, s);
    AllRead(cs, alignment, sum, s);
    assert cs[..0] == [];
    RecordsDecode(Reader(s), cs, sum, text, 0);
  }

  // ---------- Names as UTF-8 ----------

  predicate IsText(name: Bytes) {
    ChatUtf8.LongestPrefix(name) == |name|
  }

  lemma IsTextIffWellFormed(name: Bytes)
    ensures IsText(name) <==> WellFormed(name)
  {
    ChatUtf8.LongestPrefixIsLongest(name);
    assert name[..|name|] == name;
  }

  /** Components whose names are UTF-8 texts survive the way through a bundle, and no others do. */
  lemma TextNamesSurvive(cs: seq<Component>, alignment: nat, sum: Bytes -> Digest)
    requires Encodable(cs, alignment)
    ensures Decoding(BundleOf(cs, alignment, sum), sum, IsText)
         == if forall i :: 0 <= i < |cs| ==> WellFormed(cs[i].name) then Some(EntriesFrom(cs, 0)) else None
  {
    RoundTrip(cs, alignment, sum, IsText, BundleOf(cs, alignment, sum));
    forall i | 0 <= i < |cs| ensures IsText(cs[i].name) <==> WellFormed(cs[i].name) { IsTextIffWellFormed(cs[i].name); }
  }

  // ---------- The encoder ----------

  /** First pass: lengths and offsets. */
  method Plan(cs: seq<Component>, alignment: nat) returns (offsets: seq<nat>, cursor: nat)
    requires alignment > 0
    ensures |offsets| == |cs| && forall i :: 0 <= i < |cs| ==> offsets[i] == OffsetOf(cs, alignment, i)
    ensures cursor == Total(cs, alignment)
  {
    var metadata := 24;
    assert cs[..0] == [];
    for i := 0 to |cs|
      invariant metadata == MetaSize(cs[..i])
    {
      CursorStep(cs, alignment, i);
      metadata := metadata + RecordSize(cs[i]);
    }
    assert cs[..|cs|] == cs;
    cursor := Align(metadata, alignment);
    offsets := [];
    for i := 0 to |cs|
      invariant cursor == CursorAt(cs, alignment, i) && |offsets| == i
      invariant forall j :: 0 <= j < i ==> offsets[j] == OffsetOf(cs, alignment, j)
    {
      CursorStep(cs, alignment, i);
      cursor := Align(cursor, alignment);
      offsets := offsets + [cursor];
      cursor := cursor + |cs[i].value|;
    }
  }

  method WriteRecords(cs: seq<Component>, ghost alignment: nat, offsets: seq<nat>, sum: Bytes -> Digest, output: Bytes) returns (out: Bytes)
    requires Encodable(cs, alignment) && |offsets| == |cs|
    requires forall i :: 0 <= i < |cs| ==> offsets[i] == OffsetOf(cs, alignment, i)
    ensures out == output + RecordsFrom(cs, alignment, sum, 0)
  {
    out := output;
    for i := 0 to |cs|
      invariant out + RecordsFrom(cs, alignment, sum, i) == output + RecordsFrom(cs, alignment, sum, 0)
    {
      var c := cs[i];
      ghost var before := out;
      out := PutAll(RecordFields(c, offsets[i]), RECORD_WIDTHS, out);
      out := out + sum(c.value) + c.name;
      EightsSize(|c.shape|);
      out := PutAll(c.shape, Eights(|c.shape|), out);
      RecordWritten(before, PutNats(RecordFields(c, offsets[i]), RECORD_WIDTHS), sum(c.value), c.name, ShapeBytes(c),
                    RecordsFrom(cs, alignment, sum, i + 1));
    }
  }

  lemma RecordWritten(before: Bytes, a: Bytes, b: Bytes, c: Bytes, d: Bytes, rest: Bytes)
    ensures before + a + b + c + d + rest == before + (a + (b + (c + d)) + rest)
  {
    RecordParts(a, b, c, d, rest);
    Grouped(before + a + b + c, d, rest);
    Grouped(before + a + b, c, d + rest);
    Grouped(before + a, b, c + (d + rest));
    Grouped(before, a, b + (c + (d + rest)));
  }

  method WritePayloads(cs: seq<Component>, ghost alignment: nat, offsets: seq<nat>, output: Bytes) returns (out: Bytes)
    requires alignment > 0 && |offsets| == |cs| && |output| == StartOf(cs, alignment)
    requires forall i :: 0 <= i < |cs| ==> offsets[i] == OffsetOf(cs, alignment, i)
    ensures out == output + PayloadsFrom(cs, alignment, 0) && |out| == Total(cs, alignment)
  {
    out := output;
    assert cs[..0] == [];
    for i := 0 to |cs|
      invariant |out| == CursorAt(cs, alignment, i)
      invariant out + PayloadsFrom(cs, alignment, i) == output + PayloadsFrom(cs, alignment, 0)
    {
      CursorStep(cs, alignment, i);
      ghost var before := out;
      var gap := Zeros(offsets[i] - |out|);
      out := out + gap;
      out := out + cs[i].value;
      Grouped(before + gap, cs[i].value, PayloadsFrom(cs, alignment, i + 1));
      Grouped(before, gap, cs[i].value + PayloadsFrom(cs, alignment, i + 1));
    }
  }

  /** Encoding succeeds exactly for components and alignments that fit the fields, whatever their sizes: no
      padding is ever negative and the final length is the one written into the header. */
  method Encode(cs: seq<Component>, alignment: int, sum: Bytes -> Digest) returns (r: Option<Bytes>)
    ensures r.Some? <==> Encodable(cs, alignment)
    ensures r.Some? ==> r.value == BundleOf(cs, alignment, sum)
  {
    if alignment <= 0 { return None; }
    var offsets, cursor := Plan(cs, alignment);
    if |cs| >= R2 || cursor >= R8 || alignment >= R4 { return None; }
    for i := 0 to |cs|
      invariant forall j :: 0 <= j < i ==> Good(cs[j])
    {
      if !Good(cs[i]) { return None; }
    }
    var out := Write(cs, alignment, offsets, cursor, sum);
    return Some(out);
  }

  method Write(cs: seq<Component>, alignment: nat, offsets: seq<nat>, cursor: nat, sum: Bytes -> Digest) returns (out: Bytes)
    requires Encodable(cs, alignment) && |offsets| == |cs| && cursor == Total(cs, alignment)
    requires forall i :: 0 <= i < |cs| ==> offsets[i] == OffsetOf(cs, alignment, i)
    ensures out == BundleOf(cs, alignment, sum)
  {
    MetaLength(cs, alignment, sum);
    out := PutAll(HeaderFields(|cs|, cursor, alignment), HEADER_WIDTHS, []);
    out := WriteRecords(cs, alignment, offsets, sum, out);
    PaddingIsAlign(|out|, alignment);
    out := out + Zeros((alignment - |out| % alignment) % alignment);
    out := WritePayloads(cs, alignment, offsets, out);
    BundleWritten(cs, alignment, sum);
    assert |out| == cursor;
  }

  lemma MetaLength(cs: seq<Component>, alignment: nat, sum: Bytes -> Digest)
    requires Encodable(cs, alignment)
    ensures |[] + HeaderOf(cs, alignment) + RecordsFrom(cs, alignment, sum, 0)| == MetaSize(cs)
  {
    BundleSize(cs, alignment, sum);
    RecordsSize(cs, alignment, sum, 0);
    assert cs[..0] == [];
  }

  lemma BundleWritten(cs: seq<Component>, alignment: nat, sum: Bytes -> Digest)
    requires Encodable(cs, alignment)
    ensures MetaSize(cs) <= StartOf(cs, alignment)
    ensures [] + HeaderOf(cs, alignment) + RecordsFrom(cs, alignment, sum, 0) + Zeros(StartOf(cs, alignment) - MetaSize(cs))
            + PayloadsFrom(cs, alignment, 0) == BundleOf(cs, alignment, sum)
  {
    AlignIsNext(MetaSize(cs), alignment);
    var h, r, z, p := HeaderOf(cs, alignment), RecordsFrom(cs, alignment, sum, 0), Zeros(StartOf(cs, alignment) - MetaSize(cs)),
                      PayloadsFrom(cs, alignment, 0);
    assert [] + h == h;
    Grouped(h + r, z, p);
    Grouped(h, r, z + p);
  }

  // ---------- The decoder ----------

  /** Entries decoded so far, then the others. */
  function Joined(front: seq<Entry>, more: Option<seq<Entry>>): Option<seq<Entry>> {
    if more.None? then None else Some(front + more.value)
  }

  lemma JoinedOneMore(front: seq<Entry>, e: Entry, more: Option<seq<Entry>>)
    ensures Joined(front, if more.None? then None else Some([e] + more.value)) == Joined(front + [e], more)
  {
    if more.Some? { assert front + ([e] + more.value) == front + [e] + more.value; }
  }

  /** The decoder's loop over the records. */
  method DecodeRecords(read: nat -> Option<Raw>, n: nat, sum: Bytes -> Digest, text: Bytes -> bool) returns (r: Option<seq<Entry>>)
    ensures r == DecodeFrom(read, 24, n, sum, text)
  {
    var cursor, entries: seq<Entry> := 24, [];
    ghost var whole := DecodeFrom(read, 24, n, sum, text);
    assert Joined([], whole) == whole by { if whole.Some? { assert [] + whole.value == whole.value; } }
    for i := 0 to n
      invariant whole == Joined(entries, DecodeFrom(read, cursor, n - i, sum, text))
    {
      var raw := read(cursor);
      if raw.None? || !Accepts(raw.value, sum, text) { return None; }
      JoinedOneMore(entries, raw.value.entry, DecodeFrom(read, raw.value.next, n - i - 1, sum, text));
      entries := entries + [raw.value.entry];
      cursor := raw.value.next;
    }
    assert entries + [] == entries;
    return Some(entries);
  }

  method Decode(s: Bytes, sum: Bytes -> Digest) returns (r: Option<seq<Entry>>)
    ensures r == Decoding(s, sum, IsText)
  {
    match GetAt(s, 0, HEADER_WIDTHS)
    case Nothing => return None;
    case Got(v, _) =>
      if v[0] != MAGIC || v[1] != VERSION || v[3] != |s| || v[5] != 0 { return None; }
      r := DecodeRecords(Reader(s), v[2], sum, IsText);
  }
}
