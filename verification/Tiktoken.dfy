/** The tokenizer object: encoding one piece of text into token numbers and decoding token numbers. */
module Tiktoken {
  import opened BytePairEncoding
  import opened ByteStrings
  import opened Options

  datatype Decoded = Text(bytes: Bytes) | UnknownToken(token: int)

  // ---------- What encoding and decoding mean ----------

  /** The token numbers of pieces; there are none when some piece is not in the table. */
  function Lookups(pieces: seq<Bytes>, ranks: Table): Option<seq<int>> {
    if pieces == [] then Some([])
    else if pieces[0] !in ranks then None
    else
      match Lookups(pieces[1..], ranks)
      case None => None
      case Some(rest) => Some([ranks[pieces[0]]] + rest)
  }

  /** Tokens of a text: the text itself if it is in the table, otherwise what naive merging leaves. */
  ghost function Encoding(text: Bytes, ranks: Table): Option<seq<int>> {
    if text in ranks then Some([ranks[text]]) else Lookups(Naive(Singles(text), ranks), ranks)
  }

  function DecodeOne(token: int, decoder: map<int, Bytes>, special: map<int, Bytes>): Decoded {
    if token in decoder then Text(decoder[token])
    else if token in special then Text(special[token])
    else UnknownToken(token)
  }

  /** Texts of all tokens in a row, or the first token that is unknown. */
  function Decoding(tokens: seq<int>, decoder: map<int, Bytes>, special: map<int, Bytes>): Decoded {
    if tokens == [] then Text([])
    else
      match DecodeOne(tokens[0], decoder, special)
      case UnknownToken(t) => UnknownToken(t)
      case Text(first) =>
        match Decoding(tokens[1..], decoder, special)
        case UnknownToken(t) => UnknownToken(t)
        case Text(rest) => Text(first + rest)
  }

  /** Some inverse of a table: every number has a text with that number. */
  ghost predicate InverseOf(decoder: map<int, Bytes>, table: Table) {
    && (forall k :: k in table ==> table[k] in decoder)
    && (forall v :: v in decoder ==> decoder[v] in table && table[decoder[v]] == v)
  }

  // ---------- Total encoding ----------

  predicate AllBytes(ranks: Table) {
    forall b: byte :: [b] in ranks
  }

  /** Merging never leaves a piece that is neither one byte nor in the table. */
  ghost predicate Known(pieces: seq<Bytes>, ranks: Table) {
    forall i :: 0 <= i < |pieces| ==> |pieces[i]| == 1 || pieces[i] in ranks
  }

  lemma {:induction false} NaiveKnown(pieces: seq<Bytes>, ranks: Table)
    requires Known(pieces, ranks)
    ensures Known(Naive(pieces, ranks), ranks)
    decreases |pieces|
  {
    if i :| IsBest(pieces, ranks, i) {
      NaiveStep(pieces, ranks, i);
      NaiveKnown(Merge(pieces, i), ranks);
    }
  }

  lemma {:induction false} LookupsTotal(pieces: seq<Bytes>, ranks: Table)
    ensures Lookups(pieces, ranks).Some? <==> forall i :: 0 <= i < |pieces| ==> pieces[i] in ranks
  {
    if pieces != [] {
      LookupsTotal(pieces[1..], ranks);
      assert pieces == [pieces[0]] + pieces[1..];
    }
  }

  lemma OneByte(b: byte, ranks: Table)
    ensures Naive(Singles([b]), ranks) == [[b]]
  {
    assert Singles([b]) == [[b]];
  }

  lemma EncodesWhenAllBytes(text: Bytes, ranks: Table)
    requires AllBytes(ranks)
    ensures Encoding(text, ranks).Some?
  {
    NaiveKnown(Singles(text), ranks);
    var pieces := Naive(Singles(text), ranks);
    forall i | 0 <= i < |pieces| ensures pieces[i] in ranks {
      if |pieces[i]| == 1 { assert pieces[i] == [pieces[i][0]]; }
    }
    LookupsTotal(pieces, ranks);
  }

  /** Every non-empty text has an encoding exactly when every single byte is in the table. */
  lemma TotalIffAllBytes(ranks: Table)
    ensures (forall text :: text != [] ==> Encoding(text, ranks).Some?) <==> AllBytes(ranks)
  {
    if AllBytes(ranks) {
      forall text | text != [] ensures Encoding(text, ranks).Some? { EncodesWhenAllBytes(text, ranks); }
    } else {
      var b: byte :| [b] !in ranks;
      OneByte(b, ranks);
      LookupsTotal([[b]], ranks);
      assert Encoding([b], ranks) == None;
    }
  }

  // ---------- Round trip ----------

  /** Decoding a table entry's number yields that entry, for all entries that stand for some text. */
  ghost predicate Faithful(table: Table, decoder: map<int, Bytes>) {
    forall k :: k in table && k != [] ==> table[k] in decoder && decoder[table[k]] == k
  }

  lemma {:induction false} DecodesLookups(pieces: seq<Bytes>, table: Table, decoder: map<int, Bytes>, special: map<int, Bytes>)
    requires Faithful(table, decoder) && Lookups(pieces, table).Some? && forall i :: 0 <= i < |pieces| ==> pieces[i] != []
    ensures Decoding(Lookups(pieces, table).value, decoder, special) == Text(Joined(pieces))
  {
    if pieces != [] {
      var tokens, rest := Lookups(pieces, table).value, pieces[1..];
      assert tokens[0] == table[pieces[0]] && tokens[1..] == Lookups(rest, table).value;
      assert pieces[0] != [] && forall i :: 0 <= i < |rest| ==> rest[i] == pieces[i + 1];
      DecodesLookups(rest, table, decoder, special);
    }
  }

  lemma {:induction false} NaiveNonEmpty(pieces: seq<Bytes>, ranks: Table)
    requires forall i :: 0 <= i < |pieces| ==> pieces[i] != []
    ensures forall i :: 0 <= i < |Naive(pieces, ranks)| ==> Naive(pieces, ranks)[i] != []
    decreases |pieces|
  {
    if i :| IsBest(pieces, ranks, i) {
      NaiveStep(pieces, ranks, i);
      NaiveNonEmpty(Merge(pieces, i), ranks);
    }
  }

  lemma RoundTrip(text: Bytes, table: Table, decoder: map<int, Bytes>, special: map<int, Bytes>)
    requires Ranked(table) && Faithful(table, decoder) && text != [] && Encoding(text, table).Some?
    ensures Decoding(Encoding(text, table).value, decoder, special) == Text(text)
  {
    if text in table {
      assert Decoding([], decoder, special) == Text([]);
    } else {
      NaiveNonEmpty(Singles(text), table);
      DecodesLookups(Naive(Singles(text), table), table, decoder, special);
      NaivePartitions(Singles(text), table);
      JoinedSingles(text);
    }
  }

  /** Decoding undoes encoding for every encodable text exactly when the decoder is faithful. */
  lemma RoundTripIffFaithful(table: Table, decoder: map<int, Bytes>, special: map<int, Bytes>)
    requires Ranked(table) && InverseOf(decoder, table)
    ensures Faithful(table, decoder) <==>
            (forall text :: text != [] && Encoding(text, table).Some? ==>
                              Decoding(Encoding(text, table).value, decoder, special) == Text(text))
  {
    if Faithful(table, decoder) {
      forall text | text != [] && Encoding(text, table).Some?
        ensures Decoding(Encoding(text, table).value, decoder, special) == Text(text)
      {
        RoundTrip(text, table, decoder, special);
      }
    } else {
      var k :| k in table && k != [] && decoder[table[k]] != k;
      assert Encoding(k, table) == Some([table[k]]);
      assert Decoding([table[k]], decoder, special) == Text(decoder[table[k]] + []);
    }
  }

  /** A table without the empty string has a faithful decoder exactly when no two entries share a number. */
  lemma FaithfulIffInjective(table: Table, decoder: map<int, Bytes>)
    requires InverseOf(decoder, table) && [] !in table
    ensures Faithful(table, decoder) <==> forall j, k :: j in table && k in table && table[j] == table[k] ==> j == k
  {
    if forall j, k :: j in table && k in table && table[j] == table[k] ==> j == k {
      forall k | k in table ensures table[k] in decoder && decoder[table[k]] == k {
        var v := table[k];
        assert v in decoder && decoder[v] in table;
      }
    }
  }

  // ---------- The tokenizer ----------

  method BytePairEncode(piece: Bytes, ranks: Table) returns (tokens: Option<seq<int>>)
    requires piece != []
    ensures tokens == Lookups(Naive(Singles(piece), ranks), ranks)
  {
    if |piece| == 1 {
      OneByte(piece[0], ranks);
      assert piece == [piece[0]];
      LookupOne(piece, ranks);
      return if piece in ranks then Some([ranks[piece]]) else None;
    }
    var parts := BytePairMerge(piece, ranks);
    ghost var pieces := Between(piece, parts);
    var out: seq<int> := [];
    for i := 0 to |parts| - 1
      invariant Lookups(pieces[..i], ranks) == Some(out)
    {
      assert CutAt(piece, parts, i);
      LookupsStep(pieces, ranks, i);
      var key := piece[parts[i].start..parts[i + 1].start];
      if key !in ranks {
        LookupsTotal(pieces, ranks);
        return None;
      }
      out := out + [ranks[key]];
    }
    assert pieces[..|pieces|] == pieces;
    return Some(out);
  }

  lemma LookupOne(piece: Bytes, ranks: Table)
    ensures Lookups([piece], ranks) == if piece in ranks then Some([ranks[piece]]) else None
  {
    assert [piece][1..] == [] && Lookups([], ranks) == Some([]);
    if piece in ranks { assert [ranks[piece]] + [] == [ranks[piece]]; }
  }

  lemma {:induction false} LookupsAppend(pieces: seq<Bytes>, last: Bytes, ranks: Table)
    requires Lookups(pieces, ranks).Some? && last in ranks
    ensures Lookups(pieces + [last], ranks) == Some(Lookups(pieces, ranks).value + [ranks[last]])
  {
    if pieces == [] {
      LookupOne(last, ranks);
      assert pieces + [last] == [last] && [] + [ranks[last]] == [ranks[last]];
    } else {
      assert (pieces + [last])[0] == pieces[0] && (pieces + [last])[1..] == pieces[1..] + [last];
      LookupsAppend(pieces[1..], last, ranks);
      var first, rest := [ranks[pieces[0]]], Lookups(pieces[1..], ranks).value;
      assert first + (rest + [ranks[last]]) == first + rest + [ranks[last]];
    }
  }

  lemma LookupsStep(pieces: seq<Bytes>, ranks: Table, i: nat)
    requires i < |pieces| && Lookups(pieces[..i], ranks).Some?
    ensures pieces[i] in ranks ==>
              Lookups(pieces[..i + 1], ranks) == Some(Lookups(pieces[..i], ranks).value + [ranks[pieces[i]]])
  {
    assert pieces[..i + 1] == pieces[..i] + [pieces[i]];
    if pieces[i] in ranks { LookupsAppend(pieces[..i], pieces[i], ranks); }
  }

  class Tokenizer {
    const encoder: Table
    const specialEncoder: Table
    var decoder: map<int, Bytes>
    var specialDecoder: map<int, Bytes>

    ghost predicate Valid()
      reads this
    {
      InverseOf(decoder, encoder) && InverseOf(specialDecoder, specialEncoder)
    }

    constructor (encoder: Table, specialEncoder: Table)
      ensures Valid() && this.encoder == encoder && this.specialEncoder == specialEncoder
    {
      this.encoder, this.specialEncoder := encoder, specialEncoder;
      decoder, specialDecoder := map[], map[];
      new;
      decoder := Invert(encoder);
      specialDecoder := Invert(specialEncoder);
    }

    method EncodeSinglePiece(text: Bytes) returns (tokens: Option<seq<int>>)
      requires text != []
      ensures tokens == Encoding(text, encoder)
    {
      if text in encoder { return Some([encoder[text]]); }
      tokens := BytePairEncode(text, encoder);
    }

    method Decode(tokens: seq<int>) returns (result: Decoded)
      ensures result == Decoding(tokens, decoder, specialDecoder)
    {
      var text: Bytes := [];
      for i := 0 to |tokens|
        invariant Decoding(tokens[..i], decoder, specialDecoder) == Text(text)
      {
        DecodingAppend(tokens[..i], tokens[i..], decoder, specialDecoder);
        DecodingAppend(tokens[..i], [tokens[i]], decoder, specialDecoder);
        assert tokens[..i] + tokens[i..] == tokens && tokens[..i + 1] == tokens[..i] + [tokens[i]];
        assert Decoding([], decoder, specialDecoder) == Text([]);
        match DecodeOne(tokens[i], decoder, specialDecoder)
        case UnknownToken(t) => return UnknownToken(t);
        case Text(piece) => text := text + piece;
      }
      assert tokens[..|tokens|] == tokens;
      return Text(text);
    }
  }

  /** After a known beginning, decoding goes on with the rest. */
  lemma {:induction false} DecodingAppend(a: seq<int>, b: seq<int>, decoder: map<int, Bytes>, special: map<int, Bytes>)
    requires Decoding(a, decoder, special).Text?
    ensures Decoding(a + b, decoder, special) ==
            match Decoding(b, decoder, special)
            case UnknownToken(t) => UnknownToken(t)
            case Text(rest) => Text(Decoding(a, decoder, special).bytes + rest)
  {
    if a == [] {
      assert a + b == b;
    } else {
      assert (a + b)[1..] == a[1..] + b;
      DecodingAppend(a[1..], b, decoder, special);
    }
  }

  /** Enter every table entry under its number; of entries with the same number the first one met stays. */
  method Invert(table: Table) returns (decoder: map<int, Bytes>)
    ensures InverseOf(decoder, table)
  {
    decoder := map[];
    var rest := table.Keys;
    while rest != {}
      invariant rest <= table.Keys
      invariant forall k :: k in table && k !in rest ==> table[k] in decoder
      invariant forall v :: v in decoder ==> decoder[v] in table && table[decoder[v]] == v
      decreases rest
    {
      var k :| k in rest;
      if table[k] !in decoder { decoder := decoder[table[k] := k]; }
      rest := rest - {k};
    }
  }
}
