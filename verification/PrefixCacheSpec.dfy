/** What the compressed radix tree is for, said without a tree: a map from block-aligned prefixes to
    one payload per layer, together with the prefixes that callers have pinned. */
module PrefixCacheSpec {
  import opened Division
  import opened Sequences

  type Token = int
  type Payload = int
  /** The tokens of one full block; the tree's child keys. */
  datatype Block = Block(tokens: seq<Token>)
  type Prefix = seq<Block>
  type Column = seq<Payload>

  // ---------- Blocks ----------

  /** The full blocks of a token list; a partial trailing block is dropped. */
  function Blocks(tokens: seq<Token>, blockSize: int): (q: Prefix)
    requires blockSize > 0
    decreases |tokens|
  {
    if |tokens| < blockSize then [] else [Block(tokens[..blockSize])] + Blocks(tokens[blockSize..], blockSize)
  }

  lemma {:induction false} BlocksLength(tokens: seq<Token>, blockSize: int)
    requires blockSize > 0
    ensures |Blocks(tokens, blockSize)| == |tokens| / blockSize
    decreases |tokens|
  {
    if |tokens| < blockSize {
      DivUnique(|tokens|, blockSize, 0, |tokens|);
    } else {
      BlocksLength(tokens[blockSize..], blockSize);
      DivStep(|tokens|, blockSize);
    }
  }

  /** Block `i` is the token range that the tree uses as a child key. */
  lemma {:induction false} BlockAt(tokens: seq<Token>, blockSize: int, i: int)
    requires blockSize > 0 && 0 <= i < |Blocks(tokens, blockSize)|
    ensures 0 <= i * blockSize && i * blockSize + blockSize <= |tokens|
    ensures Blocks(tokens, blockSize)[i] == Block(tokens[i * blockSize..i * blockSize + blockSize])
    decreases i
  {
    if i > 0 {
      var rest := tokens[blockSize..];
      BlockAt(rest, blockSize, i - 1);
      assert i * blockSize == (i - 1) * blockSize + blockSize;
      SliceShift(tokens, blockSize, (i - 1) * blockSize, blockSize);
    }
  }

  /** Cutting the tokens at a block boundary cuts the block list at the same place. */
  lemma {:induction false} BlocksSplit(tokens: seq<Token>, blockSize: int, k: int)
    requires blockSize > 0 && 0 <= k <= |Blocks(tokens, blockSize)|
    ensures 0 <= k * blockSize <= |tokens|
    ensures Blocks(tokens[..k * blockSize], blockSize) == Blocks(tokens, blockSize)[..k]
    ensures Blocks(tokens[k * blockSize..], blockSize) == Blocks(tokens, blockSize)[k..]
    decreases k
  {
    if k > 0 {
      var rest := tokens[blockSize..];
      BlocksSplit(rest, blockSize, k - 1);
      assert k * blockSize == (k - 1) * blockSize + blockSize;
      var cut := tokens[..k * blockSize];
      assert cut[blockSize..] == rest[..(k - 1) * blockSize];
      assert cut[..blockSize] == tokens[..blockSize];
      assert tokens[k * blockSize..] == rest[(k - 1) * blockSize..];
    } else {
      assert tokens[..0] == [];
      assert tokens[0..] == tokens;
    }
  }

  // ---------- The map ----------

  ghost predicate PrefixClosed(contents: map<Prefix, Column>)
  {
    forall p, q :: p in contents && q <= p && q != [] ==> q in contents
  }

  /** How many leading blocks of `query` are stored, counting up from `k`. */
  ghost function LongestFrom(contents: map<Prefix, Column>, query: Prefix, k: nat): (r: nat)
    requires k <= |query|
    ensures k <= r <= |query|
    ensures r < |query| ==> query[..r + 1] !in contents
    ensures forall j :: k < j <= r ==> query[..j] in contents
    decreases |query| - k
  {
    if k < |query| && query[..k + 1] in contents then LongestFrom(contents, query, k + 1) else k
  }

  ghost function Longest(contents: map<Prefix, Column>, query: Prefix): (r: nat)
    ensures r <= |query|
  {
    LongestFrom(contents, query, 0)
  }

  /** `Longest` is the greatest stored prefix: every stored prefix of the query is at most that long. */
  lemma LongestIsGreatest(contents: map<Prefix, Column>, query: Prefix, j: nat)
    requires PrefixClosed(contents) && j <= |query|
    ensures j <= Longest(contents, query) <==> j == 0 || query[..j] in contents
  {
    var r := Longest(contents, query);
    if j > r {
      assert query[..r + 1] <= query[..j];
    }
  }

  lemma LongestUnique(contents: map<Prefix, Column>, query: Prefix, k: nat)
    requires k <= |query|
    requires forall j :: 0 < j <= k ==> query[..j] in contents
    requires k < |query| ==> query[..k + 1] !in contents
    ensures Longest(contents, query) == k
  {
  }

  /** `ids[layer][j]` is the payload stored for the first `j + 1` blocks of `query`. */
  ghost predicate PayloadsAre(ids: seq<seq<Payload>>, contents: map<Prefix, Column>, query: Prefix, k: nat,
                              layers: nat)
    requires k <= |query|
  {
    && |ids| == layers
    && (forall j :: 0 < j <= k ==> query[..j] in contents && |contents[query[..j]]| == layers)
    && forall l :: 0 <= l < layers ==>
         |ids[l]| == k && forall j :: 0 < j <= k ==> ids[l][j - 1] == contents[query[..j]][l]
  }

  /** `ids` are the payloads stored for the blocks of `path` after its first `depth` ones. */
  ghost predicate SegmentPayloads(ids: seq<seq<Payload>>, contents: map<Prefix, Column>, path: Prefix, depth: nat,
                                  layers: nat)
  {
    && depth <= |path| && |ids| == layers
    && (forall l :: 0 <= l < layers ==> |ids[l]| == |path| - depth)
    && (forall j :: depth < j <= |path| ==> path[..j] in contents && |contents[path[..j]]| == layers)
    && (forall l, j :: 0 <= l < layers && depth < j <= |path| ==> ids[l][j - 1 - depth] == contents[path[..j]][l])
  }

  // ---------- Pins ----------

  /** Number of outstanding pins whose prefix extends `p`. */
  function PinsThrough(pins: seq<Prefix>, p: Prefix): nat
  {
    if pins == [] then 0 else (if p <= pins[0] then 1 else 0) + PinsThrough(pins[1..], p)
  }

  /** Forget one pin of `p`. */
  function DropPin(pins: seq<Prefix>, p: Prefix): (r: seq<Prefix>)
    requires p in pins
  {
    if pins[0] == p then pins[1..] else [pins[0]] + DropPin(pins[1..], p)
  }

  lemma {:induction false} PinsThroughAppend(pins: seq<Prefix>, pin: Prefix, p: Prefix)
    ensures PinsThrough(pins + [pin], p) == PinsThrough(pins, p) + if p <= pin then 1 else 0
  {
    if pins == [] {
      assert pins + [pin] == [pin];
    } else {
      assert (pins + [pin])[1..] == pins[1..] + [pin];
      PinsThroughAppend(pins[1..], pin, p);
    }
  }

  lemma {:induction false} PinsThroughDrop(pins: seq<Prefix>, pin: Prefix, p: Prefix)
    requires pin in pins
    ensures PinsThrough(DropPin(pins, pin), p) == PinsThrough(pins, p) - if p <= pin then 1 else 0
    ensures multiset(DropPin(pins, pin)) == multiset(pins) - multiset{pin}
  {
    assert pins == [pins[0]] + pins[1..];
    if pins[0] != pin {
      PinsThroughDrop(pins[1..], pin, p);
      assert DropPin(pins, pin)[1..] == DropPin(pins[1..], pin);
    }
  }

  lemma {:induction false} PinsThroughMonotone(pins: seq<Prefix>, p: Prefix, q: Prefix)
    requires p <= q
    ensures PinsThrough(pins, q) <= PinsThrough(pins, p)
  {
    if pins != [] {
      PinsThroughMonotone(pins[1..], p, q);
      assert q <= pins[0] ==> p <= pins[0];
    }
  }

  lemma {:induction false} PinsThroughSame(pins: seq<Prefix>, p: Prefix, q: Prefix)
    requires forall pin :: pin in pins ==> (p <= pin <==> q <= pin)
    ensures PinsThrough(pins, p) == PinsThrough(pins, q)
  {
    if pins != [] {
      assert pins[0] in pins;
      forall pin | pin in pins[1..] ensures p <= pin <==> q <= pin { assert pin in pins; }
      PinsThroughSame(pins[1..], p, q);
    }
  }

  lemma {:induction false} PinsThroughZero(pins: seq<Prefix>, p: Prefix)
    ensures PinsThrough(pins, p) == 0 <==> forall pin :: pin in pins ==> !(p <= pin)
  {
    if pins != [] {
      PinsThroughZero(pins[1..], p);
      assert pins[0] in pins;
      assert forall pin :: pin in pins <==> pin == pins[0] || pin in pins[1..];
    }
  }

  /** `ids` are the payloads of the prefixes listed in `order`, layer by layer. */
  ghost predicate Collected(ids: seq<seq<Payload>>, order: seq<Prefix>, contents: map<Prefix, Column>, layers: nat)
  {
    && |ids| == layers
    && (forall x :: 0 <= x < |order| ==> order[x] in contents && |contents[order[x]]| == layers)
    && (forall l :: 0 <= l < layers ==> |ids[l]| == |order|)
    && (forall l, x :: 0 <= l < layers && 0 <= x < |order| ==> ids[l][x] == contents[order[x]][l])
  }

  lemma CollectedConcat(a: seq<seq<Payload>>, b: seq<seq<Payload>>, ab: seq<seq<Payload>>, p: seq<Prefix>, q: seq<Prefix>,
                        contents: map<Prefix, Column>, layers: nat)
    requires Collected(a, p, contents, layers) && Collected(b, q, contents, layers) && |ab| == layers
    requires forall l :: 0 <= l < layers ==> ab[l] == a[l] + b[l]
    ensures Collected(ab, p + q, contents, layers)
  {
  }

  /** A node's segment, read off block by block. */
  lemma SegmentCollected(ids: seq<seq<Payload>>, contents: map<Prefix, Column>, path: Prefix, depth: nat, layers: nat)
    requires SegmentPayloads(ids, contents, path, depth, layers)
    ensures Collected(ids, seq(|path| - depth, i requires 0 <= i < |path| - depth => path[..depth + 1 + i]), contents, layers)
  {
    var order := seq(|path| - depth, i requires 0 <= i < |path| - depth => path[..depth + 1 + i]);
    forall x | 0 <= x < |order| ensures order[x] == path[..depth + 1 + x] {}
  }

  ghost predicate Distinct<T>(s: seq<T>)
  {
    forall i, j :: 0 <= i < j < |s| ==> s[i] != s[j]
  }

  lemma DistinctConcat<T>(s: seq<T>, t: seq<T>)
    requires Distinct(s) && Distinct(t) && forall x :: x in s ==> x !in t
    ensures Distinct(s + t)
  {
    forall i, j | 0 <= i < j < |s + t| ensures (s + t)[i] != (s + t)[j] {
      if i < |s| <= j { assert s[i] in s && t[j - |s|] in t; }
    }
  }

  /** Stored prefixes that no pin runs through: what eviction may free. */
  ghost function Evictable(contents: map<Prefix, Column>, pins: seq<Prefix>): set<Prefix>
  {
    set p | p in contents && PinsThrough(pins, p) == 0
  }

  // ---------- Whole runs ----------

  datatype Cache = Cache(contents: map<Prefix, Column>, pins: seq<Prefix>)

  /** The operations of the tree as seen on the map. `Erase` names the prefixes one leaf held. */
  datatype Op =
    | Insert(query: Prefix, columns: seq<Column>)
    | Match(query: Prefix)
    | Pin(prefix: Prefix)
    | Unpin(prefix: Prefix)
    | Erase(removed: set<Prefix>)

  ghost predicate WellFormed(c: Cache)
  {
    && PrefixClosed(c.contents)
    && [] !in c.contents
    && forall pin :: pin in c.pins ==> pin in c.contents
  }

  ghost predicate Enabled(c: Cache, op: Op)
  {
    match op
    case Insert(query, columns) => |query| <= |columns|
    case Match(_) => true
    case Pin(p) => p in c.contents
    case Unpin(p) => p in c.pins
    case Erase(removed) =>
      && removed <= Evictable(c.contents, c.pins)
      && forall p, q :: p in removed && q in c.contents && p <= q ==> q in removed
  }

  /** Contents after an insert: exactly the missing prefixes are added, stored ones keep their payload. */
  ghost function Inserted(contents: map<Prefix, Column>, query: Prefix, columns: seq<Column>): (r: map<Prefix, Column>)
    requires |query| <= |columns|
    ensures forall p {:trigger p in r} {:trigger r[p]} :: p in contents ==> p in r && r[p] == contents[p]
    ensures forall p {:trigger p in r} {:trigger r[p]} :: p in r <==> p in contents || (p != [] && p <= query)
    ensures forall p {:trigger r[p]} :: p in r && p !in contents ==> r[p] == columns[|p| - 1]
  {
    var all := set j: nat | 0 < j <= |query| :: query[..j];
    assert forall p :: p in all <==> p != [] && p <= query by {
      forall p | p != [] && p <= query ensures p in all { assert p == query[..|p|]; }
    }
    (map p | p in all :: columns[|p| - 1]) + contents
  }

  ghost function Apply(c: Cache, op: Op): (c': Cache)
    requires WellFormed(c) && Enabled(c, op)
  {
    match op
    case Insert(query, columns) => c.(contents := Inserted(c.contents, query, columns))
    case Match(_) => c
    case Pin(p) => c.(pins := c.pins + [p])
    case Unpin(p) => c.(pins := DropPin(c.pins, p))
    case Erase(removed) => c.(contents := c.contents - removed)
  }

  lemma ApplyKeepsWellFormed(c: Cache, op: Op)
    requires WellFormed(c) && Enabled(c, op)
    ensures WellFormed(Apply(c, op))
  {
    var c' := Apply(c, op);
    match op
    case Insert(query, columns) =>
      forall p, q | p in c'.contents && q <= p && q != [] ensures q in c'.contents {
        if p !in c.contents { assert q <= query; }
      }
    case Match(_) =>
    case Pin(p) =>
    case Unpin(p) =>
      PinsThroughDrop(c.pins, p, p);
      forall pin | pin in c'.pins ensures pin in c'.contents {
        assert pin in multiset(c'.pins);
        assert pin in multiset(c.pins);
      }
    case Erase(removed) =>
      forall pin | pin in c'.pins ensures pin in c'.contents {
        PinsThroughZero(c.pins, pin);
      }
  }

  ghost predicate RunFrom(c: Cache, ops: seq<Op>)
    decreases |ops|
  {
    ops == [] || (WellFormed(c) && Enabled(c, ops[0]) && RunFrom(Apply(c, ops[0]), ops[1..]))
  }

  ghost function After(c: Cache, ops: seq<Op>): Cache
    requires RunFrom(c, ops)
    decreases |ops|
  {
    if ops == [] then c else After(Apply(c, ops[0]), ops[1..])
  }

  /** Pins of `p` outstanding after every step of the run. */
  ghost predicate PinnedThroughout(c: Cache, ops: seq<Op>, p: Prefix)
    requires RunFrom(c, ops)
    decreases |ops|
  {
    p in c.pins && (ops == [] || PinnedThroughout(Apply(c, ops[0]), ops[1..], p))
  }

  /** A pinned prefix keeps matching in full, with the same payloads, whatever else is inserted,
      matched, pinned or evicted. */
  lemma {:induction false} PinnedPrefixSurvives(c: Cache, ops: seq<Op>, p: Prefix)
    requires WellFormed(c) && RunFrom(c, ops) && PinnedThroughout(c, ops, p)
    ensures var d := After(c, ops);
      && Longest(d.contents, p) == |p|
      && forall q :: q <= p && q != [] ==> q in c.contents && q in d.contents && d.contents[q] == c.contents[q]
    decreases |ops|
  {
    if ops == [] {
      LongestIsGreatest(c.contents, p, |p|);
      assert p[..|p|] == p;
    } else {
      var next := Apply(c, ops[0]);
      ApplyKeepsWellFormed(c, ops[0]);
      PinnedPrefixSurvives(next, ops[1..], p);
      forall q | q <= p && q != [] ensures q in c.contents && next.contents[q] == c.contents[q] {
        assert p in c.contents;
        if ops[0].Erase? { PinsThroughZero(c.pins, q); }
      }
    }
  }

  /** Blocks that an operation adds and removes, per layer. */
  ghost function Added(c: Cache, op: Op): nat
  {
    if op.Insert? then |op.query| - Longest(c.contents, op.query) else 0
  }

  ghost function Removed(op: Op): nat
  {
    if op.Erase? then |op.removed| else 0
  }

  ghost function TotalAdded(c: Cache, ops: seq<Op>): nat
    requires RunFrom(c, ops)
    decreases |ops|
  {
    if ops == [] then 0 else Added(c, ops[0]) + TotalAdded(Apply(c, ops[0]), ops[1..])
  }

  ghost function TotalRemoved(ops: seq<Op>): nat
  {
    if ops == [] then 0 else Removed(ops[0]) + TotalRemoved(ops[1..])
  }

  /** The prefixes of `query` longer than `k` blocks number `|query| - k`. */
  lemma {:induction false} CountPrefixes(query: Prefix, k: nat)
    requires k <= |query|
    ensures |set j: nat | k < j <= |query| :: query[..j]| == |query| - k
    decreases |query| - k
  {
    var s := set j: nat | k < j <= |query| :: query[..j];
    if k < |query| {
      CountPrefixes(query, k + 1);
      var t := set j: nat | k + 1 < j <= |query| :: query[..j];
      forall p | p in t ensures |p| > k + 1 { }
      assert query[..k + 1] !in t;
      assert s == t + {query[..k + 1]} by {
        forall p | p in t + {query[..k + 1]} ensures p in s {
          if p == query[..k + 1] { assert k < k + 1 <= |query|; }
        }
      }
    } else {
      assert s == {};
    }
  }

  ghost function LongerPrefixes(query: Prefix, k: nat): (s: set<Prefix>)
    requires k <= |query|
    ensures forall p {:trigger p in s} :: p in s <==> k < |p| && p <= query
    ensures |s| == |query| - k
  {
    CountPrefixes(query, k);
    var s := set j: nat | k < j <= |query| :: query[..j];
    assert forall p :: k < |p| && p <= query ==> p == query[..|p|];
    s
  }

  lemma InsertedSize(contents: map<Prefix, Column>, query: Prefix, columns: seq<Column>)
    requires PrefixClosed(contents) && |query| <= |columns|
    ensures |Inserted(contents, query, columns)| == |contents| + |query| - Longest(contents, query)
  {
    var r := Inserted(contents, query, columns);
    var missing := LongerPrefixes(query, Longest(contents, query));
    forall p | p != [] && p <= query ensures p in missing <==> p !in contents {
      LongestIsGreatest(contents, query, |p|);
      assert p == query[..|p|];
    }
    KeysUnion(contents, r, missing);
  }

  lemma KeysUnion<K, V>(m: map<K, V>, r: map<K, V>, extra: set<K>)
    requires forall k :: k in r <==> k in m || k in extra
    requires forall k :: k in extra ==> k !in m
    ensures |r| == |m| + |extra|
  {
    assert r.Keys == m.Keys + extra;
    assert m.Keys !! extra;
    assert |r.Keys| == |m.Keys| + |extra|;
  }

  lemma StepConserves(c: Cache, op: Op)
    requires WellFormed(c) && Enabled(c, op)
    ensures |Apply(c, op).contents| == |c.contents| + Added(c, op) - Removed(op)
  {
    match op
    case Insert(query, columns) => InsertedSize(c.contents, query, columns);
    case Erase(removed) =>
      var r := c.contents - removed;
      assert r.Keys == c.contents.Keys - removed && removed <= c.contents.Keys;
      assert |r.Keys| == |c.contents.Keys| - |removed|;
      assert |r| == |r.Keys| && |c.contents| == |c.contents.Keys|;
    case _ =>
  }

  /** Blocks stored per layer equal blocks inserted minus blocks erased, over every run. */
  lemma {:induction false} BlocksConserved(c: Cache, ops: seq<Op>)
    requires WellFormed(c) && RunFrom(c, ops)
    ensures |After(c, ops).contents| == |c.contents| + TotalAdded(c, ops) - TotalRemoved(ops)
    decreases |ops|
  {
    if ops != [] {
      StepConserves(c, ops[0]);
      ApplyKeepsWellFormed(c, ops[0]);
      BlocksConserved(Apply(c, ops[0]), ops[1..]);
    }
  }

  /** Erasing evictable prefixes frees them and nothing else: pinned prefixes keep their payloads. */
  lemma EraseEffect(c: Cache, removed: set<Prefix>)
    requires WellFormed(c) && Enabled(c, Erase(removed))
    ensures var d := Apply(c, Erase(removed));
      && |Evictable(d.contents, d.pins)| == |Evictable(c.contents, c.pins)| - |removed|
      && |d.contents| == |c.contents| - |removed|
      && (forall p :: p in d.contents ==> p in c.contents && d.contents[p] == c.contents[p])
      && (forall p :: p in c.contents && PinsThrough(c.pins, p) > 0 ==> p in d.contents)
  {
    var d := Apply(c, Erase(removed));
    StepConserves(c, Erase(removed));
    assert Evictable(d.contents, d.pins) == Evictable(c.contents, c.pins) - removed;
  }
}
