/** The tree as a value: node records indexed by node id, with the tokens on the way to each node spelled
    out. Every structural fact about the tree is proved here, away from the heap. */
module RadixArena {
  import opened PrefixCacheSpec
  import opened Sequences

  const ROOT := 0

  /** `path` lists the blocks from the root to the end of the node's segment. */
  datatype NodeRec = NodeRec(parent: int, children: map<Block, int>, path: Prefix, depth: nat,
                             tokens: seq<Token>, ids: seq<seq<Payload>>, refs: int)
  {
    /** The node's segment contains the last block of `p`. */
    ghost predicate Holds(p: Prefix) {
      depth < |p| && p <= path
    }
  }

  datatype Params = Params(blockSize: int, layers: nat)

  /** `holder` finds the node whose segment stores a prefix. */
  datatype Arena = Arena(nodes: map<int, NodeRec>, holder: map<Prefix, int>, cache: Cache)

  // ---------- Invariant ----------

  /** A node's own fields fit together. */
  ghost predicate NodeOk(ps: Params, n: NodeRec)
  {
    && ps.blockSize > 0
    && n.depth <= |n.path|
    && Blocks(n.tokens, ps.blockSize) == n.path[n.depth..]
    && |n.tokens| == (|n.path| - n.depth) * ps.blockSize
    && |n.ids| == ps.layers
    && forall l :: 0 <= l < ps.layers ==> |n.ids[l]| == |n.path| - n.depth
  }

  /** A non-root node hangs below its parent under the key of its first block. */
  ghost predicate Linked(nodes: map<int, NodeRec>, i: int)
    requires i in nodes
  {
    var n := nodes[i];
    && n.depth < |n.path|
    && n.parent in nodes
    && nodes[n.parent].path == n.path[..n.depth]
    && n.path[n.depth] in nodes[n.parent].children
    && nodes[n.parent].children[n.path[n.depth]] == i
  }

  ghost predicate ChildOk(nodes: map<int, NodeRec>, i: int, k: Block)
    requires i in nodes && k in nodes[i].children
  {
    var c := nodes[i].children[k];
    && c in nodes && c != ROOT && nodes[c].parent == i
    && nodes[c].depth == |nodes[i].path| < |nodes[c].path| && nodes[c].path[nodes[c].depth] == k
  }

  ghost predicate ShapeOf(ps: Params, nodes: map<int, NodeRec>)
  {
    && ROOT in nodes && nodes[ROOT].path == [] && nodes[ROOT].depth == 0
    && (forall i {:trigger NodeOk(ps, nodes[i])} :: i in nodes ==> NodeOk(ps, nodes[i]))
    && (forall i {:trigger Linked(nodes, i)} :: i in nodes && i != ROOT ==> Linked(nodes, i))
    && (forall i, k {:trigger ChildOk(nodes, i, k)} :: i in nodes && k in nodes[i].children ==> ChildOk(nodes, i, k))
  }

  ghost predicate Shape(ps: Params, a: Arena)
  {
    ShapeOf(ps, a.nodes)
  }

  /** The stored column of `p` is the one node `n` keeps for that block, layer by layer. */
  ghost predicate ColumnOk(n: NodeRec, p: Prefix, column: Column)
  {
    && |column| == |n.ids|
    && forall l :: 0 <= l < |n.ids| ==>
         0 <= |p| - 1 - n.depth < |n.ids[l]| && column[l] == n.ids[l][|p| - 1 - n.depth]
  }

  /** Whoever holds `p` is found under `p`. */
  ghost predicate Owned(a: Arena, i: int, p: Prefix)
    requires i in a.nodes
  {
    a.nodes[i].Holds(p) ==> p in a.holder && a.holder[p] == i
  }

  /** `p` is stored, at the block of its holder where it ends. */
  ghost predicate Entry(a: Arena, p: Prefix)
  {
    && p in a.holder && a.holder[p] in a.nodes && a.nodes[a.holder[p]].Holds(p)
    && p in a.cache.contents && ColumnOk(a.nodes[a.holder[p]], p, a.cache.contents[p])
  }

  ghost predicate Index(a: Arena)
  {
    && (forall i, p {:trigger Owned(a, i, p)} :: i in a.nodes ==> Owned(a, i, p))
    && (forall p {:trigger Entry(a, p)} :: p in a.holder || p in a.cache.contents ==> Entry(a, p))
  }

  ghost predicate CountOk(a: Arena, i: int)
    requires i in a.nodes
  {
    a.nodes[i].refs == PinsThrough(a.cache.pins, a.nodes[i].path)
  }

  ghost predicate PinnedNode(a: Arena, pin: Prefix)
  {
    pin in a.holder && a.holder[pin] in a.nodes && a.nodes[a.holder[pin]].path == pin
  }

  /** Pins name whole nodes, and every node counts the pins at or below it. */
  ghost predicate PinsOk(a: Arena)
  {
    && (forall pin {:trigger PinnedNode(a, pin)} :: pin in a.cache.pins ==> PinnedNode(a, pin))
    && (forall i {:trigger CountOk(a, i)} :: i in a.nodes && i != ROOT ==> CountOk(a, i))
    && (ROOT in a.nodes ==> a.nodes[ROOT].refs == 0)
  }

  ghost predicate Inv(ps: Params, a: Arena)
  {
    Shape(ps, a) && Index(a) && PinsOk(a)
  }

  // ---------- Consequences ----------

  /** The node that stores `p` is an ancestor of every node whose path runs through `p`. */
  lemma {:induction false} Ancestor(ps: Params, a: Arena, i: int, p: Prefix, m: int)
    requires Shape(ps, a) && Index(a) && i in a.nodes && m in a.nodes
    requires a.nodes[i].Holds(p) && p <= a.nodes[m].path
    ensures a.nodes[i].path <= a.nodes[m].path
    decreases |a.nodes[m].path|
  {
    if a.nodes[m].Holds(p) {
      assert Owned(a, i, p) && Owned(a, m, p);
    } else {
      assert Linked(a.nodes, m);
      Ancestor(ps, a, i, p, a.nodes[m].parent);
    }
  }

  lemma SamePath(ps: Params, a: Arena, i: int, m: int)
    requires Shape(ps, a) && Index(a) && i in a.nodes && m in a.nodes && a.nodes[i].path == a.nodes[m].path
    ensures i == m
  {
    assert i != ROOT ==> Linked(a.nodes, i);
    assert m != ROOT ==> Linked(a.nodes, m);
    var p := a.nodes[i].path;
    assert p <= p;
    assert Owned(a, i, p) && Owned(a, m, p);
  }

  lemma {:induction false} StoredUnder(ps: Params, a: Arena, m: int, q: Prefix)
    requires Shape(ps, a) && Index(a) && m in a.nodes && q <= a.nodes[m].path && q != []
    ensures q in a.holder && Entry(a, q)
    decreases |a.nodes[m].path|
  {
    if a.nodes[m].Holds(q) {
      assert Owned(a, m, q);
    } else {
      assert Linked(a.nodes, m);
      StoredUnder(ps, a, a.nodes[m].parent, q);
    }
  }

  lemma CacheWellFormed(ps: Params, a: Arena)
    requires Inv(ps, a)
    ensures WellFormed(a.cache)
  {
    forall p, q | p in a.cache.contents && q <= p && q != [] ensures q in a.cache.contents {
      assert Entry(a, p);
      StoredUnder(ps, a, a.holder[p], q);
    }
    assert [] in a.cache.contents ==> Entry(a, []);
    forall pin | pin in a.cache.pins ensures pin in a.cache.contents {
      assert PinnedNode(a, pin) && Entry(a, pin);
    }
  }

  /** Below the end of a node, a stored prefix continues into one of the node's children. */
  lemma ChildKey(ps: Params, a: Arena, i: int, p: Prefix)
    requires Shape(ps, a) && Index(a) && i in a.nodes && p in a.cache.contents
    requires a.nodes[i].path <= p && |p| > |a.nodes[i].path|
    ensures p[|a.nodes[i].path|] in a.nodes[i].children
  {
    var n := a.nodes[i];
    var q := p[..|n.path| + 1];
    assert Entry(a, p);
    StoredUnder(ps, a, a.holder[p], q);
    var h := a.holder[q];
    assert Linked(a.nodes, h);
    assert q[..|n.path|] == n.path && a.nodes[h].path[..|n.path|] == n.path;
    if a.nodes[h].depth == |n.path| {
      SamePath(ps, a, a.nodes[h].parent, i);
    } else {
      OneHolder(ps, a, h, i);
    }
  }

  /** A node whose path ends inside another node's segment is that node. */
  lemma OneHolder(ps: Params, a: Arena, h: int, i: int)
    requires Shape(ps, a) && Index(a) && i in a.nodes && h in a.nodes
    requires a.nodes[h].Holds(a.nodes[i].path)
    ensures h == i
  {
    var p := a.nodes[i].path;
    assert i != ROOT ==> Linked(a.nodes, i);
    assert p <= p;
    assert Owned(a, i, p) && Owned(a, h, p);
  }

  /** Inside a node's segment, a stored prefix can only continue with the segment's next block. */
  lemma NextInSegment(ps: Params, a: Arena, i: int, p: Prefix)
    requires Shape(ps, a) && Index(a) && i in a.nodes && p in a.cache.contents && |p| >= 1
    requires a.nodes[i].Holds(p[..|p| - 1]) && |p| <= |a.nodes[i].path|
    ensures p <= a.nodes[i].path
  {
    assert Entry(a, p);
    Ancestor(ps, a, i, p[..|p| - 1], a.holder[p]);
    assert p == p[..|p| - 1] + [p[|p| - 1]];
  }

  lemma MissingChild(ps: Params, a: Arena, i: int, query: Prefix, c: nat)
    requires Shape(ps, a) && Index(a) && i in a.nodes && c < |query| && a.nodes[i].path == query[..c]
    requires query[c] !in a.nodes[i].children
    ensures query[..c + 1] !in a.cache.contents
  {
    if query[..c + 1] in a.cache.contents {
      ChildKey(ps, a, i, query[..c + 1]);
    }
  }

  /** The first block of the node is one of the first `k` blocks of the query. */
  ghost predicate StartsOn(n: NodeRec, query: Prefix, k: nat)
  {
    n.depth < k && n.depth < |n.path| && n.path[..n.depth + 1] <= query
  }

  /** What comparing a child's segment with the query says about the map: the first `k` blocks of the
      segment `s` agree with the query from block `c` on, and the next ones differ or one side ends. */
  lemma SegmentMatch(ps: Params, a: Arena, child: int, query: Prefix, c: nat, s: Prefix, k: nat)
    requires Shape(ps, a) && Index(a) && child in a.nodes && child != ROOT
    requires a.nodes[child].depth == c < |query| && c < |a.nodes[child].path| && a.nodes[child].path[..c] == query[..c]
    requires s == a.nodes[child].path[c..] && s[0] == query[c]
    requires k <= |s| && c + k <= |query| && s[..k] == query[c..c + k]
    requires k < |s| && c + k < |query| ==> s[k] != query[c + k]
    ensures k > 0
    ensures a.nodes[child].path[..c + k] == query[..c + k]
    ensures forall j :: c < j <= c + k ==> query[..j] in a.cache.contents
    ensures k < |s| && c + k < |query| ==> query[..c + k + 1] !in a.cache.contents
  {
    var n := a.nodes[child];
    assert n.path[..c + k] == n.path[..c] + s[..k];
    assert query[..c + k] == query[..c] + query[c..c + k];
    forall j | c < j <= c + k ensures query[..j] in a.cache.contents {
      assert query[..j] == query[..c + k][..j] == n.path[..j];
      assert Owned(a, child, query[..j]) && Entry(a, query[..j]);
    }
    if k < |s| && c + k < |query| && query[..c + k + 1] in a.cache.contents {
      var p := query[..c + k + 1];
      assert p[..|p| - 1] == query[..c + k];
      NextInSegment(ps, a, child, p);
    }
  }

  /** The walk that consumes child `child`'s blocks touches that node and no other. */
  lemma TouchedOnce(ps: Params, a: Arena, child: int, query: Prefix, c: nat, k: nat, i: int)
    requires Shape(ps, a) && Index(a) && child in a.nodes && i in a.nodes
    requires a.nodes[child].depth == c && 0 < k <= |a.nodes[child].path| - c && c + k <= |query|
    requires a.nodes[child].path[..c + k] == query[..c + k]
    ensures StartsOn(a.nodes[i], query, c + k) <==> StartsOn(a.nodes[i], query, c) || i == child
  {
    var n, m := a.nodes[i], a.nodes[child];
    if StartsOn(n, query, c + k) && n.depth >= c {
      var p := n.path[..n.depth + 1];
      TakeTake(query, c + k, |p|);
      TakeTake(m.path, c + k, |p|);
      assert p == query[..|p|] == m.path[..|p|];
      assert Owned(a, i, p) && Owned(a, child, p);
    }
    assert m.path[..c + 1] == m.path[..c + k][..c + 1] == query[..c + 1];
    assert m.path[..c + 1] <= query;
  }

  /** Every pin through the front of a node's segment goes through the whole node. */
  lemma PinsAcrossSplit(ps: Params, a: Arena, child: int, front: Prefix)
    requires Inv(ps, a) && child in a.nodes && child != ROOT && a.nodes[child].Holds(front)
    ensures PinsThrough(a.cache.pins, front) == a.nodes[child].refs
  {
    forall pin | pin in a.cache.pins ensures front <= pin <==> a.nodes[child].path <= pin {
      if front <= pin {
        assert PinnedNode(a, pin);
        Ancestor(ps, a, child, front, a.holder[pin]);
      }
    }
    PinsThroughSame(a.cache.pins, front, a.nodes[child].path);
    assert CountOk(a, child);
  }

  // ---------- Operations ----------

  function FrontIds(ids: seq<seq<Payload>>, k: nat): (r: seq<seq<Payload>>)
    requires forall l :: 0 <= l < |ids| ==> k <= |ids[l]|
  {
    seq(|ids|, l requires 0 <= l < |ids| => ids[l][..k])
  }

  function BackIds(ids: seq<seq<Payload>>, k: nat): (r: seq<seq<Payload>>)
    requires forall l :: 0 <= l < |ids| ==> k <= |ids[l]|
  {
    seq(|ids|, l requires 0 <= l < |ids| => ids[l][k..])
  }

  ghost predicate CanSplit(ps: Params, a: Arena, child: int, k: nat, newId: int)
  {
    && Inv(ps, a) && child in a.nodes && child != ROOT && newId !in a.nodes
    && CanCut(ps, a, child, k)
  }

  ghost predicate CanCut(ps: Params, a: Arena, child: int, k: nat)
  {
    && child in a.nodes && child != ROOT && NodeOk(ps, a.nodes[child])
    && a.nodes[child].parent in a.nodes && a.nodes[child].parent != child
    && 0 < k < |a.nodes[child].path| - a.nodes[child].depth
  }

  /** The node that takes over the first `k` blocks of `n`'s segment, above `child`. */
  ghost function PrefixRec(ps: Params, n: NodeRec, child: int, k: nat): NodeRec
    requires NodeOk(ps, n) && 0 < k < |n.path| - n.depth && 0 <= k * ps.blockSize <= |n.tokens|
  {
    NodeRec(n.parent, map[n.path[n.depth + k] := child], n.path[..n.depth + k], n.depth,
            n.tokens[..k * ps.blockSize], FrontIds(n.ids, k), n.refs)
  }

  ghost function SuffixRec(ps: Params, n: NodeRec, newId: int, k: nat): NodeRec
    requires NodeOk(ps, n) && 0 < k < |n.path| - n.depth && 0 <= k * ps.blockSize <= |n.tokens|
  {
    n.(parent := newId, depth := n.depth + k, tokens := n.tokens[k * ps.blockSize..], ids := BackIds(n.ids, k))
  }

  ghost function SplitAt(ps: Params, a: Arena, child: int, k: nat, newId: int): Arena
    requires CanCut(ps, a, child, k)
  {
    var n := a.nodes[child];
    BlocksSplit(n.tokens, ps.blockSize, k);
    var up := a.nodes[n.parent];
    Arena(a.nodes[newId := PrefixRec(ps, n, child, k)][child := SuffixRec(ps, n, newId, k)]
                 [n.parent := up.(children := up.children[n.path[n.depth] := newId])],
          map p | p in a.holder :: if a.holder[p] == child && |p| <= n.depth + k then newId else a.holder[p],
          a.cache)
  }

  /** A split keeps the invariant, the stored map and the pins; the new node inherits the pin count. */
  lemma SplitKeeps(ps: Params, a: Arena, child: int, k: nat, newId: int)
    requires CanSplit(ps, a, child, k, newId)
    ensures Inv(ps, SplitAt(ps, a, child, k, newId))
  {
    SplitShape(ps, a, child, k, newId);
    SplitIndex(ps, a, child, k, newId);
    var b := SplitAt(ps, a, child, k, newId);
    forall i {:trigger CountOk(b, i)} | i in b.nodes && i != ROOT ensures CountOk(b, i) {
      SplitCount(ps, a, child, k, newId, i);
    }
    forall pin | pin in b.cache.pins ensures PinnedNode(b, pin) {
      SplitPin(ps, a, child, k, newId, pin);
    }
    assert Linked(a.nodes, child);
  }

  lemma SplitCount(ps: Params, a: Arena, child: int, k: nat, newId: int, i: int)
    requires CanSplit(ps, a, child, k, newId)
    requires i in SplitAt(ps, a, child, k, newId).nodes && i != ROOT
    ensures CountOk(SplitAt(ps, a, child, k, newId), i)
  {
    var n := a.nodes[child];
    assert Linked(a.nodes, child) && n.parent != child;
    if i == newId {
      PinsAcrossSplit(ps, a, child, n.path[..n.depth + k]);
    } else {
      assert CountOk(a, i);
    }
  }

  lemma SplitPin(ps: Params, a: Arena, child: int, k: nat, newId: int, pin: Prefix)
    requires CanSplit(ps, a, child, k, newId) && pin in a.cache.pins
    ensures PinnedNode(SplitAt(ps, a, child, k, newId), pin)
  {
    assert Linked(a.nodes, child) && PinnedNode(a, pin);
  }

  lemma SplitShape(ps: Params, a: Arena, child: int, k: nat, newId: int)
    requires CanSplit(ps, a, child, k, newId)
    ensures Shape(ps, SplitAt(ps, a, child, k, newId))
  {
    var n := a.nodes[child];
    var b := SplitAt(ps, a, child, k, newId);
    assert NodeOk(ps, n);
    SplitRecords(ps, n, child, k, newId);
    assert Linked(a.nodes, child) && n.parent != child;
    forall i {:trigger NodeOk(ps, b.nodes[i])} | i in b.nodes ensures NodeOk(ps, b.nodes[i]) {
      if i != newId && i != child { assert NodeOk(ps, a.nodes[i]); }
    }
    forall j {:trigger Linked(b.nodes, j)} | j in b.nodes && j != ROOT ensures Linked(b.nodes, j) {
      SplitLinked(ps, a, child, k, newId, j);
    }
    forall j, q {:trigger ChildOk(b.nodes, j, q)} | j in b.nodes && q in b.nodes[j].children ensures ChildOk(b.nodes, j, q) {
      SplitChild(ps, a, child, k, newId, j, q);
    }
  }

  lemma SplitRecords(ps: Params, n: NodeRec, child: int, k: nat, newId: int)
    requires NodeOk(ps, n) && 0 < k < |n.path| - n.depth
    ensures 0 <= k * ps.blockSize <= |n.tokens|
    ensures NodeOk(ps, PrefixRec(ps, n, child, k))
    ensures NodeOk(ps, SuffixRec(ps, n, newId, k))
  {
    BlocksSplit(n.tokens, ps.blockSize, k);
    SplitLengths(|n.path| - n.depth, k, ps.blockSize);
  }

  lemma SplitLinked(ps: Params, a: Arena, child: int, k: nat, newId: int, j: int)
    requires CanSplit(ps, a, child, k, newId)
    requires j in SplitAt(ps, a, child, k, newId).nodes && j != ROOT
    ensures Linked(SplitAt(ps, a, child, k, newId).nodes, j)
  {
    assert Linked(a.nodes, child) && a.nodes[child].parent != child;
    if j != newId { assert Linked(a.nodes, j); }
  }

  lemma SplitChild(ps: Params, a: Arena, child: int, k: nat, newId: int, j: int, q: Block)
    requires CanSplit(ps, a, child, k, newId)
    requires var b := SplitAt(ps, a, child, k, newId); j in b.nodes && q in b.nodes[j].children
    ensures ChildOk(SplitAt(ps, a, child, k, newId).nodes, j, q)
  {
    var n := a.nodes[child];
    assert Linked(a.nodes, child) && n.parent != child;
    if j != newId && !(j == n.parent && q == n.path[n.depth]) {
      assert ChildOk(a.nodes, j, q);
    }
  }

  lemma SplitLengths(n: int, k: int, d: int)
    ensures n * d - k * d == (n - k) * d
  {
  }

  lemma SplitIndex(ps: Params, a: Arena, child: int, k: nat, newId: int)
    requires CanSplit(ps, a, child, k, newId)
    ensures Index(SplitAt(ps, a, child, k, newId))
  {
    var b := SplitAt(ps, a, child, k, newId);
    forall j, p {:trigger Owned(b, j, p)} | j in b.nodes ensures Owned(b, j, p) {
      assert Linked(a.nodes, child);
      assert Owned(a, child, p);
      assert j != newId ==> Owned(a, j, p);
    }
    forall p {:trigger Entry(b, p)} | p in b.holder || p in b.cache.contents ensures Entry(b, p) {
      assert Linked(a.nodes, child) && Entry(a, p);
      SplitColumn(ps, a, child, k, newId, p);
    }
  }

  lemma SplitColumn(ps: Params, a: Arena, child: int, k: nat, newId: int, p: Prefix)
    requires CanSplit(ps, a, child, k, newId) && Entry(a, p)
    ensures Entry(SplitAt(ps, a, child, k, newId), p)
  {
    var n := a.nodes[child];
    var h := a.holder[p];
    assert Linked(a.nodes, child) && NodeOk(ps, n);
    BlocksSplit(n.tokens, ps.blockSize, k);
    var b := SplitAt(ps, a, child, k, newId);
    if h == child {
      CutColumn(ps, n, child, k, newId, p, a.cache.contents[p]);
    } else {
      SameColumn(a.nodes[h], b.nodes[h], p, a.cache.contents[p]);
    }
  }

  lemma CutColumn(ps: Params, n: NodeRec, child: int, k: nat, newId: int, p: Prefix, column: Column)
    requires NodeOk(ps, n) && 0 < k < |n.path| - n.depth && 0 <= k * ps.blockSize <= |n.tokens|
    requires n.Holds(p) && ColumnOk(n, p, column)
    ensures |p| <= n.depth + k ==> PrefixRec(ps, n, child, k).Holds(p) && ColumnOk(PrefixRec(ps, n, child, k), p, column)
    ensures |p| > n.depth + k ==> SuffixRec(ps, n, newId, k).Holds(p) && ColumnOk(SuffixRec(ps, n, newId, k), p, column)
  {
  }

  /** `rec` is a new leaf for the blocks that are missing below its parent; `columns` hold its payloads. */
  ghost predicate CanAppend(ps: Params, a: Arena, newId: int, rec: NodeRec, columns: seq<Column>)
  {
    && Inv(ps, a) && newId !in a.nodes && NodeOk(ps, rec) && rec.children == map[] && rec.refs == 0
    && rec.parent in a.nodes && rec.depth == |a.nodes[rec.parent].path| < |rec.path| == |columns|
    && a.nodes[rec.parent].path <= rec.path && rec.path[..rec.depth + 1] !in a.cache.contents
    && (forall j :: rec.depth <= j < |rec.path| ==> |columns[j]| == |rec.ids|)
    && (forall j, l :: rec.depth <= j < |rec.path| && 0 <= l < |rec.ids| ==> columns[j][l] == rec.ids[l][j - rec.depth])
  }

  ghost function Appended(a: Arena, newId: int, rec: NodeRec, columns: seq<Column>): Arena
    requires rec.parent in a.nodes && |a.nodes[rec.parent].path| < |rec.path| <= |columns| && rec.depth <= |rec.path|
  {
    Arena(AppendedNodes(a.nodes, newId, rec), a.holder + map p | p in LongerPrefixes(rec.path, rec.depth) :: newId,
          a.cache.(contents := Inserted(a.cache.contents, rec.path, columns)))
  }

  lemma AppendKeeps(ps: Params, a: Arena, newId: int, rec: NodeRec, columns: seq<Column>)
    requires CanAppend(ps, a, newId, rec, columns)
    ensures Inv(ps, Appended(a, newId, rec, columns))
    ensures Longest(a.cache.contents, rec.path) == rec.depth
  {
    AppendMissing(ps, a, rec.parent, rec.path);
    NoSuchChild(ps, a, rec.parent, rec.path);
    AppendShape(ps, a.nodes, newId, rec);
    AppendIndex(ps, a, newId, rec, columns);
    AppendPins(ps, a, newId, rec, columns);
  }

  lemma AppendPins(ps: Params, a: Arena, newId: int, rec: NodeRec, columns: seq<Column>)
    requires CanAppend(ps, a, newId, rec, columns)
    ensures PinsOk(Appended(a, newId, rec, columns))
  {
    var b := Appended(a, newId, rec, columns);
    AppendUnpinned(ps, a, rec.parent, rec.path);
    forall i {:trigger CountOk(b, i)} | i in b.nodes && i != ROOT ensures CountOk(b, i) {
      assert i != newId ==> CountOk(a, i);
      AppendCount(a, newId, rec, columns, i);
    }
    forall pin {:trigger PinnedNode(b, pin)} | pin in b.cache.pins ensures PinnedNode(b, pin) {
      assert PinnedNode(a, pin);
      KeptPin(a, newId, rec, columns, pin);
    }
  }

  lemma AppendCount(a: Arena, newId: int, rec: NodeRec, columns: seq<Column>, i: int)
    requires rec.parent in a.nodes && |a.nodes[rec.parent].path| < |rec.path| <= |columns| && newId !in a.nodes
    requires rec.depth <= |rec.path| && rec.refs == 0 == PinsThrough(a.cache.pins, rec.path)
    requires i == newId || (i in a.nodes && CountOk(a, i))
    ensures i in Appended(a, newId, rec, columns).nodes && CountOk(Appended(a, newId, rec, columns), i)
  {
  }

  lemma KeptPin(a: Arena, newId: int, rec: NodeRec, columns: seq<Column>, pin: Prefix)
    requires rec.parent in a.nodes && |a.nodes[rec.parent].path| < |rec.path| <= |columns| && newId !in a.nodes
    requires rec.depth < |rec.path| && PinnedNode(a, pin) && !(rec.path[..rec.depth + 1] <= pin)
    ensures PinnedNode(Appended(a, newId, rec, columns), pin)
  {
    var b := Appended(a, newId, rec, columns);
    assert pin !in LongerPrefixes(rec.path, rec.depth);
    assert b.holder[pin] == a.holder[pin];
  }

  /** Nothing at or below the first missing prefix is stored, everything above it is. */
  lemma AppendMissing(ps: Params, a: Arena, parent: int, query: Prefix)
    requires Inv(ps, a) && parent in a.nodes && |a.nodes[parent].path| < |query| && a.nodes[parent].path <= query
    requires query[..|a.nodes[parent].path| + 1] !in a.cache.contents
    ensures forall p {:trigger p in a.holder} :: p in a.holder ==> !(query[..|a.nodes[parent].path| + 1] <= p)
    ensures Longest(a.cache.contents, query) == |a.nodes[parent].path|
  {
    var up := a.nodes[parent];
    CacheWellFormed(ps, a);
    forall p | p in a.holder ensures !(query[..|up.path| + 1] <= p) {
      assert Entry(a, p);
    }
    forall j | 0 < j <= |up.path| ensures query[..j] in a.cache.contents {
      StoredUnder(ps, a, parent, query[..j]);
    }
    LongestUnique(a.cache.contents, query, |up.path|);
  }

  lemma AppendUnpinned(ps: Params, a: Arena, parent: int, query: Prefix)
    requires Inv(ps, a) && parent in a.nodes && |a.nodes[parent].path| < |query| && a.nodes[parent].path <= query
    requires query[..|a.nodes[parent].path| + 1] !in a.cache.contents
    ensures PinsThrough(a.cache.pins, query) == 0
    ensures forall pin :: pin in a.cache.pins ==> !(query[..|a.nodes[parent].path| + 1] <= pin)
  {
    AppendMissing(ps, a, parent, query);
    PinsThroughZero(a.cache.pins, query);
    forall pin | pin in a.cache.pins ensures !(query <= pin) && !(query[..|a.nodes[parent].path| + 1] <= pin) {
      assert PinnedNode(a, pin);
    }
  }

  ghost function AppendedNodes(nodes: map<int, NodeRec>, newId: int, rec: NodeRec): map<int, NodeRec>
    requires rec.parent in nodes && |nodes[rec.parent].path| < |rec.path|
  {
    var up := nodes[rec.parent];
    nodes[newId := rec][rec.parent := up.(children := up.children[rec.path[|up.path|] := newId])]
  }

  lemma AppendShape(ps: Params, nodes: map<int, NodeRec>, newId: int, rec: NodeRec)
    requires ShapeOf(ps, nodes) && newId !in nodes && rec.parent in nodes && NodeOk(ps, rec)
    requires rec.depth == |nodes[rec.parent].path| < |rec.path| && nodes[rec.parent].path <= rec.path
    requires rec.path[rec.depth] !in nodes[rec.parent].children && rec.children == map[]
    ensures ShapeOf(ps, AppendedNodes(nodes, newId, rec))
  {
    var b := AppendedNodes(nodes, newId, rec);
    forall i {:trigger NodeOk(ps, b[i])} | i in b ensures NodeOk(ps, b[i]) {
      assert i != newId ==> NodeOk(ps, nodes[i]);
    }
    forall j {:trigger Linked(b, j)} | j in b && j != ROOT ensures Linked(b, j) {
      assert j != newId ==> Linked(nodes, j);
    }
    forall j, q {:trigger ChildOk(b, j, q)} | j in b && q in b[j].children ensures ChildOk(b, j, q) {
      if j != rec.parent || q != rec.path[rec.depth] { assert ChildOk(nodes, j, q); }
    }
  }

  lemma NoSuchChild(ps: Params, a: Arena, parent: int, query: Prefix)
    requires Inv(ps, a) && parent in a.nodes && |a.nodes[parent].path| < |query| && a.nodes[parent].path <= query
    requires query[..|a.nodes[parent].path| + 1] !in a.cache.contents
    ensures query[|a.nodes[parent].path|] !in a.nodes[parent].children
  {
    if query[|a.nodes[parent].path|] in a.nodes[parent].children {
      ChildStored(ps, a, parent, query[..|a.nodes[parent].path| + 1]);
    }
  }

  lemma ChildStored(ps: Params, a: Arena, i: int, q: Prefix)
    requires Inv(ps, a) && i in a.nodes && |q| == |a.nodes[i].path| + 1 && a.nodes[i].path <= q
    requires q[|a.nodes[i].path|] in a.nodes[i].children
    ensures Entry(a, q)
  {
    var k := q[|a.nodes[i].path|];
    assert ChildOk(a.nodes, i, k);
    var c := a.nodes[i].children[k];
    assert Linked(a.nodes, c);
    assert a.nodes[c].path[..|q|] == a.nodes[i].path + [k] == q;
    assert Owned(a, c, q);
  }

  lemma AppendIndex(ps: Params, a: Arena, newId: int, rec: NodeRec, columns: seq<Column>)
    requires CanAppend(ps, a, newId, rec, columns)
    ensures Index(Appended(a, newId, rec, columns))
  {
    var b := Appended(a, newId, rec, columns);
    AppendMissing(ps, a, rec.parent, rec.path);
    forall j, p {:trigger Owned(b, j, p)} | j in b.nodes ensures Owned(b, j, p) {
      assert j != newId ==> Owned(a, j, p);
      assert p in LongerPrefixes(rec.path, rec.depth) ==> rec.path[..rec.depth + 1] <= p;
    }
    forall p {:trigger Entry(b, p)} | p in b.holder || p in b.cache.contents ensures Entry(b, p) {
      AppendEntry(ps, a, newId, rec, columns, p);
    }
  }

  lemma AppendEntry(ps: Params, a: Arena, newId: int, rec: NodeRec, columns: seq<Column>, p: Prefix)
    requires CanAppend(ps, a, newId, rec, columns)
    requires p in Appended(a, newId, rec, columns).holder || p in Appended(a, newId, rec, columns).cache.contents
    ensures Entry(Appended(a, newId, rec, columns), p)
  {
    if rec.Holds(p) {
      AppendMissing(ps, a, rec.parent, rec.path);
      assert rec.path[..rec.depth + 1] <= p;
      assert p in a.cache.contents ==> Entry(a, p);
      NewColumn(ps, rec, columns, p);
      NewEntry(a, newId, rec, columns, p);
    } else {
      if p !in a.cache.contents && p !in a.holder { StoredUnder(ps, a, rec.parent, p); }
      assert Entry(a, p);
      KeptEntry(a, newId, rec, columns, p);
    }
  }

  lemma NewColumn(ps: Params, rec: NodeRec, columns: seq<Column>, p: Prefix)
    requires NodeOk(ps, rec) && rec.Holds(p) && |rec.path| == |columns|
    requires forall j :: rec.depth <= j < |rec.path| ==> |columns[j]| == |rec.ids|
    requires forall j, l :: rec.depth <= j < |rec.path| && 0 <= l < |rec.ids| ==> columns[j][l] == rec.ids[l][j - rec.depth]
    ensures ColumnOk(rec, p, columns[|p| - 1])
  {
  }

  lemma NewEntry(a: Arena, newId: int, rec: NodeRec, columns: seq<Column>, p: Prefix)
    requires rec.parent in a.nodes && |a.nodes[rec.parent].path| < |rec.path| <= |columns| && newId != rec.parent
    requires rec.Holds(p) && p !in a.cache.contents && ColumnOk(rec, p, columns[|p| - 1])
    ensures Entry(Appended(a, newId, rec, columns), p)
  {
    var b := Appended(a, newId, rec, columns);
    assert b.cache.contents[p] == columns[|p| - 1];
    assert p in LongerPrefixes(rec.path, rec.depth) && b.holder[p] == newId;
  }

  lemma KeptEntry(a: Arena, newId: int, rec: NodeRec, columns: seq<Column>, p: Prefix)
    requires rec.parent in a.nodes && |a.nodes[rec.parent].path| < |rec.path| <= |columns| && rec.depth <= |rec.path|
    requires Entry(a, p) && !rec.Holds(p) && newId !in a.nodes
    ensures Entry(Appended(a, newId, rec, columns), p)
  {
    var b := Appended(a, newId, rec, columns);
    var h := a.holder[p];
    assert b.cache.contents[p] == a.cache.contents[p] && b.holder[p] == h;
    SameColumn(a.nodes[h], b.nodes[h], p, a.cache.contents[p]);
  }

  lemma SameColumn(m: NodeRec, n: NodeRec, p: Prefix, column: Column)
    requires m.Holds(p) && ColumnOk(m, p, column) && n.depth == m.depth && n.path == m.path && n.ids == m.ids
    ensures n.Holds(p) && ColumnOk(n, p, column)
  {
  }

  ghost predicate CanRemove(ps: Params, a: Arena, leaf: int)
  {
    Inv(ps, a) && leaf in a.nodes && leaf != ROOT && a.nodes[leaf].children == map[] && a.nodes[leaf].refs == 0
    && a.nodes[leaf].depth <= |a.nodes[leaf].path|
  }

  ghost function RemovedLeaf(ps: Params, a: Arena, leaf: int): Arena
    requires CanRemove(ps, a, leaf)
  {
    assert Linked(a.nodes, leaf);
    var n := a.nodes[leaf];
    var up := a.nodes[n.parent];
    Arena(a.nodes[n.parent := up.(children := up.children - {n.path[n.depth]})] - {leaf},
          map p | p in a.holder && a.holder[p] != leaf :: a.holder[p],
          a.cache.(contents := a.cache.contents - LongerPrefixes(n.path, n.depth)))
  }

  lemma RemoveKeeps(ps: Params, a: Arena, leaf: int)
    requires CanRemove(ps, a, leaf)
    ensures Inv(ps, RemovedLeaf(ps, a, leaf))
    ensures var removed := LongerPrefixes(a.nodes[leaf].path, a.nodes[leaf].depth);
      && WellFormed(a.cache) && Enabled(a.cache, Erase(removed))
      && RemovedLeaf(ps, a, leaf).cache == Apply(a.cache, Erase(removed))
  {
    var b := RemovedLeaf(ps, a, leaf);
    CacheWellFormed(ps, a);
    RemoveEnabled(ps, a, leaf);
    RemoveShape(ps, a, leaf);
    RemoveIndex(ps, a, leaf);
    assert Linked(a.nodes, leaf);
    forall i {:trigger CountOk(b, i)} | i in b.nodes && i != ROOT ensures CountOk(b, i) { assert CountOk(a, i); }
    forall pin {:trigger PinnedNode(b, pin)} | pin in b.cache.pins ensures PinnedNode(b, pin) {
      RemovePin(ps, a, leaf, pin);
    }
  }

  lemma RemovePin(ps: Params, a: Arena, leaf: int, pin: Prefix)
    requires CanRemove(ps, a, leaf) && pin in a.cache.pins
    ensures PinnedNode(RemovedLeaf(ps, a, leaf), pin)
  {
    var n := a.nodes[leaf];
    assert PinnedNode(a, pin) && Linked(a.nodes, leaf) && CountOk(a, leaf);
    PinsThroughZero(a.cache.pins, n.path);
    assert n.path <= n.path;
  }

  lemma RemoveShape(ps: Params, a: Arena, leaf: int)
    requires CanRemove(ps, a, leaf)
    ensures Shape(ps, RemovedLeaf(ps, a, leaf))
  {
    var b := RemovedLeaf(ps, a, leaf);
    assert Linked(a.nodes, leaf);
    forall i {:trigger NodeOk(ps, b.nodes[i])} | i in b.nodes ensures NodeOk(ps, b.nodes[i]) {
      assert NodeOk(ps, a.nodes[i]);
    }
    forall j {:trigger Linked(b.nodes, j)} | j in b.nodes && j != ROOT ensures Linked(b.nodes, j) { assert Linked(a.nodes, j); }
    forall j, q {:trigger ChildOk(b.nodes, j, q)} | j in b.nodes && q in b.nodes[j].children ensures ChildOk(b.nodes, j, q) {
      assert ChildOk(a.nodes, j, q);
    }
  }

  lemma RemoveIndex(ps: Params, a: Arena, leaf: int)
    requires CanRemove(ps, a, leaf)
    ensures Index(RemovedLeaf(ps, a, leaf))
  {
    var n := a.nodes[leaf];
    var b := RemovedLeaf(ps, a, leaf);
    assert Linked(a.nodes, leaf);
    forall j, p {:trigger Owned(b, j, p)} | j in b.nodes ensures Owned(b, j, p) { assert Owned(a, j, p); }
    forall p {:trigger Entry(b, p)} | p in b.holder || p in b.cache.contents ensures Entry(b, p) {
      assert Entry(a, p) && Owned(a, leaf, p);
      assert n.Holds(p) <==> p in LongerPrefixes(n.path, n.depth);
    }
  }

  /** A leaf's prefixes are unpinned, and nothing stored extends them except each other. */
  lemma RemoveEnabled(ps: Params, a: Arena, leaf: int)
    requires CanRemove(ps, a, leaf)
    ensures Enabled(a.cache, Erase(LongerPrefixes(a.nodes[leaf].path, a.nodes[leaf].depth)))
  {
    var n := a.nodes[leaf];
    var removed := LongerPrefixes(n.path, n.depth);
    forall p | p in removed ensures p in Evictable(a.cache.contents, a.cache.pins) {
      assert Owned(a, leaf, p) && Entry(a, p);
      PinsAcrossSplit(ps, a, leaf, p);
    }
    forall p, q | p in removed && q in a.cache.contents && p <= q ensures q in removed {
      assert Entry(a, q);
      Ancestor(ps, a, leaf, p, a.holder[q]);
      if |q| > |n.path| {
        assert n.path <= q;
        ChildKey(ps, a, leaf, q);
      }
    }
  }

  /** Pin counts along the path to `p` changed by `d`. */
  ghost function Counted(nodes: map<int, NodeRec>, p: Prefix, d: int): map<int, NodeRec>
  {
    map i | i in nodes :: if i != ROOT && nodes[i].path <= p then nodes[i].(refs := nodes[i].refs + d) else nodes[i]
  }

  ghost function Pinned(a: Arena, leaf: int): Arena
    requires leaf in a.nodes
  {
    a.(nodes := Counted(a.nodes, a.nodes[leaf].path, 1), cache := a.cache.(pins := a.cache.pins + [a.nodes[leaf].path]))
  }

  ghost function Unpinned(a: Arena, leaf: int): Arena
    requires leaf in a.nodes && a.nodes[leaf].path in a.cache.pins
  {
    a.(nodes := Counted(a.nodes, a.nodes[leaf].path, -1),
       cache := a.cache.(pins := DropPin(a.cache.pins, a.nodes[leaf].path)))
  }

  lemma CountedKeepsShape(ps: Params, a: Arena, p: Prefix, d: int, cache: Cache)
    requires Inv(ps, a) && cache.contents == a.cache.contents
    ensures var b := a.(nodes := Counted(a.nodes, p, d), cache := cache); Shape(ps, b) && Index(b)
  {
    var b := a.(nodes := Counted(a.nodes, p, d), cache := cache);
    forall i {:trigger NodeOk(ps, b.nodes[i])} | i in b.nodes ensures NodeOk(ps, b.nodes[i]) {
      assert NodeOk(ps, a.nodes[i]);
    }
    forall j {:trigger Linked(b.nodes, j)} | j in b.nodes && j != ROOT ensures Linked(b.nodes, j) { assert Linked(a.nodes, j); }
    forall j, k {:trigger ChildOk(b.nodes, j, k)} | j in b.nodes && k in b.nodes[j].children ensures ChildOk(b.nodes, j, k) {
      assert ChildOk(a.nodes, j, k);
    }
    forall j, q {:trigger Owned(b, j, q)} | j in b.nodes ensures Owned(b, j, q) { assert Owned(a, j, q); }
    forall q {:trigger Entry(b, q)} | q in b.holder || q in b.cache.contents ensures Entry(b, q) {
      assert Entry(a, q);
    }
  }

  lemma PinKeeps(ps: Params, a: Arena, leaf: int)
    requires Inv(ps, a) && leaf in a.nodes && leaf != ROOT
    ensures Inv(ps, Pinned(a, leaf)) && a.nodes[leaf].path in a.cache.contents
  {
    var b := Pinned(a, leaf);
    var p := a.nodes[leaf].path;
    assert Linked(a.nodes, leaf) && p <= p;
    assert Owned(a, leaf, p) && Entry(a, p);
    CountedKeepsShape(ps, a, p, 1, b.cache);
    forall i {:trigger CountOk(b, i)} | i in b.nodes && i != ROOT ensures CountOk(b, i) {
      assert CountOk(a, i);
      PinsThroughAppend(a.cache.pins, p, a.nodes[i].path);
    }
    forall pin {:trigger PinnedNode(b, pin)} | pin in b.cache.pins ensures PinnedNode(b, pin) {
      if pin != p { assert PinnedNode(a, pin); }
    }
  }

  lemma UnpinKeeps(ps: Params, a: Arena, leaf: int)
    requires Inv(ps, a) && leaf in a.nodes && leaf != ROOT && a.nodes[leaf].path in a.cache.pins
    ensures Inv(ps, Unpinned(a, leaf))
  {
    var b := Unpinned(a, leaf);
    var p := a.nodes[leaf].path;
    CountedKeepsShape(ps, a, p, -1, b.cache);
    forall i {:trigger CountOk(b, i)} | i in b.nodes && i != ROOT ensures CountOk(b, i) {
      assert CountOk(a, i);
      PinsThroughDrop(a.cache.pins, p, a.nodes[i].path);
    }
    StillPinned(a, b, p);
  }

  // ---------- Counting down a path that is not pinned ----------

  /** Pins that go beyond `p` with a block of `keys`. */
  ghost function PinsBeyond(pins: seq<Prefix>, p: Prefix, keys: set<Block>): nat
  {
    if pins == [] then 0
    else (if p <= pins[0] && |p| < |pins[0]| && pins[0][|p|] in keys then 1 else 0) + PinsBeyond(pins[1..], p, keys)
  }

  lemma {:induction false} PinsBeyondOne(pins: seq<Prefix>, p: Prefix, keys: set<Block>, k: Block)
    requires k in keys
    ensures PinsBeyond(pins, p, keys) == PinsBeyond(pins, p, keys - {k}) + PinsThrough(pins, p + [k])
  {
    if pins != [] {
      PinsBeyondOne(pins[1..], p, keys, k);
      assert p + [k] <= pins[0] <==> p <= pins[0] && |p| < |pins[0]| && pins[0][|p|] == k;
    }
  }

  lemma {:induction false} PinsBeyondAtMost(pins: seq<Prefix>, p: Prefix, keys: set<Block>)
    ensures PinsBeyond(pins, p, keys) <= PinsThrough(pins, p)
    ensures (forall pin :: pin in pins && p <= pin ==> |p| < |pin| && pin[|p|] in keys) ==>
              PinsBeyond(pins, p, keys) == PinsThrough(pins, p)
  {
    if pins != [] {
      PinsBeyondAtMost(pins[1..], p, keys);
      assert pins[0] in pins;
      assert forall pin :: pin in pins[1..] ==> pin in pins;
    }
  }

  /** The counts of the children of node `i` under `keys`, added up. */
  ghost function ChildRefs(nodes: map<int, NodeRec>, i: int, keys: set<Block>): int
    requires i in nodes && forall k :: k in keys ==> k in nodes[i].children && nodes[i].children[k] in nodes
  {
    if keys == {} then 0 else
      var k :| k in keys;
      nodes[nodes[i].children[k]].refs + ChildRefs(nodes, i, keys - {k})
  }

  lemma {:induction false} ChildRefsSame(nodes: map<int, NodeRec>, other: map<int, NodeRec>, i: int, keys: set<Block>)
    requires i in nodes && i in other && nodes[i].children == other[i].children
    requires forall k :: k in keys ==> k in nodes[i].children && nodes[i].children[k] in nodes && nodes[i].children[k] in other
    requires forall k :: k in keys ==> nodes[nodes[i].children[k]].refs == other[nodes[i].children[k]].refs
    ensures ChildRefs(nodes, i, keys) == ChildRefs(other, i, keys)
  {
    if keys != {} {
      var k :| k in keys && ChildRefs(nodes, i, keys) == nodes[nodes[i].children[k]].refs + ChildRefs(nodes, i, keys - {k})
        && ChildRefs(other, i, keys) == other[other[i].children[k]].refs + ChildRefs(other, i, keys - {k});
      ChildRefsSame(nodes, other, i, keys - {k});
    }
  }

  /** A child's count is the number of pins that continue with its key. */
  lemma ChildCount(ps: Params, a: Arena, i: int, k: Block)
    requires Inv(ps, a) && i in a.nodes && k in a.nodes[i].children
    ensures a.nodes[i].children[k] in a.nodes
    ensures a.nodes[a.nodes[i].children[k]].refs == PinsThrough(a.cache.pins, a.nodes[i].path + [k])
  {
    assert ChildOk(a.nodes, i, k);
    var c := a.nodes[i].children[k];
    assert Linked(a.nodes, c);
    assert a.nodes[c].path[..|a.nodes[i].path| + 1] == a.nodes[i].path + [k];
    PinsAcrossSplit(ps, a, c, a.nodes[i].path + [k]);
  }

  lemma {:induction false} ChildrenCount(ps: Params, a: Arena, i: int, keys: set<Block>)
    requires Inv(ps, a) && i in a.nodes && keys <= a.nodes[i].children.Keys
    ensures forall k :: k in keys ==> k in a.nodes[i].children && a.nodes[i].children[k] in a.nodes
    ensures ChildRefs(a.nodes, i, keys) == PinsBeyond(a.cache.pins, a.nodes[i].path, keys)
  {
    forall k | k in keys ensures k in a.nodes[i].children && a.nodes[i].children[k] in a.nodes { ChildCount(ps, a, i, k); }
    if keys != {} {
      var k :| k in keys && ChildRefs(a.nodes, i, keys) == a.nodes[a.nodes[i].children[k]].refs + ChildRefs(a.nodes, i, keys - {k});
      ChildrenCount(ps, a, i, keys - {k});
      ChildCount(ps, a, i, k);
      PinsBeyondOne(a.cache.pins, a.nodes[i].path, keys, k);
    } else {
      NoKeys(a.cache.pins, a.nodes[i].path);
    }
  }

  lemma {:induction false} NoKeys(pins: seq<Prefix>, p: Prefix)
    ensures PinsBeyond(pins, p, {}) == 0
  {
    if pins != [] { NoKeys(pins[1..], p); }
  }

  /** A node counts at least what its children count, and exactly that if it is not itself pinned. */
  lemma CountAboveChildren(ps: Params, a: Arena, i: int)
    requires Inv(ps, a) && i in a.nodes && i != ROOT
    ensures forall k :: k in a.nodes[i].children.Keys ==> a.nodes[i].children[k] in a.nodes
    ensures a.nodes[i].refs >= ChildRefs(a.nodes, i, a.nodes[i].children.Keys)
    ensures a.nodes[i].path !in a.cache.pins ==> a.nodes[i].refs == ChildRefs(a.nodes, i, a.nodes[i].children.Keys)
  {
    var p := a.nodes[i].path;
    assert CountOk(a, i);
    ChildrenCount(ps, a, i, a.nodes[i].children.Keys);
    PinsBeyondAtMost(a.cache.pins, p, a.nodes[i].children.Keys);
    CacheWellFormed(ps, a);
    if p !in a.cache.pins {
      forall pin | pin in a.cache.pins && p <= pin ensures |p| < |pin| && pin[|p|] in a.nodes[i].children {
        assert p != pin;
        ChildKey(ps, a, i, pin);
      }
    }
  }

  /** Counting down the path of a node that is not itself pinned leaves counts that no list of pins explains. */
  lemma UnpinnedTooOften(ps: Params, a: Arena, leaf: int, b: Arena)
    requires Inv(ps, a) && leaf in a.nodes && leaf != ROOT && a.nodes[leaf].path !in a.cache.pins
    requires b.nodes == Counted(a.nodes, a.nodes[leaf].path, -1)
    ensures !Inv(ps, b)
  {
    var keys := a.nodes[leaf].children.Keys;
    CountAboveChildren(ps, a, leaf);
    forall k | k in keys ensures a.nodes[a.nodes[leaf].children[k]].refs == b.nodes[a.nodes[leaf].children[k]].refs {
      assert ChildOk(a.nodes, leaf, k);
    }
    ChildRefsSame(a.nodes, b.nodes, leaf, keys);
    if Inv(ps, b) { CountAboveChildren(ps, b, leaf); }
  }

  /** What stays pinned was pinned. */
  lemma StillPinned(a: Arena, b: Arena, p: Prefix)
    requires p in a.cache.pins && b.holder == a.holder && b.cache.pins == DropPin(a.cache.pins, p)
    requires forall pin {:trigger PinnedNode(a, pin)} :: pin in a.cache.pins ==> PinnedNode(a, pin)
    requires forall i :: i in a.nodes ==> i in b.nodes && b.nodes[i].path == a.nodes[i].path
    ensures forall pin {:trigger PinnedNode(b, pin)} :: pin in b.cache.pins ==> PinnedNode(b, pin)
  {
    PinsThroughDrop(a.cache.pins, p, p);
    forall pin {:trigger PinnedNode(b, pin)} | pin in b.cache.pins ensures PinnedNode(b, pin) {
      assert pin in multiset(b.cache.pins) && pin in multiset(a.cache.pins);
      assert PinnedNode(a, pin);
      var i := a.holder[pin];
      assert i in a.nodes && a.nodes[i].path == pin;
    }
  }

  // ---------- Payloads along a path ----------

  /** Appending the first `k` ids of a node's segment extends the payloads of a query that runs along it. */
  lemma ExtendPayloads(ps: Params, a: Arena, i: int, ids: seq<seq<Payload>>, longer: seq<seq<Payload>>,
                       query: Prefix, c: nat, k: nat)
    requires Shape(ps, a) && Index(a) && i in a.nodes && a.nodes[i].depth == c && k <= |a.nodes[i].path| - c
    requires c + k <= |query| && query[..c + k] == a.nodes[i].path[..c + k]
    requires PayloadsAre(ids, a.cache.contents, query, c, ps.layers)
    requires |longer| == |ids| == |a.nodes[i].ids|
    requires forall l :: 0 <= l < |ids| ==> k <= |a.nodes[i].ids[l]| && longer[l] == ids[l] + a.nodes[i].ids[l][..k]
    ensures PayloadsAre(longer, a.cache.contents, query, c + k, ps.layers)
  {
    var n := a.nodes[i];
    assert NodeOk(ps, n);
    forall j | 0 < j <= c + k
      ensures query[..j] in a.cache.contents && |a.cache.contents[query[..j]]| == ps.layers
      ensures forall l :: 0 <= l < ps.layers ==> longer[l][j - 1] == a.cache.contents[query[..j]][l]
    {
      if j > c {
        assert query[..j] == query[..c + k][..j] == n.path[..j];
        assert Owned(a, i, query[..j]) && Entry(a, query[..j]);
      }
    }
  }

  lemma PayloadsOfPrefix(ids: seq<seq<Payload>>, contents: map<Prefix, Column>, query: Prefix, k: nat, layers: nat)
    requires k <= |query| && PayloadsAre(ids, contents, query[..k], k, layers)
    ensures PayloadsAre(ids, contents, query, k, layers)
  {
    forall j | 0 < j <= k ensures query[..k][..j] == query[..j] {}
  }

  /** Two nodes on one path whose ends fall in the same segment are the same node. */
  lemma OnePerSegment(ps: Params, a: Arena, i: int, m: int, p: Prefix)
    requires Shape(ps, a) && Index(a) && i in a.nodes && m in a.nodes
    requires a.nodes[i].path <= p && a.nodes[m].path <= p
    requires a.nodes[m].depth < |a.nodes[i].path| <= |a.nodes[m].path|
    ensures i == m
  {
    OneHolder(ps, a, m, i);
  }

  // ---------- Subtrees ----------

  /** The nodes at or below node `i`. */
  ghost function Sub(a: Arena, i: int): (s: set<int>)
    requires i in a.nodes
    ensures i in s
  {
    set j | j in a.nodes && a.nodes[i].path <= a.nodes[j].path
  }

  /** Every other node of a subtree lies below the child that its path continues into. */
  lemma SubStep(ps: Params, a: Arena, i: int, j: int)
    requires Shape(ps, a) && Index(a) && i in a.nodes && j in Sub(a, i) && j != i
    ensures var d := |a.nodes[i].path|;
      && d < |a.nodes[j].path| && a.nodes[j].path[d] in a.nodes[i].children
      && a.nodes[i].children[a.nodes[j].path[d]] in a.nodes
      && j in Sub(a, a.nodes[i].children[a.nodes[j].path[d]])
  {
    var p, d := a.nodes[j].path, |a.nodes[i].path|;
    if |p| == d {
      SamePath(ps, a, i, j);
    }
    StoredUnder(ps, a, j, p);
    ChildKey(ps, a, i, p);
    var c := a.nodes[i].children[p[d]];
    assert ChildOk(a.nodes, i, p[d]) && Linked(a.nodes, c);
    assert a.nodes[c].path[..d + 1] == a.nodes[c].path[..d] + [p[d]] == p[..d + 1];
    assert a.nodes[c].Holds(p[..d + 1]);
    Ancestor(ps, a, c, p[..d + 1], j);
  }

  lemma SubOfChild(ps: Params, a: Arena, i: int, k: Block)
    requires Shape(ps, a) && i in a.nodes && k in a.nodes[i].children
    ensures a.nodes[i].children[k] in a.nodes
    ensures Sub(a, a.nodes[i].children[k]) < Sub(a, i)
    ensures forall j :: j in Sub(a, a.nodes[i].children[k]) ==>
              |a.nodes[j].path| > |a.nodes[i].path| && a.nodes[j].path[|a.nodes[i].path|] == k
  {
    var c := a.nodes[i].children[k];
    assert ChildOk(a.nodes, i, k) && Linked(a.nodes, c);
    assert a.nodes[i].path <= a.nodes[c].path && !(a.nodes[c].path <= a.nodes[i].path);
  }

  /** Node `i` and those of its children's subtrees whose key is not in `keys`. */
  ghost function SeenSub(a: Arena, i: int, keys: set<Block>): set<int>
    requires i in a.nodes
  {
    set j | j in Sub(a, i) && (j == i || (|a.nodes[i].path| < |a.nodes[j].path| && a.nodes[j].path[|a.nodes[i].path|] !in keys))
  }

  lemma SeenStart(ps: Params, a: Arena, i: int)
    requires Shape(ps, a) && Index(a) && i in a.nodes
    ensures SeenSub(a, i, a.nodes[i].children.Keys) == {i}
    ensures SeenSub(a, i, {}) == Sub(a, i)
  {
    forall j | j in Sub(a, i) && j != i
      ensures j !in SeenSub(a, i, a.nodes[i].children.Keys) && j in SeenSub(a, i, {})
    {
      SubStep(ps, a, i, j);
    }
  }

  lemma SeenStep(ps: Params, a: Arena, i: int, keys: set<Block>, k: Block)
    requires Shape(ps, a) && Index(a) && i in a.nodes && keys <= a.nodes[i].children.Keys && k in keys
    ensures a.nodes[i].children[k] in a.nodes
    ensures SeenSub(a, i, keys - {k}) == SeenSub(a, i, keys) + Sub(a, a.nodes[i].children[k])
    ensures SeenSub(a, i, keys) !! Sub(a, a.nodes[i].children[k])
  {
    SubOfChild(ps, a, i, k);
    forall j | j in SeenSub(a, i, keys - {k}) ensures j in SeenSub(a, i, keys) + Sub(a, a.nodes[i].children[k]) {
      if j != i { SubStep(ps, a, i, j); }
    }
  }

  /** The prefixes stored in the segments of `s`. */
  ghost function StoredIn(a: Arena, s: set<int>): set<Prefix>
  {
    set p | p in a.holder && a.holder[p] in s
  }

  ghost function EvictIn(a: Arena, s: set<int>): set<Prefix>
  {
    set p | p in StoredIn(a, s) && PinsThrough(a.cache.pins, p) == 0
  }

  lemma StoredUnion(a: Arena, s: set<int>, t: set<int>)
    requires s !! t
    ensures StoredIn(a, s + t) == StoredIn(a, s) + StoredIn(a, t) && StoredIn(a, s) !! StoredIn(a, t)
    ensures |EvictIn(a, s + t)| == |EvictIn(a, s)| + |EvictIn(a, t)|
  {
    assert EvictIn(a, s + t) == EvictIn(a, s) + EvictIn(a, t);
    assert EvictIn(a, s) !! EvictIn(a, t);
  }

  lemma StoredInNode(ps: Params, a: Arena, i: int)
    requires Inv(ps, a) && i in a.nodes
    ensures a.nodes[i].depth <= |a.nodes[i].path|
    ensures StoredIn(a, {i}) == LongerPrefixes(a.nodes[i].path, a.nodes[i].depth)
    ensures |EvictIn(a, {i})| == if i != ROOT && a.nodes[i].refs == 0 then |a.nodes[i].path| - a.nodes[i].depth else 0
  {
    var n := a.nodes[i];
    assert NodeOk(ps, n);
    forall p ensures p in StoredIn(a, {i}) <==> p in LongerPrefixes(n.path, n.depth) {
      assert Owned(a, i, p);
      assert p in a.holder ==> Entry(a, p);
    }
    forall p | p in StoredIn(a, {i}) ensures i != ROOT && PinsThrough(a.cache.pins, p) == n.refs {
      assert n.Holds(p);
      PinsAcrossSplit(ps, a, i, p);
    }
    assert EvictIn(a, {i}) == if i != ROOT && n.refs == 0 then StoredIn(a, {i}) else {};
  }

  /** The whole tree stores the whole map. */
  lemma StoredInRoot(ps: Params, a: Arena)
    requires Inv(ps, a)
    ensures Sub(a, ROOT) == a.nodes.Keys
    ensures StoredIn(a, Sub(a, ROOT)) == a.cache.contents.Keys
    ensures EvictIn(a, Sub(a, ROOT)) == Evictable(a.cache.contents, a.cache.pins)
  {
    forall p ensures p in StoredIn(a, Sub(a, ROOT)) <==> p in a.cache.contents {
      assert p in a.holder || p in a.cache.contents ==> Entry(a, p);
    }
  }

  ghost predicate EvictableLeaf(a: Arena, i: int)
  {
    i in a.nodes && i != ROOT && a.nodes[i].children == map[] && a.nodes[i].refs == 0
  }

  /** Below every unpinned node there is an evictable leaf. */
  lemma {:induction false} LeafBelow(ps: Params, a: Arena, i: int) returns (leaf: int)
    requires Inv(ps, a) && i in a.nodes && i != ROOT && a.nodes[i].refs == 0
    ensures EvictableLeaf(a, leaf)
    decreases Sub(a, i)
  {
    leaf := i;
    if a.nodes[i].children != map[] {
      var k :| k in a.nodes[i].children;
      SubOfChild(ps, a, i, k);
      var c := a.nodes[i].children[k];
      assert ChildOk(a.nodes, i, k) && Linked(a.nodes, c) && CountOk(a, i) && CountOk(a, c);
      PinsThroughMonotone(a.cache.pins, a.nodes[i].path, a.nodes[c].path);
      leaf := LeafBelow(ps, a, c);
    }
  }

  /** Eviction can go on exactly as long as an unpinned prefix is stored. */
  lemma EvictionStops(ps: Params, a: Arena)
    requires Inv(ps, a)
    ensures (exists i :: EvictableLeaf(a, i)) <==> Evictable(a.cache.contents, a.cache.pins) != {}
  {
    if i :| EvictableLeaf(a, i) {
      StoredInNode(ps, a, i);
      StoredInRoot(ps, a);
      assert Linked(a.nodes, i);
      var p :| p in EvictIn(a, {i});
      assert Entry(a, p);
      assert p in Evictable(a.cache.contents, a.cache.pins);
    }
    if p :| p in Evictable(a.cache.contents, a.cache.pins) {
      assert Entry(a, p);
      var h := a.holder[p];
      PinsAcrossSplit(ps, a, h, p);
      var leaf := LeafBelow(ps, a, h);
    }
  }

  /** Only the root is left. */
  ghost function Cleared(a: Arena): Arena
    requires ROOT in a.nodes
  {
    Arena(map[ROOT := a.nodes[ROOT].(children := map[])], map[], Cache(map[], []))
  }

  lemma ClearedKeeps(ps: Params, a: Arena)
    requires Inv(ps, a)
    ensures Inv(ps, Cleared(a))
  {
    assert NodeOk(ps, a.nodes[ROOT]);
    assert NodeOk(ps, Cleared(a).nodes[ROOT]);
  }
}
