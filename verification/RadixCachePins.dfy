/** Who pins the radix tree: the cache manager keeps, for every request slot, the leaf that the slot has pinned.
    Whatever is matched, inserted or evicted in between, releasing that leaf never fails. */
module RadixCachePins {
  import opened CompressedRadixCacheTree
  import opened Division
  import opened Options
  import opened PrefixCacheSpec
  import opened RadixArena

  // ---------- Handles over whole runs ----------

  /** A moment in the life of a tree. */
  datatype Moment = Moment(nodes: set<Node>, arena: Arena)

  ghost predicate HandlesKeptAt(run: seq<Moment>, i: nat)
    requires 0 < i < |run|
  {
    HandlesKept(run[i - 1].nodes, run[i - 1].arena, run[i].nodes, run[i].arena)
  }

  lemma GrownKeepsHandles(before: set<Node>, a: Arena, after: set<Node>, b: Arena)
    requires OnlyGrown(before, a, after, b)
    ensures HandlesKept(before, a, after, b)
  {
  }

  /** A node whose path stays pinned stays in the tree, with that path, over every run of operations. */
  lemma {:induction false} PinnedHandleStays(run: seq<Moment>, n: Node, p: Prefix, i: nat)
    requires i < |run| && forall k :: 0 < k < |run| ==> HandlesKeptAt(run, k)
    requires n in run[0].nodes && n.id in run[0].arena.nodes && run[0].arena.nodes[n.id].path == p
    requires forall k :: 0 <= k < i ==> p in run[k].arena.cache.pins
    ensures n in run[i].nodes && n.id in run[i].arena.nodes && run[i].arena.nodes[n.id].path == p
    decreases i
  {
    if i > 0 {
      PinnedHandleStays(run, n, p, i - 1);
      assert HandlesKeptAt(run, i);
    }
  }

  // ---------- The manager's slots ----------

  ghost function PathOf(n: Node?, a: Arena): Option<Prefix>
  {
    if n == null || n.id !in a.nodes then None else Some(a.nodes[n.id].path)
  }

  /** The prefix each slot has pinned. */
  ghost function PathsOf(leaves: seq<Node?>, a: Arena): (s: seq<Option<Prefix>>)
    ensures |s| == |leaves|
  {
    seq(|leaves|, i requires 0 <= i < |leaves| => PathOf(leaves[i], a))
  }

  ghost predicate LeavesIn(leaves: seq<Node?>, nodes: set<Node>, root: Node)
  {
    forall i :: 0 <= i < |leaves| && leaves[i] != null ==> leaves[i] in nodes && leaves[i] != root
  }

  /** The outstanding pins are exactly those of the slots. */
  ghost predicate PinsMatch(pinned: seq<Option<Prefix>>, pins: seq<Prefix>)
  {
    forall p {:trigger multiset(pinned)[Some(p)]} :: multiset(pinned)[Some(p)] == multiset(pins)[p]
  }

  lemma PinnedKept(leaves: seq<Node?>, nodes: set<Node>, a: Arena, root: Node, later: set<Node>, b: Arena)
    requires LeavesIn(leaves, nodes, root) && HandlesKept(nodes, a, later, b)
    requires PinsMatch(PathsOf(leaves, a), a.cache.pins)
    ensures LeavesIn(leaves, later, root) && PathsOf(leaves, b) == PathsOf(leaves, a)
  {
    forall i | 0 <= i < |leaves| && leaves[i] != null
      ensures leaves[i] in later && leaves[i] != root && PathOf(leaves[i], b) == PathOf(leaves[i], a)
    {
      var p := a.nodes[leaves[i].id].path;
      assert PathsOf(leaves, a)[i] == Some(p);
      assert multiset(PathsOf(leaves, a))[Some(p)] > 0;
      assert p in a.cache.pins && leaves[i] in nodes;
    }
  }

  lemma PinsMatchAfterPin(pinned: seq<Option<Prefix>>, pins: seq<Prefix>, i: nat, p: Prefix)
    requires PinsMatch(pinned, pins) && i < |pinned| && pinned[i] == None
    ensures PinsMatch(pinned[i := Some(p)], pins + [p])
  {
  }

  lemma PinsMatchAfterUnpin(pinned: seq<Option<Prefix>>, pins: seq<Prefix>, i: nat, p: Prefix)
    requires PinsMatch(pinned, pins) && i < |pinned| && pinned[i] == Some(p) && p in pins
    ensures PinsMatch(pinned[i := None], DropPin(pins, p))
  {
    PinsThroughDrop(pins, p, p);
  }

  /** If no slot has pinned anything, no pin is outstanding. */
  lemma NothingPinned(pinned: seq<Option<Prefix>>, pins: seq<Prefix>)
    requires PinsMatch(pinned, pins) && forall i :: 0 <= i < |pinned| ==> pinned[i] == None
    ensures pins == []
  {
    forall p ensures multiset(pins)[p] == 0 {
      assert multiset(pinned)[Some(p)] == 0;
    }
    assert multiset(pins) == multiset{};
    assert |pins| == |multiset(pins)|;
  }

  class KVCacheManager {
    const tree: Tree
    /** The leaf each request slot has pinned, if any. */
    var leaves: seq<Node?>

    ghost function Pinned(): seq<Option<Prefix>>
      reads this, tree`arena
    {
      PathsOf(leaves, tree.arena)
    }

    ghost predicate Valid()
      reads this, tree, tree.nodes
    {
      tree.Valid() && LeavesIn(leaves, tree.nodes, tree.root) && PinsMatch(Pinned(), tree.Abs().pins)
    }

    constructor (blockSize: int, numLayers: nat)
      requires blockSize > 0 && numLayers > 0
      ensures Valid() && fresh(tree) && fresh(tree.nodes) && leaves == []
    {
      tree := new Tree.Empty(blockSize, numLayers);
      leaves := [];
    }

    /** A slot that has pinned a leaf finds its prefix stored in full, and its leaf in the tree. */
    lemma SlotIsServed(i: nat)
      requires Valid() && i < |leaves| && leaves[i] != null
      ensures leaves[i] in tree.nodes && leaves[i].id in tree.arena.nodes
      ensures tree.Path(leaves[i]) in tree.Abs().pins
      ensures Longest(tree.Abs().contents, tree.Path(leaves[i])) == |tree.Path(leaves[i])|
    {
      tree.NodesAreRecorded();
      var p := tree.Path(leaves[i]);
      assert Pinned()[i] == Some(p);
      assert multiset(Pinned())[Some(p)] > 0;
      CacheWellFormed(tree.Ps(), tree.arena);
      LongestIsGreatest(tree.Abs().contents, p, |p|);
      assert p[..|p|] == p;
    }

    method NewSlot() returns (i: nat)
      requires Valid()
      modifies this
      ensures Valid() && i == |old(leaves)| && Pinned() == old(Pinned()) + [None]
    {
      i := |leaves|;
      leaves := leaves + [null];
      assert Pinned() == old(Pinned()) + [None];
    }

    /** Attach a slot to a stored prefix: match it and pin the leaf, unless one of its pages cannot be acquired
        or less than the whole is stored. */
    method FinishRestore(i: nat, tokens: seq<Token>, acquired: bool) returns (ok: bool)
      requires Valid() && i < |leaves| && leaves[i] == null && |tokens| > 0
      modifies this, tree, tree.nodes
      ensures Valid() && fresh(tree.nodes - old(tree.nodes)) && |leaves| == |old(leaves)|
      ensures ok <==> acquired && Longest(old(tree.Abs()).contents, Blocks(tokens, tree.blockSize)) * tree.blockSize == |tokens|
      ensures !acquired ==> tree.arena == old(tree.arena) && tree.nodes == old(tree.nodes)
      ensures tree.Abs().contents == old(tree.Abs()).contents
      ensures Pinned() == if ok then old(Pinned())[i := Some(Blocks(tokens, tree.blockSize))] else old(Pinned())
    {
      if !acquired {
        return false;
      }
      ghost var a, nodes := tree.arena, tree.nodes;
      var found := tree.MatchPrefix(tokens);
      GrownKeepsHandles(nodes, a, tree.nodes, tree.arena);
      PinnedKept(leaves, nodes, a, tree.root, tree.nodes, tree.arena);
      if found.matchedTokens != |tokens| {
        return false;
      }
      BlocksLength(tokens, tree.blockSize);
      DivUnique(|tokens|, tree.blockSize, found.matchedBlocks, 0);
      ghost var query := Blocks(tokens, tree.blockSize);
      assert query[..found.matchedBlocks] == query;
      Attach(i, found.leaf);
      ok := true;
    }

    method Attach(i: nat, leaf: Node)
      requires Valid() && i < |leaves| && leaves[i] == null && leaf in tree.nodes && leaf != tree.root
      modifies this`leaves, tree`arena, tree.nodes`activeRefCount
      ensures Valid() && leaf.id in old(tree.arena).nodes && tree.Abs().contents == old(tree.Abs()).contents
      ensures leaves == old(leaves)[i := leaf] && Pinned() == old(Pinned())[i := Some(old(tree.Path(leaf)))]
    {
      tree.NodesAreRecorded();
      ghost var a := tree.arena;
      var pinned := tree.PinPath(leaf);
      leaves := leaves[i := leaf];
      assert Pinned() == PathsOf(old(leaves), a)[i := Some(a.nodes[leaf.id].path)];
      PinsMatchAfterPin(PathsOf(old(leaves), a), a.cache.pins, i, a.nodes[leaf.id].path);
    }

    /** Store a prompt's full blocks in the cache. */
    method PublishRadixCache(tokens: seq<Token>, ids: seq<seq<Payload>>)
      requires Valid()
      modifies tree, tree.nodes
      ensures Valid() && fresh(tree.nodes - old(tree.nodes)) && Pinned() == old(Pinned())
    {
      ghost var a, nodes := tree.arena, tree.nodes;
      var found := tree.MatchPrefix(tokens);
      GrownKeepsHandles(nodes, a, tree.nodes, tree.arena);
      PinnedKept(leaves, nodes, a, tree.root, tree.nodes, tree.arena);
      ghost var b, between := tree.arena, tree.nodes;
      var inserted := tree.Insert(tokens, ids);
      GrownKeepsHandles(between, b, tree.nodes, tree.arena);
      PinnedKept(leaves, between, b, tree.root, tree.nodes, tree.arena);
    }

    /** Free cached blocks; the slots keep their leaves. */
    method EvictRadixCacheBlocks(minBlocks: nat) returns (evicted: nat)
      requires Valid()
      modifies tree`nodes, tree`byId, tree`arena, tree.nodes`children
      ensures Valid() && tree.nodes <= old(tree.nodes) && Pinned() == old(Pinned())
      ensures evicted == |old(tree.Abs()).contents| - |tree.Abs().contents|
    {
      ghost var a, nodes := tree.arena, tree.nodes;
      evicted := tree.EvictBlocks(minBlocks);
      PinnedKept(leaves, nodes, a, tree.root, tree.nodes, tree.arena);
    }

    /** Release a slot's leaf. It never fails, whatever happened to the tree since the leaf was pinned. */
    method MaybeUnpinRadixCachePath(i: nat) returns (r: Outcome<()>)
      requires Valid() && i < |leaves|
      modifies this`leaves, tree`arena, tree.nodes`activeRefCount
      ensures Valid() && r.Done? && tree.Abs().contents == old(tree.Abs()).contents
      ensures leaves == old(leaves)[i := null] && Pinned() == old(Pinned())[i := None]
    {
      ghost var a := tree.arena;
      if leaves[i] == null {
        assert Pinned() == Pinned()[i := None];
        assert leaves == leaves[i := null];
        return Done(());
      }
      SlotIsServed(i);
      r := tree.UnpinPath(leaves[i]);
      PinsMatchAfterUnpin(PathsOf(leaves, a), a.cache.pins, i, a.nodes[leaves[i].id].path);
      leaves := leaves[i := null];
      assert Pinned() == PathsOf(old(leaves), a)[i := None];
    }

    /** Every slot lets go; then no pin is outstanding. */
    method ReleaseSlots()
      requires Valid()
      modifies this`leaves, tree`arena, tree.nodes`activeRefCount
      ensures Valid() && |leaves| == |old(leaves)| && forall i :: 0 <= i < |leaves| ==> leaves[i] == null
      ensures tree.Abs() == Cache(old(tree.Abs()).contents, [])
    {
      for i := 0 to |leaves|
        invariant Valid() && |leaves| == |old(leaves)|
        invariant forall j :: 0 <= j < i ==> leaves[j] == null
        invariant tree.Abs().contents == old(tree.Abs()).contents
      {
        var released := MaybeUnpinRadixCachePath(i);
      }
      NothingPinned(Pinned(), tree.Abs().pins);
    }

    /** Empty the cache. The slots let go first, so that no pin is outstanding and no slot is left with a node
        that is gone. */
    method ClearRadixCache() returns (ids: seq<seq<Payload>>, ghost order: seq<Prefix>)
      requires Valid()
      modifies this`leaves, tree, tree.nodes
      ensures Valid() && tree.Abs() == Cache(map[], []) && |leaves| == |old(leaves)|
      ensures forall i :: 0 <= i < |leaves| ==> leaves[i] == null
      ensures Collected(ids, order, old(tree.Abs()).contents, tree.numLayers) && Distinct(order)
      ensures forall p :: p in order <==> p in old(tree.Abs()).contents
    {
      ReleaseSlots();
      ids, order := tree.ClearAndCollectBlockIds();
    }
  }
}
