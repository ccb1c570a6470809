/** The compressed radix tree itself: nodes linked by pointers, multi-block edges, splitting, path pins.
    Its methods are proved to do what RadixArena does to a value, and through it what PrefixCacheSpec
    does to a plain map. */
module CompressedRadixCacheTree {
  import opened Division
  import opened PrefixCacheSpec
  import opened RadixArena

  datatype Outcome<+T> = Done(value: T) | InvalidArgument | LogicError

  class Node {
    const id: int
    var parent: Node?
    var children: map<Block, Node>
    var segmentTokens: seq<Token>
    var segmentBlockIds: seq<seq<Payload>>
    var depthBlocksBefore: int
    var activeRefCount: int
    var lastAccessTick: int

    constructor (id: int, parent: Node?, depthBlocksBefore: int, activeRefCount: int, lastAccessTick: int,
                 segmentTokens: seq<Token>, segmentBlockIds: seq<seq<Payload>>)
      ensures this.id == id && this.parent == parent && children == map[]
      ensures this.segmentTokens == segmentTokens && this.segmentBlockIds == segmentBlockIds
      ensures this.depthBlocksBefore == depthBlocksBefore
      ensures this.activeRefCount == activeRefCount && this.lastAccessTick == lastAccessTick
    {
      this.id, this.parent, children := id, parent, map[];
      this.segmentTokens, this.segmentBlockIds := segmentTokens, segmentBlockIds;
      this.depthBlocksBefore, this.activeRefCount := depthBlocksBefore, activeRefCount;
      this.lastAccessTick := lastAccessTick;
    }

    function SegmentBlocks(blockSize: int): int
      requires blockSize > 0
      reads this
    {
      |segmentTokens| / blockSize
    }
  }

  datatype MatchResult = MatchResult(matchedTokens: int, matchedBlocks: int, leaf: Node, blockIds: seq<seq<Payload>>)

  datatype InsertResult = InsertResult(existingTokens: int, existingBlocks: int, insertedTokens: int,
                                       insertedBlocks: int, leaf: Node, splitPerformed: bool)

  /** Column `j` of a per-layer table of block ids. */
  function Columns(ids: seq<seq<Payload>>, n: nat): (r: seq<Column>)
    requires forall l :: 0 <= l < |ids| ==> n <= |ids[l]|
    ensures |r| == n
    ensures forall j :: 0 <= j < n ==> |r[j]| == |ids| && forall l :: 0 <= l < |ids| ==> r[j][l] == ids[l][j]
  {
    seq(n, j requires 0 <= j < n => seq(|ids|, l requires 0 <= l < |ids| => ids[l][j]))
  }

  /** Ids of blocks `start` to `end` in every layer. */
  function SliceIds(ids: seq<seq<Payload>>, start: nat, end: nat): (r: seq<seq<Payload>>)
    requires start <= end && forall l :: 0 <= l < |ids| ==> end <= |ids[l]|
    ensures |r| == |ids|
    ensures forall l :: 0 <= l < |ids| ==> r[l] == ids[l][start..end]
  {
    seq(|ids|, l requires 0 <= l < |ids| => ids[l][start..end])
  }

  /** Length in whole blocks of the common prefix of a segment and the query from block `start` on. */
  method CommonPrefixBlocks(segment: seq<Token>, query: seq<Token>, blockSize: int, start: nat, maxBlocks: nat)
    returns (matched: nat)
    requires blockSize > 0
    requires start + maxBlocks <= |Blocks(query, blockSize)|
    ensures matched <= |Blocks(segment, blockSize)| && matched <= maxBlocks
    ensures Blocks(segment, blockSize)[..matched] == Blocks(query, blockSize)[start..start + matched]
    ensures matched < |Blocks(segment, blockSize)| && matched < maxBlocks
      ==> Blocks(segment, blockSize)[matched] != Blocks(query, blockSize)[start + matched]
  {
    ghost var s, q := Blocks(segment, blockSize), Blocks(query, blockSize);
    BlocksLength(segment, blockSize);
    var segmentBlocks := |segment| / blockSize;
    var compareBlocks := if segmentBlocks < maxBlocks then segmentBlocks else maxBlocks;
    matched := 0;
    while matched < compareBlocks
      invariant 0 <= matched <= compareBlocks
      invariant s[..matched] == q[start..start + matched]
    {
      BlockAt(segment, blockSize, matched);
      BlockAt(query, blockSize, start + matched);
      var segmentBegin, queryBegin := matched * blockSize, (start + matched) * blockSize;
      var offset := 0;
      while offset < blockSize
        invariant 0 <= offset <= blockSize
        invariant forall o :: 0 <= o < offset ==> s[matched].tokens[o] == q[start + matched].tokens[o]
      {
        if segment[segmentBegin + offset] != query[queryBegin + offset] {
          assert s[matched].tokens[offset] != q[start + matched].tokens[offset];
          return;
        }
        assert s[matched].tokens[offset] == q[start + matched].tokens[offset];
        offset := offset + 1;
      }
      assert s[matched].tokens == q[start + matched].tokens;
      assert s[..matched + 1] == s[..matched] + [s[matched]];
      assert q[start..start + matched + 1] == q[start..start + matched] + [q[start + matched]];
      matched := matched + 1;
    }
  }

  /** Append the first `count` ids of a segment to each layer of a result. */
  method AppendLayers(result: seq<seq<Payload>>, segment: seq<seq<Payload>>, count: nat)
    returns (r: seq<seq<Payload>>)
    requires |segment| == |result|
    requires forall l :: 0 <= l < |segment| ==> count <= |segment[l]|
    ensures |r| == |result|
    ensures forall l :: 0 <= l < |r| ==> r[l] == result[l] + segment[l][..count]
  {
    r := result;
    for layer := 0 to |result|
      invariant |r| == |result|
      invariant forall l :: 0 <= l < layer ==> r[l] == result[l] + segment[l][..count]
      invariant forall l :: layer <= l < |r| ==> r[l] == result[l]
    {
      r := r[layer := r[layer] + segment[layer][..count]];
    }
  }

  /** Handles on nodes stay good: a node that is still in the tree has the path it had, and a node that was
      pinned, or that some pin ran through, is still in the tree. */
  ghost predicate HandlesKept(before: set<Node>, a: Arena, after: set<Node>, b: Arena)
  {
    forall n {:trigger n in before} {:trigger n in after} :: n in before ==>
      && n.id in a.nodes
      && (n in after ==> n.id in b.nodes && b.nodes[n.id].path == a.nodes[n.id].path)
      && (a.nodes[n.id].path in a.cache.pins || PinsThrough(a.cache.pins, a.nodes[n.id].path) > 0 ==> n in after)
  }

  /** Nodes are only added, and handles on old ones stay good. */
  ghost predicate OnlyGrown(before: set<Node>, a: Arena, after: set<Node>, b: Arena)
  {
    before <= after
    && forall n {:trigger n in before} :: n in before ==>
         n.id in a.nodes && n.id in b.nodes && b.nodes[n.id].path == a.nodes[n.id].path
  }

  lemma GrownTwice(before: set<Node>, a: Arena, between: set<Node>, b: Arena, after: set<Node>, c: Arena)
    requires OnlyGrown(before, a, between, b) && OnlyGrown(between, b, after, c)
    ensures OnlyGrown(before, a, after, c)
  {
  }

  lemma KeptTwice(before: set<Node>, a: Arena, between: set<Node>, b: Arena, after: set<Node>, c: Arena)
    requires HandlesKept(before, a, between, b) && HandlesKept(between, b, after, c)
    requires b.cache.pins == a.cache.pins && after <= between
    ensures HandlesKept(before, a, after, c)
  {
    forall n | n in before ensures n in after ==> n in between {}
  }

  class Tree {
    const blockSize: int
    const numLayers: nat
    const root: Node
    var nextNodeId: int
    var accessTick: int
    var splitCount: int

    ghost var nodes: set<Node>
    ghost var byId: map<int, Node>
    ghost var arena: Arena

    // ---------- Representation ----------

    ghost function Ps(): Params {
      Params(blockSize, numLayers)
    }

    /** The heap node with id `i` is the arena's record `i`. */
    ghost predicate Rep(i: int)
      reads `nodes, `byId, `arena, nodes`parent, nodes`children, nodes`segmentTokens, nodes`segmentBlockIds,
            nodes`depthBlocksBefore
    {
      && i in byId && i in arena.nodes && byId[i] in nodes
      && var n, r := byId[i], arena.nodes[i];
      && n.id == i
      && (if i == ROOT then n == root && n.parent == null else r.parent in byId && n.parent == byId[r.parent])
      && n.children.Keys == r.children.Keys
      && (forall k :: k in n.children ==> r.children[k] in byId && n.children[k] == byId[r.children[k]])
      && n.segmentTokens == r.tokens && n.segmentBlockIds == r.ids
      && n.depthBlocksBefore == r.depth
    }

    ghost predicate Represented()
      reads `nodes, `byId, `arena, nodes`parent, nodes`children, nodes`segmentTokens, nodes`segmentBlockIds,
            nodes`depthBlocksBefore
    {
      && byId.Keys == arena.nodes.Keys && ROOT in byId && byId[ROOT] == root && root in nodes && root.id == ROOT
      && (forall i {:trigger Rep(i)} :: i in byId ==> Rep(i))
      && (forall n {:trigger n.id} :: n in nodes ==> n.id in byId && byId[n.id] == n)
    }

    ghost predicate RefsOk()
      reads `nodes, `arena, nodes`activeRefCount
    {
      forall n {:trigger n.activeRefCount} :: n in nodes ==> n.id in arena.nodes && n.activeRefCount == arena.nodes[n.id].refs
    }

    ghost predicate TicksOk()
      reads `nodes, `accessTick, nodes`lastAccessTick
    {
      forall n {:trigger n.lastAccessTick} :: n in nodes ==> n.lastAccessTick <= accessTick
    }

    ghost predicate IdsOk()
      reads `byId, `nextNodeId
    {
      forall i :: i in byId ==> 0 <= i < nextNodeId
    }

    /** The invariant without pin counts and ticks, which change while a path is walked. */
    ghost predicate Core()
      reads `nextNodeId, `nodes, `byId, `arena, nodes`parent, nodes`children, nodes`segmentTokens,
            nodes`segmentBlockIds, nodes`depthBlocksBefore
    {
      blockSize > 0 && numLayers > 0 && Represented() && Inv(Ps(), arena) && IdsOk()
    }

    ghost predicate Valid()
      reads this, nodes
    {
      Core() && RefsOk() && TicksOk()
    }

    ghost function Abs(): Cache
      reads `arena
    {
      arena.cache
    }

    /** The blocks from the root to the end of a node's segment. */
    ghost function Path(n: Node): Prefix
      requires n.id in arena.nodes
      reads `arena
    {
      arena.nodes[n.id].path
    }

    // ---------- Construction ----------

    constructor Empty(blockSize: int, numLayers: nat)
      requires blockSize > 0 && numLayers > 0
      ensures Valid() && fresh(nodes) && nodes == {root}
      ensures this.blockSize == blockSize && this.numLayers == numLayers
      ensures Abs() == Cache(map[], [])
    {
      this.blockSize, this.numLayers := blockSize, numLayers;
      var r := new Node(ROOT, null, 0, 0, 0, [], seq(numLayers, _ => []));
      root := r;
      nextNodeId, accessTick, splitCount := 1, 0, 0;
      nodes, byId := {r}, map[ROOT := r];
      arena := Arena(map[ROOT := NodeRec(ROOT, map[], [], 0, [], seq(numLayers, _ => []), 0)], map[], Cache(map[], []));
      new;
      assert NodeOk(Ps(), arena.nodes[ROOT]);
    }

    /** The constructor's own argument checks. */
    static method Create(blockSize: int, numLayers: int) returns (r: Outcome<Tree>)
      ensures r.Done? <==> blockSize > 0 && numLayers > 0
      ensures r.Done? ==> fresh(r.value) && fresh(r.value.nodes) && r.value.Valid()
      ensures r.Done? ==> r.value.blockSize == blockSize && r.value.numLayers == numLayers
      ensures r.Done? ==> r.value.Abs() == Cache(map[], [])
    {
      if blockSize <= 0 || numLayers <= 0 {
        return InvalidArgument;
      }
      var t := new Tree.Empty(blockSize, numLayers);
      r := Done(t);
    }

    // ---------- Walking down ----------

    method Touch(n: Node)
      requires Valid() && n in nodes
      modifies `accessTick, n`lastAccessTick
      ensures Valid()
      ensures accessTick == old(accessTick) + 1 == n.lastAccessTick
    {
      accessTick := accessTick + 1;
      n.lastAccessTick := accessTick;
    }

    /** The child keys of both halves of a segment cut after `k` blocks. */
    lemma SegmentKeys(tokens: seq<Token>, k: nat)
      requires blockSize > 0 && 0 < k < |Blocks(tokens, blockSize)|
      ensures blockSize <= k * blockSize && k * blockSize + blockSize <= |tokens|
      ensures Block(tokens[..blockSize]) == Blocks(tokens, blockSize)[0]
      ensures Block(tokens[..k * blockSize][..blockSize]) == Blocks(tokens, blockSize)[0]
      ensures Block(tokens[k * blockSize..][..blockSize]) == Blocks(tokens, blockSize)[k]
    {
      BlocksSplit(tokens, blockSize, k);
      BlockAt(tokens, blockSize, 0);
      BlockAt(tokens, blockSize, k);
      BlocksSplit(tokens, blockSize, 1);
      MulAtLeast(k, blockSize);
    }

    /** The pointer surgery of a split, field by field. */
    method CutSegment(child: Node, prefixBlocks: nat, ghost next: Arena) returns (prefixNode: Node)
      requires blockSize > 0 && child.parent != null && child.parent != child
      requires 0 < prefixBlocks < |Blocks(child.segmentTokens, blockSize)|
      requires 0 <= prefixBlocks * blockSize <= |child.segmentTokens|
      requires forall l :: 0 <= l < |child.segmentBlockIds| ==> prefixBlocks <= |child.segmentBlockIds[l]|
      modifies this, child`parent, child`segmentTokens, child`segmentBlockIds, child`depthBlocksBefore
      modifies child.parent`children
      ensures arena == next && nodes == old(nodes) + {prefixNode} && byId == old(byId)[prefixNode.id := prefixNode]
      ensures fresh(prefixNode) && prefixNode.id == old(nextNodeId)
      ensures nextNodeId == old(nextNodeId) + 1 && accessTick == old(accessTick) + 1
      ensures splitCount == old(splitCount) + 1
      ensures prefixNode.lastAccessTick == accessTick && prefixNode.activeRefCount == old(child.activeRefCount)
      ensures prefixNode.parent == old(child.parent) && child.parent == prefixNode
      ensures prefixNode.depthBlocksBefore == old(child.depthBlocksBefore)
      ensures child.depthBlocksBefore == old(child.depthBlocksBefore) + prefixBlocks
      ensures prefixNode.segmentTokens == old(child.segmentTokens)[..prefixBlocks * blockSize]
      ensures child.segmentTokens == old(child.segmentTokens)[prefixBlocks * blockSize..]
      ensures prefixNode.segmentBlockIds == FrontIds(old(child.segmentBlockIds), prefixBlocks)
      ensures child.segmentBlockIds == BackIds(old(child.segmentBlockIds), prefixBlocks)
      ensures var blocks := Blocks(old(child.segmentTokens), blockSize);
        && prefixNode.children == map[blocks[prefixBlocks] := child]
        && prefixNode.parent.children == old(child.parent.children)[blocks[0] := prefixNode]
    {
      SegmentKeys(child.segmentTokens, prefixBlocks);
      var parent: Node := child.parent;
      var oldChildKey := Block(child.segmentTokens[..blockSize]);
      parent.children := parent.children - {oldChildKey};

      prefixNode := CutFront(child, parent, prefixBlocks);
      child.parent := prefixNode;
      child.depthBlocksBefore := prefixNode.depthBlocksBefore + prefixBlocks;
      var suffixKey := Block(child.segmentTokens[..blockSize]);
      prefixNode.children := map[suffixKey := child];
      var prefixKey := Block(prefixNode.segmentTokens[..blockSize]);
      parent.children := parent.children[prefixKey := prefixNode];
      splitCount := splitCount + 1;
      arena, nodes, byId := next, nodes + {prefixNode}, byId[prefixNode.id := prefixNode];
    }

    /** The new node takes the front of the segment and of the block ids. */
    method CutFront(child: Node, parent: Node, prefixBlocks: nat) returns (prefixNode: Node)
      requires blockSize > 0 && 0 <= prefixBlocks * blockSize <= |child.segmentTokens|
      requires forall l :: 0 <= l < |child.segmentBlockIds| ==> prefixBlocks <= |child.segmentBlockIds[l]|
      modifies `accessTick, `nextNodeId, child`segmentTokens, child`segmentBlockIds
      ensures fresh(prefixNode) && prefixNode.id == old(nextNodeId) && nextNodeId == old(nextNodeId) + 1
      ensures accessTick == old(accessTick) + 1 && prefixNode.lastAccessTick == accessTick
      ensures prefixNode.parent == parent && prefixNode.children == map[]
      ensures prefixNode.activeRefCount == child.activeRefCount && prefixNode.depthBlocksBefore == child.depthBlocksBefore
      ensures prefixNode.segmentTokens == old(child.segmentTokens)[..prefixBlocks * blockSize]
      ensures child.segmentTokens == old(child.segmentTokens)[prefixBlocks * blockSize..]
      ensures prefixNode.segmentBlockIds == FrontIds(old(child.segmentBlockIds), prefixBlocks)
      ensures child.segmentBlockIds == BackIds(old(child.segmentBlockIds), prefixBlocks)
    {
      accessTick := accessTick + 1;
      var prefixTokens := prefixBlocks * blockSize;
      prefixNode := new Node(nextNodeId, parent, child.depthBlocksBefore, child.activeRefCount, accessTick,
                             child.segmentTokens[..prefixTokens], FrontIds(child.segmentBlockIds, prefixBlocks));
      nextNodeId := nextNodeId + 1;
      child.segmentTokens := child.segmentTokens[prefixTokens..];
      child.segmentBlockIds := BackIds(child.segmentBlockIds, prefixBlocks);
    }

    /** The surgery does to the heap what SplitAt does to the arena. */
    method CutNode(child: Node, prefixBlocks: nat) returns (prefixNode: Node)
      requires blockSize > 0 && Represented() && RefsOk() && child in nodes && child != root
      requires CanCut(Ps(), arena, child.id, prefixBlocks) && nextNodeId !in byId
      modifies this, child, child.parent
      ensures Represented() && RefsOk() && fresh(prefixNode) && nodes == old(nodes) + {prefixNode}
      ensures prefixNode.id == old(nextNodeId) && byId == old(byId)[prefixNode.id := prefixNode]
      ensures arena == SplitAt(Ps(), old(arena), child.id, prefixBlocks, prefixNode.id)
      ensures prefixNode.lastAccessTick == accessTick == old(accessTick) + 1
      ensures forall n :: n in old(nodes) ==> n.lastAccessTick == old(n.lastAccessTick)
      ensures splitCount == old(splitCount) + 1 && nextNodeId == old(nextNodeId) + 1
    {
      ghost var c := child.id;
      ghost var r := arena.nodes[c];
      assert Rep(c) && Rep(r.parent);
      ghost var next := SplitAt(Ps(), arena, c, prefixBlocks, nextNodeId);
      BlocksSplit(child.segmentTokens, blockSize, prefixBlocks);
      prefixNode := CutSegment(child, prefixBlocks, next);
      assert Rep(prefixNode.id);
      assert Rep(c);
      assert Rep(r.parent);
      forall i {:trigger Rep(i)} | i in byId ensures Rep(i) {
        if i != prefixNode.id { assert old(Rep(i)); }
      }
    }

    /** Cut `child` after `prefixBlocks` blocks: a new node takes over the front of the segment, its place
        below the parent, its pins and a fresh tick; `child` keeps the rest. The stored map is unchanged. */
    method SplitNode(child: Node, prefixBlocks: nat) returns (prefixNode: Node)
      requires Valid() && child in nodes && child != root
      requires 0 < prefixBlocks && 0 <= child.depthBlocksBefore < |Path(child)| - prefixBlocks
      modifies this, child, child.parent
      ensures Valid() && fresh(prefixNode) && nodes == old(nodes) + {prefixNode}
      ensures Abs() == old(Abs())
      ensures prefixNode.id in arena.nodes && child.id in old(arena).nodes
      ensures Path(prefixNode) == old(Path(child)[..child.depthBlocksBefore + prefixBlocks])
      ensures OnlyGrown(old(nodes), old(arena), nodes, arena)
      ensures prefixNode.lastAccessTick == accessTick == old(accessTick) + 1
      ensures forall n :: n in old(nodes) ==> n.lastAccessTick == old(n.lastAccessTick)
      ensures splitCount == old(splitCount) + 1
    {
      ghost var c := child.id;
      assert Rep(c) && Linked(arena.nodes, c) && NodeOk(Ps(), arena.nodes[c]);
      SplitKeeps(Ps(), arena, c, prefixBlocks, nextNodeId);
      NodesAreRecorded();
      prefixNode := CutNode(child, prefixBlocks);
    }

    /** One step of the walk: the child under the query's next block, if there is one, is touched and
        compared with the query. */
    method WalkStep(node: Node, tokens: seq<Token>, consumed: nat) returns (child: Node?, matched: nat)
      requires Valid() && node in nodes && consumed < |Blocks(tokens, blockSize)|
      requires Path(node) == Blocks(tokens, blockSize)[..consumed]
      modifies `accessTick, nodes`lastAccessTick
      ensures Valid() && accessTick >= old(accessTick)
      ensures child == null ==>
                matched == 0 && accessTick == old(accessTick) && Blocks(tokens, blockSize)[..consumed + 1] !in Abs().contents
      ensures child != null ==>
                && child in nodes && child != root && child.depthBlocksBefore == consumed
                && 0 < matched <= |Path(child)| - consumed && consumed + matched <= |Blocks(tokens, blockSize)|
                && child.SegmentBlocks(blockSize) == |Path(child)| - consumed
                && StepResult(child, Blocks(tokens, blockSize), consumed, matched)
      ensures child != null ==> child.lastAccessTick == accessTick > old(accessTick)
      ensures forall n :: n in nodes && n != child ==> n.lastAccessTick == old(n.lastAccessTick)
    {
      BlocksLength(tokens, blockSize);
      BlockAt(tokens, blockSize, consumed);
      var key := Block(tokens[consumed * blockSize..consumed * blockSize + blockSize]);
      if key !in node.children {
        assert Rep(node.id);
        MissingChild(Ps(), arena, node.id, Blocks(tokens, blockSize), consumed);
        return null, 0;
      }
      child := node.children[key];
      ChildFacts(node, key);
      Touch(child);
      matched := CommonPrefixBlocks(child.segmentTokens, tokens, blockSize, consumed, |tokens| / blockSize - consumed);
      StepFacts(child, tokens, consumed, matched);
      BlocksLength(child.segmentTokens, blockSize);
    }

    /** The first `k` blocks of the child's segment are the query's blocks from `c` on, they are stored, and
        the map holds no longer prefix of the query unless the segment was used up. */
    ghost predicate StepResult(child: Node, query: Prefix, c: nat, k: nat)
      requires child.id in arena.nodes && c + k <= |query| && c + k <= |Path(child)|
      reads `arena, `nodes
    {
      && Path(child)[..c + k] == query[..c + k]
      && (c + k < |Path(child)| && c + k < |query| ==> query[..c + k + 1] !in Abs().contents)
      && OnWalk(query, c + k) == OnWalk(query, c) + {child}
    }

    /** The query's first `k` blocks end inside the segment of `n`, after `matched` of its blocks. */
    ghost predicate PartialMatch(n: Node, query: Prefix, k: nat, matched: nat)
      reads `nodes, `arena, n`depthBlocksBefore
    {
      && n in nodes && n != root && n.id in arena.nodes
      && 0 <= n.depthBlocksBefore == k - matched && matched > 0 && k < |Path(n)|
      && k <= |query| && Path(n)[..k] == query[..k]
    }

    /** A step ends at the end of the child's segment or inside it. */
    lemma StepEnds(child: Node, query: Prefix, c: nat, matched: nat)
      requires blockSize > 0 && child in nodes && child != root && child.id in arena.nodes && child.depthBlocksBefore == c
      requires 0 < matched <= |Path(child)| - c && c + matched <= |query|
      requires child.SegmentBlocks(blockSize) == |Path(child)| - c && StepResult(child, query, c, matched)
      ensures if matched < child.SegmentBlocks(blockSize) then PartialMatch(child, query, c + matched, matched)
              else Path(child) == query[..c + matched]
    {
      assert Path(child)[..|Path(child)|] == Path(child);
    }

    /** The walk along the query's longest stored prefix, touching every node on it. `node` is the last
        node walked in full; `partial`, if any, is the node inside which the prefix ends after `matched` of
        its blocks. */
    method Walk(tokens: seq<Token>)
      returns (node: Node, consumed: nat, partial: Node?, matched: nat, ghost visited: set<Node>)
      requires Valid()
      modifies `accessTick, nodes`lastAccessTick
      ensures Valid() && accessTick >= old(accessTick)
      ensures consumed == Longest(Abs().contents, Blocks(tokens, blockSize))
      ensures node in nodes && (partial == null ==> Path(node) == Blocks(tokens, blockSize)[..consumed])
      ensures partial != null ==>
                PartialMatch(partial, Blocks(tokens, blockSize), consumed, matched)
      ensures visited == OnWalk(Blocks(tokens, blockSize), consumed) && TouchedOnly(visited)
      ensures consumed > 0 ==> (if partial != null then partial else node).lastAccessTick == accessTick
    {
      ghost var query := Blocks(tokens, blockSize);
      BlocksLength(tokens, blockSize);
      var fullBlocks := |tokens| / blockSize;
      node, consumed, partial, matched := root, 0, null, 0;
      visited := {};
      var walking := true;
      assert Rep(ROOT);
      while walking && consumed < fullBlocks
        invariant 0 <= consumed <= fullBlocks && node in nodes && TicksOk() && accessTick >= old(accessTick)
        invariant partial == null ==> Path(node) == query[..consumed]
        invariant partial != null ==> !walking && PartialMatch(partial, query, consumed, matched)
        invariant !walking && consumed < fullBlocks ==> query[..consumed + 1] !in Abs().contents
        invariant visited == OnWalk(query, consumed) && TouchedOnly(visited)
        invariant consumed > 0 ==> (if partial != null then partial else node).lastAccessTick == accessTick
        decreases fullBlocks - consumed, walking
      {
        var child;
        child, matched := WalkStep(node, tokens, consumed);
        if child == null || matched == 0 {
          walking := false;
        } else {
          StepEnds(child, query, consumed, matched);
          consumed, visited := consumed + matched, visited + {child};
          if matched < child.SegmentBlocks(blockSize) {
            partial, walking := child, false;
          } else {
            node := child;
          }
        }
      }
      WalkEnds(if partial != null then partial else node, query, consumed);
    }

    /** A walk that ran out of stored blocks has found the longest stored prefix. */
    lemma WalkEnds(n: Node, query: Prefix, k: nat)
      requires Core() && n in nodes && n.id in arena.nodes && k <= |query| && query[..k] <= Path(n)
      requires k < |query| ==> query[..k + 1] !in Abs().contents
      ensures k == Longest(Abs().contents, query)
    {
      forall j | 0 < j <= k ensures query[..j] in Abs().contents {
        assert query[..j] <= query[..k];
        StoredUnder(Ps(), arena, n.id, query[..j]);
      }
      LongestUnique(Abs().contents, query, k);
    }

    /** The nodes whose first block is among the query's first `k` blocks. */
    ghost function OnWalk(query: Prefix, k: nat): set<Node>
      reads `nodes, `arena
    {
      set n | n in nodes && n.id in arena.nodes && StartsOn(arena.nodes[n.id], query, k)
    }

    /** Exactly the nodes of `touched` got a new access tick. */
    twostate predicate TouchedOnly(touched: set<Node>)
      reads this, nodes
    {
      forall n {:trigger n.lastAccessTick} :: n in old(nodes) && n in nodes ==>
        if n in touched then n.lastAccessTick > old(accessTick) else n.lastAccessTick == old(n.lastAccessTick)
    }

    /** The nodes of `visited` and every new node are more recently used than anything was before; no other
        node's tick moved. */
    twostate predicate Refreshed(visited: set<Node>)
      reads this, nodes
    {
      && TouchedOnly(visited)
      && forall n {:trigger n.lastAccessTick} :: n in nodes && n !in old(nodes) ==> n.lastAccessTick > old(accessTick)
    }

    lemma StepFacts(child: Node, tokens: seq<Token>, c: nat, k: nat)
      requires Valid() && child in nodes && child != root && c < |Path(child)| && child.depthBlocksBefore == c
      requires var query := Blocks(tokens, blockSize);
        var s := Blocks(child.segmentTokens, blockSize);
        && c < |query| && Path(child)[..c] == query[..c] && s == Path(child)[c..] && s[0] == query[c]
        && k <= |s| && c + k <= |query| && s[..k] == query[c..c + k]
        && (k < |s| && c + k < |query| ==> s[k] != query[c + k])
      ensures k > 0 && StepResult(child, Blocks(tokens, blockSize), c, k)
    {
      var query := Blocks(tokens, blockSize);
      assert Rep(child.id);
      SegmentMatch(Ps(), arena, child.id, query, c, Blocks(child.segmentTokens, blockSize), k);
      forall n | n in nodes
        ensures n in OnWalk(query, c + k) <==> n in OnWalk(query, c) || n == child
      {
        assert Rep(n.id);
        TouchedOnce(Ps(), arena, child.id, query, c, k, n.id);
      }
    }

    /** The walk of match and insert, splitting the segment inside which it ends. */
    method Descend(tokens: seq<Token>)
      returns (node: Node, consumed: nat, split: bool, ghost visited: set<Node>)
      requires Valid()
      modifies this, nodes
      ensures Valid() && fresh(nodes - old(nodes))
      ensures nodes == old(nodes) + (if split then {node} else {}) && (split ==> node !in old(nodes))
      ensures Abs() == old(Abs())
      ensures consumed == Longest(Abs().contents, Blocks(tokens, blockSize))
      ensures node in nodes && Path(node) == Blocks(tokens, blockSize)[..consumed]
      ensures splitCount == old(splitCount) + if split then 1 else 0
      ensures OnlyGrown(old(nodes), old(arena), nodes, arena)
      ensures accessTick >= old(accessTick)
      ensures visited == old(OnWalk(Blocks(tokens, blockSize), consumed)) && Refreshed(visited)
      ensures consumed > 0 ==> node.lastAccessTick == accessTick
    {
      NodesAreRecorded();
      var partial, matched;
      node, consumed, partial, matched, visited := Walk(tokens);
      split := false;
      if partial != null {
        ParentFacts(partial);
        node := SplitNode(partial, matched);
        split := true;
      }
    }

    lemma NodesAreRecorded()
      requires Represented()
      ensures forall n {:trigger n in nodes} :: n in nodes ==> n.id in arena.nodes
    {
    }

    lemma ParentFacts(n: Node)
      requires Core() && n in nodes && n != root
      ensures n.id in arena.nodes && n.id != ROOT && n.parent != null && n.parent in nodes
      ensures n.depthBlocksBefore == |Path(n.parent)| < |Path(n)| && Path(n.parent) == Path(n)[..n.depthBlocksBefore]
    {
      assert Rep(n.id) && Linked(arena.nodes, n.id);
      assert Rep(arena.nodes[n.id].parent);
    }

    /** What a child pointer says about the arena. */
    lemma ChildFacts(node: Node, key: Block)
      requires Core() && node in nodes && key in node.children
      ensures var child := node.children[key];
        && child in nodes && child != root && child.id != ROOT && Rep(child.id)
        && child.depthBlocksBefore == |Path(node)| < |Path(child)|
        && Path(child)[..|Path(node)|] == Path(node) && Path(child)[|Path(node)|] == key
        && Blocks(child.segmentTokens, blockSize) == Path(child)[|Path(node)|..]
        && |child.segmentBlockIds| == numLayers
        && forall l :: 0 <= l < numLayers ==> |child.segmentBlockIds[l]| == |Path(child)| - |Path(node)|
    {
      assert Rep(node.id) && ChildOk(arena.nodes, node.id, key);
      var c := arena.nodes[node.id].children[key];
      assert Rep(c) && Linked(arena.nodes, c) && NodeOk(Ps(), arena.nodes[c]);
    }

    // ---------- Reading ----------

    /** The payloads on the way from the root to `leaf`, layer by layer. */
    method CollectBlockIds(leaf: Node) returns (result: seq<seq<Payload>>)
      requires Valid() && leaf in nodes
      ensures PayloadsAre(result, Abs().contents, Path(leaf), |Path(leaf)|, numLayers)
    {
      assert Rep(leaf.id);
      var path: seq<Node> := [];
      var node: Node := leaf;
      while node != root
        invariant node in nodes && IsPath(path, node, leaf)
        decreases |Path(node)|
      {
        ParentFacts(node);
        path := [node] + path;
        node := node.parent;
      }
      result := seq(numLayers, _ => []);
      ghost var at := root;
      var i := 0;
      while i < |path|
        invariant 0 <= i <= |path| && at in nodes && IsPath(path[i..], at, leaf)
        invariant Path(at) <= Path(leaf)
        invariant PayloadsAre(result, Abs().contents, Path(leaf), |Path(at)|, numLayers)
      {
        var n := path[i];
        assert n == path[i..][0] && path[i + 1..] == path[i..][1..];
        ParentFacts(n);
        PathEndsAtLeaf(path[i + 1..], n, leaf);
        assert Rep(n.id) && NodeOk(Ps(), arena.nodes[n.id]);
        ghost var before := result;
        BlocksLength(n.segmentTokens, blockSize);
        result := AppendLayers(result, n.segmentBlockIds, n.SegmentBlocks(blockSize));
        ExtendPayloads(Ps(), arena, n.id, before, result, Path(leaf), n.depthBlocksBefore, |Path(n)| - n.depthBlocksBefore);
        at := n;
        i := i + 1;
      }
    }

    /** `path` lists the nodes below `from`, each the parent of the next, down to `leaf`. */
    ghost predicate IsPath(path: seq<Node>, from: Node, leaf: Node)
      reads `nodes, nodes`parent
    {
      if path == [] then from == leaf
      else path[0] in nodes && path[0] != root && path[0].parent == from && IsPath(path[1..], path[0], leaf)
    }

    lemma {:induction false} PathEndsAtLeaf(path: seq<Node>, from: Node, leaf: Node)
      requires Core() && from in nodes && leaf in nodes && IsPath(path, from, leaf)
      ensures from.id in arena.nodes && leaf.id in arena.nodes && Path(from) <= Path(leaf)
      decreases |path|
    {
      assert Rep(from.id) && Rep(leaf.id);
      if path != [] {
        PathEndsAtLeaf(path[1..], path[0], leaf);
        ParentFacts(path[0]);
      }
    }

    /** Read-only lookup: the longest stored prefix and its payloads; the leaf is the last node matched in full. */
    method ProbePrefix(tokens: seq<Token>) returns (r: MatchResult)
      requires Valid()
      ensures r.matchedBlocks == Longest(Abs().contents, Blocks(tokens, blockSize))
      ensures r.matchedTokens == r.matchedBlocks * blockSize
      ensures PayloadsAre(r.blockIds, Abs().contents, Blocks(tokens, blockSize), r.matchedBlocks, numLayers)
      ensures r.leaf in nodes && r.leaf.id in arena.nodes && Path(r.leaf) <= Blocks(tokens, blockSize)[..r.matchedBlocks]
    {
      ghost var query := Blocks(tokens, blockSize);
      BlocksLength(tokens, blockSize);
      var fullBlocks := |tokens| / blockSize;
      var node: Node, matched, ids := root, 0, seq(numLayers, _ => []);
      var leaf: Node := root;
      assert Rep(ROOT);
      while matched < fullBlocks
        invariant 0 <= matched <= fullBlocks && node in nodes && Path(node) == query[..matched] && leaf == node
        invariant PayloadsAre(ids, Abs().contents, query, matched, numLayers)
      {
        var child, count;
        child, count, ids := ProbeStep(node, tokens, matched, ids);
        if child == null {
          break;
        }
        matched := matched + count;
        if count < child.SegmentBlocks(blockSize) {
          break;
        }
        node, leaf := child, child;
      }
      LongestUnique(Abs().contents, query, matched);
      r := MatchResult(matched * blockSize, matched, leaf, ids);
    }

    /** One step of the probe: the child under the query's next block, how many of its blocks match, and
        the payloads extended by theirs. */
    method ProbeStep(node: Node, tokens: seq<Token>, consumed: nat, ids: seq<seq<Payload>>)
      returns (child: Node?, matched: nat, longer: seq<seq<Payload>>)
      requires Valid() && node in nodes && consumed < |Blocks(tokens, blockSize)|
      requires Path(node) == Blocks(tokens, blockSize)[..consumed]
      requires PayloadsAre(ids, Abs().contents, Blocks(tokens, blockSize), consumed, numLayers)
      ensures child == null ==> longer == ids && Blocks(tokens, blockSize)[..consumed + 1] !in Abs().contents
      ensures child != null ==>
                && child in nodes && consumed + matched <= |Path(child)| && matched > 0
                && consumed + matched <= |Blocks(tokens, blockSize)|
                && child.SegmentBlocks(blockSize) == |Path(child)| - consumed
                && StepResult(child, Blocks(tokens, blockSize), consumed, matched)
                && PayloadsAre(longer, Abs().contents, Blocks(tokens, blockSize), consumed + matched, numLayers)
    {
      BlocksLength(tokens, blockSize);
      BlockAt(tokens, blockSize, consumed);
      var key := Block(tokens[consumed * blockSize..consumed * blockSize + blockSize]);
      if key !in node.children {
        assert Rep(node.id);
        MissingChild(Ps(), arena, node.id, Blocks(tokens, blockSize), consumed);
        return null, 0, ids;
      }
      child := node.children[key];
      ChildFacts(node, key);
      matched := CommonPrefixBlocks(child.segmentTokens, tokens, blockSize, consumed, |tokens| / blockSize - consumed);
      StepFacts(child, tokens, consumed, matched);
      BlocksLength(child.segmentTokens, blockSize);
      longer := AppendLayers(ids, child.segmentBlockIds, matched);
      ExtendPayloads(Ps(), arena, child.id, ids, longer, Blocks(tokens, blockSize), consumed, matched);
    }

    /** Lookup that materialises the longest stored prefix as a node, splitting a segment if need be. The
        stored map and the pins do not change. */
    method MatchPrefix(tokens: seq<Token>) returns (r: MatchResult)
      requires Valid()
      modifies this, nodes
      ensures Valid() && old(nodes) <= nodes && fresh(nodes - old(nodes))
      ensures Abs() == old(Abs())
      ensures r.matchedBlocks == Longest(Abs().contents, Blocks(tokens, blockSize))
      ensures r.matchedTokens == r.matchedBlocks * blockSize
      ensures PayloadsAre(r.blockIds, Abs().contents, Blocks(tokens, blockSize), r.matchedBlocks, numLayers)
      ensures r.leaf in nodes && r.leaf.id in arena.nodes && Path(r.leaf) == Blocks(tokens, blockSize)[..r.matchedBlocks]
      ensures |nodes| == |old(nodes)| + splitCount - old(splitCount) && splitCount <= old(splitCount) + 1
      ensures OnlyGrown(old(nodes), old(arena), nodes, arena)
      ensures var k := r.matchedBlocks; Refreshed(old(OnWalk(Blocks(tokens, blockSize), k)))
      ensures r.matchedBlocks > 0 ==> r.leaf.lastAccessTick == accessTick
    {
      NodesAreRecorded();
      BlocksLength(tokens, blockSize);
      var fullBlocks := |tokens| / blockSize;
      if fullBlocks == 0 {
        assert Rep(ROOT);
        return MatchResult(0, 0, root, seq(numLayers, _ => []));
      }
      ghost var visited;
      var node, consumed, split;
      node, consumed, split, visited := Descend(tokens);
      var ids := CollectBlockIds(node);
      PayloadsOfPrefix(ids, Abs().contents, Blocks(tokens, blockSize), consumed, numLayers);
      r := MatchResult(consumed * blockSize, consumed, node, ids);
    }

    // ---------- Inserting ----------

    /** `next` is the arena with a new leaf of these fields below `parent`. */
    ghost predicate LeafPlan(next: Arena, parent: Node, key: Block, tokens: seq<Token>, ids: seq<seq<Payload>>, depth: nat)
      requires parent.id in arena.nodes && depth == |Path(parent)|
      reads `arena, `nextNodeId
    {
      && nextNodeId in next.nodes
      && var rec := next.nodes[nextNodeId];
      && rec.parent == parent.id && rec.depth == depth < |rec.path| && rec.path[depth] == key
      && rec.tokens == tokens && rec.ids == ids && rec.refs == 0 && rec.children == map[]
      && next.nodes == AppendedNodes(arena.nodes, nextNodeId, rec)
    }

    /** Hang a new leaf below `parent`: to the heap what AppendedNodes is to the arena. */
    method LinkLeaf(parent: Node, key: Block, tokens: seq<Token>, ids: seq<seq<Payload>>, depth: nat, ghost next: Arena)
      returns (raw: Node)
      requires Represented() && RefsOk() && parent in nodes && nextNodeId !in byId && ROOT < nextNodeId
      requires parent.id in arena.nodes && depth == |Path(parent)|
      requires LeafPlan(next, parent, key, tokens, ids, depth)
      modifies this, parent`children
      ensures Represented() && RefsOk() && arena == next
      ensures fresh(raw) && nodes == old(nodes) + {raw} && raw.id == old(nextNodeId)
      ensures byId == old(byId)[raw.id := raw]
      ensures nextNodeId == old(nextNodeId) + 1 && splitCount == old(splitCount)
      ensures raw.lastAccessTick == accessTick == old(accessTick) + 1
    {
      assert Rep(parent.id);
      accessTick := accessTick + 1;
      raw := new Node(nextNodeId, parent, depth, 0, accessTick, tokens, ids);
      parent.children := parent.children[key := raw];
      nextNodeId := nextNodeId + 1;
      nodes, byId, arena := nodes + {raw}, byId[raw.id := raw], next;
      assert Rep(raw.id);
      assert Rep(parent.id);
      forall i {:trigger Rep(i)} | i in byId ensures Rep(i) {
        if i != raw.id { assert old(Rep(i)); }
      }
    }

    /** Store the query's blocks from `start` on in a new leaf below `parent`. */
    method AppendChild(parent: Node, tokens: seq<Token>, ids: seq<seq<Payload>>, start: nat, end: nat)
      returns (raw: Node)
      requires Valid() && parent in nodes && start < end == |Blocks(tokens, blockSize)|
      requires parent.id in arena.nodes && Path(parent) == Blocks(tokens, blockSize)[..start]
      requires Blocks(tokens, blockSize)[..start + 1] !in Abs().contents
      requires |ids| == numLayers && forall l :: 0 <= l < |ids| ==> end <= |ids[l]|
      modifies this, parent`children
      ensures Valid() && fresh(raw) && nodes == old(nodes) + {raw}
      ensures raw.id in arena.nodes && Path(raw) == Blocks(tokens, blockSize)
      ensures Abs() == Cache(Inserted(old(Abs().contents), Blocks(tokens, blockSize), Columns(ids, end)), old(Abs().pins))
      ensures raw.lastAccessTick == accessTick == old(accessTick) + 1
      ensures splitCount == old(splitCount)
      ensures OnlyGrown(old(nodes), old(arena), nodes, arena)
    {
      NodesAreRecorded();
      ghost var query := Blocks(tokens, blockSize);
      BlockAt(tokens, blockSize, start);
      TailBlocks(tokens, start);
      var tokenBegin, tokenEnd := start * blockSize, end * blockSize;
      var segment := tokens[tokenBegin..tokenEnd];
      var segmentIds := SliceIds(ids, start, end);
      var key := Block(segment[..blockSize]);
      ghost var next := PlanAppend(parent, query, start, segment, segmentIds, Columns(ids, end));
      raw := LinkLeaf(parent, key, segment, segmentIds, parent.depthBlocksBefore + parent.SegmentBlocks(blockSize), next);
    }

    lemma PlanAppend(parent: Node, query: Prefix, start: nat, segment: seq<Token>, segmentIds: seq<seq<Payload>>,
                     columns: seq<Column>) returns (next: Arena)
      requires Core() && parent in nodes && parent.id in arena.nodes && start < |query| == |columns|
      requires Path(parent) == query[..start] && query[..start + 1] !in Abs().contents
      requires Blocks(segment, blockSize) == query[start..] && |segment| == (|query| - start) * blockSize
      requires |segmentIds| == numLayers && forall l :: 0 <= l < numLayers ==> |segmentIds[l]| == |query| - start
      requires forall j :: start <= j < |query| ==> |columns[j]| == numLayers
      requires forall j, l :: start <= j < |query| && 0 <= l < numLayers ==> columns[j][l] == segmentIds[l][j - start]
      ensures parent.depthBlocksBefore + parent.SegmentBlocks(blockSize) == start
      ensures LeafPlan(next, parent, query[start], segment, segmentIds, start) && Inv(Ps(), next)
      ensures next.cache == Cache(Inserted(Abs().contents, query, columns), Abs().pins)
      ensures next.nodes[nextNodeId].path == query
    {
      assert Rep(parent.id) && NodeOk(Ps(), arena.nodes[parent.id]);
      BlocksLength(parent.segmentTokens, blockSize);
      var rec := NodeRec(parent.id, map[], query, start, segment, segmentIds, 0);
      assert NodeOk(Ps(), rec);
      assert CanAppend(Ps(), arena, nextNodeId, rec, columns);
      next := Appended(arena, nextNodeId, rec, columns);
      AppendKeeps(Ps(), arena, nextNodeId, rec, columns);
    }

    lemma TailBlocks(tokens: seq<Token>, start: nat)
      requires blockSize > 0 && start < |Blocks(tokens, blockSize)|
      ensures var end := |Blocks(tokens, blockSize)|;
        && 0 <= start * blockSize <= end * blockSize <= |tokens|
        && |tokens[start * blockSize..end * blockSize]| == (end - start) * blockSize >= blockSize
        && Blocks(tokens[start * blockSize..end * blockSize], blockSize) == Blocks(tokens, blockSize)[start..]
        && Block(tokens[start * blockSize..end * blockSize][..blockSize]) == Blocks(tokens, blockSize)[start]
    {
      var end := |Blocks(tokens, blockSize)|;
      BlocksSplit(tokens, blockSize, end);
      var whole := tokens[..end * blockSize];
      BlocksSplit(whole, blockSize, start);
      SplitLengths(end, start, blockSize);
      MulAtLeast(end - start, blockSize);
      assert whole[start * blockSize..] == tokens[start * blockSize..end * blockSize];
      BlockAt(whole[start * blockSize..], blockSize, 0);
    }

    ghost predicate Covers(ids: seq<seq<Payload>>, tokens: seq<Token>)
      requires blockSize > 0
    {
      |ids| == numLayers && forall l :: 0 <= l < |ids| ==> |tokens| / blockSize <= |ids[l]|
    }

    /** Every layer must have an id for each full block. */
    method ValidateBlockIds(ids: seq<seq<Payload>>, fullBlocks: nat) returns (ok: bool)
      ensures ok <==> |ids| == numLayers && forall l :: 0 <= l < |ids| ==> fullBlocks <= |ids[l]|
    {
      if |ids| != numLayers {
        return false;
      }
      var layer := 0;
      while layer < numLayers
        invariant 0 <= layer <= numLayers
        invariant forall l :: 0 <= l < layer ==> fullBlocks <= |ids[l]|
      {
        if |ids[layer]| < fullBlocks {
          return false;
        }
        layer := layer + 1;
      }
      ok := true;
    }

    /** Store a token list's full blocks. The map gains exactly the missing prefixes with the given payloads;
        what is already stored keeps its payload. Malformed ids are refused before anything changes. */
    method Insert(tokens: seq<Token>, ids: seq<seq<Payload>>) returns (r: Outcome<InsertResult>)
      requires Valid()
      modifies this, nodes
      ensures r.Done? <==> Covers(ids, tokens)
      ensures !r.Done? ==> r.InvalidArgument? && unchanged(this) && unchanged(nodes)
      ensures Valid() && old(nodes) <= nodes && fresh(nodes - old(nodes))
      ensures r.Done? ==>
                var query := Blocks(tokens, blockSize);
                && |query| == |tokens| / blockSize
                && Enabled(old(Abs()), PrefixCacheSpec.Insert(query, Columns(ids, |query|)))
                && WellFormed(old(Abs()))
                && Abs() == Apply(old(Abs()), PrefixCacheSpec.Insert(query, Columns(ids, |query|)))
                && r.value.existingBlocks == Longest(old(Abs().contents), query)
                && r.value.insertedBlocks == |query| - r.value.existingBlocks
                && r.value.existingTokens == r.value.existingBlocks * blockSize
                && r.value.insertedTokens == r.value.insertedBlocks * blockSize
                && r.value.leaf in nodes && r.value.leaf.id in arena.nodes && Path(r.value.leaf) == query
                && splitCount == old(splitCount) + (if r.value.splitPerformed then 1 else 0)
                && (var k := r.value.existingBlocks; Refreshed(old(OnWalk(query, k))))
                && (|query| > 0 ==> r.value.leaf.lastAccessTick == accessTick)
      ensures OnlyGrown(old(nodes), old(arena), nodes, arena)
    {
      BlocksLength(tokens, blockSize);
      var fullBlocks := |tokens| / blockSize;
      var valid := ValidateBlockIds(ids, fullBlocks);
      if !valid {
        NodesAreRecorded();
        return InvalidArgument;
      }
      CacheWellFormed(Ps(), arena);
      if fullBlocks == 0 {
        NodesAreRecorded();
        assert Rep(ROOT);
        return Done(InsertResult(0, 0, 0, 0, root, false));
      }
      ghost var visited;
      var existing, leaf, split;
      existing, leaf, split, visited := Grow(tokens, ids, fullBlocks);
      var inserted := fullBlocks - existing;
      r := Done(InsertResult(existing * blockSize, existing, inserted * blockSize, inserted, leaf, split));
    }

    /** Walk down and store what is missing. */
    method Grow(tokens: seq<Token>, ids: seq<seq<Payload>>, fullBlocks: nat)
      returns (existing: nat, leaf: Node, split: bool, ghost visited: set<Node>)
      requires Valid() && 0 < fullBlocks == |Blocks(tokens, blockSize)|
      requires |ids| == numLayers && forall l :: 0 <= l < |ids| ==> fullBlocks <= |ids[l]|
      modifies this, nodes
      ensures Valid() && fresh(nodes - old(nodes)) && OnlyGrown(old(nodes), old(arena), nodes, arena)
      ensures existing == Longest(old(Abs().contents), Blocks(tokens, blockSize))
      ensures Abs() == Cache(Inserted(old(Abs().contents), Blocks(tokens, blockSize), Columns(ids, fullBlocks)), old(Abs().pins))
      ensures leaf in nodes && leaf.id in arena.nodes && Path(leaf) == Blocks(tokens, blockSize)
      ensures splitCount == old(splitCount) + if split then 1 else 0
      ensures visited == old(OnWalk(Blocks(tokens, blockSize), existing)) && Refreshed(visited)
      ensures leaf.lastAccessTick == accessTick
    {
      var node;
      node, existing, split, visited := Descend(tokens);
      ghost var between, middle := nodes, arena;
      leaf := Complete(node, tokens, ids, existing, fullBlocks);
      GrownTwice(old(nodes), old(arena), between, middle, nodes, arena);
      forall n {:trigger n.lastAccessTick} | n in nodes
        ensures if n !in old(nodes) || n in visited then n.lastAccessTick > old(accessTick)
                else n.lastAccessTick == old(n.lastAccessTick)
      {
        assert n in between || n == leaf;
      }
    }

    /** Append what the query has beyond its longest stored prefix, if anything. */
    method Complete(node: Node, tokens: seq<Token>, ids: seq<seq<Payload>>, consumed: nat, fullBlocks: nat)
      returns (leaf: Node)
      requires Valid() && node in nodes && fullBlocks == |Blocks(tokens, blockSize)|
      requires consumed == Longest(Abs().contents, Blocks(tokens, blockSize))
      requires node.id in arena.nodes && Path(node) == Blocks(tokens, blockSize)[..consumed]
      requires |ids| == numLayers && forall l :: 0 <= l < |ids| ==> fullBlocks <= |ids[l]|
      modifies this, node`children
      ensures Valid() && nodes == old(nodes) + {leaf} && OnlyGrown(old(nodes), old(arena), nodes, arena)
      ensures leaf.id in arena.nodes && Path(leaf) == Blocks(tokens, blockSize)
      ensures Abs() == Cache(Inserted(old(Abs().contents), Blocks(tokens, blockSize), Columns(ids, fullBlocks)), old(Abs().pins))
      ensures if consumed < fullBlocks then fresh(leaf) && leaf.lastAccessTick == accessTick == old(accessTick) + 1
              else leaf == node && accessTick == old(accessTick)
      ensures forall n {:trigger n.lastAccessTick} :: n in old(nodes) ==> n.lastAccessTick == old(n.lastAccessTick)
      ensures splitCount == old(splitCount)
    {
      NodesAreRecorded();
      CacheWellFormed(Ps(), arena);
      AlreadyStored(Abs().contents, Blocks(tokens, blockSize), Columns(ids, fullBlocks));
      if consumed < fullBlocks {
        leaf := AppendChild(node, tokens, ids, consumed, fullBlocks);
      } else {
        leaf := node;
      }
    }

    /** Inserting what is stored in full changes nothing. */
    lemma AlreadyStored(contents: map<Prefix, Column>, query: Prefix, columns: seq<Column>)
      requires PrefixClosed(contents) && |query| <= |columns|
      ensures Longest(contents, query) == |query| ==> Inserted(contents, query, columns) == contents
    {
      if Longest(contents, query) == |query| {
        forall p | p != [] && p <= query ensures p in contents {
          assert p == query[..|p|];
          LongestIsGreatest(contents, query, |p|);
        }
      }
    }

    // ---------- Pinning ----------

    /** `n`'s pin count is the arena's, plus `d` if `n` lies on path `p` below level `floor`. */
    ghost predicate Bumped(n: Node, p: Prefix, floor: nat, d: int)
      reads `arena, n`activeRefCount
    {
      && n.id in arena.nodes
      && n.activeRefCount == arena.nodes[n.id].refs +
         if n.id != ROOT && arena.nodes[n.id].path <= p && |arena.nodes[n.id].path| > floor then d else 0
    }

    /** Going up one level along a path passes exactly one node. */
    lemma OneLevel(node: Node, p: Prefix, n: Node)
      requires Core() && node in nodes && node != root && n in nodes
      requires node.id in arena.nodes && n.id in arena.nodes && Path(node) <= p && Path(n) <= p
      requires n.id != ROOT && 0 <= node.depthBlocksBefore < |Path(n)| <= |Path(node)|
      ensures n == node
    {
      assert Rep(node.id) && Rep(n.id);
      OnePerSegment(Ps(), arena, n.id, node.id, p);
    }

    /** Change the count of one node on the path. */
    method BumpNode(node: Node, ghost p: Prefix, d: int)
      requires Core() && node in nodes && node != root && node.id in arena.nodes && Path(node) <= p
      requires forall n :: n in nodes ==> Bumped(n, p, |Path(node)|, d)
      modifies node`activeRefCount
      ensures node.parent != null && node.parent in nodes && node.parent.id in arena.nodes
      ensures |Path(node.parent)| < |Path(node)| && Path(node.parent) <= p
      ensures forall n :: n in nodes ==> Bumped(n, p, |Path(node.parent)|, d)
    {
      ParentFacts(node);
      assert Rep(node.parent.id);
      assert Bumped(node, p, |Path(node)|, d);
      node.activeRefCount := node.activeRefCount + d;
      forall n | n in nodes ensures Bumped(n, p, |Path(node.parent)|, d) {
        assert old(Bumped(n, p, |Path(node)|, d));
        if n.id != ROOT && Path(n) <= p && |Path(node.parent)| < |Path(n)| <= |Path(node)| { OneLevel(node, p, n); }
      }
    }

    /** Once the walk up has reached the root, the heap is that of the arena with the new counts. */
    ghost method FinishCounts(p: Prefix, d: int, next: Arena)
      requires Core() && TicksOk() && Inv(Ps(), next)
      requires forall n :: n in nodes ==> Bumped(n, p, 0, d)
      requires next.nodes == Counted(arena.nodes, p, d)
      modifies `arena
      ensures Valid() && arena == next
    {
      forall n | n in nodes ensures n.id in next.nodes && n.activeRefCount == next.nodes[n.id].refs {
        assert Bumped(n, p, 0, d) && Rep(n.id);
        assert n.id != ROOT ==> Linked(arena.nodes, n.id);
      }
      arena := next;
      forall i {:trigger Rep(i)} | i in byId ensures Rep(i) { assert old(Rep(i)); }
    }

    /** Every node from `leaf` up to the root counts one more. */
    method CountUp(leaf: Node, ghost p: Prefix)
      requires Valid() && leaf in nodes && leaf != root && leaf.id in arena.nodes && p == Path(leaf)
      modifies nodes`activeRefCount
      ensures Core() && TicksOk() && forall n :: n in nodes ==> Bumped(n, p, 0, 1)
    {
      ParentFacts(leaf);
      var node: Node := leaf;
      while node != root
        modifies nodes`activeRefCount
        invariant node in nodes && node.id in arena.nodes && Path(node) <= p
        invariant forall n :: n in nodes ==> Bumped(n, p, |Path(node)|, 1)
        decreases |Path(node)|
      {
        BumpNode(node, p, 1);
        node := node.parent;
      }
      assert Rep(ROOT);
    }

    /** Pin the path of a node: every node on it counts one more pin. */
    method PinPath(leaf: Node?) returns (r: Outcome<()>)
      requires Valid() && (leaf != null ==> leaf in nodes)
      modifies `arena, nodes`activeRefCount
      ensures r.Done? <==> leaf != null && leaf != root
      ensures leaf == null ==> r == InvalidArgument
      ensures leaf == root ==> r == LogicError
      ensures Valid() && OnlyGrown(old(nodes), old(arena), nodes, arena)
      ensures !r.Done? ==> arena == old(arena)
      ensures r.Done? ==>
                && leaf.id in old(arena).nodes && WellFormed(old(Abs())) && Enabled(old(Abs()), Pin(old(Path(leaf))))
                && Abs() == Apply(old(Abs()), Pin(old(Path(leaf)))) && arena == Pinned(old(arena), leaf.id)
    {
      NodesAreRecorded();
      if leaf == null {
        return InvalidArgument;
      }
      if leaf == root {
        return LogicError;
      }
      ParentFacts(leaf);
      ghost var p := Path(leaf);
      CacheWellFormed(Ps(), arena);
      PinKeeps(Ps(), arena, leaf.id);
      CountUp(leaf, p);
      FinishCounts(p, 1, Pinned(arena, leaf.id));
      r := Done(());
    }

    /** Every node from `leaf` up to the root counts one less; a count that is not positive would stop it. */
    method CountDown(leaf: Node, ghost p: Prefix) returns (ok: bool)
      requires Valid() && leaf in nodes && leaf != root && leaf.id in arena.nodes && p == Path(leaf)
      requires leaf.activeRefCount > 0
      modifies nodes`activeRefCount
      ensures ok && Core() && TicksOk() && forall n :: n in nodes ==> Bumped(n, p, 0, -1)
    {
      ParentFacts(leaf);
      assert Rep(leaf.id);
      var node: Node := leaf;
      while node != root
        modifies nodes`activeRefCount
        invariant node in nodes && node.id in arena.nodes && Path(node) <= p
        invariant forall n :: n in nodes ==> Bumped(n, p, |Path(node)|, -1)
        decreases |Path(node)|
      {
        AncestorPinned(leaf, node, p);
        assert Bumped(node, p, |Path(node)|, -1);
        if node.activeRefCount <= 0 {
          return false;
        }
        BumpNode(node, p, -1);
        node := node.parent;
      }
      assert Rep(ROOT);
      ok := true;
    }

    /** Release one pin. It fails on a node that no pin runs through. A node that was never pinned itself
        but lies on a pinned path is not refused: its path is counted down all the same. */
    method UnpinPath(leaf: Node?) returns (r: Outcome<()>)
      requires Valid() && (leaf != null ==> leaf in nodes)
      modifies `arena, nodes`activeRefCount
      ensures r.Done? <==> leaf != null && leaf != root && old(leaf.activeRefCount) > 0
      ensures leaf == null ==> r == InvalidArgument
      ensures leaf != null && !r.Done? ==> r == LogicError
      ensures !r.Done? ==> arena == old(arena) && Valid()
      ensures r.Done? ==> leaf.id in old(arena).nodes
      ensures r.Done? && old(Path(leaf)) in old(Abs()).pins ==>
                && Valid() && WellFormed(old(Abs())) && Enabled(old(Abs()), Unpin(old(Path(leaf))))
                && Abs() == Apply(old(Abs()), Unpin(old(Path(leaf)))) && arena == Unpinned(old(arena), leaf.id)
      ensures r.Done? && old(Path(leaf)) !in old(Abs()).pins ==>
                arena == old(arena) && forall n :: n in nodes ==> Bumped(n, old(Path(leaf)), 0, -1)
      ensures leaf != null && leaf.id in old(arena).nodes && old(Path(leaf)) in old(Abs()).pins ==> r.Done?
      ensures OnlyGrown(old(nodes), old(arena), nodes, arena)
    {
      NodesAreRecorded();
      if leaf == null {
        return InvalidArgument;
      }
      if leaf == root {
        UnpinnedRoot();
        return LogicError;
      }
      ParentFacts(leaf);
      ghost var p := Path(leaf);
      CountMeans(leaf);
      if leaf.activeRefCount <= 0 {
        return LogicError;
      }
      var counted := CountDown(leaf, p);
      if !counted {
        return LogicError;
      }
      if p in Abs().pins {
        CacheWellFormed(Ps(), arena);
        UnpinKeeps(Ps(), arena, leaf.id);
        FinishCounts(p, -1, Unpinned(arena, leaf.id));
      }
      r := Done(());
    }

    lemma UnpinnedRoot()
      requires Valid()
      ensures root.id in arena.nodes && Path(root) !in Abs().pins && root.activeRefCount == 0
    {
      assert Rep(ROOT);
      assert [] in Abs().pins ==> PinnedNode(arena, []);
      assert [] in arena.holder ==> Entry(arena, []);
    }

    /** A node's count is positive exactly when a pin runs through its path. */
    lemma CountMeans(n: Node)
      requires Valid() && n in nodes && n != root && n.id in arena.nodes && n.id != ROOT
      ensures n.activeRefCount == PinsThrough(Abs().pins, Path(n))
      ensures Path(n) in Abs().pins ==> n.activeRefCount > 0
    {
      assert CountOk(arena, n.id);
      PinsThroughZero(Abs().pins, Path(n));
      assert Path(n) <= Path(n);
    }

    lemma AncestorPinned(leaf: Node, n: Node, p: Prefix)
      requires Core() && leaf in nodes && n in nodes && leaf.id in arena.nodes && n.id in arena.nodes
      requires leaf.id != ROOT && n != root && p == Path(leaf) && Path(n) <= p && arena.nodes[leaf.id].refs > 0
      ensures arena.nodes[n.id].refs > 0
    {
      assert Rep(n.id) && CountOk(arena, leaf.id) && CountOk(arena, n.id);
      PinsThroughMonotone(Abs().pins, Path(n), p);
    }

    // ---------- Erasing ----------

    /** Take a leaf out of its parent: to the heap what RemovedLeaf does to the arena. */
    method UnlinkLeaf(leaf: Node, key: Block, ghost next: Arena)
      requires Represented() && RefsOk() && leaf in nodes && leaf != root && leaf.children == map[]
      requires leaf.parent != null && leaf.id in arena.nodes && arena.nodes[leaf.id].parent in arena.nodes
      requires arena.nodes[leaf.id].parent != leaf.id && leaf.id != ROOT
      requires forall i :: i in arena.nodes && i != ROOT && i != leaf.id ==> arena.nodes[i].parent != leaf.id
      requires forall i, k :: i in arena.nodes && k in arena.nodes[i].children && arena.nodes[i].children[k] == leaf.id ==>
                 i == arena.nodes[leaf.id].parent && k == key
      requires var up := arena.nodes[arena.nodes[leaf.id].parent];
        next.nodes == arena.nodes[arena.nodes[leaf.id].parent := up.(children := up.children - {key})] - {leaf.id}
      modifies `nodes, `byId, `arena, leaf.parent`children
      ensures Represented() && RefsOk() && arena == next
      ensures nodes == old(nodes) - {leaf} && byId == old(byId) - {leaf.id}
    {
      assert Rep(leaf.id) && Rep(arena.nodes[leaf.id].parent);
      var parent := leaf.parent;
      parent.children := parent.children - {key};
      nodes, byId, arena := nodes - {leaf}, byId - {leaf.id}, next;
      forall i {:trigger Rep(i)} | i in byId ensures Rep(i) {
        assert old(Rep(i));
      }
    }

    lemma PlanErase(leaf: Node, key: Block) returns (next: Arena)
      requires Core() && leaf in nodes && leaf != root && leaf.children == map[] && leaf.id in arena.nodes
      requires arena.nodes[leaf.id].refs == 0 && leaf.id != ROOT && 0 <= leaf.depthBlocksBefore < |Path(leaf)|
      requires key == Path(leaf)[leaf.depthBlocksBefore]
      ensures arena.nodes[leaf.id].parent in arena.nodes && arena.nodes[leaf.id].parent != leaf.id
      ensures forall i :: i in arena.nodes && i != ROOT && i != leaf.id ==> arena.nodes[i].parent != leaf.id
      ensures forall i, k :: i in arena.nodes && k in arena.nodes[i].children && arena.nodes[i].children[k] == leaf.id ==>
                i == arena.nodes[leaf.id].parent && k == key
      ensures var up := arena.nodes[arena.nodes[leaf.id].parent];
        next.nodes == arena.nodes[arena.nodes[leaf.id].parent := up.(children := up.children - {key})] - {leaf.id}
      ensures Inv(Ps(), next) && WellFormed(Abs())
      ensures Enabled(Abs(), Erase(LongerPrefixes(Path(leaf), leaf.depthBlocksBefore)))
      ensures next.cache == Apply(Abs(), Erase(LongerPrefixes(Path(leaf), leaf.depthBlocksBefore)))
    {
      assert Rep(leaf.id) && Linked(arena.nodes, leaf.id);
      next := RemovedLeaf(Ps(), arena, leaf.id);
      RemoveKeeps(Ps(), arena, leaf.id);
      forall i | i in arena.nodes && i != ROOT && i != leaf.id ensures arena.nodes[i].parent != leaf.id {
        assert Linked(arena.nodes, i);
      }
      forall i, k | i in arena.nodes && k in arena.nodes[i].children && arena.nodes[i].children[k] == leaf.id
        ensures i == arena.nodes[leaf.id].parent && k == key
      {
        assert ChildOk(arena.nodes, i, k);
      }
    }

    /** Erase an unpinned leaf: exactly its own prefixes leave the map, and their payloads are returned. */
    method EraseLeaf(leaf: Node?) returns (r: Outcome<seq<seq<Payload>>>)
      requires Valid() && (leaf != null ==> leaf in nodes)
      modifies `nodes, `byId, `arena, nodes`children
      ensures leaf == null ==> r == InvalidArgument
      ensures leaf != null && !r.Done? ==> r == LogicError
      ensures r.Done? <==> leaf != null && leaf != root && old(leaf.children) == map[] && leaf.activeRefCount == 0
      ensures Valid()
      ensures HandlesKept(old(nodes), old(arena), nodes, arena)
      ensures !r.Done? ==> arena == old(arena) && nodes == old(nodes) && unchanged(nodes)
      ensures r.Done? ==>
                && leaf.id in old(arena).nodes && 0 <= leaf.depthBlocksBefore < |old(Path(leaf))|
                && var path, depth := old(Path(leaf)), leaf.depthBlocksBefore;
                && nodes == old(nodes) - {leaf}
                && WellFormed(old(Abs())) && Enabled(old(Abs()), Erase(LongerPrefixes(path, depth)))
                && Abs() == Apply(old(Abs()), Erase(LongerPrefixes(path, depth)))
                && SegmentPayloads(r.value, old(Abs().contents), path, depth, numLayers)
    {
      NodesAreRecorded();
      if leaf == null {
        return InvalidArgument;
      }
      if leaf == root || leaf.children != map[] || leaf.activeRefCount != 0 {
        return LogicError;
      }
      ParentFacts(leaf);
      assert Rep(leaf.id) && NodeOk(Ps(), arena.nodes[leaf.id]);
      BlockAt(leaf.segmentTokens, blockSize, 0);
      var key := Block(leaf.segmentTokens[..blockSize]);
      LeafColumns(leaf);
      CountMeans(leaf);
      var removed := leaf.segmentBlockIds;
      ghost var next := PlanErase(leaf, key);
      UnlinkLeaf(leaf, key, next);
      r := Done(removed);
    }

    lemma LeafColumns(leaf: Node)
      requires Core() && leaf in nodes && leaf.id in arena.nodes
      ensures leaf.depthBlocksBefore >= 0
      ensures SegmentPayloads(leaf.segmentBlockIds, Abs().contents, Path(leaf), leaf.depthBlocksBefore, numLayers)
    {
      assert Rep(leaf.id) && NodeOk(Ps(), arena.nodes[leaf.id]);
      forall j | leaf.depthBlocksBefore < j <= |Path(leaf)|
        ensures Path(leaf)[..j] in Abs().contents && |Abs().contents[Path(leaf)[..j]]| == numLayers
        ensures forall l :: 0 <= l < numLayers ==>
                  leaf.segmentBlockIds[l][j - 1 - leaf.depthBlocksBefore] == Abs().contents[Path(leaf)[..j]][l]
      {
        assert Owned(arena, leaf.id, Path(leaf)[..j]) && Entry(arena, Path(leaf)[..j]);
      }
    }

    // ---------- Walking the whole tree ----------

    /** `keys` are still to be visited among a node's children; the subtrees below the others are done. */
    lemma VisitChild(node: Node, keys: set<Block>, k: Block)
      requires Core() && node in nodes && node.id in arena.nodes && keys <= node.children.Keys && k in keys
      ensures node.children[k] in nodes && node.children[k].id in arena.nodes && k in arena.nodes[node.id].children
      ensures node.children[k].id == arena.nodes[node.id].children[k]
      ensures Sub(arena, node.children[k].id) < Sub(arena, node.id)
      ensures SeenSub(arena, node.id, keys - {k}) == SeenSub(arena, node.id, keys) + Sub(arena, node.children[k].id)
      ensures SeenSub(arena, node.id, keys) !! Sub(arena, node.children[k].id)
    {
      assert Rep(node.id);
      ChildFacts(node, k);
      assert ChildOk(arena.nodes, node.id, k) && Rep(arena.nodes[node.id].children[k]);
      SubOfChild(Ps(), arena, node.id, k);
      SeenStep(Ps(), arena, node.id, keys, k);
    }

    /** Blocks of the unpinned nodes at or below `node`. */
    method EvictableBelow(node: Node) returns (blocks: nat)
      requires Valid() && node in nodes && node.id in arena.nodes
      ensures blocks == |EvictIn(arena, Sub(arena, node.id))|
      decreases Sub(arena, node.id)
    {
      assert Rep(node.id) && NodeOk(Ps(), arena.nodes[node.id]);
      StoredInNode(Ps(), arena, node.id);
      SeenStart(Ps(), arena, node.id);
      BlocksLength(node.segmentTokens, blockSize);
      blocks := 0;
      if node != root && node.activeRefCount == 0 {
        blocks := blocks + node.SegmentBlocks(blockSize);
      }
      var keys := node.children.Keys;
      while keys != {}
        invariant keys <= node.children.Keys
        invariant blocks == |EvictIn(arena, SeenSub(arena, node.id, keys))|
      {
        var k :| k in keys;
        VisitChild(node, keys, k);
        StoredUnion(arena, SeenSub(arena, node.id, keys), Sub(arena, node.children[k].id));
        var below := EvictableBelow(node.children[k]);
        blocks := blocks + below;
        keys := keys - {k};
      }
    }

    /** The blocks per layer that eviction could free: the stored prefixes that no pin runs through. */
    method EvictableBlocks() returns (blocks: nat)
      requires Valid()
      ensures blocks == |Evictable(Abs().contents, Abs().pins)|
    {
      assert Rep(ROOT);
      StoredInRoot(Ps(), arena);
      blocks := EvictableBelow(root);
    }

    method CountBelow(node: Node) returns (count: nat)
      requires Valid() && node in nodes && node.id in arena.nodes
      ensures count == |Sub(arena, node.id)|
      decreases Sub(arena, node.id)
    {
      assert Rep(node.id);
      SeenStart(Ps(), arena, node.id);
      count := 1;
      var keys := node.children.Keys;
      while keys != {}
        invariant keys <= node.children.Keys && count == |SeenSub(arena, node.id, keys)|
      {
        var k :| k in keys;
        VisitChild(node, keys, k);
        var below := CountBelow(node.children[k]);
        count := count + below;
        keys := keys - {k};
      }
    }

    method NodeCount() returns (count: nat)
      requires Valid()
      ensures count == |arena.nodes|
    {
      assert Rep(ROOT);
      StoredInRoot(Ps(), arena);
      count := CountBelow(root);
    }

    // ---------- Evicting ----------

    /** Leaves no pin holds, in the subtree below `node`. */
    method CollectLeavesBelow(node: Node) returns (leaves: seq<Node>)
      requires Valid() && node in nodes && node.id in arena.nodes
      ensures forall n :: n in leaves <==> n in nodes && n.id in Sub(arena, node.id) && EvictableLeaf(arena, n.id)
      ensures Distinct(leaves)
      decreases Sub(arena, node.id)
    {
      assert Rep(node.id);
      SeenStart(Ps(), arena, node.id);
      leaves := [];
      if node != root && node.children == map[] && node.activeRefCount == 0 {
        assert arena.nodes[node.id].children.Keys == {};
        assert Sub(arena, node.id) == {node.id};
        return [node];
      }
      var keys := node.children.Keys;
      while keys != {}
        invariant keys <= node.children.Keys && Distinct(leaves)
        invariant forall n :: n in leaves <==>
                    n in nodes && n.id in SeenSub(arena, node.id, keys) && EvictableLeaf(arena, n.id)
      {
        var k :| k in keys;
        VisitChild(node, keys, k);
        var below := CollectLeavesBelow(node.children[k]);
        DistinctConcat(leaves, below);
        leaves := leaves + below;
        keys := keys - {k};
      }
    }

    /** `m` was used less recently than `n`; equal ticks are ordered by id. */
    static predicate Older(m: Node, n: Node)
      reads m, n
    {
      if m.lastAccessTick == n.lastAccessTick then m.id < n.id else m.lastAccessTick < n.lastAccessTick
    }

    static ghost predicate OldestFirst(leaves: seq<Node>)
      reads leaves
    {
      forall i, j :: 0 <= i < j < |leaves| ==> Older(leaves[i], leaves[j])
    }

    static lemma PutInOrder(sorted: seq<Node>, at: nat, n: Node)
      requires OldestFirst(sorted) && at <= |sorted|
      requires forall x :: 0 <= x < at ==> Older(sorted[x], n)
      requires forall x :: at <= x < |sorted| ==> Older(n, sorted[x])
      ensures var longer := sorted[..at] + [n] + sorted[at..];
        OldestFirst(longer) && |longer| == |sorted| + 1 && forall m :: m in longer <==> m in sorted || m == n
    {
      assert sorted == sorted[..at] + sorted[at..];
    }

    static method SortByAge(leaves: seq<Node>) returns (sorted: seq<Node>)
      requires forall i, j :: 0 <= i < j < |leaves| ==> leaves[i].id != leaves[j].id
      ensures OldestFirst(sorted) && |sorted| == |leaves|
      ensures forall n :: n in sorted <==> n in leaves
    {
      sorted := [];
      for i := 0 to |leaves|
        invariant OldestFirst(sorted) && |sorted| == i
        invariant forall n :: n in sorted <==> n in leaves[..i]
      {
        var at := 0;
        while at < |sorted| && Older(sorted[at], leaves[i])
          invariant 0 <= at <= |sorted|
          invariant forall x :: 0 <= x < at ==> Older(sorted[x], leaves[i])
        {
          at := at + 1;
        }
        forall x | at <= x < |sorted| ensures Older(leaves[i], sorted[x]) {
          assert sorted[x] in leaves[..i] && sorted[at] in leaves[..i];
          assert x > at ==> Older(sorted[at], sorted[x]);
        }
        assert leaves[..i + 1] == leaves[..i] + [leaves[i]];
        PutInOrder(sorted, at, leaves[i]);
        sorted := sorted[..at] + [leaves[i]] + sorted[at..];
      }
      assert leaves[..|leaves|] == leaves;
    }

    /** All evictable leaves, least recently used first. */
    method CollectEvictableLeaves() returns (leaves: seq<Node>)
      requires Valid()
      ensures forall n :: n in leaves <==> n in nodes && EvictableLeaf(arena, n.id)
      ensures OldestFirst(leaves)
    {
      assert Rep(ROOT);
      StoredInRoot(Ps(), arena);
      var found := CollectLeavesBelow(root);
      forall i, j | 0 <= i < j < |found| ensures found[i].id != found[j].id {
        assert found[i] in found && found[j] in found;
      }
      leaves := SortByAge(found);
    }

    /** Evict the least recently used unpinned leaf, if there is one. It never fails. */
    method EvictOldest() returns (removed: nat, ghost leaf: Node?)
      requires Valid()
      modifies `nodes, `byId, `arena, nodes`children
      ensures Valid() && nodes <= old(nodes) && HandlesKept(old(nodes), old(arena), nodes, arena)
      ensures leaf == null <==> Evictable(old(Abs()).contents, old(Abs()).pins) == {}
      ensures leaf == null ==> removed == 0 && Abs() == old(Abs()) && nodes == old(nodes)
      ensures leaf != null ==>
                && leaf in old(nodes) && nodes == old(nodes) - {leaf} && old(EvictableLeaf(arena, leaf.id))
                && (forall n :: n in old(nodes) && n != leaf && old(EvictableLeaf(arena, n.id)) ==> Older(leaf, n))
                && removed > 0 && WellFormed(old(Abs()))
                && exists s: set<Prefix> :: |s| == removed && Enabled(old(Abs()), Erase(s)) && Abs() == Apply(old(Abs()), Erase(s))
    {
      NodesAreRecorded();
      EvictionStops(Ps(), arena);
      var leaves := CollectEvictableLeaves();
      if |leaves| == 0 {
        forall i ensures !EvictableLeaf(arena, i) {
          if EvictableLeaf(arena, i) { NodeOfId(i); }
        }
        return 0, null;
      }
      var oldest := leaves[0];
      leaf := oldest;
      assert oldest in leaves && Rep(oldest.id);
      assert EvictableLeaf(arena, oldest.id);
      ghost var depth := oldest.depthBlocksBefore;
      ghost var s := LeafPrefixes(oldest);
      var r := EraseLeaf(oldest);
      assert r.Done?;
      removed := |r.value[0]|;
    }

    lemma NodeOfId(i: int)
      requires Core() && i in arena.nodes
      ensures i in byId && byId[i] in nodes && byId[i].id == i
    {
      assert Rep(i);
    }

    lemma LeafPrefixes(leaf: Node) returns (s: set<Prefix>)
      requires Core() && leaf in nodes && leaf != root
      ensures leaf.id in arena.nodes && 0 <= leaf.depthBlocksBefore < |Path(leaf)|
      ensures s == LongerPrefixes(Path(leaf), leaf.depthBlocksBefore) && |s| == |Path(leaf)| - leaf.depthBlocksBefore
    {
      ParentFacts(leaf);
      s := LongerPrefixes(Path(leaf), leaf.depthBlocksBefore);
    }

    /** Evict leaves until at least `minBlocks` blocks per layer are free or nothing more is evictable.
        (The cache manager's loop around collect_evictable_leaves and erase_leaf.) */
    method EvictBlocks(minBlocks: nat) returns (evicted: nat)
      requires Valid()
      modifies `nodes, `byId, `arena, nodes`children
      ensures Valid() && nodes <= old(nodes) && Abs().pins == old(Abs().pins)
      ensures evicted == |old(Abs().contents)| - |Abs().contents|
      ensures evicted == |Evictable(old(Abs()).contents, old(Abs()).pins)| - |Evictable(Abs().contents, Abs().pins)|
      ensures evicted >= minBlocks || Evictable(Abs().contents, Abs().pins) == {}
      ensures |Evictable(old(Abs()).contents, old(Abs()).pins)| <= minBlocks ==>
                evicted == |Evictable(old(Abs()).contents, old(Abs()).pins)|
      ensures forall p :: p in Abs().contents ==> p in old(Abs().contents) && Abs().contents[p] == old(Abs().contents)[p]
      ensures forall p :: p in old(Abs().contents) && PinsThrough(Abs().pins, p) > 0 ==> p in Abs().contents
      ensures HandlesKept(old(nodes), old(arena), nodes, arena)
    {
      NodesAreRecorded();
      evicted := 0;
      var more := true;
      while evicted < minBlocks && more
        invariant Valid() && nodes <= old(nodes) && Abs().pins == old(Abs().pins)
        invariant HandlesKept(old(nodes), old(arena), nodes, arena)
        invariant evicted == |old(Abs().contents)| - |Abs().contents|
        invariant evicted == |Evictable(old(Abs()).contents, old(Abs()).pins)| - |Evictable(Abs().contents, Abs().pins)|
        invariant more || Evictable(Abs().contents, Abs().pins) == {}
        invariant forall p :: p in Abs().contents ==> p in old(Abs().contents) && Abs().contents[p] == old(Abs().contents)[p]
        invariant forall p :: p in old(Abs().contents) && PinsThrough(Abs().pins, p) > 0 ==> p in Abs().contents
        decreases |Evictable(Abs().contents, Abs().pins)|, more
      {
        ghost var before, between, middle := Abs(), nodes, arena;
        var removed;
        ghost var leaf;
        removed, leaf := EvictOldest();
        KeptTwice(old(nodes), old(arena), between, middle, nodes, arena);
        if removed == 0 {
          more := false;
        } else {
          ghost var s: set<Prefix> :| |s| == removed && Enabled(before, Erase(s)) && Abs() == Apply(before, Erase(s));
          EraseEffect(before, s);
          evicted := evicted + removed;
        }
      }
    }

    // ---------- Clearing ----------

    /** All payloads stored at or below `node`; `order` names the prefix each belongs to. */
    method CollectAllBelow(node: Node) returns (ids: seq<seq<Payload>>, ghost order: seq<Prefix>)
      requires Valid() && node in nodes && node.id in arena.nodes
      ensures Collected(ids, order, Abs().contents, numLayers) && Distinct(order)
      ensures forall p :: p in order <==> p in StoredIn(arena, Sub(arena, node.id))
      decreases Sub(arena, node.id)
    {
      assert Rep(node.id) && NodeOk(Ps(), arena.nodes[node.id]);
      SeenStart(Ps(), arena, node.id);
      LeafColumns(node);
      order := OwnPrefixes(node);
      ids := node.segmentBlockIds;
      var keys := node.children.Keys;
      while keys != {}
        invariant keys <= node.children.Keys
        invariant Collected(ids, order, Abs().contents, numLayers) && Distinct(order)
        invariant forall p :: p in order <==> p in StoredIn(arena, SeenSub(arena, node.id, keys))
      {
        var k :| k in keys;
        VisitChild(node, keys, k);
        StoredUnion(arena, SeenSub(arena, node.id, keys), Sub(arena, node.children[k].id));
        ghost var childOrder;
        var below;
        below, childOrder := CollectAllBelow(node.children[k]);
        var longer := JoinLayers(ids, below);
        CollectedConcat(ids, below, longer, order, childOrder, Abs().contents, numLayers);
        DistinctConcat(order, childOrder);
        ids, order := longer, order + childOrder;
        keys := keys - {k};
      }
    }

    static method JoinLayers(ids: seq<seq<Payload>>, more: seq<seq<Payload>>) returns (r: seq<seq<Payload>>)
      requires |more| == |ids|
      ensures |r| == |ids| && forall l :: 0 <= l < |r| ==> r[l] == ids[l] + more[l]
    {
      r := ids;
      for layer := 0 to |ids|
        invariant |r| == |ids|
        invariant forall l :: 0 <= l < layer ==> r[l] == ids[l] + more[l]
        invariant forall l :: layer <= l < |r| ==> r[l] == ids[l]
      {
        r := r[layer := r[layer] + more[layer]];
      }
    }

    lemma OwnPrefixes(n: Node) returns (order: seq<Prefix>)
      requires Valid() && n in nodes && n.id in arena.nodes
      ensures Collected(n.segmentBlockIds, order, Abs().contents, numLayers) && Distinct(order)
      ensures forall p :: p in order <==> p in StoredIn(arena, {n.id})
    {
      LeafColumns(n);
      assert Rep(n.id);
      var path, depth := Path(n), n.depthBlocksBefore;
      order := seq(|path| - depth, i requires 0 <= i < |path| - depth => path[..depth + 1 + i]);
      SegmentCollected(n.segmentBlockIds, Abs().contents, path, depth, numLayers);
      StoredInNode(Ps(), arena, n.id);
      assert Distinct(order) by {
        forall i, j | 0 <= i < j < |order| ensures order[i] != order[j] { assert |order[i]| != |order[j]|; }
      }
      forall p ensures p in order <==> p in LongerPrefixes(path, depth) {
        if p in LongerPrefixes(path, depth) { assert p == order[|p| - depth - 1]; }
      }
    }

    /** Empty the cache; every stored payload is handed back exactly once. Outstanding pins are forgotten: what
        they held is gone, and the nodes they named are no longer in the tree. */
    method ClearAndCollectBlockIds() returns (ids: seq<seq<Payload>>, ghost order: seq<Prefix>)
      requires Valid()
      modifies this, root
      ensures Valid() && nodes == {root} && Abs() == Cache(map[], [])
      ensures Collected(ids, order, old(Abs().contents), numLayers) && Distinct(order)
      ensures forall p :: p in order <==> p in old(Abs().contents)
      ensures splitCount == 0 && root.lastAccessTick == accessTick == old(accessTick) + 1
    {
      assert Rep(ROOT);
      StoredInRoot(Ps(), arena);
      ClearedKeeps(Ps(), arena);
      ids, order := CollectAllBelow(root);
      ForgetChildren(Cleared(arena));
    }

    method ForgetChildren(ghost next: Arena)
      requires Represented() && RefsOk() && next.nodes.Keys == {ROOT}
      requires next.nodes[ROOT] == arena.nodes[ROOT].(children := map[])
      modifies this, root`children, root`lastAccessTick
      ensures Represented() && RefsOk() && arena == next && nodes == {root} && byId == map[ROOT := root]
      ensures splitCount == 0 && root.lastAccessTick == accessTick == old(accessTick) + 1
      ensures nextNodeId == old(nextNodeId)
    {
      assert Rep(ROOT);
      root.children := map[];
      accessTick := accessTick + 1;
      root.lastAccessTick := accessTick;
      splitCount := 0;
      nodes, byId, arena := {root}, map[ROOT := root], next;
    }
  }
}
