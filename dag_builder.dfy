/** The chunker and the balanced Merkle-tree builder of src/car/carGenerator.ts. */
module DagBuilder {
  import opened Bytes
  import opened Slicing
  import opened Multiformats

  /** 256 KiB leaf chunks. */
  const CHUNK_SIZE: nat := 1024 * 256
  /** Largest number of links in one stem node (the go-car default). */
  const MAX_LINKS: nat := 174

  /** A leaf: the CID of its raw bytes, the bytes, and its logical size. */
  datatype Chunk = Chunk(cid: Cid, bytes: seq<byte>, size: nat)

  /** What a parent needs to know of a child: CID, logical size, encoded size of the subtree. */
  datatype LinkInfo = LinkInfo(cid: Cid, size: nat, encodedSize: nat)

  /** A freshly encoded stem node and the link that promotes it to the next level. */
  datatype StemNode = StemNode(nodeCid: Cid, nodeBytes: seq<byte>, nodeInfo: LinkInfo)

  /** Every node of a build, keyed by the string form of its CID. */
  type NodeStore = map<string, seq<byte>>

  // ---------------------------------------------------------------- chunker

  /** A raw leaf over exactly these bytes (`raw.encode` is the identity). */
  function RawChunk(c: Codecs, bytes: seq<byte>): Chunk
  {
    Chunk(CidV1(c, RAW_CODE, bytes), bytes, |bytes|)
  }

  function ChunksOf(c: Codecs, slices: seq<seq<byte>>): seq<Chunk>
  {
    seq(|slices|, i requires 0 <= i < |slices| => RawChunk(c, slices[i]))
  }

  function ChunkBytes(chunks: seq<Chunk>): seq<seq<byte>>
  {
    seq(|chunks|, i requires 0 <= i < |chunks| => chunks[i].bytes)
  }

  /** The chunks `chunkFile` returns for `bytes`. */
  function Chunks(c: Codecs, bytes: seq<byte>): seq<Chunk>
  {
    if |bytes| == 0 then [RawChunk(c, [])] else ChunksOf(c, Slices(bytes, 0, CHUNK_SIZE))
  }

  /** What the chunker promises: an empty input gives one empty chunk; otherwise the chunks
      put back in order are the input, all of them CHUNK_SIZE long but the last, which holds
      1..CHUNK_SIZE bytes, and there are ceil(n / CHUNK_SIZE) of them. Each chunk's size is its
      length and its CID is the raw CID of its bytes. */
  lemma ChunksContract(c: Codecs, bytes: seq<byte>)
    ensures |bytes| == 0 ==> Chunks(c, bytes) == [Chunk(CidV1(c, RAW_CODE, []), [], 0)]
    ensures |bytes| > 0 ==> Flatten(ChunkBytes(Chunks(c, bytes))) == bytes
    ensures |bytes| > 0 ==> |Chunks(c, bytes)| == (|bytes| + CHUNK_SIZE - 1) / CHUNK_SIZE
    ensures forall i :: 0 <= i < |Chunks(c, bytes)| - 1 ==> |Chunks(c, bytes)[i].bytes| == CHUNK_SIZE
    ensures |bytes| > 0 ==> 1 <= |Chunks(c, bytes)[|Chunks(c, bytes)| - 1].bytes| <= CHUNK_SIZE
    ensures forall i :: 0 <= i < |Chunks(c, bytes)| ==>
      Chunks(c, bytes)[i].size == |Chunks(c, bytes)[i].bytes| &&
      Chunks(c, bytes)[i].cid == CidV1(c, RAW_CODE, Chunks(c, bytes)[i].bytes)
  {
    if |bytes| > 0 {
      var ss := Slices(bytes, 0, CHUNK_SIZE);
      assert ChunkBytes(ChunksOf(c, ss)) == ss;
      SlicesFlatten(bytes, 0, CHUNK_SIZE);
      SlicesShape(bytes, 0, CHUNK_SIZE);
      SlicesCount(bytes, 0, CHUNK_SIZE);
      CeilDivChunk(|bytes|, |ss|);
    }
  }

  /** c slices of CHUNK_SIZE cover n bytes exactly when c == ceil(n / CHUNK_SIZE). */
  lemma CeilDivChunk(n: nat, k: nat)
    requires (k - 1) * CHUNK_SIZE < n <= k * CHUNK_SIZE
    ensures k == (n + CHUNK_SIZE - 1) / CHUNK_SIZE
  {
  }

  lemma ChunksOfCons(c: Codecs, s: seq<byte>, rest: seq<seq<byte>>)
    ensures ChunksOf(c, [s] + rest) == [RawChunk(c, s)] + ChunksOf(c, rest)
  {
  }

  /** `chunkFile`: slices the input in CHUNK_SIZE steps. */
  method ChunkFile(c: Codecs, bytes: seq<byte>) returns (chunks: seq<Chunk>)
    ensures chunks == Chunks(c, bytes)
    ensures |bytes| == 0 ==> chunks == [Chunk(CidV1(c, RAW_CODE, []), [], 0)]
    ensures |bytes| > 0 ==> Flatten(ChunkBytes(chunks)) == bytes
    ensures forall i :: 0 <= i < |chunks| ==> chunks[i].size == |chunks[i].bytes| <= CHUNK_SIZE
  {
    chunks := [];
    if |bytes| == 0 {
      var empty: seq<byte> := [];
      var cid := CidV1(c, RAW_CODE, empty);
      chunks := chunks + [Chunk(cid, empty, 0)];
    } else {
      var i := 0;
      while i < |bytes|
        invariant chunks + ChunksOf(c, Slices(bytes, i, CHUNK_SIZE)) == ChunksOf(c, Slices(bytes, 0, CHUNK_SIZE))
        decreases |bytes| - i
      {
        var chunkBytes := bytes[i..Min(i + CHUNK_SIZE, |bytes|)];
        var cid := CidV1(c, RAW_CODE, chunkBytes);
        SlicesCons(bytes, i, CHUNK_SIZE);
        ChunksOfCons(c, chunkBytes, Slices(bytes, i + CHUNK_SIZE, CHUNK_SIZE));
        chunks := chunks + [Chunk(cid, chunkBytes, |chunkBytes|)];
        i := i + CHUNK_SIZE;
      }
    }
    ChunksContract(c, bytes);
    SlicesShape(bytes, 0, CHUNK_SIZE);
  }

  // ---------------------------------------------------------------- stem nodes

  function SumSizes(links: seq<LinkInfo>): nat
  {
    if links == [] then 0 else links[0].size + SumSizes(links[1..])
  }

  function SumEncoded(links: seq<LinkInfo>): nat
  {
    if links == [] then 0 else links[0].encodedSize + SumEncoded(links[1..])
  }

  /** The UnixFS block sizes, one per child, in order. */
  function BlockSizes(links: seq<LinkInfo>): seq<nat>
  {
    seq(|links|, i requires 0 <= i < |links| => links[i].size)
  }

  /** One unnamed dag-pb link per child, in order, carrying the child's encoded size. */
  function DagLinks(links: seq<LinkInfo>): seq<PbLink>
  {
    seq(|links|, i requires 0 <= i < |links| => PbLink("", links[i].encodedSize, links[i].cid))
  }

  /** `createStemNode`: encodes the children as a dag-pb node over a UnixFS file record and
      sums up its sizes. */
  function CreateStemNode(c: Codecs, links: seq<LinkInfo>): (r: StemNode)
    ensures r.nodeCid == CidV1(c, DAG_PB_CODE, r.nodeBytes) && r.nodeInfo.cid == r.nodeCid
    ensures r.nodeInfo.size == SumSizes(links)
    ensures r.nodeInfo.encodedSize == |r.nodeBytes| + SumEncoded(links)
  {
    var nodeBytes := c.encodeDagPb(PbNode(c.marshalUnixFs(UnixFsFile(BlockSizes(links))), DagLinks(links)));
    var nodeCid := CidV1(c, DAG_PB_CODE, nodeBytes);
    StemNode(nodeCid, nodeBytes, LinkInfo(nodeCid, SumSizes(links), |nodeBytes| + SumEncoded(links)))
  }

  function StemsOf(c: Codecs, groups: seq<seq<LinkInfo>>): (r: seq<StemNode>)
    ensures |r| == |groups|
  {
    seq(|groups|, j requires 0 <= j < |groups| => CreateStemNode(c, groups[j]))
  }

  function Infos(nodes: seq<StemNode>): (r: seq<LinkInfo>)
    ensures |r| == |nodes|
  {
    seq(|nodes|, j requires 0 <= j < |nodes| => nodes[j].nodeInfo)
  }

  // ---------------------------------------------------------------- levels

  /** The consecutive groups of at most MAX_LINKS links one level is cut into. */
  function LevelGroups(level: seq<LinkInfo>): seq<seq<LinkInfo>>
  {
    Slices(level, 0, MAX_LINKS)
  }

  /** The level above: one link per group. It has ceil(n / MAX_LINKS) entries, so it is
      non-empty when the level is, and strictly shorter once the level has two or more links. */
  function NextLevel(c: Codecs, level: seq<LinkInfo>): (r: seq<LinkInfo>)
    ensures |r| == (|level| + MAX_LINKS - 1) / MAX_LINKS
    ensures |level| >= 1 ==> 1 <= |r|
    ensures |level| > 1 ==> |r| < |level|
  {
    SlicesCount(level, 0, MAX_LINKS);
    Infos(StemsOf(c, LevelGroups(level)))
  }

  /** Every group handed to CreateStemNode, level by level, left to right. */
  function AllGroups(c: Codecs, level: seq<LinkInfo>): seq<seq<LinkInfo>>
    decreases |level|
  {
    if |level| <= 1 then [] else LevelGroups(level) + AllGroups(c, NextLevel(c, level))
  }

  /** Every stem node the build creates, in creation order. */
  function StemNodes(c: Codecs, level: seq<LinkInfo>): seq<StemNode>
  {
    StemsOf(c, AllGroups(c, level))
  }

  /** The level at which the `while` loop stops. */
  function TopLevel(c: Codecs, level: seq<LinkInfo>): (r: seq<LinkInfo>)
    ensures |level| >= 1 ==> |r| == 1
    decreases |level|
  {
    if |level| <= 1 then level else TopLevel(c, NextLevel(c, level))
  }

  /** The initial level: one link per leaf; a raw leaf's encoded size is its length. */
  function LeafLinks(chunks: seq<Chunk>): (r: seq<LinkInfo>)
    ensures |r| == |chunks|
  {
    seq(|chunks|, i requires 0 <= i < |chunks| => LinkInfo(chunks[i].cid, chunks[i].size, |chunks[i].bytes|))
  }

  // ---------------------------------------------------------------- node store

  /** A `Map` after `set` was called with these entries in order: a later entry replaces an
      earlier one with the same key. */
  function Store(entries: seq<(string, seq<byte>)>): NodeStore
  {
    if entries == [] then map[]
    else Store(entries[..|entries| - 1])[entries[|entries| - 1].0 := entries[|entries| - 1].1]
  }

  function LeafEntries(c: Codecs, chunks: seq<Chunk>): seq<(string, seq<byte>)>
  {
    seq(|chunks|, i requires 0 <= i < |chunks| => (c.cidString(chunks[i].cid), chunks[i].bytes))
  }

  function StemEntries(c: Codecs, nodes: seq<StemNode>): seq<(string, seq<byte>)>
  {
    seq(|nodes|, i requires 0 <= i < |nodes| => (c.cidString(nodes[i].nodeCid), nodes[i].nodeBytes))
  }

  /** The node store `buildBalancedTree` returns. */
  function TreeStore(c: Codecs, chunks: seq<Chunk>): NodeStore
  {
    Store(LeafEntries(c, chunks) + StemEntries(c, StemNodes(c, LeafLinks(chunks))))
  }

  /** The root CID `buildBalancedTree` returns. */
  function TreeRoot(c: Codecs, chunks: seq<Chunk>): Cid
    requires |chunks| >= 1
  {
    TopLevel(c, LeafLinks(chunks))[0].cid
  }

  /** `buildBalancedTree`: stores every leaf, then builds stem nodes level by level until one
      link is left. */
  method BuildBalancedTree(c: Codecs, leafChunks: seq<Chunk>) returns (allNodes: NodeStore, rootCid: Cid)
    requires |leafChunks| >= 1
    ensures allNodes == TreeStore(c, leafChunks)
    ensures rootCid == TreeRoot(c, leafChunks)
    ensures |leafChunks| == 1 ==>
      rootCid == leafChunks[0].cid && allNodes == map[c.cidString(leafChunks[0].cid) := leafChunks[0].bytes]
    ensures forall i :: 0 <= i < |leafChunks| ==> c.cidString(leafChunks[i].cid) in allNodes
    ensures forall n :: n in StemNodes(c, LeafLinks(leafChunks)) ==> c.cidString(n.nodeCid) in allNodes
  {
    allNodes := map[];
    // the `set` calls made so far, in order
    ghost var entries: seq<(string, seq<byte>)> := [];
    for k := 0 to |leafChunks|
      invariant entries == LeafEntries(c, leafChunks[..k])
      invariant allNodes == Store(entries)
    {
      var chunk := leafChunks[k];
      StoreAppend(entries, (c.cidString(chunk.cid), chunk.bytes));
      LeafEntriesSnoc(c, leafChunks, k);
      allNodes := allNodes[c.cidString(chunk.cid) := chunk.bytes];
      entries := entries + [(c.cidString(chunk.cid), chunk.bytes)];
    }
    assert leafChunks[..|leafChunks|] == leafChunks;
    StoreHoldsEveryNode(c, leafChunks);

    if |leafChunks| == 1 {
      SingleLeafStore(c, leafChunks);
      return allNodes, leafChunks[0].cid;
    }

    var currentLevel := LeafLinks(leafChunks);
    ghost var created: seq<StemNode> := [];
    assert created + StemNodes(c, currentLevel) == StemNodes(c, LeafLinks(leafChunks));
    assert entries == LeafEntries(c, leafChunks) + StemEntries(c, created);
    while |currentLevel| > 1
      invariant |currentLevel| >= 1
      invariant created + StemNodes(c, currentLevel) == StemNodes(c, LeafLinks(leafChunks))
      invariant TopLevel(c, currentLevel) == TopLevel(c, LeafLinks(leafChunks))
      invariant entries == LeafEntries(c, leafChunks) + StemEntries(c, created)
      invariant allNodes == Store(entries)
      decreases |currentLevel|
    {
      LevelDone(c, currentLevel, created, LeafLinks(leafChunks), entries, LeafEntries(c, leafChunks));
      var nextLevel;
      nextLevel, allNodes, entries := BuildLevel(c, currentLevel, allNodes, entries);
      created := created + StemsOf(c, LevelGroups(currentLevel));
      currentLevel := nextLevel;
    }
    rootCid := currentLevel[0].cid;
    TreeStoreFromCreated(c, leafChunks, created, currentLevel);
  }

  /** One pass of the `while` loop: the inner `for` that cuts the level into groups, makes a
      stem node of each group, stores it and collects its link for the next level. */
  method BuildLevel(c: Codecs, currentLevel: seq<LinkInfo>, nodes: NodeStore, ghost entries: seq<(string, seq<byte>)>)
    returns (nextLevel: seq<LinkInfo>, allNodes: NodeStore, ghost entries': seq<(string, seq<byte>)>)
    requires nodes == Store(entries)
    ensures nextLevel == NextLevel(c, currentLevel)
    ensures entries' == entries + StemEntries(c, StemsOf(c, LevelGroups(currentLevel)))
    ensures allNodes == Store(entries')
  {
    allNodes := nodes;
    entries' := entries;
    nextLevel := [];
    ghost var thisLevel: seq<StemNode> := [];
    var i := 0;
    while i < |currentLevel|
      invariant thisLevel + StemsOf(c, Slices(currentLevel, i, MAX_LINKS)) == StemsOf(c, LevelGroups(currentLevel))
      invariant nextLevel == Infos(thisLevel)
      invariant entries' == entries + StemEntries(c, thisLevel)
      invariant allNodes == Store(entries')
      decreases |currentLevel| - i
    {
      var levelChunk := currentLevel[i..Min(i + MAX_LINKS, |currentLevel|)];
      var node := CreateStemNode(c, levelChunk);
      LevelStep(c, currentLevel, i, thisLevel, entries, entries');
      StoreAppend(entries', (c.cidString(node.nodeCid), node.nodeBytes));
      allNodes := allNodes[c.cidString(node.nodeCid) := node.nodeBytes];
      nextLevel := nextLevel + [node.nodeInfo];
      entries' := entries' + [(c.cidString(node.nodeCid), node.nodeBytes)];
      thisLevel := thisLevel + [node];
      i := i + MAX_LINKS;
    }
    assert Slices(currentLevel, i, MAX_LINKS) == [];
    assert thisLevel == StemsOf(c, LevelGroups(currentLevel));
  }

  /** What one turn of the inner loop adds: the node of the group at i, its store entry and its link. */
  lemma LevelStep(c: Codecs, level: seq<LinkInfo>, i: nat, thisLevel: seq<StemNode>,
                  entries: seq<(string, seq<byte>)>, entries': seq<(string, seq<byte>)>)
    requires i < |level|
    requires thisLevel + StemsOf(c, Slices(level, i, MAX_LINKS)) == StemsOf(c, LevelGroups(level))
    requires entries' == entries + StemEntries(c, thisLevel)
    ensures var node := CreateStemNode(c, level[i..Min(i + MAX_LINKS, |level|)]);
      && (thisLevel + [node]) + StemsOf(c, Slices(level, i + MAX_LINKS, MAX_LINKS)) == StemsOf(c, LevelGroups(level))
      && entries' + [(c.cidString(node.nodeCid), node.nodeBytes)] == entries + StemEntries(c, thisLevel + [node])
      && Infos(thisLevel + [node]) == Infos(thisLevel) + [node.nodeInfo]
  {
    var levelChunk := level[i..Min(i + MAX_LINKS, |level|)];
    var node := CreateStemNode(c, levelChunk);
    SlicesCons(level, i, MAX_LINKS);
    StemsOfCons(c, levelChunk, Slices(level, i + MAX_LINKS, MAX_LINKS));
    StemEntriesSnoc(c, thisLevel, node);
    InfosSnoc(thisLevel, node);
  }

  lemma SingleLeafStore(c: Codecs, chunks: seq<Chunk>)
    requires |chunks| == 1
    ensures TreeStore(c, chunks) == map[c.cidString(chunks[0].cid) := chunks[0].bytes]
    ensures TreeRoot(c, chunks) == chunks[0].cid
  {
    assert StemNodes(c, LeafLinks(chunks)) == [];
    var entries := LeafEntries(c, chunks) + StemEntries(c, []);
    assert entries == [(c.cidString(chunks[0].cid), chunks[0].bytes)];
    StoreAppend([], entries[0]);
    assert [] + [entries[0]] == entries;
  }

  /** What one turn of the outer loop keeps: the nodes still to create and the level the loop
      stops at are those of the whole build. */
  lemma LevelDone(c: Codecs, level: seq<LinkInfo>, created: seq<StemNode>, leaves: seq<LinkInfo>,
                  entries: seq<(string, seq<byte>)>, leafEntries: seq<(string, seq<byte>)>)
    requires |level| > 1
    requires created + StemNodes(c, level) == StemNodes(c, leaves)
    requires TopLevel(c, level) == TopLevel(c, leaves)
    requires entries == leafEntries + StemEntries(c, created)
    ensures (created + StemsOf(c, LevelGroups(level))) + StemNodes(c, NextLevel(c, level)) == StemNodes(c, leaves)
    ensures TopLevel(c, NextLevel(c, level)) == TopLevel(c, leaves)
    ensures entries + StemEntries(c, StemsOf(c, LevelGroups(level)))
         == leafEntries + StemEntries(c, created + StemsOf(c, LevelGroups(level)))
  {
    LevelDoneNodes(c, level, created, leaves);
    LevelDoneEntries(c, created, StemsOf(c, LevelGroups(level)), entries, leafEntries);
  }

  lemma LevelDoneEntries(c: Codecs, created: seq<StemNode>, here: seq<StemNode>,
                         entries: seq<(string, seq<byte>)>, leafEntries: seq<(string, seq<byte>)>)
    requires entries == leafEntries + StemEntries(c, created)
    ensures entries + StemEntries(c, here) == leafEntries + StemEntries(c, created + here)
  {
    StemEntriesAppend(c, created, here);
  }

  lemma LevelDoneNodes(c: Codecs, level: seq<LinkInfo>, created: seq<StemNode>, leaves: seq<LinkInfo>)
    requires |level| > 1
    requires created + StemNodes(c, level) == StemNodes(c, leaves)
    ensures (created + StemsOf(c, LevelGroups(level))) + StemNodes(c, NextLevel(c, level)) == StemNodes(c, leaves)
  {
    StemNodesUnfold(c, level);
  }

  lemma StemNodesUnfold(c: Codecs, level: seq<LinkInfo>)
    requires |level| > 1
    ensures StemNodes(c, level) == StemsOf(c, LevelGroups(level)) + StemNodes(c, NextLevel(c, level))
  {
    StemsOfAppend(c, LevelGroups(level), AllGroups(c, NextLevel(c, level)));
  }

  lemma StemEntriesAppend(c: Codecs, a: seq<StemNode>, b: seq<StemNode>)
    ensures StemEntries(c, a + b) == StemEntries(c, a) + StemEntries(c, b)
  {
  }

  lemma TreeStoreFromCreated(c: Codecs, chunks: seq<Chunk>, created: seq<StemNode>, level: seq<LinkInfo>)
    requires |level| == 1
    requires created + StemNodes(c, level) == StemNodes(c, LeafLinks(chunks))
    ensures created == StemNodes(c, LeafLinks(chunks))
  {
    assert StemNodes(c, level) == [];
  }

  lemma StoreAppend(entries: seq<(string, seq<byte>)>, e: (string, seq<byte>))
    ensures Store(entries + [e]) == Store(entries)[e.0 := e.1]
  {
    assert (entries + [e])[..|entries|] == entries;
  }

  lemma LeafEntriesSnoc(c: Codecs, chunks: seq<Chunk>, k: nat)
    requires k < |chunks|
    ensures LeafEntries(c, chunks[..k + 1]) == LeafEntries(c, chunks[..k]) + [(c.cidString(chunks[k].cid), chunks[k].bytes)]
  {
  }

  lemma StemsOfCons(c: Codecs, g: seq<LinkInfo>, rest: seq<seq<LinkInfo>>)
    ensures StemsOf(c, [g] + rest) == [CreateStemNode(c, g)] + StemsOf(c, rest)
  {
  }

  lemma InfosSnoc(nodes: seq<StemNode>, n: StemNode)
    ensures Infos(nodes + [n]) == Infos(nodes) + [n.nodeInfo]
  {
  }

  lemma StemEntriesSnoc(c: Codecs, nodes: seq<StemNode>, n: StemNode)
    ensures StemEntries(c, nodes + [n]) == StemEntries(c, nodes) + [(c.cidString(n.nodeCid), n.nodeBytes)]
  {
  }

  lemma StemsOfAppend(c: Codecs, a: seq<seq<LinkInfo>>, b: seq<seq<LinkInfo>>)
    ensures StemsOf(c, a + b) == StemsOf(c, a) + StemsOf(c, b)
  {
  }

  // ---------------------------------------------------------------- properties

  /** The keys of a store are exactly the keys of its entries, and each key holds the value of
      the last entry written under it. */
  lemma {:induction false} StoreContents(entries: seq<(string, seq<byte>)>)
    ensures Store(entries).Keys == set i | 0 <= i < |entries| :: entries[i].0
    ensures forall i :: 0 <= i < |entries| && (forall j :: i < j < |entries| ==> entries[j].0 != entries[i].0) ==>
      Store(entries)[entries[i].0] == entries[i].1
  {
    if entries != [] {
      var init := entries[..|entries| - 1];
      StoreContents(init);
      var lastKey := entries[|entries| - 1].0;
      assert forall i :: 0 <= i < |init| ==> init[i] == entries[i];
      assert (set i | 0 <= i < |entries| :: entries[i].0) == (set i | 0 <= i < |init| :: init[i].0) + {lastKey};
    }
  }

  /** Every leaf and every stem node of the build is a key of the node store, and the store
      has no other key. */
  lemma StoreHoldsEveryNode(c: Codecs, chunks: seq<Chunk>)
    ensures forall i :: 0 <= i < |chunks| ==> c.cidString(chunks[i].cid) in TreeStore(c, chunks)
    ensures forall n :: n in StemNodes(c, LeafLinks(chunks)) ==> c.cidString(n.nodeCid) in TreeStore(c, chunks)
    ensures forall k :: k in TreeStore(c, chunks) ==>
      (exists i :: 0 <= i < |chunks| && k == c.cidString(chunks[i].cid)) ||
      (exists n :: n in StemNodes(c, LeafLinks(chunks)) && k == c.cidString(n.nodeCid))
  {
    var leaves := LeafEntries(c, chunks);
    var stems := StemEntries(c, StemNodes(c, LeafLinks(chunks)));
    var entries := leaves + stems;
    StoreContents(entries);
    forall i | 0 <= i < |chunks|
      ensures c.cidString(chunks[i].cid) in TreeStore(c, chunks)
    {
      assert entries[i].0 == c.cidString(chunks[i].cid);
    }
    forall n | n in StemNodes(c, LeafLinks(chunks))
      ensures c.cidString(n.nodeCid) in TreeStore(c, chunks)
    {
      var j :| 0 <= j < |StemNodes(c, LeafLinks(chunks))| && StemNodes(c, LeafLinks(chunks))[j] == n;
      assert entries[|leaves| + j].0 == c.cidString(n.nodeCid);
    }
    forall k | k in TreeStore(c, chunks)
      ensures (exists i :: 0 <= i < |chunks| && k == c.cidString(chunks[i].cid)) ||
              (exists n :: n in StemNodes(c, LeafLinks(chunks)) && k == c.cidString(n.nodeCid))
    {
      var i :| 0 <= i < |entries| && entries[i].0 == k;
      if i >= |leaves| {
        assert StemNodes(c, LeafLinks(chunks))[i - |leaves|] in StemNodes(c, LeafLinks(chunks));
      }
    }
  }

  // ---------------------------------------------------------------- size accounting

  /** Total length of the encoded stem nodes. */
  function NodeBytesTotal(nodes: seq<StemNode>): nat
  {
    if nodes == [] then 0 else |nodes[0].nodeBytes| + NodeBytesTotal(nodes[1..])
  }

  lemma {:induction false} SumsAppend(a: seq<LinkInfo>, b: seq<LinkInfo>)
    ensures SumSizes(a + b) == SumSizes(a) + SumSizes(b)
    ensures SumEncoded(a + b) == SumEncoded(a) + SumEncoded(b)
  {
    if a == [] {
      assert a + b == b;
    } else {
      assert (a + b)[1..] == a[1..] + b;
      SumsAppend(a[1..], b);
    }
  }

  lemma {:induction false} NodeBytesAppend(a: seq<StemNode>, b: seq<StemNode>)
    ensures NodeBytesTotal(a + b) == NodeBytesTotal(a) + NodeBytesTotal(b)
  {
    if a == [] {
      assert a + b == b;
    } else {
      assert (a + b)[1..] == a[1..] + b;
      NodeBytesAppend(a[1..], b);
    }
  }

  /** Making one stem node per group keeps the total logical size, and adds the nodes' own
      lengths to the total encoded size. */
  lemma {:induction false} GroupSums(c: Codecs, gs: seq<seq<LinkInfo>>)
    ensures SumSizes(Infos(StemsOf(c, gs))) == SumSizes(Flatten(gs))
    ensures SumEncoded(Infos(StemsOf(c, gs))) == SumEncoded(Flatten(gs)) + NodeBytesTotal(StemsOf(c, gs))
  {
    if gs != [] {
      GroupSums(c, gs[1..]);
      var node := CreateStemNode(c, gs[0]);
      assert StemsOf(c, gs) == [node] + StemsOf(c, gs[1..]);
      assert Infos(StemsOf(c, gs)) == [node.nodeInfo] + Infos(StemsOf(c, gs[1..]));
      SumsAppend(gs[0], Flatten(gs[1..]));
    }
  }

  /** The level above has the same total logical size; its total encoded size grows by exactly
      the bytes of the stem nodes made from this level. */
  lemma NextLevelSums(c: Codecs, level: seq<LinkInfo>)
    ensures SumSizes(NextLevel(c, level)) == SumSizes(level)
    ensures SumEncoded(NextLevel(c, level)) == SumEncoded(level) + NodeBytesTotal(StemsOf(c, LevelGroups(level)))
  {
    GroupSums(c, LevelGroups(level));
    SlicesFlatten(level, 0, MAX_LINKS);
  }

  /** The last link's logical size is the sum over the first level; its encoded size is that
      level's encoded sizes plus every stem node built above it. */
  lemma {:induction false} TopLevelSums(c: Codecs, level: seq<LinkInfo>)
    requires |level| >= 1
    ensures TopLevel(c, level)[0].size == SumSizes(level)
    ensures TopLevel(c, level)[0].encodedSize == SumEncoded(level) + NodeBytesTotal(StemNodes(c, level))
    decreases |level|
  {
    if |level| == 1 {
      assert level == [level[0]];
      assert StemNodes(c, level) == [];
    } else {
      var next := NextLevel(c, level);
      NextLevelSums(c, level);
      TopLevelSums(c, next);
      StemNodesUnfold(c, level);
      NodeBytesAppend(StemsOf(c, LevelGroups(level)), StemNodes(c, next));
    }
  }

  /** For leaves whose size is their length, both sums over the first level are the total
      number of leaf bytes. */
  lemma {:induction false} LeafSums(chunks: seq<Chunk>)
    requires forall i :: 0 <= i < |chunks| ==> chunks[i].size == |chunks[i].bytes|
    ensures SumSizes(LeafLinks(chunks)) == TotalLength(ChunkBytes(chunks))
    ensures SumEncoded(LeafLinks(chunks)) == TotalLength(ChunkBytes(chunks))
  {
    if chunks != [] {
      assert LeafLinks(chunks)[1..] == LeafLinks(chunks[1..]);
      assert ChunkBytes(chunks)[1..] == ChunkBytes(chunks[1..]);
      LeafSums(chunks[1..]);
    }
  }

  /** The root link of a build covers the whole input: its logical size is the input length, and
      its encoded size is the input length plus the length of every stem node. */
  lemma RootCoversInput(c: Codecs, bytes: seq<byte>)
    ensures |Chunks(c, bytes)| >= 1
    ensures TopLevel(c, LeafLinks(Chunks(c, bytes)))[0].cid == TreeRoot(c, Chunks(c, bytes))
    ensures TopLevel(c, LeafLinks(Chunks(c, bytes)))[0].size == |bytes|
    ensures TopLevel(c, LeafLinks(Chunks(c, bytes)))[0].encodedSize
         == |bytes| + NodeBytesTotal(StemNodes(c, LeafLinks(Chunks(c, bytes))))
  {
    var chunks := Chunks(c, bytes);
    ChunksContract(c, bytes);
    LeafSums(chunks);
    FlattenLength(ChunkBytes(chunks));
    if |bytes| == 0 {
      assert ChunkBytes(chunks) == [[]];
      assert TotalLength(ChunkBytes(chunks)) == 0 + TotalLength(ChunkBytes(chunks)[1..]);
    }
    TopLevelSums(c, LeafLinks(chunks));
  }

  // ---------------------------------------------------------------- tree shape

  /** One level is cut into consecutive groups that put back in order give the level, each
      holding 1..MAX_LINKS links and all but the last exactly MAX_LINKS. */
  lemma LevelGroupsPartition(level: seq<LinkInfo>)
    ensures Flatten(LevelGroups(level)) == level
    ensures forall j :: 0 <= j < |LevelGroups(level)| ==> 1 <= |LevelGroups(level)[j]| <= MAX_LINKS
    ensures forall j :: 0 <= j < |LevelGroups(level)| - 1 ==> |LevelGroups(level)[j]| == MAX_LINKS
  {
    SlicesFlatten(level, 0, MAX_LINKS);
    SlicesShape(level, 0, MAX_LINKS);
  }

  /** No stem node of the build has fewer than one or more than MAX_LINKS children. */
  lemma {:induction false} FanOutBounded(c: Codecs, level: seq<LinkInfo>)
    ensures |StemNodes(c, level)| == |AllGroups(c, level)|
    ensures forall j :: 0 <= j < |AllGroups(c, level)| ==>
      1 <= |AllGroups(c, level)[j]| <= MAX_LINKS && StemNodes(c, level)[j] == CreateStemNode(c, AllGroups(c, level)[j])
    decreases |level|
  {
    if |level| > 1 {
      LevelGroupsPartition(level);
      FanOutBounded(c, NextLevel(c, level));
      var here := LevelGroups(level);
      var above := AllGroups(c, NextLevel(c, level));
      assert AllGroups(c, level) == here + above;
      forall j | 0 <= j < |AllGroups(c, level)|
        ensures 1 <= |AllGroups(c, level)[j]| <= MAX_LINKS
      {
        if j >= |here| {
          assert AllGroups(c, level)[j] == above[j - |here|];
        }
      }
    }
  }

  /** An input of at most one chunk is stored as a single raw block: the root is the raw CID of
      the input itself and no stem node is made. */
  lemma SmallInputIsOneRawBlock(c: Codecs, bytes: seq<byte>)
    requires |bytes| <= CHUNK_SIZE
    ensures TreeRoot(c, Chunks(c, bytes)) == CidV1(c, RAW_CODE, bytes)
    ensures StemNodes(c, LeafLinks(Chunks(c, bytes))) == []
  {
    if |bytes| > 0 {
      SlicesCons(bytes, 0, CHUNK_SIZE);
      assert bytes[0..Min(CHUNK_SIZE, |bytes|)] == bytes;
      assert Chunks(c, bytes) == [RawChunk(c, bytes)];
    }
  }

  /** 300000 bytes give two leaves of 262144 and 37856 bytes under one stem node, whose CID is
      the root. */
  lemma TwoChunkInput(c: Codecs, bytes: seq<byte>)
    requires |bytes| == 300000
    ensures |Chunks(c, bytes)| == 2
    ensures |Chunks(c, bytes)[0].bytes| == 262144 && |Chunks(c, bytes)[1].bytes| == 37856
    ensures StemNodes(c, LeafLinks(Chunks(c, bytes))) == [CreateStemNode(c, LeafLinks(Chunks(c, bytes)))]
    ensures TreeRoot(c, Chunks(c, bytes)) == CreateStemNode(c, LeafLinks(Chunks(c, bytes))).nodeCid
  {
    SlicesCons(bytes, 0, CHUNK_SIZE);
    SlicesCons(bytes, CHUNK_SIZE, CHUNK_SIZE);
    assert Slices(bytes, 2 * CHUNK_SIZE, CHUNK_SIZE) == [];
    var leaves := LeafLinks(Chunks(c, bytes));
    SlicesCons(leaves, 0, MAX_LINKS);
    assert leaves[0..Min(MAX_LINKS, 2)] == leaves;
    assert LevelGroups(leaves) == [leaves];
    var node := CreateStemNode(c, leaves);
    assert NextLevel(c, leaves) == [node.nodeInfo];
    assert TopLevel(c, leaves) == TopLevel(c, [node.nodeInfo]) == [node.nodeInfo];
    assert AllGroups(c, leaves) == [leaves];
  }
}
