/** The CAR byte-layout writers of src/utils/carGenerator.ts: the CARv1 header and block
    records, the CARv2 pragma and header, the CARv2 index and the assembled CARv2 file. */
module CarEncoder {
  import opened Bytes
  import opened Wrappers
  import opened Slicing
  import opened Multiformats
  import Varint

  /** The CARv2 pragma: a CBOR map `{"version": 2}` behind its varint length 0x0a. */
  const PRAGMA: seq<byte> := [0x0a, 0xa1, 0x67, 0x76, 0x65, 0x72, 0x73, 0x69, 0x6f, 0x6e, 0x02]
  /** Characteristics (16 bytes) and three u64 fields. */
  const HEADER_SIZE: nat := 40
  const CARV2_HEADER_SIZE: nat := |PRAGMA| + HEADER_SIZE

  /** A block to write: its CID and its bytes. */
  datatype Block = Block(cid: Cid, data: seq<byte>)

  /** The `{cid, offset}` pair handed to the index writer. */
  datatype IndexedCid = IndexedCid(cid: Cid, offset: nat)

  /** The three u64 fields of a CARv2 header, as read back. */
  datatype Envelope = Envelope(dataOffset: nat, dataSize: nat, indexOffset: nat)

  // ---------------------------------------------------------------- buffer primitives

  /** `Uint8Array.prototype.set(src, offset)`. */
  method SetBytes(dst: array<byte>, src: seq<byte>, offset: nat)
    requires offset + |src| <= dst.Length
    modifies dst
    ensures dst[..] == old(dst[..offset]) + src + old(dst[offset + |src|..])
    ensures dst[..offset + |src|] == old(dst[..offset]) + src
  {
    for k := 0 to |src|
      invariant forall j :: 0 <= j < offset ==> dst[j] == old(dst[j])
      invariant forall j :: offset + |src| <= j < dst.Length ==> dst[j] == old(dst[j])
      invariant forall j :: 0 <= j < k ==> dst[offset + j] == src[j]
    {
      dst[offset + k] := src[k];
    }
    assert dst[..] == old(dst[..offset]) + src + old(dst[offset + |src|..]);
    assert dst[..offset + |src|] == old(dst[..offset]) + src;
  }

  /** `DataView.setBigUint64(offset, BigInt(v), true)`: v modulo 2^64, least significant byte first. */
  method SetBigUint64(view: array<byte>, offset: nat, v: nat)
    requires offset + 8 <= view.Length
    modifies view
    ensures view[..] == old(view[..offset]) + LittleEndian(v, 8) + old(view[offset + 8..])
    ensures view[..offset + 8] == old(view[..offset]) + LittleEndian(v, 8)
  {
    SetBytes(view, LittleEndian(v, 8), offset);
  }

  function Zeros(n: nat): (r: seq<byte>)
    ensures |r| == n && forall i :: 0 <= i < n ==> r[i] == 0
  {
    seq(n, _ => 0)
  }

  // ---------------------------------------------------------------- CARv2 header

  /** The 51-byte CARv2 prefix for a data section of `dataSize` bytes: the pragma, 16 zero
      bytes, then dataOffset = 51, dataSize and indexOffset = 51 + dataSize as u64 fields
      at offsets 27, 35 and 43. */
  function V2Header(dataSize: nat): (r: seq<byte>)
    ensures |r| == CARV2_HEADER_SIZE == 51
    ensures r[..11] == PRAGMA
    ensures forall i :: 11 <= i < 27 ==> r[i] == 0
    ensures r[27..35] == LittleEndian(CARV2_HEADER_SIZE, 8)
    ensures r[35..43] == LittleEndian(dataSize, 8)
    ensures r[43..51] == LittleEndian(CARV2_HEADER_SIZE + dataSize, 8)
  {
    PRAGMA + Zeros(16) + LittleEndian(CARV2_HEADER_SIZE, 8) + LittleEndian(dataSize, 8)
      + LittleEndian(CARV2_HEADER_SIZE + dataSize, 8)
  }

  /** `computeCarV2Header`: fills a 40-byte `DataView` through a running offset, then puts the
      pragma in front. */
  method ComputeCarV2Header(carV1Header: seq<byte>, carV1Blocks: seq<byte>) returns (carV2Header: seq<byte>)
    ensures carV2Header == V2Header(|carV1Header| + |carV1Blocks|)
  {
    var dataOffset := CARV2_HEADER_SIZE;
    var dataSize := |carV1Header| + |carV1Blocks|;
    var indexOffset := dataOffset + dataSize;
    var fields := WriteHeaderFields(dataOffset, dataSize, indexOffset);
    carV2Header := JoinBuffers([PRAGMA, fields]);
    FlattenPair(PRAGMA, fields);
  }

  lemma FlattenPair(a: seq<byte>, b: seq<byte>)
    ensures Flatten([a, b]) == a + b
  {
    var last: seq<seq<byte>> := [b];
    assert last[1..] == [];
    assert Flatten(last) == b;
    assert [a, b][1..] == last;
  }

  /** The 40 bytes behind the pragma: 16 zeroed characteristics bytes, then the three u64
      fields, written through a running offset into a `DataView`. */
  method WriteHeaderFields(dataOffset: nat, dataSize: nat, indexOffset: nat) returns (fields: seq<byte>)
    ensures fields == Zeros(16) + LittleEndian(dataOffset, 8) + LittleEndian(dataSize, 8) + LittleEndian(indexOffset, 8)
  {
    var view := new byte[HEADER_SIZE];
    var offset := 0;
    for i := 0 to 16
      invariant offset == i
      invariant forall j :: 0 <= j < i ==> view[j] == 0
    {
      view[offset] := 0;
      offset := offset + 1;
    }
    assert view[..16] == Zeros(16);
    SetBigUint64(view, offset, dataOffset);
    offset := offset + 8;
    SetBigUint64(view, offset, dataSize);
    offset := offset + 8;
    SetBigUint64(view, offset, indexOffset);
    assert view[..] == view[..offset + 8];
    fields := view[..];
  }

  /** Reads the three u64 fields of a CARv2 file, if it starts with the pragma. */
  function ReadEnvelope(file: seq<byte>): Option<Envelope>
  {
    if |file| < CARV2_HEADER_SIZE || file[..11] != PRAGMA then None
    else Some(Envelope(FromLittleEndian(file[27..35]), FromLittleEndian(file[35..43]), FromLittleEndian(file[43..51])))
  }

  /** The fields read back are dataOffset = 51, dataSize and indexOffset = 51 + dataSize, each
      reduced modulo 2^64 as `setBigUint64` stores it. */
  lemma V2HeaderFields(dataSize: nat, rest: seq<byte>)
    ensures ReadEnvelope(V2Header(dataSize) + rest)
         == Some(Envelope(CARV2_HEADER_SIZE, dataSize % U64_LIMIT, (CARV2_HEADER_SIZE + dataSize) % U64_LIMIT))
  {
    var file := V2Header(dataSize) + rest;
    assert file[..51] == V2Header(dataSize);
    assert file[27..35] == V2Header(dataSize)[27..35];
    assert file[35..43] == V2Header(dataSize)[35..43];
    assert file[43..51] == V2Header(dataSize)[43..51];
    Pow256Eight();
    LittleEndianExact(CARV2_HEADER_SIZE, 8);
    LittleEndianRoundTrip(dataSize, 8);
    LittleEndianRoundTrip(CARV2_HEADER_SIZE + dataSize, 8);
  }

  /** Below 2^64 nothing is lost: the fields read back exactly. */
  lemma V2HeaderFieldsExact(dataSize: nat, rest: seq<byte>)
    requires CARV2_HEADER_SIZE + dataSize < U64_LIMIT
    ensures ReadEnvelope(V2Header(dataSize) + rest)
         == Some(Envelope(CARV2_HEADER_SIZE, dataSize, CARV2_HEADER_SIZE + dataSize))
  {
    V2HeaderFields(dataSize, rest);
    SmallMod(dataSize, U64_LIMIT);
    SmallMod(CARV2_HEADER_SIZE + dataSize, U64_LIMIT);
  }

  lemma SmallMod(v: nat, m: nat)
    requires v < m
    ensures v % m == v
  {
  }

  // ---------------------------------------------------------------- CARv1 header

  function CidStrings(c: Codecs, roots: seq<Cid>): seq<string>
  {
    seq(|roots|, i requires 0 <= i < |roots| => c.cidString(roots[i]))
  }

  /** The CBOR encoding of `{roots, version: 1}`. */
  function HeaderCbor(c: Codecs, roots: seq<Cid>): seq<byte>
  {
    c.encodeCarHeader(CarHeader(CidStrings(c, roots), 1))
  }

  /** The varint-prefixed CARv1 header: the leading varint decodes to the number of bytes that
      follow it, and those bytes are the CBOR header. */
  function CarV1Header(c: Codecs, roots: seq<Cid>): (r: seq<byte>)
    ensures Varint.Decode(r) == Some((|HeaderCbor(c, roots)|, |r| - |HeaderCbor(c, roots)|))
    ensures r[|r| - |HeaderCbor(c, roots)|..] == HeaderCbor(c, roots)
  {
    var cbor := HeaderCbor(c, roots);
    Varint.DecodeEncode(|cbor|, cbor);
    Varint.Encode(|cbor|) + cbor
  }

  /** `createCarV1Header`. */
  method CreateCarV1Header(c: Codecs, roots: seq<Cid>) returns (fullHeader: seq<byte>)
    ensures fullHeader == CarV1Header(c, roots)
  {
    var carV1Header := HeaderCbor(c, roots);
    var headerLengthPrefix := Varint.Encode(|carV1Header|);
    var buffer := new byte[|headerLengthPrefix| + |carV1Header|];
    SetBytes(buffer, headerLengthPrefix, 0);
    SetBytes(buffer, carV1Header, |headerLengthPrefix|);
    fullHeader := buffer[..];
  }

  // ---------------------------------------------------------------- CARv1 blocks

  /** `cid.bytes ++ data`, the body of one block record. */
  function Payload(c: Codecs, block: Block): seq<byte>
  {
    c.cidBytes(block.cid) + block.data
  }

  /** One block record: varint(len(cid) + len(data)) ++ cid ++ data. */
  function BlockRecord(c: Codecs, block: Block): seq<byte>
  {
    Varint.Encode(|c.cidBytes(block.cid)| + |block.data|) + c.cidBytes(block.cid) + block.data
  }

  function BlockRecords(c: Codecs, blocks: seq<Block>): (r: seq<seq<byte>>)
    ensures |r| == |blocks|
  {
    seq(|blocks|, i requires 0 <= i < |blocks| => BlockRecord(c, blocks[i]))
  }

  /** The block section: the records of all blocks, in order, with no padding. */
  function CarV1Blocks(c: Codecs, blocks: seq<Block>): seq<byte>
  {
    Flatten(BlockRecords(c, blocks))
  }

  /** The `map` callback of `writeCarV1Blocks`: one record in a preallocated buffer. */
  method WriteBlockRecord(c: Codecs, block: Block) returns (blockBuffer: seq<byte>)
    ensures blockBuffer == BlockRecord(c, block)
  {
    var cidBytes := c.cidBytes(block.cid);
    var blockLengthPrefix := Varint.Encode(|cidBytes| + |block.data|);
    var buffer := new byte[|blockLengthPrefix| + |cidBytes| + |block.data|];
    SetBytes(buffer, blockLengthPrefix, 0);
    SetBytes(buffer, cidBytes, |blockLengthPrefix|);
    SetBytes(buffer, block.data, |blockLengthPrefix| + |cidBytes|);
    blockBuffer := buffer[..];
  }

  /** Allocates one buffer of the summed length and copies each part in at a running offset. */
  method JoinBuffers(buffers: seq<seq<byte>>) returns (joined: seq<byte>)
    ensures joined == Flatten(buffers)
    ensures |joined| == TotalLength(buffers)
  {
    var totalSize := TotalLength(buffers);
    var out := new byte[totalSize];
    var offset: nat := 0;
    for i := 0 to |buffers|
      invariant offset + TotalLength(buffers[i..]) == totalSize
      invariant out[..offset] == Flatten(buffers[..i])
    {
      assert buffers[i..][1..] == buffers[i + 1..];
      assert TotalLength(buffers[i..]) == |buffers[i]| + TotalLength(buffers[i + 1..]);
      FlattenAppend(buffers[..i], [buffers[i]]);
      assert buffers[..i + 1] == buffers[..i] + [buffers[i]];
      assert Flatten([buffers[i]]) == buffers[i];
      SetBytes(out, buffers[i], offset);
      offset := offset + |buffers[i]|;
    }
    assert buffers[..|buffers|] == buffers;
    FlattenLength(buffers);
    joined := out[..];
  }

  /** `writeCarV1Blocks`: every record, concatenated in block order into one buffer whose length
      is the sum of the record lengths. */
  method WriteCarV1Blocks(c: Codecs, blocks: seq<Block>) returns (carV1Blocks: seq<byte>)
    ensures carV1Blocks == CarV1Blocks(c, blocks)
    ensures |carV1Blocks| == TotalLength(BlockRecords(c, blocks))
  {
    var blockBuffers: seq<seq<byte>> := [];
    for i := 0 to |blocks|
      invariant blockBuffers == BlockRecords(c, blocks[..i])
    {
      var blockBuffer := WriteBlockRecord(c, blocks[i]);
      blockBuffers := blockBuffers + [blockBuffer];
    }
    assert blocks[..|blocks|] == blocks;
    carV1Blocks := JoinBuffers(blockBuffers);
  }

  /** Reads records one by one (varint length, then that many bytes) to the end of s. */
  function ParseRecords(s: seq<byte>): Option<seq<seq<byte>>>
    decreases |s|
  {
    if s == [] then Some([])
    else match Varint.Decode(s)
      case None => None
      case Some((len, k)) =>
        if |s| < k + len then None
        else match ParseRecords(s[k + len..])
          case None => None
          case Some(rest) => Some([s[k..k + len]] + rest)
  }

  lemma BlocksCons(c: Codecs, blocks: seq<Block>)
    requires blocks != []
    ensures CarV1Blocks(c, blocks) == Varint.Encode(|Payload(c, blocks[0])|) + Payload(c, blocks[0]) + CarV1Blocks(c, blocks[1..])
  {
    assert BlockRecords(c, blocks)[1..] == BlockRecords(c, blocks[1..]);
  }

  /** Every block's `cid ++ data`, in order. */
  function Payloads(c: Codecs, blocks: seq<Block>): (r: seq<seq<byte>>)
    ensures |r| == |blocks|
  {
    seq(|blocks|, i requires 0 <= i < |blocks| => Payload(c, blocks[i]))
  }

  /** One record in front of any tail parses as its payload in front of the tail's records. */
  lemma ParseRecordsStep(p: seq<byte>, rest: seq<byte>)
    ensures ParseRecords(Varint.Encode(|p|) + p + rest)
         == (match ParseRecords(rest) case None => None case Some(t) => Some([p] + t))
  {
    var prefix := Varint.Encode(|p|);
    var s := prefix + p + rest;
    assert s == prefix + (p + rest);
    Varint.DecodeEncode(|p|, p + rest);
    var k := |prefix|;
    assert s[k..k + |p|] == p;
    assert s[k + |p|..] == rest;
  }

  /** Parsing the block section record by record gives back every block's `cid ++ data`, in order. */
  lemma {:induction false} ParseRecordsRoundTrip(c: Codecs, blocks: seq<Block>)
    ensures ParseRecords(CarV1Blocks(c, blocks)) == Some(Payloads(c, blocks))
  {
    if blocks == [] {
      assert CarV1Blocks(c, blocks) == [];
    } else {
      BlocksCons(c, blocks);
      ParseRecordsRoundTrip(c, blocks[1..]);
      ParseRecordsStep(Payload(c, blocks[0]), CarV1Blocks(c, blocks[1..]));
      assert Payloads(c, blocks) == [Payload(c, blocks[0])] + Payloads(c, blocks[1..]);
    }
  }

  /** Reads a CARv1 payload: the varint-prefixed header, then the records. */
  function ParseCarV1(s: seq<byte>): Option<(seq<byte>, seq<seq<byte>>)>
  {
    match Varint.Decode(s)
    case None => None
    case Some((len, k)) =>
      if |s| < k + len then None
      else match ParseRecords(s[k + len..])
        case None => None
        case Some(records) => Some((s[k..k + len], records))
  }

  /** A CARv1 payload made of this header and these blocks reads back as the CBOR header and
      every block's `cid ++ data`, in order. */
  lemma CarV1RoundTrip(c: Codecs, roots: seq<Cid>, blocks: seq<Block>)
    ensures ParseCarV1(CarV1Header(c, roots) + CarV1Blocks(c, blocks))
         == Some((HeaderCbor(c, roots), Payloads(c, blocks)))
  {
    var cbor := HeaderCbor(c, roots);
    var s := CarV1Header(c, roots) + CarV1Blocks(c, blocks);
    var k := |Varint.Encode(|cbor|)|;
    assert s == Varint.Encode(|cbor|) + (cbor + CarV1Blocks(c, blocks));
    Varint.DecodeEncode(|cbor|, cbor + CarV1Blocks(c, blocks));
    assert s[k..k + |cbor|] == cbor;
    assert s[k + |cbor|..] == CarV1Blocks(c, blocks);
    ParseRecordsRoundTrip(c, blocks);
  }

  // ---------------------------------------------------------------- CARv2 index

  /** The `map` inside `writeCarV2Index`: one `{cid: cid.bytes, offset}` entry per pair, in order. */
  function IndexEntries(c: Codecs, entries: seq<IndexedCid>): (r: seq<IndexEntry>)
    ensures |r| == |entries|
    ensures forall i :: 0 <= i < |entries| ==>
      r[i].cid == c.cidBytes(entries[i].cid) && r[i].offset == entries[i].offset
  {
    seq(|entries|, i requires 0 <= i < |entries| => IndexEntry(c.cidBytes(entries[i].cid), entries[i].offset))
  }

  /** `writeCarV2Index`: the CBOR list of `{cid: cid.bytes, offset}`. */
  function WriteCarV2Index(c: Codecs, entries: seq<IndexedCid>): seq<byte>
  {
    c.encodeIndex(IndexEntries(c, entries))
  }

  /** The entries `createCarV2File` indexes: each block paired with its position in `blocks`. */
  function OrdinalIndex(blocks: seq<Block>): seq<IndexedCid>
  {
    seq(|blocks|, i requires 0 <= i < |blocks| => IndexedCid(blocks[i].cid, i))
  }

  /** Where block i's record starts in the block section. */
  function RecordStart(c: Codecs, blocks: seq<Block>, i: nat): nat
    requires i <= |blocks|
  {
    |CarV1Blocks(c, blocks[..i])|
  }

  lemma {:induction false} RecordsAtLeastOneByte(c: Codecs, blocks: seq<Block>)
    ensures |CarV1Blocks(c, blocks)| >= |blocks|
  {
    if blocks != [] {
      BlocksCons(c, blocks);
      RecordsAtLeastOneByte(c, blocks[1..]);
    }
  }

  /** The index that `createCarV2File` writes records block i under offset i, its ordinal.
      Block i's record really starts RecordStart(i) bytes into the block section, that is after
      the CARv1 header, so the recorded offset always falls short of the true byte offset in
      the data section. */
  lemma IndexOffsetsAreOrdinal(c: Codecs, roots: seq<Cid>, blocks: seq<Block>, i: nat)
    requires i < |blocks|
    ensures IndexEntries(c, OrdinalIndex(blocks))[i] == IndexEntry(c.cidBytes(blocks[i].cid), i)
    ensures CarV1Blocks(c, blocks) == CarV1Blocks(c, blocks[..i]) + CarV1Blocks(c, blocks[i..])
    ensures CarV1Blocks(c, blocks)[RecordStart(c, blocks, i)..] == CarV1Blocks(c, blocks[i..])
    ensures i < |CarV1Header(c, roots)| + RecordStart(c, blocks, i)
  {
    assert BlockRecords(c, blocks) == BlockRecords(c, blocks[..i]) + BlockRecords(c, blocks[i..]);
    FlattenAppend(BlockRecords(c, blocks[..i]), BlockRecords(c, blocks[i..]));
    RecordsAtLeastOneByte(c, blocks[..i]);
  }

  // ---------------------------------------------------------------- CARv2 file

  lemma FlattenFour(a: seq<byte>, b: seq<byte>, d: seq<byte>, e: seq<byte>)
    ensures Flatten([a, b, d, e]) == a + b + d + e
  {
    var last: seq<seq<byte>> := [e];
    assert last[1..] == [];
    assert Flatten([e]) == e;
    assert [d, e][1..] == [e];
    assert Flatten([d, e]) == d + e;
    assert [b, d, e][1..] == [d, e];
    assert Flatten([b, d, e]) == b + (d + e);
    assert [a, b, d, e][1..] == [b, d, e];
  }

  /** Where the parts of a four-part concatenation sit. */
  lemma FourParts(a: seq<byte>, b: seq<byte>, d: seq<byte>, e: seq<byte>)
    ensures |a + b + d + e| == |a| + |b| + |d| + |e|
    ensures (a + b + d + e)[..|a|] == a
    ensures (a + b + d + e)[|a|..|a| + |b| + |d|] == b + d
    ensures (a + b + d + e)[|a| + |b| + |d|..] == e
  {
  }

  /** The CARv2 file: header, CARv1 header, CARv1 blocks, index. */
  function CarV2File(c: Codecs, carV1Header: seq<byte>, carV1Blocks: seq<byte>, blocks: seq<Block>): seq<byte>
  {
    V2Header(|carV1Header| + |carV1Blocks|) + carV1Header + carV1Blocks + WriteCarV2Index(c, OrdinalIndex(blocks))
  }

  /** `createCarV2File`: the four parts copied into one buffer at advancing offsets; the CARv1
      payload sits unmodified at offset 51 and the index right after it. */
  method CreateCarV2File(c: Codecs, carV1Header: seq<byte>, carV1Blocks: seq<byte>, blocks: seq<Block>)
    returns (carV2File: seq<byte>)
    ensures carV2File == CarV2File(c, carV1Header, carV1Blocks, blocks)
    ensures |carV2File| == CARV2_HEADER_SIZE + |carV1Header| + |carV1Blocks| + |WriteCarV2Index(c, OrdinalIndex(blocks))|
    ensures carV2File[..CARV2_HEADER_SIZE] == V2Header(|carV1Header| + |carV1Blocks|)
    ensures carV2File[CARV2_HEADER_SIZE..CARV2_HEADER_SIZE + |carV1Header| + |carV1Blocks|] == carV1Header + carV1Blocks
    ensures carV2File[CARV2_HEADER_SIZE + |carV1Header| + |carV1Blocks|..] == WriteCarV2Index(c, OrdinalIndex(blocks))
  {
    var carV2Header := ComputeCarV2Header(carV1Header, carV1Blocks);
    var carV2Index := WriteCarV2Index(c, OrdinalIndex(blocks));

    carV2File := JoinBuffers([carV2Header, carV1Header, carV1Blocks, carV2Index]);
    FlattenFour(carV2Header, carV1Header, carV1Blocks, carV2Index);
    FourParts(carV2Header, carV1Header, carV1Blocks, carV2Index);
  }

  /** Where a CARv2 file's envelope points: dataOffset = 51, dataSize = the payload length
      and indexOffset = their sum, with the payload and the index at those offsets. */
  lemma CarV2Layout(c: Codecs, carV1Header: seq<byte>, carV1Blocks: seq<byte>, blocks: seq<Block>)
    requires CARV2_HEADER_SIZE + |carV1Header| + |carV1Blocks| < U64_LIMIT
    ensures ReadEnvelope(CarV2File(c, carV1Header, carV1Blocks, blocks))
         == Some(Envelope(CARV2_HEADER_SIZE, |carV1Header| + |carV1Blocks|, CARV2_HEADER_SIZE + |carV1Header| + |carV1Blocks|))
    ensures CarV2File(c, carV1Header, carV1Blocks, blocks)[CARV2_HEADER_SIZE..CARV2_HEADER_SIZE + |carV1Header| + |carV1Blocks|]
         == carV1Header + carV1Blocks
    ensures CarV2File(c, carV1Header, carV1Blocks, blocks)[CARV2_HEADER_SIZE + |carV1Header| + |carV1Blocks|..]
         == WriteCarV2Index(c, OrdinalIndex(blocks))
  {
    var dataSize := |carV1Header| + |carV1Blocks|;
    var index := WriteCarV2Index(c, OrdinalIndex(blocks));
    assert CarV2File(c, carV1Header, carV1Blocks, blocks) == V2Header(dataSize) + (carV1Header + carV1Blocks + index);
    V2HeaderFieldsExact(dataSize, carV1Header + carV1Blocks + index);
    FourParts(V2Header(dataSize), carV1Header, carV1Blocks, index);
  }

  /** Reading a CARv2 file built over a CARv1 header and block section: the envelope's
      data section parses back to the CBOR header and every block's `cid ++ data`. */
  lemma CarV2RoundTrip(c: Codecs, roots: seq<Cid>, blocks: seq<Block>)
    requires CARV2_HEADER_SIZE + |CarV1Header(c, roots)| + |CarV1Blocks(c, blocks)| < U64_LIMIT
    ensures var file := CarV2File(c, CarV1Header(c, roots), CarV1Blocks(c, blocks), blocks);
      && ReadEnvelope(file).Some?
      && var e := ReadEnvelope(file).value;
      && e.dataOffset + e.dataSize <= |file|
      && ParseCarV1(file[e.dataOffset..e.dataOffset + e.dataSize]) == Some((HeaderCbor(c, roots), Payloads(c, blocks)))
  {
    CarV2Layout(c, CarV1Header(c, roots), CarV1Blocks(c, blocks), blocks);
    CarV1RoundTrip(c, roots, blocks);
  }
}
