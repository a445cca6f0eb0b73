# carConverterJS core in Dafny

carConverterJS turns a file into a Content Addressable aRchive (CAR). This project models the
two parts of it that do real work and proves properties of both.

1. **The UnixFS DAG builder** (`src/car/carGenerator.ts`), in `dag_builder.dfy`, module `DagBuilder`.
   - It cuts the input into 256 KiB raw chunks, each identified by a CIDv1 over SHA-256.
   - It groups the chunks at most 174 to a dag-pb stem node, then the stem nodes likewise, level by level, until one link is left: the root.
   - Every leaf and every stem node is stored in a map keyed by the CID's string form.
2. **The CAR byte-layout writers** (`src/utils/carGenerator.ts`), in `car_encoder.dfy`, module `CarEncoder`. They write:
   - the CARv1 header: a varint length prefix, then a CBOR map;
   - the CARv1 block records: `varint(len(cid) + len(data)) ++ cid ++ data`;
   - the 51-byte CARv2 header: an 11-byte pragma, 16 zero bytes, then three little-endian u64 fields (dataOffset, dataSize, indexOffset);
   - the CARv2 index;
   - the CARv2 file, which joins the four parts.

Supporting modules:
- `Bytes` (`bytes.dfy`):
  - the `byte` type;
  - fixed-width little-endian encoding, with its round trip.
- `Varint` (`varint.dfy`): the unsigned LEB128 varint that the `varint` package writes, with a decoder and their round trip.
- `Slicing` (`slicing.dfy`):
  - `Slices`, a model of a `for (i = 0; i < n; i += w) s.slice(i, i + w)` loop, where the end of the slice is clamped as in JavaScript;
  - `Flatten` and `TotalLength`, models of concatenating buffers and of a `reduce` over their lengths.
- `Multiformats` (`multiformats.dfy`):
  - the values the libraries exchange (CID, multihash, dag-pb node and link, UnixFS file record, CAR header, index entry);
  - `Codecs`, a record of functions that stand for the library calls. The model never looks inside them: SHA-256, `CID.bytes`, `CID.toString`, `UnixFS.marshal`, `dagPB.encode` and `cbor2.encode`.

How the source is modelled:
- **Array operations.** The JavaScript `Uint8Array` and `DataView` are Dafny arrays:
  - `set` is the method `CarEncoder.SetBytes`;
  - `setBigUint64(offset, v, true)` is the method `CarEncoder.SetBigUint64`.
- **Loops and builders.** Every loop of the modelled functions is a loop in the model, except `createStemNode`'s `addBlockSize` loop. That loop is the comprehension `BlockSizes`, because `createStemNode` is modelled as a pure function. Each builder method is proved equal to a specification function, and the properties are proved about those functions.
- **The node store.** The `Map` is a Dafny `map`. After a series of `set` calls it equals `Store(entries)`, the map that results from those entries in order, a later entry replacing an earlier one with the same key.
- **Index offsets.** The index written by `createCarV2File` gives block i the offset i, its position in the block list (`src/utils/carGenerator.ts:164`). It does not give the byte offset. The model keeps this as written. `CarEncoder.IndexOffsetsAreOrdinal` states where each block's record really starts, and that the recorded offset always falls short of that position.

## Model

| member | source | states |
|---|---|---|
| DagBuilder.ChunkFile | src/car/carGenerator.ts:36-54 | Returns exactly `Chunks(bytes)`. An empty input gives one empty raw chunk of size 0. Otherwise the chunk bytes concatenated in order are the input. Every chunk's size is its byte length, which is at most CHUNK_SIZE. |
| DagBuilder.ChunksContract | src/car/carGenerator.ts:39-50 | An empty input gives one empty raw chunk. A non-empty input gives ceil(n / 262144) chunks: all are full except the last, which holds 1..262144 bytes, and together they concatenate back to the input. Each chunk's size is its length, and its CID is the raw CIDv1 of its bytes. |
| DagBuilder.CreateStemNode | src/car/carGenerator.ts:101-143 | The node's CID is the dag-pb CIDv1 of its own bytes, and the link returned for it carries that CID. Its size is the sum of the children's sizes. Its encodedSize is the node's own length plus the children's encodedSizes. |
| DagBuilder.NextLevel | src/car/carGenerator.ts:79-93 | One pass of the inner loop gives ceil(n / 174) links. That is at least one when the level is non-empty, and strictly fewer than n once n > 1, so the `while` loop ends. |
| DagBuilder.TopLevel | src/car/carGenerator.ts:79-97 | Repeating passes from a non-empty level stops at exactly one link, the one whose CID is returned. |
| DagBuilder.BuildBalancedTree | src/car/carGenerator.ts:57-98 | The store equals the leaf entries followed by every stem-node entry in creation order, and the root equals `TreeRoot`. With a single leaf, the root is that leaf's CID and the store holds just that leaf. Every leaf is a key in the store. |
| DagBuilder.BuildLevel | src/car/carGenerator.ts:80-93 | One level's `for` loop yields `NextLevel`, and it adds that level's stem nodes to the store in order. |
| DagBuilder.StoreContents | src/car/carGenerator.ts:59-64 | Map `set` semantics: the keys are exactly the entry keys, and each key holds the value of its last entry. |
| DagBuilder.StoreHoldsEveryNode | src/car/carGenerator.ts:62-64 | Every leaf and every stem node built is a key in the store under its CID string, and there are no other keys. |
| DagBuilder.LevelGroupsPartition | src/car/carGenerator.ts:83-84 | A level is cut into consecutive groups that concatenate back to it. Each group has 1..174 links, and all but the last have exactly 174. |
| DagBuilder.FanOutBounded | src/car/carGenerator.ts:79-91 | Over the whole build, every stem node is created from a group of 1..174 links, and the j-th node comes from the j-th group. |
| DagBuilder.GroupSums | src/car/carGenerator.ts:106-108 | One stem node per group keeps the total logical size over a level. The total encoded size grows by exactly the new nodes' own bytes. |
| DagBuilder.NextLevelSums | src/car/carGenerator.ts:83-93 | The level above has the same total size. Its encoded total grows by that level's node bytes. |
| DagBuilder.TopLevelSums | src/car/carGenerator.ts:79-97 | The root link's size is the sum of the first level's sizes. Its encodedSize is the first level's encoded sum plus the bytes of every stem node. |
| DagBuilder.LeafSums | src/car/carGenerator.ts:72-76 | For leaves whose size is their length, both sums over the leaf level equal the total number of leaf bytes. |
| DagBuilder.RootCoversInput | src/car/carGenerator.ts:72-76 | After chunking any input, the root link's size is the input length. Its encodedSize is the input length plus the bytes of every stem node. |
| DagBuilder.SmallInputIsOneRawBlock | src/car/carGenerator.ts:66-69 | An input of at most 262144 bytes yields a root that is the raw CID of the input itself, and no stem nodes. |
| DagBuilder.TwoChunkInput | src/car/carGenerator.ts:45-49 | A 300000-byte input gives chunks of 262144 and 37856 bytes and one stem node, and the root is that node's CID. |
| Slicing.SlicesFlatten | src/car/carGenerator.ts:45-46 | Slicing in steps of w from i and concatenating the slices gives back `s[i..]`. |
| Slicing.SlicesShape | src/car/carGenerator.ts:83-84 | Every slice has 1..w elements, and all but the last have exactly w. |
| Slicing.SlicesCount | src/car/carGenerator.ts:83-84 | The number of slices k of n remaining elements satisfies (k - 1) * w < n <= k * w. |
| Varint.Encode | src/utils/carGenerator.ts:102 | The encoding is at least one byte long. Every byte but the last has its continuation bit set, and the last does not. It is minimal: a last byte after the first is never zero. |
| Varint.DecodeEncode | src/utils/carGenerator.ts:118 | A varint followed by any bytes decodes to its value and stops exactly at its own end. |
| Bytes.LittleEndianRoundTrip | src/utils/carGenerator.ts:75-81 | Writing v on w little-endian bytes and reading it back gives v mod 256^w. |
| Bytes.LittleEndianExact | src/utils/carGenerator.ts:75-81 | Below 256^w the value reads back unchanged. |
| CarEncoder.SetBytes | src/utils/carGenerator.ts:85-86 | `set(src, offset)` replaces exactly the bytes at offset .. offset + len(src) with src, and leaves the rest of the buffer unchanged. |
| CarEncoder.SetBigUint64 | src/utils/carGenerator.ts:75-81 | Replaces eight bytes at offset with v mod 2^64, least significant byte first, and leaves the rest unchanged. |
| CarEncoder.V2Header | src/utils/carGenerator.ts:54-90 | The CARv2 header is 51 bytes: the pragma at 0..11, zeros at 11..27, and little-endian u64 fields at 27, 35 and 43 holding 51, dataSize and 51 + dataSize. |
| CarEncoder.WriteHeaderFields | src/utils/carGenerator.ts:65-81 | The `DataView` ends as 16 zero bytes followed by the three u64 fields in order. |
| CarEncoder.ComputeCarV2Header | src/utils/carGenerator.ts:54-90 | The result is `V2Header` with dataSize = len(carV1Header) + len(carV1Blocks). |
| CarEncoder.V2HeaderFields | src/utils/carGenerator.ts:57-59 | A reader of the header finds dataOffset 51, dataSize and 51 + dataSize, each reduced mod 2^64 as `setBigUint64` stores them. |
| CarEncoder.V2HeaderFieldsExact | src/utils/carGenerator.ts:57-59 | When 51 + dataSize < 2^64, the three fields read back exactly. |
| CarEncoder.CarV1Header | src/utils/carGenerator.ts:96-107 | The leading varint of the CARv1 header decodes to the number of bytes that follow it, and those bytes are exactly the CBOR header. |
| CarEncoder.CreateCarV1Header | src/utils/carGenerator.ts:92-111 | The buffer filled by the two `set` calls equals `CarV1Header`. |
| CarEncoder.WriteBlockRecord | src/utils/carGenerator.ts:116-126 | The buffer filled by the three `set` calls is varint(len(cid) + len(data)) ++ cid ++ data. |
| CarEncoder.JoinBuffers | src/utils/carGenerator.ts:128-135 | Copying each buffer at a running offset into one buffer of the summed length gives their concatenation in order, with no gaps. |
| CarEncoder.WriteCarV1Blocks | src/utils/carGenerator.ts:113-139 | The output is the block records concatenated in block order, and its length is the sum of the record lengths. |
| CarEncoder.ParseRecordsRoundTrip | src/utils/carGenerator.ts:116-135 | Reading the block section record by record gives back every block's `cid ++ data`, in order. |
| CarEncoder.CarV1RoundTrip | src/utils/carGenerator.ts:96-135 | A CARv1 header followed by the block section reads back as the CBOR header and every block's payload. |
| CarEncoder.IndexEntries | src/utils/carGenerator.ts:141-154 | `writeCarV2Index` encodes, with the opaque CBOR encoder, one entry per input pair in input order, holding that pair's CID bytes and offset. `IndexOffsetsAreOrdinal` states which offsets `createCarV2File` passes. |
| CarEncoder.IndexOffsetsAreOrdinal | src/utils/carGenerator.ts:164 | Index entry i holds block i's CID bytes and offset i. Block i's record starts `RecordStart(i)` bytes into the block section. Offset i is always below the record's true position in the data section. |
| CarEncoder.CreateCarV2File | src/utils/carGenerator.ts:156-184 | The file is the CARv2 header, the CARv1 header, the CARv1 blocks and the index, in that order. The header is at 0..51, the CARv1 payload is unchanged at 51..51 + dataSize, and the index follows it. |
| CarEncoder.CarV2Layout | src/utils/carGenerator.ts:173-180 | The header's fields point at the file's own parts: the data section is found at dataOffset with length dataSize, and the index starts at indexOffset. |
| CarEncoder.CarV2RoundTrip | src/utils/carGenerator.ts:163-180 | Following the envelope of a built CARv2 file to its data section and parsing that gives back the CBOR header and every block's payload. |

## Left out

- `generateCarV1` (src/car/carGenerator.ts:24-33) composes `chunkFile`, `buildBalancedTree` and `writeCarFile`. Its first two steps are composed in the lemmas about `TreeRoot(c, Chunks(c, bytes))`. The `writeCarFile` step (src/car/carGenerator.ts:146-180), which drives `@ipld/car`'s `CarWriter` stream, is left out, and so are the logging and the `Blob`. The React user interface is outside this model as well.
- `generateCarV1` in src/utils/carGenerator.ts:12-52 is left out for the same reason: it collects `CarWriter` output. `CarEncoder.JoinBuffers` models its merge loop's shape.
- SHA-256, `CID.create`/`bytes`/`toString`, `UnixFS.marshal`, `dagPB.createNode`/`encode` and `cbor2.encode` are left opaque. They appear as fields of `Multiformats.Codecs`, so no property depends on their output bytes. `raw.encode` is the identity, so it is not modelled at all.
- Asynchrony (`async`/`await`) and `console.log` are not modelled. All operations are sequential and produce no output.
- JavaScript numbers are modelled as unbounded naturals. Lengths above 2^53, where `number` arithmetic loses precision, are not modelled.
- Varint.Encode: the `varint` package throws a `RangeError` for values above `Number.MAX_SAFE_INTEGER`; the model encodes every natural number.
- DagBuilder.BuildBalancedTree: it requires at least one leaf. With no leaves the source reaches `currentLevel[0].cid` on an empty array and throws. `chunkFile` never returns zero chunks (`DagBuilder.ChunksContract`).
- DagBuilder.CreateStemNode: the `for (const link of links) unixfs.addBlockSize(...)` loop is the comprehension `BlockSizes`, not a loop. The UnixFS object it mutates stays opaque, so only the list of block sizes handed to `UnixFS.marshal` is modelled.
- DagBuilder.BuildLevel: the inner `for` loop of `buildBalancedTree` is written as a separate method, so that each loop is proved on its own. Its behaviour is unchanged.
- DagBuilder.StoreHoldsEveryNode: this states which keys are present. The value stored under a key is stated through `StoreContents`, and it is the last write when two nodes share a CID.
- CarEncoder.CreateCarV2File: the four `set` calls of `createCarV2File`, and the pragma-plus-view copy in `computeCarV2Header`, go through `JoinBuffers`. That method performs the same allocate-then-copy-at-running-offset steps in a loop.
- Buffers are copied out of arrays into `seq<byte>` values when returned. Aliasing between the returned `Uint8Array`s and their backing `ArrayBuffer` is therefore not modelled.
