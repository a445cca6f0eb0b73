/** Content identifiers and the encoders the archive writer borrows from its libraries.
    The hash, the CID serialisations, UnixFS, dag-pb and CBOR are not modelled: they are the
    fields of `Codecs`, a record of functions passed to every operation that needs them. */
module Multiformats {
  import opened Bytes

  /** Multicodec code of the `raw` codec (uninterpreted bytes). */
  const RAW_CODE: nat := 0x55
  /** Multicodec code of the `dag-pb` codec. */
  const DAG_PB_CODE: nat := 0x70
  /** Multicodec code of the sha2-256 hash function. */
  const SHA2_256_CODE: nat := 0x12

  datatype Multihash = Multihash(code: nat, digest: seq<byte>)

  /** A CID: version, content codec and multihash. */
  datatype Cid = Cid(version: nat, codec: nat, multihash: Multihash)

  /** A UnixFS `file` record with its list of block sizes (`addBlockSize`). */
  datatype UnixFsFile = UnixFsFile(blockSizes: seq<nat>)

  /** A dag-pb link: name, total size of the linked subtree, target CID. */
  datatype PbLink = PbLink(name: string, tsize: nat, hash: Cid)

  /** A dag-pb node: the data field and the ordered links. */
  datatype PbNode = PbNode(data: seq<byte>, links: seq<PbLink>)

  /** The CARv1 header object `{roots, version}`. */
  datatype CarHeader = CarHeader(roots: seq<string>, version: nat)

  /** One object of the CARv2 index list `{cid, offset}`. */
  datatype IndexEntry = IndexEntry(cid: seq<byte>, offset: nat)

  /** The library functions the core calls but that are not part of this model. */
  datatype Codecs = Codecs(
    sha256: seq<byte> -> seq<byte>,              // sha256.digest(..).digest
    cidBytes: Cid -> seq<byte>,                  // cid.bytes
    cidString: Cid -> string,                    // cid.toString()
    marshalUnixFs: UnixFsFile -> seq<byte>,      // unixfs.marshal()
    encodeDagPb: PbNode -> seq<byte>,            // dagPB.encode(dagPB.createNode(..))
    encodeCarHeader: CarHeader -> seq<byte>,     // cbor2.encode of the CARv1 header
    encodeIndex: seq<IndexEntry> -> seq<byte>    // cbor2.encode of the CARv2 index list
  )

  /** `CID.create(1, code, await sha256.digest(bytes))`. */
  function CidV1(c: Codecs, code: nat, bytes: seq<byte>): Cid
  {
    Cid(1, code, Multihash(SHA2_256_CODE, c.sha256(bytes)))
  }
}
