/** Block headers and hashes. Hashing is symbolic: a hash is the term that was hashed, so it is
    injective and no hash can contain itself. `Raw` stands for any other 32 bytes (transaction
    ids, the parent of the genesis block). */
module Hashing {
  import opened Compact

  datatype H256 =
    | Raw(id: nat)
    | OfPair(left: H256, right: H256)
    | OfHeader(header: Header)

  datatype Header = Header(
    version: int,
    prev: H256,
    merkleRoot: H256,
    time: u32,
    bits: u32,
    nonce: nat)

  datatype Option<+T> = None | Some(value: T)

  function BlockHash(h: Header): H256 {
    OfHeader(h)
  }
}
