/** The block record of src/blockchain/block.go: payload, digest, link to the
    predecessor, and the nonce found by proof-of-work. */
module Blocks {
  import opened Base
  import opened Codec

  /** What a proof-of-work run yields: the nonce it found and the digest
      that nonce gives the block. */
  datatype Seal = Seal(nonce: int64, hash: Bytes)

  /** `ProofOfWork.Run` over a block with the given payload and link.  The
      nonce search and the hash it uses are not part of this model; any
      function of the two fields can stand for them. */
  type ProofOfWork = (Bytes, Bytes) -> Seal

  /** The block that Build leaves behind. */
  function Sealed(pow: ProofOfWork, data: Bytes, link: Bytes): BlockRecord {
    var seal := pow(data, link);
    BlockRecord(data, seal.hash, link, seal.nonce)
  }

  class Block {
    var Data: Bytes
    var Hash: Bytes
    var Link: Bytes
    var Nonce: int64

    /** The four fields as a value. */
    function Value(): BlockRecord
      reads this
    {
      BlockRecord(Data, Hash, Link, Nonce)
    }

    /** `&Block{}`: every field at its zero value. */
    constructor ()
      ensures Value() == BlockRecord([], [], [], 0)
    {
      Data, Hash, Link, Nonce := [], [], [], 0;
    }

    /** Sets payload and link, then takes nonce and digest from a
        proof-of-work run over the block so prepared. */
    method Build(data: Bytes, link: Bytes, pow: ProofOfWork)
      modifies this
      ensures Data == data && Link == link
      ensures Nonce == pow(data, link).nonce && Hash == pow(data, link).hash
      ensures Value() == Sealed(pow, data, link)
    {
      Data := data;
      Link := link;
      var seal := pow(Data, Link);
      Nonce, Hash := seal.nonce, seal.hash;
    }

    /** The encoder's bytes, or the encoder's error as it came. */
    method Serialize() returns (r: Result<Bytes>)
      ensures r.Ok? <==> Encodable(Value())
      ensures r.Ok? ==> Decode(r.value) == Ok(Value())
      ensures r == Encode(Value())
    {
      r := Encode(Value());
    }

    /** Decodes data into this block.  On success all four fields are the
        decoded ones; on failure the decoder's error is returned and the
        block is left as it was. */
    method Deserialize(data: Bytes) returns (err: Option<Error>)
      modifies this
      ensures err == Decode(data).ErrorOf()
      ensures Decode(data).Ok? ==> Value() == Decode(data).value
      ensures Decode(data).Err? ==> Value() == old(Value())
    {
      var decoded := Decode(data);
      if decoded.Err? {
        return Some(decoded.error);
      }
      Data, Hash, Link, Nonce := decoded.value.data, decoded.value.hash, decoded.value.link, decoded.value.nonce;
      return None;
    }

    /** The diagnostic dump: reads the four fields it shows and changes
        nothing. */
    method Print() returns (shown: BlockRecord)
      ensures shown == Value()
      ensures unchanged(this)
    {
      shown := BlockRecord(Data, Hash, Link, Nonce);
    }
  }
}
