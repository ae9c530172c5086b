/** The persistence collaborator the chain talks to (the repository's
    `persistance` package, which is not part of this model).  It is a map
    from digest to encoded block plus one last-hash cell.  Reads of a present
    key always succeed; a missing key is NotFound.  Reading the last hash,
    saving and bootstrapping may each fail with StorageFault at any call: the
    model leaves open when, so every property of the chain has to hold
    whichever way they go. */
module Storage {
  import opened Base
  import opened Codec
  import opened Blocks

  /** The effect of bootstrapping a store whose map and cell were b0 and t0
      and are now b1 and t1, with genesis as the factory's outcome and err as
      the reported error.  A store that already has a tip is left alone and
      the factory is not consulted; otherwise the factory's error is passed
      on, or the genesis block is saved under its digest and becomes the
      tip, or nothing is written and a fault is reported. */
  ghost predicate Bootstrapped(b0: map<Bytes, Bytes>, t0: Bytes, b1: map<Bytes, Bytes>, t1: Bytes,
                               genesis: Result<BlockRecord>, err: Option<Error>)
  {
    if |t0| > 0 then
      b1 == b0 && t1 == t0
    else if genesis.Err? then
      err == Some(genesis.error) && b1 == b0 && t1 == t0
    else if err.None? then
      && Encode(genesis.value).Ok?
      && b1 == b0[genesis.value.hash := Encode(genesis.value).value]
      && t1 == genesis.value.hash
    else
      b1 == b0 && t1 == t0
  }

  class Store {
    var blocks: map<Bytes, Bytes>
    var lastHash: Bytes

    /** A store opened on the given contents. */
    constructor (blocks: map<Bytes, Bytes>, lastHash: Bytes)
      ensures this.blocks == blocks && this.lastHash == lastHash
    {
      this.blocks, this.lastHash := blocks, lastHash;
    }

    /** The recorded tip, or a fault. */
    method GetLastHash() returns (r: Result<Bytes>)
      ensures r.Ok? ==> r.value == lastHash
      ensures r.Err? ==> r.error == StorageFault
    {
      var failed: bool :| true;
      r := if failed then Err(StorageFault) else Ok(lastHash);
    }

    /** The bytes stored under key, or NotFound. */
    method Get(key: Bytes) returns (r: Result<Bytes>)
      ensures key in blocks ==> r == Ok(blocks[key])
      ensures key !in blocks ==> r == Err(NotFound)
    {
      r := if key in blocks then Ok(blocks[key]) else Err(NotFound);
    }

    /** Serializes b and stores it under key, making key the new tip.  A
        serialization error is passed on; after any error nothing has been
        written. */
    method SaveBlock(key: Bytes, b: Block) returns (err: Option<Error>)
      modifies this
      ensures err.None? ==> Encode(b.Value()).Ok?
      ensures err.None? ==> blocks == old(blocks)[key := Encode(b.Value()).value] && lastHash == key
      ensures err.Some? ==> blocks == old(blocks) && lastHash == old(lastHash)
      ensures Encode(b.Value()).Err? ==> err == Some(Encode(b.Value()).error)
    {
      var encoded := b.Serialize();
      if encoded.Err? {
        return Some(encoded.error);
      }
      var failed: bool :| true;
      if failed {
        return Some(StorageFault);
      }
      blocks := blocks[key := encoded.value];
      lastHash := key;
      return None;
    }

    /** Resumes a store that has a tip, or builds, saves and records the
        genesis block the factory makes; returns the tip. */
    method Init(genesis: () -> Result<BlockRecord>) returns (tip: Bytes, err: Option<Error>)
      modifies this
      ensures Bootstrapped(old(blocks), old(lastHash), blocks, lastHash, genesis(), err)
      ensures err.None? ==> tip == lastHash
    {
      if |lastHash| > 0 {
        var failed: bool :| true;
        if failed {
          return [], Some(StorageFault);
        }
        return lastHash, None;
      }
      var made := genesis();
      if made.Err? {
        return [], Some(made.error);
      }
      var encoded := Encode(made.value);
      if encoded.Err? {
        return [], Some(encoded.error);
      }
      var failed: bool :| true;
      if failed {
        return [], Some(StorageFault);
      }
      blocks := blocks[made.value.hash := encoded.value];
      lastHash := made.value.hash;
      return lastHash, None;
    }
  }
}
