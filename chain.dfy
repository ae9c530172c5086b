/** The chain of src/blockchain/chain.go: a cached tip (`LastHash`) over a
    storage handle, with genesis bootstrap, append, point lookups and the
    backward walk.  The chain has a single writer: nothing else changes the
    store while one of its methods runs. */
module Chains {
  import opened Base
  import opened Codec
  import opened Blocks
  import opened Storage
  import opened Walks

  /** `makeGenesisBlock` as a value: the payload's error, or the payload
      sealed with the empty link. */
  function Genesis(pow: ProofOfWork, coinbase: Result<Bytes>): (r: Result<BlockRecord>)
    ensures coinbase.Err? ==> r == Err(coinbase.error)
    ensures coinbase.Ok? ==> r.Ok? && r.value.data == coinbase.value && r.value.link == []
    ensures coinbase.Ok? ==> r.value.nonce == pow(coinbase.value, []).nonce && r.value.hash == pow(coinbase.value, []).hash
  {
    if coinbase.Err? then Err(coinbase.error) else Ok(Sealed(pow, coinbase.value, []))
  }

  /** Builds the genesis block: coinbase stands for the outcome of
      `MakeCoinbaseTransaction`, whose error is passed on. */
  method MakeGenesisBlock(pow: ProofOfWork, coinbase: Result<Bytes>) returns (b: Block?, err: Option<Error>)
    ensures coinbase.Err? ==> b == null && err == Some(coinbase.error)
    ensures coinbase.Ok? ==> err.None? && b != null && fresh(b) && b.Value() == Genesis(pow, coinbase).value
    ensures b != null ==> b.Link == []
  {
    if coinbase.Err? {
      return null, Some(coinbase.error);
    }
    b := new Block();
    b.Build(coinbase.value, [], pow);
    return b, None;
  }

  /** How far AddBlock got: it failed refreshing the tip, it failed saving
      the block, or it committed the block. */
  datatype Stage = Refreshing | Saving | Committed

  class Chain {
    var LastHash: Bytes
    var storage: Store?
    const pow: ProofOfWork

    /** `&Chain{}` with the proof-of-work it will seal blocks with; there is
        no storage until Init. */
    constructor (pow: ProofOfWork)
      ensures LastHash == [] && storage == null && this.pow == pow
    {
      LastHash, storage, this.pow := [], null, pow;
    }

    /** Opens the store and bootstraps it with a genesis block if it has no
        tip.  The tip the store reports is not copied into LastHash. */
    method Init(disk: Store, coinbase: Result<Bytes>) returns (err: Option<Error>)
      modifies this, disk
      ensures storage == disk && LastHash == old(LastHash)
      ensures Bootstrapped(old(disk.blocks), old(disk.lastHash), disk.blocks, disk.lastHash, Genesis(pow, coinbase), err)
    {
      storage := disk;
      var p := pow;
      var tip;
      tip, err := storage.Init(() => Genesis(p, coinbase));
    }

    /** Copies the store's tip into LastHash; on an error LastHash keeps
        its value. */
    method UpdateLastHash() returns (err: Option<Error>)
      requires storage != null
      modifies this`LastHash
      ensures err.None? ==> LastHash == storage.lastHash
      ensures err.Some? ==> err == Some(StorageFault) && LastHash == old(LastHash)
    {
      var r := storage.GetLastHash();
      if r.Err? {
        return Some(r.error);
      }
      LastHash := r.value;
      return None;
    }

    /** Refreshes the tip, builds a block with payload data linked to it,
        saves it under its digest, then advances LastHash to that digest. */
    method AddBlock(data: Bytes) returns (err: Option<Error>, ghost stage: Stage)
      requires storage != null
      modifies this`LastHash, storage
      ensures err.None? <==> stage == Committed
      ensures stage == Refreshing ==>
        && err == Some(StorageFault)
        && LastHash == old(LastHash)
        && storage.blocks == old(storage.blocks) && storage.lastHash == old(storage.lastHash)
      ensures stage == Saving ==>
        var b := Sealed(pow, data, old(storage.lastHash));
        && err.Some?
        && (Encode(b).Err? ==> err == Some(Encode(b).error))
        && LastHash == old(storage.lastHash)
        && storage.blocks == old(storage.blocks) && storage.lastHash == old(storage.lastHash)
      ensures stage == Committed ==>
        var b := Sealed(pow, data, old(storage.lastHash));
        && Encode(b).Ok?
        && storage.blocks == old(storage.blocks)[b.hash := Encode(b).value]
        && storage.lastHash == b.hash && LastHash == b.hash
        && Lookup(Decoded(storage.blocks), LastHash) == Ok(b)
        && b.link == old(storage.lastHash) && b.data == data
    {
      err := UpdateLastHash();
      if err.Some? {
        return err, Refreshing;
      }
      var newBlock := new Block();
      newBlock.Build(data, LastHash, pow);
      err := storage.SaveBlock(newBlock.Hash, newBlock);
      if err.Some? {
        return err, Saving;
      }
      LastHash := newBlock.Hash;
      return None, Committed;
    }

    /** Walks back from the tip: `pre` once, `each` on every block from the
        tip following links until the current digest is empty, then `post`.
        The refresh that starts the walk may fail unnoticed, and the walk
        then starts at the cached tip.  A failed lookup or decode ends the
        walk with its error and without `post`.  The callbacks are recorded
        in trace. */
    method IterateLink() returns (trace: seq<Event>, err: Option<Error>)
      requires storage != null
      requires Terminates(Decoded(storage.blocks), storage.lastHash)
      requires Terminates(Decoded(storage.blocks), LastHash)
      modifies this`LastHash
      ensures LastHash == storage.lastHash || LastHash == old(LastHash)
      ensures Terminates(Decoded(storage.blocks), LastHash)
      ensures trace == Trace(Traversal(Decoded(storage.blocks), LastHash))
      ensures err == Traversal(Decoded(storage.blocks), LastHash).ErrorOf()
    {
      var ignored := UpdateLastHash();
      var currentHash := LastHash;
      ghost var view := Decoded(storage.blocks);
      ghost var whole := Traversal(view, currentHash);
      PendingStart(view, currentHash);
      ghost var visited: seq<BlockRecord> := [];
      trace := [Pre];
      ghost var tip := LastHash;
      ghost var blocks := storage.blocks;
      while |currentHash| > 0
        invariant LastHash == tip && storage.blocks == blocks
        invariant Pending(view, currentHash, whole, visited)
        invariant Opened(trace, visited)
        decreases |whole.visited| - |visited|
      {
        ViewAt(blocks, currentHash);
        var data := storage.Get(currentHash);
        if data.Err? {
          err := Some(data.error);
          PendingAbort(view, currentHash, whole, visited);
          OpenedEnd(trace, whole);
          return;
        }
        var block := new Block();
        var failed := block.Deserialize(data.value);
        if failed.Some? {
          err := failed;
          PendingAbort(view, currentHash, whole, visited);
          OpenedEnd(trace, whole);
          return;
        }
        ghost var b := block.Value();
        PendingAdvance(view, currentHash, whole, visited, b);
        OpenedStep(trace, visited, b);
        trace := trace + [Each(block.Value())];
        visited := visited + [b];
        currentHash := block.Link;
      }
      PendingDone(view, currentHash, whole, visited);
      OpenedEnd(trace, whole);
      trace := trace + [Post];
      err := None;
    }

    /** Refreshes the tip (an error is not noticed) and looks up the block
        at LastHash. */
    method GetLastBlock() returns (b: Block?, err: Option<Error>)
      requires storage != null
      modifies this`LastHash
      ensures LastHash == storage.lastHash || LastHash == old(LastHash)
      ensures Lookup(Decoded(storage.blocks), LastHash).Ok? ==>
        err.None? && b != null && fresh(b) && b.Value() == Lookup(Decoded(storage.blocks), LastHash).value
      ensures Lookup(Decoded(storage.blocks), LastHash).Err? ==>
        err == Some(Lookup(Decoded(storage.blocks), LastHash).error) && b == null
    {
      var ignored := UpdateLastHash();
      b, err := GetBlock(LastHash);
    }

    /** The block stored under hash: NotFound when there is none, the
        decoder's error when its bytes do not decode, and no block in
        either case. */
    method GetBlock(hash: Bytes) returns (b: Block?, err: Option<Error>)
      requires storage != null
      ensures hash !in storage.blocks ==> err == Some(NotFound) && b == null
      ensures hash in storage.blocks && Decode(storage.blocks[hash]).Err? ==>
        err == Some(Decode(storage.blocks[hash]).error) && b == null
      ensures hash in storage.blocks && Decode(storage.blocks[hash]).Ok? ==>
        err.None? && b != null && fresh(b) && b.Value() == Decode(storage.blocks[hash]).value
      ensures Lookup(Decoded(storage.blocks), hash).Ok? ==>
        err.None? && b != null && fresh(b) && b.Value() == Lookup(Decoded(storage.blocks), hash).value
      ensures Lookup(Decoded(storage.blocks), hash).Err? ==>
        err == Some(Lookup(Decoded(storage.blocks), hash).error) && b == null
    {
      ViewAt(storage.blocks, hash);
      var data := storage.Get(hash);
      if data.Err? {
        return null, Some(data.error);
      }
      var block := new Block();
      var failed := block.Deserialize(data.value);
      if failed.Some? {
        return null, failed;
      }
      return block, None;
    }
  }
}
