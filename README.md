# Hash-linked chain: a Dafny model

This project models the core of a small Go blockchain: the `Chain` of
`src/blockchain/chain.go` and the `Block` of `src/blockchain/block.go`.

- A `Chain` keeps a cached tip (`LastHash`) and a storage handle.
- `UpdateLastHash` refreshes the tip from storage.
- `AddBlock` builds a block linked to the tip, saves it under its digest
  and moves the tip forward.
- `IterateLink` walks back from the tip along the links, calling `pre`,
  then `each` on every block, then `post`.
- `GetBlock` and `GetLastBlock` are point lookups.
- `Init` bootstraps an empty store with a genesis block whose link is empty.
- A `Block` is the record `Data`, `Hash`, `Link`, `Nonce`. `Build`
  seals it by proof-of-work. `Serialize` and `Deserialize` convert it to
  and from bytes.

The files, one module each:

- `base.dfy`: bytes, the 64-bit nonce type, the error kinds, `Option`
  and `Result`.
- `codec.dfy`: a concrete byte encoding of a block that stands in for Go's
  `encoding/gob`. Each of `Data`, `Hash`, `Link` is written as a 4-byte
  big-endian length followed by the bytes; the nonce follows as 8 bytes of
  two's complement. The chain relies on one property of it, proved as
  part of `Encode`'s contract: decoding an encoding gives back the block,
  whatever bytes follow it. Two more lemmas hold of this stand-in only:
  - a cut-off encoding is rejected;
  - the decoder accepts only what the encoder writes. gob's decoder does
    not have this property.
- `block.dfy`: the class `Block` with its four fields. Proof-of-work is a
  function parameter `(data, link) -> (nonce, hash)`.
- `storage.dfy`: the storage handle as a class `Store`. It is a map from
  digest to encoded block, plus a last-hash cell. A read of a stored key
  always succeeds, and a missing key is `NotFound`. Reading the tip,
  saving and bootstrapping may each fail. When they fail is left open, so
  every contract of the chain covers both outcomes.
- `walks.dfy`: the backward walk as a function of the decoded store. It
  has fuel, so it is total; `Traversal` is the walk for any fuel that
  suffices. `ChainOf` says that a sequence of blocks, newest first, is a
  chain held by the store. The lemmas prove:
  - the walk over a chain visits exactly its blocks and reaches the empty
    link;
  - a chain never repeats a digest;
  - saving a block that links to the tip extends the chain, provided the
    block's digest is nonempty and not already one of the chain's;
  - the callback trace of a walk has the order the source promises.
- `chain.dfy`: the class `Chain`, with its methods as imperative code.
  `IterateLink` is a `while` loop proved against the walk function. The
  callbacks are recorded in a returned trace of events `Pre`,
  `Each(block)` and `Post`.

In these places the model follows the code:

- `IterateLink` stops at the first failed lookup or decode and does not
  call `post`.
- `Init` never assigns `LastHash`. The tip the store reports is only
  logged.
- `IterateLink` and `GetLastBlock` ignore a failed refresh. They then work
  from the cached `LastHash`, which may be stale; their contracts allow
  either tip.
- `makeGenesisBlock` and `AddBlock` hand a `[]*Transaction` to
  `Build(data []byte, …)`. The model treats the payload as bytes
  throughout.

## Model

| member | source | states |
|---|---|---|
| Codec.Encode | src/blockchain/block.go:26-28 | whatever the encoder writes decodes back to the block it encoded, all four fields |
| Codec.Decode | src/blockchain/block.go:38-39 | the decoder fails only on input that ends too soon, and a block it returns took at least the bytes of its encoding |
| Codec.DecodeEncode | src/blockchain/block.go:25-44 | decoding the encoding of a block, followed by any bytes, gives back all four fields |
| Codec.TruncatedFails | src/blockchain/block.go:35-44 | no proper prefix of an encoding decodes |
| Codec.DecodeCanonical | src/blockchain/block.go:35-44 | whenever the decoder returns a block, the input starts with that block's encoding |
| Blocks.Block.constructor | src/blockchain/block.go:11-16 | `&Block{}` has all four fields at their zero values |
| Blocks.Block.Build | src/blockchain/block.go:18-23 | Data and Link are exactly the arguments; Nonce and Hash are the proof-of-work result for that payload and link, so Build is a function of (pow, data, link) |
| Blocks.Block.Serialize | src/blockchain/block.go:25-33 | the result is the encoder's outcome unchanged; it succeeds iff the block is encodable, and then its bytes decode back to the block |
| Blocks.Block.Deserialize | src/blockchain/block.go:35-44 | the error is the decoder's, unchanged; on success all four fields are the decoded ones, on failure the block is unchanged |
| Blocks.Block.Print | src/blockchain/block.go:46-51 | it shows the four fields and changes nothing |
| Storage.Store.GetLastHash | src/blockchain/chain.go:47-51 | the recorded tip, or a storage fault |
| Storage.Store.Get | src/blockchain/chain.go:100-103 | the stored bytes when the digest is present, NotFound otherwise |
| Storage.Store.SaveBlock | src/blockchain/chain.go:63-67 | on success the block's encoding is stored under the key, which becomes the tip; an encoder error is passed on; after any error nothing was written |
| Storage.Store.Init | src/blockchain/chain.go:16-22 | a store with a tip is left alone; otherwise the factory's error is passed on, or the genesis block is stored under its digest and becomes the tip, or nothing is written |
| Walks.ViewAt | src/blockchain/chain.go:78-85 | looking a digest up in the decoded store gives NotFound for a missing digest, else what its bytes decode to |
| Walks.DecodedUpdate | src/blockchain/chain.go:63 | saving bytes under a digest changes the decoded store at that digest only |
| Walks.WalkFrom | src/blockchain/chain.go:77-88 | the backward loop with a bound on its lookups: it visits at most that many blocks |
| Walks.WalkFollowsLinks | src/blockchain/chain.go:75-88 | the walk visits the block under the tip, then the block under each visited block's link; every digest looked up is nonempty; it ends exactly at an empty digest or at the first failed lookup, with that lookup's error |
| Walks.ChainWalk | src/blockchain/chain.go:77-88 | on a chain of N blocks the walk from its tip visits exactly those N blocks, newest first, and reaches the empty link |
| Walks.ChainDistinct | src/blockchain/chain.go:77-88 | the digests of a chain are pairwise distinct, so the walk never revisits a block |
| Walks.AppendKeepsChain | src/blockchain/chain.go:61-68 | a block that links to the tip, stored under its own fresh, nonempty digest, extends the chain by one block |
| Walks.SaveKeepsChain | src/blockchain/chain.go:61-68 | saving such a block's encoding in the byte store extends the chain the store holds |
| Walks.TraceShape | src/blockchain/chain.go:76-90 | a walk's callbacks are `pre` once and first, then `each` on the visited blocks in order, then `post` exactly when the empty link was reached, and only last |
| Walks.ChainTrace | src/blockchain/chain.go:76-90 | on a chain of N blocks (N = 0 for an empty tip) the walk makes `pre`, N `each` calls newest first, then one `post` |
| Chains.Genesis | src/blockchain/chain.go:32-43 | the payload's error is passed on; otherwise the genesis block carries the payload, the empty link and the proof-of-work result |
| Chains.MakeGenesisBlock | src/blockchain/chain.go:32-43 | on a payload error no block and that error; otherwise a fresh block equal to the genesis block, whose Link is empty |
| Chains.Chain.constructor | src/blockchain/chain.go:8-11 | a chain with an empty tip and no storage |
| Chains.Chain.Init | src/blockchain/chain.go:13-30 | the chain takes the store as its storage, bootstraps it with the genesis block as Storage.Store.Init states, and leaves LastHash unchanged |
| Chains.Chain.UpdateLastHash | src/blockchain/chain.go:45-54 | LastHash becomes the store's tip on success; on an error LastHash keeps its value |
| Chains.Chain.AddBlock | src/blockchain/chain.go:56-70 | a failed refresh returns its error with nothing built or saved; a failed save returns its error with the store unchanged and LastHash at the refreshed tip; on success, the new block links to the tip read from storage, is stored under its digest, decodes back, and both tips move to its digest |
| Chains.Chain.IterateLink | src/blockchain/chain.go:72-91 | the trace and error are those of the walk from the tip the call started from, either the refreshed or the cached one: pre once, each newest first along the links, post after an empty link only; a failed lookup or decode is returned at once without post |
| Chains.Chain.GetLastBlock | src/blockchain/chain.go:93-96 | the block at the refreshed (or, after a failed refresh, the cached) tip, or the lookup's error and no block |
| Chains.Chain.GetBlock | src/blockchain/chain.go:98-109 | NotFound and no block for a missing digest; the decoder's error and no block for undecodable bytes; otherwise a fresh block with the decoded fields |

## Left out

- Logging (`logrus`): it has no effect on behaviour.
- The `persistance` package is not part of this model. `Store` stands for
  it as a map from digest to bytes plus a last-hash cell, with
  nondeterministic faults. Its file format, `DefaultPath` and durability
  are left out.
- Storage.Store.Get: does not model read faults other than a missing key.
- Storage.Store.SaveBlock: the write of the block and the move of the tip
  happen together. A crash between the two steps is not modelled.
- `encoding/gob` is replaced by the concrete codec of `codec.dfy`. These
  gob details have no counterpart: the wire format, gob's own encoder
  errors, the omission of zero-valued fields, `nil` versus empty slices,
  and a decoder that has filled some fields before it fails. gob's
  decoder is not canonical: a stream that sends a zero field explicitly
  decodes to the same block as the encoder's stream, which omits it. So
  `Codec.DecodeCanonical` and `Codec.TruncatedFails` hold of the stand-in
  only, and the chain does not depend on them.
- Codec.Encode: its FieldTooLong failure, for a field longer than a 4-byte
  length can state, belongs to the stand-in codec, not to gob.
- Blocks.Block.Serialize: on an encoder error Go also returns the partial
  contents of the buffer. The model returns only the error; no caller in
  the core uses those bytes.
- Blocks.Block.Deserialize: sets all four fields on success. gob leaves
  alone the fields an encoding omits. The core always decodes into a fresh
  `&Block{}`, so the two agree there.
- `ProofOfWork.Run` and `getProofOfWorkTarget`: the nonce search, SHA-256
  and the big-integer target are left out. Proof-of-work is a function
  parameter of the chain and of `Build`.
- `MakeCoinbaseTransaction` and the `Transaction` type are not part of this
  model. Their outcome is the `coinbase` input, a payload or an error.
- Chains.Chain.Init: takes the store handle as a parameter instead of
  creating one at `DefaultPath`. Its genesis factory is the function
  `Genesis`, because a Dafny closure cannot call the method
  `MakeGenesisBlock`.
- Blocks.Block.Print: the `fmt.Printf` output is left out. The method
  returns the record it would show.
- The callbacks `pre`, `each` and `post` are recorded as a trace. They
  cannot change the chain or the store.
- Chains.Chain.IterateLink: assumes `each` leaves the block's `Link` as
  decoded. In Go, `each` receives the `*Block` before the loop reads
  `block.Link`, so a callback that rewrites the link would redirect the
  walk, and one that empties it would end the walk early.
- Chains.Chain.IterateLink: requires that following links ends from both
  the stored and the cached tip. On a store whose links form a cycle, the
  source loops forever; that case is not modelled.
- Chains.Chain.UpdateLastHash, Chains.Chain.AddBlock, Chains.Chain.IterateLink,
  Chains.Chain.GetLastBlock and Chains.Chain.GetBlock require `Init` to have
  run, so that the storage handle is set. In Go they can be called before
  `Init`, with `c.storage` nil; what happens then depends on the
  `persistance` package.
- Concurrent `AddBlock` calls and fork races: the code assumes a single
  writer.
