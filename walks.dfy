/** The backward walk of `Chain.IterateLink` as a function of the stored
    blocks, and what it means for the stored blocks to form a chain. */
module Walks {
  import opened Base
  import opened Codec

  /** The store as the chain reads it: each stored digest with what
      decoding its bytes gives. */
  type View = map<Bytes, Result<BlockRecord>>

  /** view is what decoding each entry of blocks gives.  (The quantifier
      fires only where a decoding of a stored entry is already at hand.) */
  ghost predicate IsView(blocks: map<Bytes, Bytes>, view: View) {
    && view.Keys == blocks.Keys
    && forall k {:trigger Decode(blocks[k])} :: k in blocks ==> view[k] == Decode(blocks[k])
  }

  /** The view of the stored blocks. */
  ghost function Decoded(blocks: map<Bytes, Bytes>): (v: View)
    ensures IsView(blocks, v)
  {
    assert IsView(blocks, map k | k in blocks :: Decode(blocks[k]));
    var v :| IsView(blocks, v); v
  }

  /** Looking a digest up in the view: NotFound when nothing is stored
      under it, otherwise what its bytes decode to. */
  lemma ViewAt(blocks: map<Bytes, Bytes>, key: Bytes)
    ensures key !in blocks ==> Lookup(Decoded(blocks), key) == Err(NotFound)
    ensures key in blocks ==> Lookup(Decoded(blocks), key) == Decode(blocks[key])
  {
  }

  /** There is only one view of the stored blocks. */
  lemma ViewUnique(blocks: map<Bytes, Bytes>, view: View)
    requires IsView(blocks, view)
    ensures view == Decoded(blocks)
  {
    forall k | k in view
      ensures view[k] == Decoded(blocks)[k]
    {
      assert view[k] == Decode(blocks[k]);
    }
  }

  /** Saving bytes under a digest changes the view at that digest only. */
  lemma DecodedUpdate(blocks: map<Bytes, Bytes>, key: Bytes, bytes: Bytes)
    ensures Decoded(blocks[key := bytes]) == Decoded(blocks)[key := Decode(bytes)]
  {
    var after := blocks[key := bytes];
    var view := Decoded(blocks)[key := Decode(bytes)];
    forall k | k in after
      ensures view[k] == Decode(after[k])
    {
      if k != key {
        assert Decoded(blocks)[k] == Decode(blocks[k]);
      }
    }
    ViewUnique(after, view);
  }

  /** What a digest leads to: the decoded block, NotFound when the store has
      no entry, or the decoder's error. */
  function Lookup(view: View, key: Bytes): Result<BlockRecord> {
    if key in view then view[key] else Err(NotFound)
  }

  /** How a walk ends: at an empty link, or at a lookup that failed. */
  datatype Outcome = Reached | Aborted(error: Error)

  /** The blocks a walk visits, in visiting order, and how it ended. */
  datatype Walk = Walk(visited: seq<BlockRecord>, outcome: Outcome) {
    /** The error the walk reports. */
    function ErrorOf(): Option<Error> {
      if outcome.Aborted? then Some(outcome.error) else None
    }
  }

  /** The walk from digest h with at most fuel lookups; None when fuel runs
      out before the walk ends. */
  function WalkFrom(view: View, h: Bytes, fuel: nat): (r: Option<Walk>)
    ensures r.Some? ==> |r.value.visited| <= fuel
    decreases fuel
  {
    if |h| == 0 then Some(Walk([], Reached))
    else if fuel == 0 then None
    else
      match Lookup(view, h)
      case Err(e) => Some(Walk([], Aborted(e)))
      case Ok(b) =>
        match WalkFrom(view, b.link, fuel - 1)
        case None => None
        case Some(rest) => Some(Walk([b] + rest.visited, rest.outcome))
  }

  /** More fuel does not change a walk that has already ended. */
  lemma {:induction false} WalkFuel(view: View, h: Bytes, n: nat, m: nat)
    requires WalkFrom(view, h, n).Some?
    requires n <= m
    ensures WalkFrom(view, h, m) == WalkFrom(view, h, n)
    decreases n
  {
    if |h| > 0 && Lookup(view, h).Ok? {
      WalkFuel(view, Lookup(view, h).value.link, n - 1, m - 1);
    }
  }

  /** Following links from h ends after finitely many lookups. */
  ghost predicate Terminates(view: View, h: Bytes) {
    exists fuel: nat :: WalkFrom(view, h, fuel).Some?
  }

  /** The whole walk from h. */
  ghost function Traversal(view: View, h: Bytes): Walk
    requires Terminates(view, h)
  {
    var fuel: nat :| WalkFrom(view, h, fuel).Some?;
    WalkFrom(view, h, fuel).value
  }

  /** Any amount of fuel that suffices yields the whole walk. */
  lemma TraversalIs(view: View, h: Bytes, fuel: nat)
    requires WalkFrom(view, h, fuel).Some?
    ensures Terminates(view, h)
    ensures Traversal(view, h) == WalkFrom(view, h, fuel).value
  {
    forall other: nat | WalkFrom(view, h, other).Some?
      ensures WalkFrom(view, h, other) == WalkFrom(view, h, fuel)
    {
      if other <= fuel {
        WalkFuel(view, h, other, fuel);
      } else {
        WalkFuel(view, h, fuel, other);
      }
    }
  }

  /** One step of a walk that has not ended: the lookup of h either fails,
      ending the walk with its error, or gives a block whose link the walk
      continues from. */
  lemma WalkStep(view: View, h: Bytes, fuel: nat)
    requires |h| > 0
    requires WalkFrom(view, h, fuel).Some?
    ensures fuel > 0
    ensures Lookup(view, h).Err? ==> WalkFrom(view, h, fuel) == Some(Walk([], Aborted(Lookup(view, h).error)))
    ensures Lookup(view, h).Ok? ==>
      var b := Lookup(view, h).value;
      && WalkFrom(view, b.link, fuel - 1).Some?
      && WalkFrom(view, h, fuel).value.visited == [b] + WalkFrom(view, b.link, fuel - 1).value.visited
      && WalkFrom(view, h, fuel).value.outcome == WalkFrom(view, b.link, fuel - 1).value.outcome
  {
  }

  /** A walk in progress: the blocks visited so far, followed by the whole
      walk still to go from h, make up the walk whole. */
  ghost predicate Pending(view: View, h: Bytes, whole: Walk, visited: seq<BlockRecord>) {
    && Terminates(view, h)
    && whole.visited == visited + Traversal(view, h).visited
    && whole.outcome == Traversal(view, h).outcome
  }

  lemma PendingStart(view: View, h: Bytes)
    requires Terminates(view, h)
    ensures Pending(view, h, Traversal(view, h), [])
  {
  }

  /** Moving a walk in progress on by the block found at h: the walk goes
      on from that block's link, and one block fewer is left to visit. */
  lemma PendingAdvance(view: View, h: Bytes, whole: Walk, visited: seq<BlockRecord>, b: BlockRecord)
    requires |h| > 0 && Pending(view, h, whole, visited)
    requires Lookup(view, h) == Ok(b)
    ensures Pending(view, b.link, whole, visited + [b])
    ensures |visited| < |whole.visited|
  {
    var fuel: nat :| WalkFrom(view, h, fuel).Some?;
    TraversalIs(view, h, fuel);
    WalkStep(view, h, fuel);
    TraversalIs(view, b.link, fuel - 1);
    var rest := Traversal(view, b.link).visited;
    assert (visited + [b]) + rest == visited + ([b] + rest);
  }

  /** A walk in progress whose next lookup fails has ended there. */
  lemma PendingAbort(view: View, h: Bytes, whole: Walk, visited: seq<BlockRecord>)
    requires |h| > 0 && Pending(view, h, whole, visited)
    requires Lookup(view, h).Err?
    ensures whole == Walk(visited, Aborted(Lookup(view, h).error))
  {
  }

  /** A walk in progress at the empty digest has reached the end. */
  lemma PendingDone(view: View, h: Bytes, whole: Walk, visited: seq<BlockRecord>)
    requires |h| == 0 && Pending(view, h, whole, visited)
    ensures whole == Walk(visited, Reached)
  {
  }

  /** The digest at which the i-th block of a walk from h was looked up:
      h itself, then the link of the block before. */
  function KeyAt(h: Bytes, vs: seq<BlockRecord>, i: nat): Bytes
    requires i <= |vs|
  {
    if i == 0 then h else vs[i - 1].link
  }

  /** Past the first block, the keys of a walk are those of the walk from
      the first block's link. */
  lemma KeyAtCons(h: Bytes, b: BlockRecord, vs: seq<BlockRecord>, i: nat)
    requires i <= |vs|
    ensures KeyAt(h, [b] + vs, i + 1) == KeyAt(b.link, vs, i)
    ensures i < |vs| ==> ([b] + vs)[i + 1] == vs[i]
  {
  }

  /** A walk visits, newest first, the block under h and then the block
      under each visited block's link; every digest it looks up is
      nonempty; it ends exactly when the current digest is empty, or at the
      first lookup that fails, with that lookup's error. */
  lemma {:induction false} WalkFollowsLinks(view: View, h: Bytes, fuel: nat, w: Walk)
    requires WalkFrom(view, h, fuel) == Some(w)
    ensures forall i :: 0 <= i < |w.visited| ==>
              |KeyAt(h, w.visited, i)| > 0 && Lookup(view, KeyAt(h, w.visited, i)) == Ok(w.visited[i])
    ensures w.outcome.Reached? <==> |KeyAt(h, w.visited, |w.visited|)| == 0
    ensures w.outcome.Aborted? ==> Lookup(view, KeyAt(h, w.visited, |w.visited|)) == Err(w.outcome.error)
    decreases fuel
  {
    if |h| > 0 && Lookup(view, h).Ok? {
      var b := Lookup(view, h).value;
      var rest := WalkFrom(view, b.link, fuel - 1).value;
      WalkFollowsLinks(view, b.link, fuel - 1, rest);
      assert w.visited == [b] + rest.visited && w.outcome == rest.outcome;
      forall i | 0 < i < |w.visited|
        ensures |KeyAt(h, w.visited, i)| > 0 && Lookup(view, KeyAt(h, w.visited, i)) == Ok(w.visited[i])
      {
        KeyAtCons(h, b, rest.visited, i - 1);
      }
      KeyAtCons(h, b, rest.visited, |rest.visited|);
    }
  }

  /** The digest of the newest block of vs, or the empty digest. */
  function Tip(vs: seq<BlockRecord>): Bytes {
    if vs == [] then [] else vs[0].hash
  }

  /** vs, newest first, is a chain that blocks holds: each block is stored,
      decodably, under its own nonempty digest and links to the next one;
      the oldest (the genesis block) has the empty link. */
  ghost predicate ChainOf(view: View, vs: seq<BlockRecord>) {
    forall i :: 0 <= i < |vs| ==>
      && |vs[i].hash| > 0
      && vs[i].hash in view
      && view[vs[i].hash] == Ok(vs[i])
      && vs[i].link == Tip(vs[i + 1..])
  }

  /** On a chain of N blocks, the walk from the tip visits exactly those N
      blocks, newest first, and ends at the genesis block's empty link. */
  lemma {:induction false} ChainWalk(view: View, vs: seq<BlockRecord>)
    requires ChainOf(view, vs)
    ensures WalkFrom(view, Tip(vs), |vs|) == Some(Walk(vs, Reached))
  {
    if vs != [] {
      var older := vs[1..];
      forall i | 0 <= i < |older|
        ensures older[i] == vs[i + 1] && older[i + 1..] == vs[i + 2..]
      {
      }
      assert ChainOf(view, older);
      ChainWalk(view, older);
      assert Lookup(view, Tip(vs)) == Ok(vs[0]);
      assert [vs[0]] + older == vs;
    }
  }

  lemma ChainTraversal(view: View, vs: seq<BlockRecord>)
    requires ChainOf(view, vs)
    ensures Terminates(view, Tip(vs))
    ensures Traversal(view, Tip(vs)) == Walk(vs, Reached)
  {
    ChainWalk(view, vs);
    TraversalIs(view, Tip(vs), |vs|);
  }

  lemma {:induction false} NoRepeat(view: View, vs: seq<BlockRecord>, i: nat, j: nat)
    requires ChainOf(view, vs)
    requires i < j < |vs|
    ensures vs[i].hash != vs[j].hash
    decreases |vs| - j
  {
    if vs[i].hash == vs[j].hash {
      assert vs[i] == vs[j];
      if j + 1 < |vs| {
        NoRepeat(view, vs, i + 1, j + 1);
      }
    }
  }

  /** No block of a chain links, directly or through others, to itself:
      the digests of a chain are pairwise distinct. */
  lemma ChainDistinct(view: View, vs: seq<BlockRecord>)
    requires ChainOf(view, vs)
    ensures forall i, j :: 0 <= i < j < |vs| ==> vs[i].hash != vs[j].hash
  {
    forall i, j | 0 <= i < j < |vs|
      ensures vs[i].hash != vs[j].hash
    {
      NoRepeat(view, vs, i, j);
    }
  }

  /** A block that links to the chain's tip, recorded under its own
      nonempty digest, extends the chain by that block, provided its digest
      is not already one of the chain's. */
  lemma AppendKeepsChain(view: View, vs: seq<BlockRecord>, b: BlockRecord)
    requires ChainOf(view, vs)
    requires b.link == Tip(vs)
    requires |b.hash| > 0
    requires forall i :: 0 <= i < |vs| ==> vs[i].hash != b.hash
    ensures ChainOf(view[b.hash := Ok(b)], [b] + vs)
  {
  }

  /** The same for the stored bytes: saving the block's encoding under its
      digest extends the chain the store holds. */
  lemma SaveKeepsChain(blocks: map<Bytes, Bytes>, vs: seq<BlockRecord>, b: BlockRecord)
    requires ChainOf(Decoded(blocks), vs)
    requires b.link == Tip(vs)
    requires |b.hash| > 0
    requires forall i :: 0 <= i < |vs| ==> vs[i].hash != b.hash
    requires Encode(b).Ok?
    ensures ChainOf(Decoded(blocks[b.hash := Encode(b).value]), [b] + vs)
  {
    DecodedUpdate(blocks, b.hash, Encode(b).value);
    AppendKeepsChain(Decoded(blocks), vs, b);
  }

  /** The callbacks of a walk: `pre`, `each` on a block, `post`. */
  datatype Event = Pre | Each(block: BlockRecord) | Post

  /** The `each` callbacks on the blocks vs, in order. */
  function Eaches(vs: seq<BlockRecord>): seq<Event> {
    if |vs| == 0 then [] else Eaches(vs[..|vs| - 1]) + [Each(vs[|vs| - 1])]
  }

  lemma {:induction false} EachesAt(vs: seq<BlockRecord>)
    ensures |Eaches(vs)| == |vs|
    ensures forall i :: 0 <= i < |vs| ==> Eaches(vs)[i] == Each(vs[i])
  {
    if |vs| > 0 {
      EachesAt(vs[..|vs| - 1]);
    }
  }

  /** The callbacks made so far by a walk that has visited vs. */
  ghost predicate Opened(trace: seq<Event>, vs: seq<BlockRecord>) {
    trace == [Pre] + Eaches(vs)
  }

  /** Visiting one more block adds one `each` at the end. */
  lemma OpenedStep(trace: seq<Event>, vs: seq<BlockRecord>, b: BlockRecord)
    requires Opened(trace, vs)
    ensures Opened(trace + [Each(b)], vs + [b])
  {
    assert (vs + [b])[..|vs|] == vs;
  }

  /** A walk that stops after visiting vs: `post` follows only when it
      reached the empty link. */
  lemma OpenedEnd(trace: seq<Event>, w: Walk)
    requires Opened(trace, w.visited)
    ensures w.outcome.Aborted? ==> trace == Trace(w)
    ensures w.outcome.Reached? ==> trace + [Post] == Trace(w)
  {
  }

  /** The callbacks a walk makes, in order. */
  function Trace(w: Walk): seq<Event> {
    [Pre] + Eaches(w.visited) + (if w.outcome.Reached? then [Post] else [])
  }

  /** A walk's trace is `pre`, then `each` on every visited block in
      order, then `post` exactly when the walk reached the empty link; no
      callback repeats out of place. */
  lemma TraceShape(w: Walk)
    ensures var t := Trace(w);
      && |t| == |w.visited| + (if w.outcome.Reached? then 2 else 1)
      && t[0] == Pre && (forall i :: 0 < i < |t| ==> !t[i].Pre?)
      && (forall i :: 0 <= i < |w.visited| ==> t[i + 1] == Each(w.visited[i]))
      && (Post in t <==> w.outcome.Reached?)
      && (w.outcome.Reached? ==> t[|t| - 1] == Post && forall i :: 0 <= i < |t| - 1 ==> !t[i].Post?)
  {
    var t, e := Trace(w), Eaches(w.visited);
    EachesAt(w.visited);
    assert forall i :: 0 < i <= |e| ==> t[i] == e[i - 1];
    assert forall i :: |e| < i < |t| ==> t[i] == Post;
  }

  /** On a chain of N blocks the walk from the tip makes `pre`, then `each`
      on the N blocks newest first, then `post` once; for the empty chain
      (empty tip) just `pre` and `post`. */
  lemma ChainTrace(view: View, vs: seq<BlockRecord>)
    requires ChainOf(view, vs)
    ensures Terminates(view, Tip(vs))
    ensures Trace(Traversal(view, Tip(vs))) == [Pre] + Eaches(vs) + [Post]
    ensures |Trace(Traversal(view, Tip(vs)))| == |vs| + 2
  {
    ChainTraversal(view, vs);
    EachesAt(vs);
  }
}
