/** The byte encoding of a block.  The repository hands its blocks to Go's
    `encoding/gob`; this module is a concrete stand-in.  The chain relies on
    one property of it: decoding an encoding gives the block back.  Two more
    are proved of the stand-in alone: a cut-off encoding is rejected, and the
    decoder only accepts what the encoder writes (gob's decoder is not
    canonical in that sense).

    Layout: `data`, `hash` and `link` each as a 4-byte big-endian length
    followed by the bytes, then the nonce as 8 bytes of two's complement.
    Like a gob `Decoder` reading one value from a stream, `Decode` reads one
    block from the front of its input and ignores what follows. */
module Codec {
  import opened Base

  /** The four fields of a Go `Block`, as the encoder sees them. */
  datatype BlockRecord = BlockRecord(data: Bytes, hash: Bytes, link: Bytes, nonce: int64)

  const LengthWidth: nat := 4
  const NonceWidth: nat := 8

  /** 256 to the power k: the number of values k bytes can hold. */
  function Pow256(k: nat): (p: nat)
    ensures p > 0
  {
    if k == 0 then 1 else 256 * Pow256(k - 1)
  }

  lemma Pow256Widths()
    ensures Pow256(LengthWidth) == 0x1_0000_0000
    ensures Pow256(NonceWidth) == 0x1_0000_0000_0000_0000
  {
  }

  /** x written as exactly k bytes, most significant first. */
  function EncodeUint(x: nat, k: nat): (s: Bytes)
    requires x < Pow256(k)
    ensures |s| == k
  {
    if k == 0 then [] else EncodeUint(x / 256, k - 1) + [(x % 256) as byte]
  }

  /** The number that the bytes s spell, most significant first. */
  function DecodeUint(s: Bytes): (x: nat)
    ensures x < Pow256(|s|)
  {
    if |s| == 0 then 0 else DecodeUint(s[..|s| - 1]) * 256 + s[|s| - 1] as int
  }

  lemma {:induction false} UintRoundTrip(x: nat, k: nat)
    requires x < Pow256(k)
    ensures DecodeUint(EncodeUint(x, k)) == x
  {
    if k > 0 {
      var s := EncodeUint(x, k);
      assert s[..|s| - 1] == EncodeUint(x / 256, k - 1);
      UintRoundTrip(x / 256, k - 1);
    }
  }

  lemma {:induction false} UintCanonical(s: Bytes)
    ensures EncodeUint(DecodeUint(s), |s|) == s
  {
    if |s| > 0 {
      var init := s[..|s| - 1];
      var x := DecodeUint(s);
      assert x / 256 == DecodeUint(init) && x % 256 == s[|s| - 1] as int;
      UintCanonical(init);
      assert s == init + [s[|s| - 1]];
    }
  }

  /** The nonce's two's-complement bit pattern, as an unsigned number. */
  function ToUnsigned(n: int64): (u: nat)
    ensures u < Pow256(NonceWidth)
  {
    Pow256Widths();
    if n < 0 then n as int + 0x1_0000_0000_0000_0000 else n as int
  }

  /** The signed nonce a 64-bit pattern stands for. */
  function ToSigned(u: nat): (n: int64)
    requires u < Pow256(NonceWidth)
    ensures ToUnsigned(n) == u
  {
    Pow256Widths();
    if u >= 0x8000_0000_0000_0000 then (u - 0x1_0000_0000_0000_0000) as int64 else u as int64
  }

  lemma NonceBits(n: int64)
    ensures ToSigned(ToUnsigned(n)) == n
  {
  }

  /** Whether every field's length fits the length prefix. */
  predicate Encodable(b: BlockRecord) {
    && |b.data| < Pow256(LengthWidth)
    && |b.hash| < Pow256(LengthWidth)
    && |b.link| < Pow256(LengthWidth)
  }

  function EncodeField(s: Bytes): (e: Bytes)
    requires |s| < Pow256(LengthWidth)
  {
    EncodeUint(|s|, LengthWidth) + s
  }

  function EncodeNonce(n: int64): (e: Bytes) {
    EncodeUint(ToUnsigned(n), NonceWidth)
  }

  /** The bytes the encoder writes for an encodable block. */
  function Layout(b: BlockRecord): Bytes
    requires Encodable(b)
  {
    EncodeField(b.data) + EncodeField(b.hash) + EncodeField(b.link) + EncodeNonce(b.nonce)
  }

  /** The encoder: fails, with FieldTooLong, exactly when some field is too
      long for its length prefix; what it writes decodes back to the block. */
  function Encode(b: BlockRecord): (r: Result<Bytes>)
    ensures r.Ok? <==> Encodable(b)
    ensures r.Err? ==> r.error == FieldTooLong
    ensures r.Ok? ==> Decode(r.value) == Ok(b)
  {
    if !Encodable(b) then Err(FieldTooLong)
    else
      LayoutRoundTrip(b, []);
      assert Layout(b) + [] == Layout(b);
      Ok(Layout(b))
  }

  /** Reads one length-prefixed field; gives the field and the rest. */
  function DecodeField(s: Bytes): (r: Result<(Bytes, Bytes)>)
    ensures r.Err? ==> r.error == Truncated
    ensures r.Ok? ==> LengthWidth + |r.value.0| + |r.value.1| == |s|
  {
    if |s| < LengthWidth then Err(Truncated)
    else
      var n := DecodeUint(s[..LengthWidth]);
      if |s| - LengthWidth < n then Err(Truncated)
      else Ok((s[LengthWidth..LengthWidth + n], s[LengthWidth + n..]))
  }

  function DecodeNonce(s: Bytes): (r: Result<(int64, Bytes)>)
    ensures r.Err? ==> r.error == Truncated
    ensures r.Ok? ==> NonceWidth + |r.value.1| == |s|
  {
    if |s| < NonceWidth then Err(Truncated)
    else Ok((ToSigned(DecodeUint(s[..NonceWidth])), s[NonceWidth..]))
  }

  /** The decoder: one block from the front of s.  It fails only on input
      that ends too soon, and a block it returns took at least the bytes of
      its encoding. */
  function Decode(s: Bytes): (r: Result<BlockRecord>)
    ensures r.Err? ==> r.error == Truncated
    ensures r.Ok? ==> 3 * LengthWidth + NonceWidth + |r.value.data| + |r.value.hash| + |r.value.link| <= |s|
  {
    var f1 :- DecodeField(s);
    var f2 :- DecodeField(f1.1);
    var f3 :- DecodeField(f2.1);
    var f4 :- DecodeNonce(f3.1);
    Ok(BlockRecord(f1.0, f2.0, f3.0, f4.0))
  }

  lemma FieldRoundTrip(x: Bytes, t: Bytes)
    requires |x| < Pow256(LengthWidth)
    ensures DecodeField(EncodeField(x) + t) == Ok((x, t))
  {
    var s := EncodeField(x) + t;
    assert s[..LengthWidth] == EncodeUint(|x|, LengthWidth);
    UintRoundTrip(|x|, LengthWidth);
    assert s[LengthWidth..LengthWidth + |x|] == x;
    assert s[LengthWidth + |x|..] == t;
  }

  lemma NonceRoundTrip(n: int64, t: Bytes)
    ensures DecodeNonce(EncodeNonce(n) + t) == Ok((n, t))
  {
    var s := EncodeNonce(n) + t;
    assert s[..NonceWidth] == EncodeNonce(n);
    UintRoundTrip(ToUnsigned(n), NonceWidth);
    NonceBits(n);
    assert s[NonceWidth..] == t;
  }

  /** Decoding the layout of a block gives back all four fields, whatever
      follows it in the input. */
  lemma LayoutRoundTrip(b: BlockRecord, t: Bytes)
    requires Encodable(b)
    ensures Decode(Layout(b) + t) == Ok(b)
  {
    var fd, fh, fl, fn := EncodeField(b.data), EncodeField(b.hash), EncodeField(b.link), EncodeNonce(b.nonce);
    assert Layout(b) + t == fd + (fh + (fl + (fn + t)));
    FieldRoundTrip(b.data, fh + (fl + (fn + t)));
    FieldRoundTrip(b.hash, fl + (fn + t));
    FieldRoundTrip(b.link, fn + t);
    NonceRoundTrip(b.nonce, t);
  }

  /** Decoding what the encoder wrote gives back all four fields, whatever
      follows the encoding in the input. */
  lemma DecodeEncode(b: BlockRecord, t: Bytes)
    requires Encode(b).Ok?
    ensures Decode(Encode(b).value + t) == Ok(b)
  {
    LayoutRoundTrip(b, t);
  }

  /** A cut-off prefix of an encoded field: an error while the field is not
      complete, otherwise the field and the cut-off rest. */
  lemma FieldPrefix(x: Bytes, t: Bytes, k: nat)
    requires |x| < Pow256(LengthWidth)
    requires k <= |EncodeField(x) + t|
    ensures k < |EncodeField(x)| ==> DecodeField((EncodeField(x) + t)[..k]).Err?
    ensures k >= |EncodeField(x)| ==> DecodeField((EncodeField(x) + t)[..k]) == Ok((x, t[..k - |EncodeField(x)|]))
  {
    var s := (EncodeField(x) + t)[..k];
    if k >= LengthWidth {
      assert s[..LengthWidth] == EncodeUint(|x|, LengthWidth);
      UintRoundTrip(|x|, LengthWidth);
      if k >= |EncodeField(x)| {
        assert s[LengthWidth..LengthWidth + |x|] == x;
        assert s[LengthWidth + |x|..] == t[..k - |EncodeField(x)|];
      }
    }
  }

  lemma NoncePrefix(n: int64, k: nat)
    requires k < NonceWidth
    ensures DecodeNonce(EncodeNonce(n)[..k]).Err?
  {
  }

  /** No proper prefix of a block's layout decodes. */
  lemma LayoutTruncated(b: BlockRecord, k: nat)
    requires Encodable(b)
    requires k < |Layout(b)|
    ensures Decode(Layout(b)[..k]).Err?
  {
    var fd, fh, fl, fn := EncodeField(b.data), EncodeField(b.hash), EncodeField(b.link), EncodeNonce(b.nonce);
    var r1 := fh + (fl + fn);
    var r2 := fl + fn;
    assert Layout(b) == fd + r1;
    FieldPrefix(b.data, r1, k);
    if k >= |fd| {
      var k1 := k - |fd|;
      assert r1[..k1] == (fh + r2)[..k1];
      FieldPrefix(b.hash, r2, k1);
      if k1 >= |fh| {
        var k2 := k1 - |fh|;
        FieldPrefix(b.link, fn, k2);
        if k2 >= |fl| {
          var k3 := k2 - |fl|;
          NoncePrefix(b.nonce, k3);
        }
      }
    }
  }

  /** Truncated input is rejected: no proper prefix of an encoding decodes. */
  lemma TruncatedFails(b: BlockRecord, k: nat)
    requires Encode(b).Ok?
    requires k < |Encode(b).value|
    ensures Decode(Encode(b).value[..k]).Err?
  {
    LayoutTruncated(b, k);
  }

  lemma FieldCanonical(s: Bytes)
    requires DecodeField(s).Ok?
    ensures |DecodeField(s).value.0| < Pow256(LengthWidth)
    ensures s == EncodeField(DecodeField(s).value.0) + DecodeField(s).value.1
  {
    var n := DecodeUint(s[..LengthWidth]);
    UintCanonical(s[..LengthWidth]);
    assert s == s[..LengthWidth] + s[LengthWidth..LengthWidth + n] + s[LengthWidth + n..];
  }

  lemma NonceCanonical(s: Bytes)
    requires DecodeNonce(s).Ok?
    ensures s == EncodeNonce(DecodeNonce(s).value.0) + DecodeNonce(s).value.1
  {
    UintCanonical(s[..NonceWidth]);
    assert s == s[..NonceWidth] + s[NonceWidth..];
  }

  /** The decoder accepts only what the encoder writes: when it returns a
      block, the input starts with that block's encoding. */
  lemma DecodeCanonical(s: Bytes)
    requires Decode(s).Ok?
    ensures Encode(Decode(s).value).Ok?
    ensures Encode(Decode(s).value).value <= s
  {
    var f1 := DecodeField(s).value;
    var f2 := DecodeField(f1.1).value;
    var f3 := DecodeField(f2.1).value;
    var f4 := DecodeNonce(f3.1).value;
    FieldCanonical(s);
    FieldCanonical(f1.1);
    FieldCanonical(f2.1);
    NonceCanonical(f3.1);
    var b := BlockRecord(f1.0, f2.0, f3.0, f4.0);
    assert Decode(s) == Ok(b);
    var e1, e2, e3, e4 := EncodeField(f1.0), EncodeField(f2.0), EncodeField(f3.0), EncodeNonce(f4.0);
    assert s == e1 + (e2 + (e3 + (e4 + f4.1)));
    Regroup(e1, e2, e3, e4, f4.1);
    assert Encode(b).value == e1 + e2 + e3 + e4;
  }

  lemma Regroup(a: Bytes, b: Bytes, c: Bytes, d: Bytes, t: Bytes)
    ensures a + (b + (c + (d + t))) == (a + b + c + d) + t
    ensures a + b + c + d <= a + (b + (c + (d + t)))
  {
  }
}
