/** The primitives the ledger calls but does not define: SHA-256, RIPEMD-160, Base58, the gob
    encodings and ECDSA over P-256. They are values of function type, so every property proved
    here holds for every choice of them; what a property needs of them is stated as a predicate. */
module Crypto {
  import opened ByteStrings
  import opened Outcomes
  import opened Types

  datatype Primitives = Primitives(
    sha256: Bytes -> Digest,
    ripemd160: Bytes -> Hash160,
    base58Encode: Bytes -> Bytes,
    base58Decode: Bytes -> Option<Bytes>,          // None: the text is not Base58
    encodeTx: Transaction -> Bytes,                // gob encoding of a transaction
    encodeBlock: Block -> Bytes,                   // Block.Serialize
    decodeBlock: Bytes -> Option<Block>,           // Deserialize; None: gob failed
    encodeOutputs: seq<TxOutput> -> Bytes,         // TxOutputs.SerializeOutputs
    decodeOutputs: Bytes -> Option<seq<TxOutput>>, // DeserializeOutputs; None: gob failed
    ecdsaSign: (PrivateKey, Bytes) -> (nat, nat),  // (r, s) of ecdsa.Sign
    ecdsaVerify: (nat, nat, Bytes, nat, nat) -> bool) // ecdsa.Verify(key (x, y), hash, r, s)

  /** Base58 decoding inverts encoding. */
  ghost predicate Base58RoundTrip(p: Primitives) {
    forall b :: p.base58Decode(p.base58Encode(b)) == Some(b)
  }

  /** The stored encodings of blocks and of output lists decode to what was encoded. */
  ghost predicate CodecRoundTrip(p: Primitives) {
    && (forall b :: p.decodeBlock(p.encodeBlock(b)) == Some(b))
    && (forall o :: p.decodeOutputs(p.encodeOutputs(o)) == Some(o))
  }

  /** The size in bytes of a P-256 field element: coordinates and the r and s of a signature
      are below 256^32. */
  const FieldBytes: nat := 32

  /** ECDSA over P-256 does for key what the ledger relies on: the coordinates of its public
      point, and the r and s of every signature it makes, fit in 32 bytes, and every signature
      it makes over a message verifies under that point. */
  ghost predicate SignsWith(p: Primitives, key: PrivateKey) {
    && key.x < Pow256(FieldBytes) && key.y < Pow256(FieldBytes)
    && forall msg ::
         && p.ecdsaSign(key, msg).0 < Pow256(FieldBytes) && p.ecdsaSign(key, msg).1 < Pow256(FieldBytes)
         && p.ecdsaVerify(key.x, key.y, msg, p.ecdsaSign(key, msg).0, p.ecdsaSign(key, msg).1)
  }

  /** How two numbers are laid out side by side in one byte string: as the source does it, the
      minimal big-endian bytes of each (big.Int.Bytes) one after the other, or with each padded
      to 32 bytes. */
  datatype PairLayout = Minimal | Fixed32

  /** How a layout is read back: the string is cut at half its length and each half is read
      big-endian (big.Int.SetBytes). */
  function Split(s: Bytes): (nat, nat) {
    (BigEndian(s[..|s| / 2]), BigEndian(s[|s| / 2..]))
  }

  /** The minimal layout of a and b reads back when a's bytes are exactly the first half: b's
      bytes are as many as a's or one more. */
  predicate ReadsBack(a: nat, b: nat) {
    |MinBytes(a)| == |MinBytes(b)| || |MinBytes(a)| + 1 == |MinBytes(b)|
  }

  /** Lay out a and b. The padded layout keeps the low 32 bytes of each; every coordinate and
      every r and s of P-256 fits. */
  function Join(layout: PairLayout, a: nat, b: nat): (r: Bytes)
    ensures layout == Fixed32 ==> |r| == 2 * FieldBytes
    ensures layout == Fixed32 && a < Pow256(FieldBytes) && b < Pow256(FieldBytes) ==> Split(r) == (a, b)
    ensures layout == Minimal ==> (Split(r) == (a, b) <==> ReadsBack(a, b))
  {
    match layout
    case Minimal =>
      MinimalSplit(a, b);
      MinBytes(a) + MinBytes(b)
    case Fixed32 =>
      var u, w := BigEndianFixed(a % Pow256(FieldBytes), FieldBytes), BigEndianFixed(b % Pow256(FieldBytes), FieldBytes);
      SplitAtJoin(u, w);
      if a < Pow256(FieldBytes) && b < Pow256(FieldBytes) then
        ModBelow(a, Pow256(FieldBytes));
        ModBelow(b, Pow256(FieldBytes));
        u + w
      else u + w
  }

  /** Cut exactly at the join, the split reads each part. */
  lemma SplitAtJoin(u: Bytes, w: Bytes)
    requires |u| == (|u| + |w|) / 2
    ensures Split(u + w) == (BigEndian(u), BigEndian(w))
  {
    assert (u + w)[..|u|] == u;
    assert (u + w)[|u|..] == w;
  }

  lemma Pow256AtLeast(n: nat)
    requires n >= 1
    ensures Pow256(n) >= 256
  {
  }

  lemma AtLeastShifted(v: nat, q: nat)
    requires v >= 1 && q >= 256
    ensures v * q > v
  {
  }

  lemma MulAtLeast(h: nat, q: nat)
    requires h >= 1
    ensures h * q >= q
  {
  }

  lemma ModBelow(a: nat, m: nat)
    requires a < m
    ensures a % m == a
  {
  }

  /** The minimal layout is read back exactly when a's bytes are the first half. */
  lemma MinimalSplit(a: nat, b: nat)
    ensures Split(MinBytes(a) + MinBytes(b)) == (a, b) <==> ReadsBack(a, b)
  {
    var u, w := MinBytes(a), MinBytes(b);
    var s, k := u + w, (|u| + |w|) / 2;
    assert |s| / 2 == k;
    if |u| == k {
      SplitAtJoin(u, w);
    } else if |u| > k {
      // the first half stops inside a's bytes, so it reads less than a
      var high, low := u[..k], u[k..];
      assert s[..k] == high;
      assert u == high + low;
      BigEndianConcat(high, low);
      var q := Pow256(|low|);
      assert a == BigEndian(high) * q + BigEndian(low);
      if k == 0 {
        assert BigEndian(high) == 0 != a;
      } else {
        LeadingByteBound(high);
        Pow256AtLeast(|low|);
        AtLeastShifted(BigEndian(high), q);
      }
      assert Split(s).0 != a;
    } else {
      // the second half starts inside b's bytes, so it reads less than b
      var j := k - |u|;
      var high, low := w[..j], w[j..];
      assert s[k..] == low;
      assert w == high + low;
      BigEndianConcat(high, low);
      var q := Pow256(|low|);
      assert b == BigEndian(high) * q + BigEndian(low);
      LeadingByteBound(high);
      MulAtLeast(BigEndian(high), q);
      assert b >= q > BigEndian(low);
      assert Split(s).1 != b;
    }
  }

  /** The discrepancy of the minimal layout: r = 256 and s = 1 are laid out as [1, 0, 1], and the
      split reads that back as r = 1, s = 1. */
  lemma MinimalLayoutMisreads()
    ensures Join(Minimal, 256, 1) == [1, 0, 1]
    ensures Split(Join(Minimal, 256, 1)) == (1, 1)
    ensures !ReadsBack(256, 1)
  {
    assert MinBytes(1) == [1] by {
      assert MinBytes(0) == [];
    }
    assert MinBytes(256) == [1, 0] by {
      assert MinBytes(256) == MinBytes(1) + [0];
    }
    var s := Join(Minimal, 256, 1);
    assert s[..1] == [1] && s[1..] == [0, 1];
    assert BigEndian([0, 1]) == 1 by {
      assert [0, 1][..1] == [0];
      assert [0][..0] == [];
    }
    assert BigEndian([1]) == 1 by {
      assert [1][..0] == [];
    }
  }
}
