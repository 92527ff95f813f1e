/** Go's []byte as a Dafny sequence, with the big-endian readings and writings the ledger uses
    (big.Int.SetBytes, binary.Write with binary.BigEndian). */
module ByteStrings {

  type byte = b: int | 0 <= b < 256

  type Bytes = seq<byte>

  /** The 32-byte output of SHA-256. */
  type Digest = s: Bytes | |s| == 32 witness seq(32, _ => 0)

  /** The 20-byte output of RIPEMD-160. */
  type Hash160 = s: Bytes | |s| == 20 witness seq(20, _ => 0)

  /** Go's int64 (and int, which is 64 bits wide on the platforms the ledger targets). */
  type int64 = x: int | -0x8000_0000_0000_0000 <= x < 0x8000_0000_0000_0000

  /** The bytes of a Go string literal made of ASCII characters. */
  function Ascii(s: string): (r: Bytes)
    requires forall i :: 0 <= i < |s| ==> s[i] as int < 128
    ensures |r| == |s|
    ensures forall i :: 0 <= i < |s| ==> r[i] == s[i] as int
  {
    seq(|s|, i requires 0 <= i < |s| => s[i] as int)
  }

  function Pow2(n: nat): (r: nat)
    ensures r > 0
  {
    if n == 0 then 1 else 2 * Pow2(n - 1)
  }

  function Pow256(n: nat): (r: nat)
    ensures r > 0
  {
    if n == 0 then 1 else 256 * Pow256(n - 1)
  }

  /** The unsigned integer whose big-endian encoding is s (what big.Int.SetBytes computes). */
  function BigEndian(s: Bytes): (v: nat)
    ensures v < Pow256(|s|)
  {
    if s == [] then 0
    else
      var high := BigEndian(s[..|s| - 1]);
      assert high <= Pow256(|s| - 1) - 1;
      assert high * 256 <= Pow256(|s|) - 256;
      high * 256 + s[|s| - 1]
  }

  /** The n-byte big-endian encoding of v, for a v that fits in n bytes. */
  function BigEndianFixed(v: nat, n: nat): (r: Bytes)
    requires v < Pow256(n)
    ensures |r| == n
    ensures BigEndian(r) == v
  {
    if n == 0 then []
    else
      var r := BigEndianFixed(v / 256, n - 1) + [v % 256];
      assert r[..n - 1] == BigEndianFixed(v / 256, n - 1);
      r
  }

  /** The minimal big-endian encoding of v: no leading zero byte, and empty for zero (what
      big.Int.Bytes returns). */
  function MinBytes(v: nat): (r: Bytes)
    ensures BigEndian(r) == v
    ensures r == [] <==> v == 0
    ensures r == [] || r[0] != 0
    decreases v
  {
    if v == 0 then []
    else
      var r := MinBytes(v / 256) + [v % 256];
      assert r[..|r| - 1] == MinBytes(v / 256);
      r
  }

  /** Reading a concatenation big-endian: the high part is shifted past the low part. */
  lemma {:induction false} BigEndianConcat(u: Bytes, w: Bytes)
    ensures BigEndian(u + w) == BigEndian(u) * Pow256(|w|) + BigEndian(w)
    decreases |w|
  {
    if w == [] {
      assert u + w == u;
    } else {
      var n := |w| - 1;
      assert (u + w)[..|u + w| - 1] == u + w[..n];
      BigEndianConcat(u, w[..n]);
      var a, b, c, q := BigEndian(u), BigEndian(w[..n]), w[n], Pow256(n);
      assert BigEndian(u + w) == BigEndian(u + w[..n]) * 256 + c;
      assert BigEndian(w) == b * 256 + c;
      assert Pow256(|w|) == 256 * q;
      ShiftByte(a, q, b);
    }
  }

  lemma ShiftByte(a: int, q: int, b: int)
    ensures (a * q + b) * 256 == a * (256 * q) + b * 256
  {
  }

  /** A non-empty encoding without a leading zero byte is at least 256^(length - 1). */
  lemma LeadingByteBound(s: Bytes)
    requires s != [] && s[0] != 0
    ensures BigEndian(s) >= Pow256(|s| - 1)
  {
    assert s == [s[0]] + s[1..];
    BigEndianConcat([s[0]], s[1..]);
    assert [s[0]][..0] == [];
  }
}
