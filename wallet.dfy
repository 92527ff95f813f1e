/** Address checksums (Wallet/wallet.go): an address is Base58(version ++ pubKeyHash ++ checksum),
    where pubKeyHash = RIPEMD-160(SHA-256(publicKey)) and the checksum is the first four bytes
    of the double SHA-256 of version ++ pubKeyHash. Key generation is not part of this model. */
module Wallet {
  import opened ByteStrings
  import opened Outcomes
  import opened Types
  import opened Crypto

  const Version: byte := 0
  const ChecksumLength: nat := 4

  datatype Wallet = Wallet(privateKey: PrivateKey, publicKey: Bytes)

  /** The first ChecksumLength bytes of SHA-256(SHA-256(payload)). */
  function Checksum(p: Primitives, payload: Bytes): (r: Bytes)
    ensures |r| == ChecksumLength
  {
    p.sha256(p.sha256(payload))[..ChecksumLength]
  }

  function CreatePubKeyHash(p: Primitives, pubKey: Bytes): (r: Hash160)
  {
    p.ripemd160(p.sha256(pubKey))
  }

  /** The address of a wallet; once decoded it is the version byte, the public-key hash and the
      checksum of those two. */
  function CreateAddress(p: Primitives, w: Wallet): (address: Bytes)
    ensures Base58RoundTrip(p) ==>
      var versioned := [Version] + CreatePubKeyHash(p, w.publicKey);
      p.base58Decode(address) == Some(versioned + Checksum(p, versioned))
  {
    var pubHash := CreatePubKeyHash(p, w.publicKey);
    var versionHash := [Version] + pubHash;
    p.base58Encode(versionHash + Checksum(p, versionHash))
  }

  /** An address is valid when its last four decoded bytes are the checksum of the bytes before
      them. Text that is not Base58 or decodes to fewer than five bytes makes the source panic. */
  function ValidateAddress(p: Primitives, address: Bytes): (r: Result<bool>)
    ensures p.base58Decode(address).None? ==> r == Err(InvalidAddress)
    ensures p.base58Decode(address).Some? ==>
      var decoded := p.base58Decode(address).value;
      && (|decoded| < 1 + ChecksumLength ==> r == Err(IndexOutOfRange))
      && (|decoded| >= 1 + ChecksumLength ==>
            r == Ok(decoded[|decoded| - ChecksumLength..]
                    == Checksum(p, decoded[..|decoded| - ChecksumLength])))
  {
    match p.base58Decode(address)
    case None => Err(InvalidAddress)
    case Some(decoded) =>
      if |decoded| < 1 + ChecksumLength then Err(IndexOutOfRange)
      else
        var n := |decoded|;
        var actualChecksum := decoded[n - ChecksumLength..];
        var version := decoded[0];
        var pubKeyHash := decoded[1..n - ChecksumLength];
        assert [version] + pubKeyHash == decoded[..n - ChecksumLength];
        Ok(actualChecksum == Checksum(p, [version] + pubKeyHash))
  }

  /** Every address a wallet creates validates, when Base58 decoding inverts encoding. */
  lemma CreatedAddressValidates(p: Primitives, w: Wallet)
    requires Base58RoundTrip(p)
    ensures ValidateAddress(p, CreateAddress(p, w)) == Ok(true)
  {
    var versioned := [Version] + CreatePubKeyHash(p, w.publicKey);
    var decoded := versioned + Checksum(p, versioned);
    assert decoded[..|decoded| - ChecksumLength] == versioned;
    assert decoded[|decoded| - ChecksumLength..] == Checksum(p, versioned);
  }
}
