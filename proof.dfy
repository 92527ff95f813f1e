/** Proof of work (Blockchain/proof.go): a nonce is acceptable when the SHA-256 of the block's
    transaction hash, previous hash, nonce and difficulty, read as a big-endian number, is below
    2^(256 - Difficulty). */
module Proof {
  import opened ByteStrings
  import opened Types
  import opened Crypto

  const Difficulty: int64 := 18
  const MaxNonce: int64 := 0x7FFF_FFFF_FFFF_FFFF  // math.MaxInt64

  /** The transaction IDs of a block, joined in order. */
  function JoinIds(txs: seq<Transaction>): (r: Bytes)
  {
    if txs == [] then [] else JoinIds(txs[..|txs| - 1]) + txs[|txs| - 1].id
  }

  /** HashTransactions of Blockchain/block.go: one SHA-256 over the joined IDs (not a Merkle
      root). */
  function HashTransactions(p: Primitives, b: Block): Digest {
    p.sha256(JoinIds(b.transactions))
  }

  predicate SameIds(txs1: seq<Transaction>, txs2: seq<Transaction>) {
    |txs1| == |txs2| && forall i :: 0 <= i < |txs1| ==> txs1[i].id == txs2[i].id
  }

  /** The transaction hash depends on the transactions' IDs alone. */
  lemma {:induction false} JoinIdsDependsOnIdsOnly(txs1: seq<Transaction>, txs2: seq<Transaction>)
    requires SameIds(txs1, txs2)
    ensures JoinIds(txs1) == JoinIds(txs2)
    decreases |txs1|
  {
    if txs1 != [] {
      JoinIdsDependsOnIdsOnly(txs1[..|txs1| - 1], txs2[..|txs2| - 1]);
    }
  }

  lemma HashTransactionsDependsOnIdsOnly(p: Primitives, b1: Block, b2: Block)
    requires SameIds(b1.transactions, b2.transactions)
    ensures HashTransactions(p, b1) == HashTransactions(p, b2)
  {
    JoinIdsDependsOnIdsOnly(b1.transactions, b2.transactions);
  }

  datatype ProofOfWork = ProofOfWork(block: Block, target: nat)

  /** The proof for a block, with target 1 shifted left by 256 - Difficulty. */
  function NewProof(b: Block): (pow: ProofOfWork)
    ensures pow.block == b && pow.target == Pow2(238)
  {
    ProofOfWork(b, Pow2(256 - Difficulty as nat))
  }

  /** binary.Write of an int64 in big-endian order: the eight bytes of its two's complement,
      most significant first. */
  function ToHex(n: int64): (r: Bytes)
    ensures |r| == 8
    ensures BigEndian(r) == if n >= 0 then n else n + 0x1_0000_0000_0000_0000
  {
    assert Pow256(8) == 0x1_0000_0000_0000_0000;
    BigEndianFixed(if n >= 0 then n else n + 0x1_0000_0000_0000_0000, 8)
  }

  /** Reading eight big-endian bytes back as a two's complement int64. */
  function FromHex(b: Bytes): int
    requires |b| == 8
  {
    var u := BigEndian(b);
    if u < 0x8000_0000_0000_0000 then u else u - 0x1_0000_0000_0000_0000
  }

  lemma ToHexRoundTrip(n: int64)
    ensures FromHex(ToHex(n)) == n
  {
  }

  lemma ToHexInjective(n: int64, m: int64)
    requires ToHex(n) == ToHex(m)
    ensures n == m
  {
    ToHexRoundTrip(n);
    ToHexRoundTrip(m);
  }

  /** The bytes hashed for a nonce: transaction hash, previous hash, nonce, difficulty. */
  function InitData(p: Primitives, pow: ProofOfWork, nonce: int64): Bytes {
    HashTransactions(p, pow.block) + pow.block.prevHash + ToHex(nonce) + ToHex(Difficulty)
  }

  /** The hashed bytes can be taken apart again: every field sits at a fixed place and the nonce
      and difficulty read back. */
  lemma InitDataLayout(p: Primitives, pow: ProofOfWork, nonce: int64)
    ensures var r := InitData(p, pow, nonce);
      && |r| == 32 + |pow.block.prevHash| + 16
      && r[..32] == HashTransactions(p, pow.block)
      && r[32..32 + |pow.block.prevHash|] == pow.block.prevHash
      && FromHex(r[|r| - 16..|r| - 8]) == nonce
      && FromHex(r[|r| - 8..]) == Difficulty
  {
    var r := InitData(p, pow, nonce);
    assert r[|r| - 16..|r| - 8] == ToHex(nonce);
    assert r[|r| - 8..] == ToHex(Difficulty);
    ToHexRoundTrip(nonce);
    ToHexRoundTrip(Difficulty);
  }

  /** Different nonces give different data to hash. */
  lemma InitDataInjective(p: Primitives, pow: ProofOfWork, n: int64, m: int64)
    requires InitData(p, pow, n) == InitData(p, pow, m)
    ensures n == m
  {
    InitDataLayout(p, pow, n);
    InitDataLayout(p, pow, m);
  }

  /** The digest tried for a nonce. */
  function Attempt(p: Primitives, pow: ProofOfWork, nonce: int64): Digest {
    p.sha256(InitData(p, pow, nonce))
  }

  /** The digest of nonce, read as a number, is below the target. */
  predicate Meets(p: Primitives, pow: ProofOfWork, nonce: int64) {
    BigEndian(Attempt(p, pow, nonce)) < pow.target
  }

  /** The all-zero digest Run starts from. */
  const ZeroDigest: Digest := seq(32, _ => 0)

  /** No nonce from 0 up to k (exclusive) meets the target. */
  predicate NoneMeetBelow(p: Primitives, pow: ProofOfWork, k: int) {
    forall n: int64 :: 0 <= n < k ==> !Meets(p, pow, n)
  }

  lemma NoneMeetBelowStep(p: Primitives, pow: ProofOfWork, k: int64)
    requires NoneMeetBelow(p, pow, k) && !Meets(p, pow, k)
    ensures NoneMeetBelow(p, pow, k + 1)
  {
  }

  /** Run: try nonces 0, 1, ... and stop at the first that meets the target. If none below
      MaxNonce does, it returns MaxNonce with the hash of the last nonce tried. */
  method Run(p: Primitives, pow: ProofOfWork) returns (nonce: int64, hash: Digest)
    ensures 0 <= nonce <= MaxNonce
    ensures forall n: int64 :: 0 <= n < nonce ==> !Meets(p, pow, n)
    ensures nonce < MaxNonce ==> Meets(p, pow, nonce) && hash == Attempt(p, pow, nonce)
    ensures nonce == MaxNonce ==> hash == Attempt(p, pow, MaxNonce - 1)
  {
    nonce := 0;
    hash := ZeroDigest;
    ghost var tried: int64 := 0;
    while nonce < MaxNonce
      invariant 0 <= nonce <= MaxNonce
      invariant NoneMeetBelow(p, pow, nonce)
      invariant nonce > 0 ==> tried == nonce - 1 && hash == Attempt(p, pow, tried)
      decreases MaxNonce - nonce
    {
      var found;
      hash, found := TryNonce(p, pow, nonce);
      if found {
        break;
      }
      NoneMeetBelowStep(p, pow, nonce);
      tried := nonce;
      nonce := nonce + 1;
    }
  }

  /** One attempt of Run: hash the data for nonce and compare the digest with the target. */
  method TryNonce(p: Primitives, pow: ProofOfWork, nonce: int64) returns (hash: Digest, found: bool)
    ensures hash == Attempt(p, pow, nonce)
    ensures found <==> Meets(p, pow, nonce)
  {
    var data := InitData(p, pow, nonce);
    hash := p.sha256(data);
    var intHash := BigEndian(hash);
    found := intHash < pow.target;
  }

  /** Validate: the stored nonce meets the target. The block's stored hash is not read. */
  function Validate(p: Primitives, pow: ProofOfWork): (ok: bool)
    ensures ok <==> BigEndian(p.sha256(InitData(p, pow, pow.block.nonce))) < pow.target
    ensures ok <==> Meets(p, ProofOfWork(pow.block.(hash := []), pow.target), pow.block.nonce)
  {
    var hash := p.sha256(InitData(p, pow, pow.block.nonce));
    BigEndian(hash) < pow.target
  }
}
