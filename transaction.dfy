/** Transactions (Blockchain/transaction.go): identifiers, coinbase transactions, the trimmed
    copy that is signed, per-input signing and verification. Transactions are values; a method
    that updates a *Transaction in the source returns the updated value. */
module Transactions {
  import opened ByteStrings
  import opened Outcomes
  import opened Types
  import opened Crypto
  import Tx

  /** The amount a coinbase transaction mints. */
  const Subsidy: int := 100

  predicate IsCoinbase(tx: Transaction) {
    |tx.inputs| == 1 && |tx.inputs[0].id| == 0 && tx.inputs[0].outputIdx == -1
  }

  /** SHA-256 of the encoding of a copy whose ID is emptied. */
  function HashTransaction(p: Primitives, tx: Transaction): Digest {
    p.sha256(p.encodeTx(tx.(id := [])))
  }

  /** The hash does not depend on the ID field. */
  lemma HashIgnoresId(p: Primitives, tx: Transaction, id: Bytes)
    ensures HashTransaction(p, tx.(id := id)) == HashTransaction(p, tx)
  {
  }

  /** SetID hashes the transaction as it stands, ID included. */
  function SetID(p: Primitives, tx: Transaction): (r: Transaction)
    ensures r.inputs == tx.inputs && r.outputs == tx.outputs
    ensures tx.id == [] ==> r.id == HashTransaction(p, r)
  {
    tx.(id := p.sha256(p.encodeTx(tx)))
  }

  /** The memo a coinbase input carries when none is given: "Coins to <address>". */
  function DefaultMemo(to: Bytes): (r: Bytes)
    ensures |r| == 9 + |to|
    ensures r[..9] == Ascii("Coins to ") && r[9..] == to
  {
    Ascii("Coins to ") + to
  }

  /** A coinbase transaction: one input referencing nothing (empty ID, index -1) whose public
      key field carries the memo, and one output of Subsidy locked to the recipient. */
  function CoinbaseTx(p: Primitives, to: Bytes, data: Bytes): (r: Result<Transaction>)
    ensures r.Err? <==> Tx.NewTxOutput(p, Subsidy, to).Err?
    ensures r.Ok? ==>
      && IsCoinbase(r.value)
      && r.value.inputs[0].signature == []
      && r.value.inputs[0].pubKey == (if data == [] then DefaultMemo(to) else data)
      && r.value.outputs == [Tx.NewTxOutput(p, Subsidy, to).value]
      && r.value.outputs[0].value == Subsidy
      && r.value.id == HashTransaction(p, r.value)
  {
    var memo := if data == [] then DefaultMemo(to) else data;
    var txin := TxInput([], -1, [], memo);
    var txout :- Tx.NewTxOutput(p, Subsidy, to);
    Ok(SetID(p, Transaction([], [txin], [txout])))
  }

  /** The inputs with their signatures and public keys cleared. */
  function TrimInputs(inputs: seq<TxInput>): (r: seq<TxInput>)
    ensures |r| == |inputs|
    ensures forall i :: 0 <= i < |inputs| ==>
      r[i].id == inputs[i].id && r[i].outputIdx == inputs[i].outputIdx
      && r[i].signature == [] && r[i].pubKey == []
  {
    if inputs == [] then []
    else [TxInput(inputs[0].id, inputs[0].outputIdx, [], [])] + TrimInputs(inputs[1..])
  }

  /** The copy that gets signed: same ID and outputs, inputs without signatures or keys. */
  function TrimmedCopy(tx: Transaction): Transaction {
    Transaction(tx.id, TrimInputs(tx.inputs), tx.outputs)
  }

  /** tx1 and tx2 differ at most in their inputs' signatures and public keys. */
  predicate SameSpends(tx1: Transaction, tx2: Transaction) {
    && tx1.id == tx2.id && tx1.outputs == tx2.outputs && |tx1.inputs| == |tx2.inputs|
    && forall i :: 0 <= i < |tx1.inputs| ==>
         tx1.inputs[i].id == tx2.inputs[i].id && tx1.inputs[i].outputIdx == tx2.inputs[i].outputIdx
  }

  /** The trimmed copy depends on nothing that signing changes. */
  lemma TrimmedCopyIgnoresUnlocking(tx1: Transaction, tx2: Transaction)
    requires SameSpends(tx1, tx2)
    ensures TrimmedCopy(tx1) == TrimmedCopy(tx2)
  {
    var a, b := TrimInputs(tx1.inputs), TrimInputs(tx2.inputs);
    assert forall i :: 0 <= i < |a| ==> a[i] == b[i];
  }

  /** Trimming a trimmed copy changes nothing. */
  lemma TrimmedCopyIdempotent(tx: Transaction)
    ensures TrimmedCopy(TrimmedCopy(tx)) == TrimmedCopy(tx)
  {
    var a := TrimInputs(tx.inputs);
    assert forall i :: 0 <= i < |a| ==> TrimInputs(a)[i] == a[i];
  }

  /** The previous transaction an input names was supplied. The source looks it up by the hex
      of the input's ID and treats a result with a nil ID as absent. */
  predicate PrevTxPresent(prevTxs: map<Bytes, Transaction>, input: TxInput) {
    input.id in prevTxs && prevTxs[input.id].id != []
  }

  /** The previous transaction is present and has the output the input spends. */
  predicate Resolvable(prevTxs: map<Bytes, Transaction>, input: TxInput) {
    PrevTxPresent(prevTxs, input) && 0 <= input.outputIdx < |prevTxs[input.id].outputs|
  }

  /** The public-key hash of the output that an input spends. */
  function SpentPubKeyHash(prevTxs: map<Bytes, Transaction>, input: TxInput): Bytes
    requires Resolvable(prevTxs, input)
  {
    prevTxs[input.id].outputs[input.outputIdx].pubKeyHash
  }

  /** The message input i is signed over: the hash of the trimmed copy in which only input i
      carries, as its public key, the public-key hash of the output it spends. */
  function SigningMessage(p: Primitives, tx: Transaction, prevTxs: map<Bytes, Transaction>, i: nat): Digest
    requires i < |tx.inputs| && Resolvable(prevTxs, tx.inputs[i])
  {
    var trimmed := TrimmedCopy(tx);
    var pkh := SpentPubKeyHash(prevTxs, tx.inputs[i]);
    HashTransaction(p, trimmed.(inputs := trimmed.inputs[i := trimmed.inputs[i].(pubKey := pkh)]))
  }

  /** Signing messages depend on nothing that signing changes. */
  lemma SigningMessageIgnoresUnlocking(p: Primitives, tx1: Transaction, tx2: Transaction,
                                       prevTxs: map<Bytes, Transaction>, i: nat)
    requires SameSpends(tx1, tx2)
    requires i < |tx1.inputs| && Resolvable(prevTxs, tx1.inputs[i])
    ensures Resolvable(prevTxs, tx2.inputs[i])
    ensures SigningMessage(p, tx1, prevTxs, i) == SigningMessage(p, tx2, prevTxs, i)
  {
    TrimmedCopyIgnoresUnlocking(tx1, tx2);
  }

  predicate AllPresent(tx: Transaction, prevTxs: map<Bytes, Transaction>) {
    forall i :: 0 <= i < |tx.inputs| ==> PrevTxPresent(prevTxs, tx.inputs[i])
  }

  predicate AllResolvable(tx: Transaction, prevTxs: map<Bytes, Transaction>) {
    forall i :: 0 <= i < |tx.inputs| ==> Resolvable(prevTxs, tx.inputs[i])
  }

  /** The signature Sign stores for a message: the r and s of ecdsa.Sign over it, laid out side
      by side. */
  function Signature(p: Primitives, layout: PairLayout, key: PrivateKey, msg: Bytes): Bytes {
    Join(layout, p.ecdsaSign(key, msg).0, p.ecdsaSign(key, msg).1)
  }

  /** What Sign produces: nothing for a coinbase; a failure when a previous transaction is
      missing or lacks the spent output; otherwise the transaction with the signature of every
      input i set to the ECDSA signature of SigningMessage(i) in the given layout, and nothing
      else changed. */
  function Signed(p: Primitives, layout: PairLayout, tx: Transaction, key: PrivateKey, prevTxs: map<Bytes, Transaction>): (r: Result<Transaction>)
    ensures IsCoinbase(tx) ==> r == Ok(tx)
    ensures !IsCoinbase(tx) && !AllPresent(tx, prevTxs) ==> r == Err(MissingPriorTransaction)
    ensures !IsCoinbase(tx) && AllPresent(tx, prevTxs) && !AllResolvable(tx, prevTxs) ==> r == Err(IndexOutOfRange)
    ensures r.Ok? ==> SameSpends(tx, r.value)
    ensures r.Ok? && !IsCoinbase(tx) ==>
      AllResolvable(tx, prevTxs) &&
      forall i :: 0 <= i < |tx.inputs| ==>
        r.value.inputs[i] == tx.inputs[i].(signature := Signature(p, layout, key, SigningMessage(p, tx, prevTxs, i)))
  {
    if IsCoinbase(tx) then Ok(tx)
    else if !AllPresent(tx, prevTxs) then Err(MissingPriorTransaction)
    else if !AllResolvable(tx, prevTxs) then Err(IndexOutOfRange)
    else
      Ok(tx.(inputs := seq(|tx.inputs|, i requires 0 <= i < |tx.inputs| =>
        tx.inputs[i].(signature := Signature(p, layout, key, SigningMessage(p, tx, prevTxs, i))))))
  }

  /** Sign: checks that every referenced transaction is present, then walks the trimmed copy,
      setting and clearing one input's public key at a time to form its message. */
  method Sign(p: Primitives, layout: PairLayout, tx: Transaction, key: PrivateKey, prevTxs: map<Bytes, Transaction>)
    returns (r: Result<Transaction>)
    ensures r == Signed(p, layout, tx, key, prevTxs)
  {
    if IsCoinbase(tx) {
      return Ok(tx);
    }
    var present := CheckPresent(tx, prevTxs);
    if !present {
      return Err(MissingPriorTransaction);
    }
    r := SignInputs(p, layout, tx, key, prevTxs);
  }

  /** The loop of Sign and Verify that looks up the previous transaction of every input; the
      source fails on the first that is missing. */
  method CheckPresent(tx: Transaction, prevTxs: map<Bytes, Transaction>) returns (present: bool)
    ensures present <==> AllPresent(tx, prevTxs)
  {
    for i := 0 to |tx.inputs|
      invariant forall j :: 0 <= j < i ==> PrevTxPresent(prevTxs, tx.inputs[j])
    {
      if !PrevTxPresent(prevTxs, tx.inputs[i]) {
        return false;
      }
    }
    return true;
  }

  /** The signing part of Sign, once every previous transaction is known to be present. */
  method SignInputs(p: Primitives, layout: PairLayout, tx: Transaction, key: PrivateKey, prevTxs: map<Bytes, Transaction>)
    returns (r: Result<Transaction>)
    requires !IsCoinbase(tx) && AllPresent(tx, prevTxs)
    ensures r == Signed(p, layout, tx, key, prevTxs)
  {
    var resolved, inputs := SignLoop(p, tx, prevTxs, msg => Signature(p, layout, key, msg));
    if !resolved {
      return Err(IndexOutOfRange);
    }
    SignedIs(p, layout, tx, key, prevTxs, inputs);
    return Ok(tx.(inputs := inputs));
  }

  /** The signing loop: it walks the trimmed copy, signs one input's message at a time with sign,
      and stops at the first input whose spent output does not exist. */
  method SignLoop(p: Primitives, tx: Transaction, prevTxs: map<Bytes, Transaction>, sign: Bytes -> Bytes)
    returns (resolved: bool, inputs: seq<TxInput>)
    requires AllPresent(tx, prevTxs)
    ensures resolved <==> AllResolvable(tx, prevTxs)
    ensures resolved ==> |inputs| == |tx.inputs|
    ensures resolved ==> forall j :: 0 <= j < |tx.inputs| ==>
      inputs[j] == tx.inputs[j].(signature := sign(SigningMessage(p, tx, prevTxs, j)))
  {
    var trimmed := TrimmedCopy(tx);
    var txCopy := trimmed;
    inputs := tx.inputs;
    for inID := 0 to |txCopy.inputs|
      invariant txCopy.inputs == trimmed.inputs && txCopy.outputs == trimmed.outputs
      invariant SignedPrefix(p, tx, prevTxs, sign, inputs, inID)
    {
      var ok;
      ok, txCopy, inputs := SignStep(p, tx, prevTxs, sign, trimmed, txCopy, inputs, inID);
      if !ok {
        return false, inputs;
      }
    }
    return true, inputs;
  }

  /** The state of the signing loop after n passes: the first n inputs spend existing outputs
      and carry the signatures of their messages; the others are as in tx. */
  predicate SignedPrefix(p: Primitives, tx: Transaction, prevTxs: map<Bytes, Transaction>, sign: Bytes -> Bytes,
                         inputs: seq<TxInput>, n: nat) {
    && n <= |tx.inputs| == |inputs|
    && (forall j :: 0 <= j < n ==> Resolvable(prevTxs, tx.inputs[j]))
    && (forall j :: 0 <= j < n ==>
          inputs[j] == tx.inputs[j].(signature := sign(SigningMessage(p, tx, prevTxs, j))))
    && (forall j :: n <= j < |tx.inputs| ==> inputs[j] == tx.inputs[j])
  }

  /** One pass of the signing loop: look up the output input inID spends, failing when it does
      not exist; form the input's message in the copy, sign it, and store the signature in the
      transaction's own input. */
  method SignStep(p: Primitives, tx: Transaction, prevTxs: map<Bytes, Transaction>, sign: Bytes -> Bytes,
                  trimmed: Transaction, txCopy: Transaction, inputs: seq<TxInput>, inID: nat)
    returns (ok: bool, nextCopy: Transaction, nextInputs: seq<TxInput>)
    requires trimmed == TrimmedCopy(tx)
    requires txCopy.inputs == trimmed.inputs && txCopy.outputs == trimmed.outputs
    requires inID < |tx.inputs| && PrevTxPresent(prevTxs, tx.inputs[inID])
    requires SignedPrefix(p, tx, prevTxs, sign, inputs, inID)
    ensures ok <==> Resolvable(prevTxs, tx.inputs[inID])
    ensures nextCopy.inputs == trimmed.inputs && nextCopy.outputs == trimmed.outputs
    ensures ok ==> nextInputs == inputs[inID := tx.inputs[inID].(signature := sign(SigningMessage(p, tx, prevTxs, inID)))]
    ensures ok ==> SignedPrefix(p, tx, prevTxs, sign, nextInputs, inID + 1)
  {
    var input := txCopy.inputs[inID];
    assert input.id == tx.inputs[inID].id && input.outputIdx == tx.inputs[inID].outputIdx;
    var prevTx := prevTxs[input.id];
    if !(0 <= input.outputIdx < |prevTx.outputs|) {
      return false, txCopy, inputs;
    }
    nextCopy := PrepareMessage(p, tx, trimmed, txCopy, prevTxs, inID);
    var signature := sign(nextCopy.id);
    nextInputs := inputs[inID := inputs[inID].(signature := signature)];
    ok := true;
  }

  /** Input i with its signature set to the ECDSA signature of its signing message. */
  function SignedInput(p: Primitives, layout: PairLayout, tx: Transaction, key: PrivateKey, prevTxs: map<Bytes, Transaction>,
                       i: nat): TxInput
    requires i < |tx.inputs| && Resolvable(prevTxs, tx.inputs[i])
  {
    tx.inputs[i].(signature := Signature(p, layout, key, SigningMessage(p, tx, prevTxs, i)))
  }

  lemma SignedIs(p: Primitives, layout: PairLayout, tx: Transaction, key: PrivateKey, prevTxs: map<Bytes, Transaction>,
                 inputs: seq<TxInput>)
    requires !IsCoinbase(tx) && AllPresent(tx, prevTxs) && AllResolvable(tx, prevTxs)
    requires |inputs| == |tx.inputs|
    requires forall j :: 0 <= j < |tx.inputs| ==> inputs[j] == SignedInput(p, layout, tx, key, prevTxs, j)
    ensures Signed(p, layout, tx, key, prevTxs) == Ok(tx.(inputs := inputs))
  {
    assert inputs == Signed(p, layout, tx, key, prevTxs).value.inputs;
  }

  /** One step of the Sign and Verify loops: set input inID's public key in the copy to the
      spent output's public-key hash, rehash the copy into its ID, and clear the key again.
      The ID the copy then carries is that input's signing message. */
  method PrepareMessage(p: Primitives, tx: Transaction, trimmed: Transaction, txCopy: Transaction,
                        prevTxs: map<Bytes, Transaction>, inID: nat)
    returns (next: Transaction)
    requires trimmed == TrimmedCopy(tx)
    requires txCopy.inputs == trimmed.inputs && txCopy.outputs == trimmed.outputs
    requires inID < |tx.inputs| && Resolvable(prevTxs, tx.inputs[inID])
    ensures next.inputs == trimmed.inputs && next.outputs == trimmed.outputs
    ensures next.id == SigningMessage(p, tx, prevTxs, inID)
  {
    var input := txCopy.inputs[inID];
    var prevTx := prevTxs[input.id];
    next := txCopy.(inputs := txCopy.inputs[inID := txCopy.inputs[inID].(signature := [])]);
    next := next.(inputs := next.inputs[inID := next.inputs[inID].(pubKey := prevTx.outputs[input.outputIdx].pubKeyHash)]);
    assert next.(id := trimmed.id) == trimmed.(inputs := trimmed.inputs[inID :=
      trimmed.inputs[inID].(pubKey := SpentPubKeyHash(prevTxs, tx.inputs[inID]))]);
    HashIgnoresId(p, next, trimmed.id);
    next := next.(id := HashTransaction(p, next));
    next := next.(inputs := next.inputs[inID := next.inputs[inID].(pubKey := [])]);
  }

  /** The ECDSA check of a signature over a message: the signature is split in half into r and
      s, the public key in half into the point's x and y, each half read big-endian. */
  function CheckSignature(p: Primitives, msg: Bytes, signature: Bytes, pubKey: Bytes): bool {
    p.ecdsaVerify(Split(pubKey).0, Split(pubKey).1, msg, Split(signature).0, Split(signature).1)
  }

  /** Verify as the source writes it: it ranges over the trimmed copy, so the signature and key it
      checks are the trimmed first input's, both empty, and it returns after that one input. */
  function VerifyAsWritten(p: Primitives, tx: Transaction, prevTxs: map<Bytes, Transaction>): (r: Result<bool>)
    ensures IsCoinbase(tx) ==> r == Ok(true)
    ensures !IsCoinbase(tx) && !AllPresent(tx, prevTxs) ==> r == Err(MissingPriorTransaction)
    ensures !IsCoinbase(tx) && AllPresent(tx, prevTxs) && tx.inputs == [] ==> r == Ok(false)
    ensures !IsCoinbase(tx) && AllPresent(tx, prevTxs) && tx.inputs != [] ==>
      if Resolvable(prevTxs, tx.inputs[0])
      then r == Ok(CheckSignature(p, SigningMessage(p, tx, prevTxs, 0), [], []))
      else r == Err(IndexOutOfRange)
  {
    if IsCoinbase(tx) then Ok(true)
    else if !AllPresent(tx, prevTxs) then Err(MissingPriorTransaction)
    else if tx.inputs == [] then Ok(false)
    else
      var input := TrimmedCopy(tx).inputs[0];
      if !Resolvable(prevTxs, input) then Err(IndexOutOfRange)
      else Ok(CheckSignature(p, SigningMessage(p, tx, prevTxs, 0), input.signature, input.pubKey))
  }

  /** Verify, the source's loop: its body returns, so only the first input is examined. */
  method Verify(p: Primitives, tx: Transaction, prevTxs: map<Bytes, Transaction>) returns (r: Result<bool>)
    ensures r == VerifyAsWritten(p, tx, prevTxs)
  {
    if IsCoinbase(tx) {
      return Ok(true);
    }
    var present := CheckPresent(tx, prevTxs);
    if !present {
      return Err(MissingPriorTransaction);
    }
    var trimmed := TrimmedCopy(tx);
    var txCopy := trimmed;
    for inID := 0 to |txCopy.inputs|
      invariant inID == 0
    {
      var input := txCopy.inputs[inID];
      if !(0 <= input.outputIdx < |prevTxs[input.id].outputs|) {
        return Err(IndexOutOfRange);
      }
      txCopy := PrepareMessage(p, tx, trimmed, txCopy, prevTxs, inID);
      var (r, s) := Split(input.signature);
      var (x, y) := Split(input.pubKey);
      return Ok(p.ecdsaVerify(x, y, txCopy.id, r, s));
    }
    return Ok(false);
  }

  /** Input i carries a signature over its signing message that checks under its own key. */
  predicate InputVerifies(p: Primitives, tx: Transaction, prevTxs: map<Bytes, Transaction>, i: nat)
    requires i < |tx.inputs| && Resolvable(prevTxs, tx.inputs[i])
  {
    CheckSignature(p, SigningMessage(p, tx, prevTxs, i), tx.inputs[i].signature, tx.inputs[i].pubKey)
  }

  /** Verification as evidently intended: every input's own signature and public key are
      checked against that input's signing message. */
  function VerifyCorrected(p: Primitives, tx: Transaction, prevTxs: map<Bytes, Transaction>): (r: Result<bool>)
    ensures IsCoinbase(tx) ==> r == Ok(true)
    ensures !IsCoinbase(tx) && !AllPresent(tx, prevTxs) ==> r == Err(MissingPriorTransaction)
    ensures !IsCoinbase(tx) && AllPresent(tx, prevTxs) && !AllResolvable(tx, prevTxs) ==> r == Err(IndexOutOfRange)
    ensures !IsCoinbase(tx) && AllResolvable(tx, prevTxs) ==>
      r.Ok? && (r.value <==> tx.inputs != [] && forall i :: 0 <= i < |tx.inputs| ==>
        InputVerifies(p, tx, prevTxs, i))
  {
    if IsCoinbase(tx) then Ok(true)
    else if !AllPresent(tx, prevTxs) then Err(MissingPriorTransaction)
    else if !AllResolvable(tx, prevTxs) then Err(IndexOutOfRange)
    else Ok(tx.inputs != [] && forall i :: 0 <= i < |tx.inputs| ==>
      InputVerifies(p, tx, prevTxs, i))
  }

  /** The corrected loop: it reads each input of the transaction itself, not of the trimmed copy,
      and returns false at the first signature that does not check. */
  method VerifyAllInputs(p: Primitives, tx: Transaction, prevTxs: map<Bytes, Transaction>) returns (r: Result<bool>)
    ensures r == VerifyCorrected(p, tx, prevTxs)
  {
    if IsCoinbase(tx) {
      return Ok(true);
    }
    var present := CheckPresent(tx, prevTxs);
    if !present {
      return Err(MissingPriorTransaction);
    }
    for i := 0 to |tx.inputs|
      invariant forall j :: 0 <= j < i ==> Resolvable(prevTxs, tx.inputs[j])
    {
      if !(0 <= tx.inputs[i].outputIdx < |prevTxs[tx.inputs[i].id].outputs|) {
        return Err(IndexOutOfRange);
      }
    }
    if tx.inputs == [] {
      return Ok(false);
    }
    var ok := CheckEveryInput(p, tx, prevTxs);
    return Ok(ok);
  }

  /** The loop of VerifyAllInputs over resolvable inputs. */
  method CheckEveryInput(p: Primitives, tx: Transaction, prevTxs: map<Bytes, Transaction>) returns (ok: bool)
    requires AllResolvable(tx, prevTxs)
    ensures ok <==> forall i :: 0 <= i < |tx.inputs| ==>
      InputVerifies(p, tx, prevTxs, i)
  {
    var trimmed := TrimmedCopy(tx);
    var txCopy := trimmed;
    for inID := 0 to |tx.inputs|
      invariant txCopy.inputs == trimmed.inputs && txCopy.outputs == trimmed.outputs
      invariant forall j :: 0 <= j < inID ==>
        InputVerifies(p, tx, prevTxs, j)
    {
      var input := tx.inputs[inID];
      txCopy := PrepareMessage(p, tx, trimmed, txCopy, prevTxs, inID);
      var (r, s) := Split(input.signature);
      var (x, y) := Split(input.pubKey);
      if !p.ecdsaVerify(x, y, txCopy.id, r, s) {
        assert !InputVerifies(p, tx, prevTxs, inID);
        return false;
      }
    }
    return true;
  }

  /** ECDSA rejects a signature whose r or s is zero (section 6.4.2 of FIPS 186-4 requires both
      in [1, n-1]). */
  ghost predicate RejectsZeroSignature(p: Primitives) {
    forall x, y, msg :: !p.ecdsaVerify(x, y, msg, 0, 0)
  }

  /** Verify as written does not read any signature or public key of the transaction. */
  lemma VerifyAsWrittenIgnoresSignatures(p: Primitives, tx1: Transaction, tx2: Transaction,
                                         prevTxs: map<Bytes, Transaction>)
    requires SameSpends(tx1, tx2)
    ensures VerifyAsWritten(p, tx1, prevTxs) == VerifyAsWritten(p, tx2, prevTxs)
  {
    TrimmedCopyIgnoresUnlocking(tx1, tx2);
    assert AllPresent(tx1, prevTxs) <==> AllPresent(tx2, prevTxs);
    if tx1.inputs != [] && Resolvable(prevTxs, tx1.inputs[0]) {
      SigningMessageIgnoresUnlocking(p, tx1, tx2, prevTxs, 0);
    }
  }

  /** The discrepancy: a transaction that Sign has just signed, in either layout, fails Verify as
      written. */
  lemma SignedTransactionFailsVerify(p: Primitives, layout: PairLayout, tx: Transaction, key: PrivateKey,
                                     prevTxs: map<Bytes, Transaction>)
    requires RejectsZeroSignature(p)
    requires !IsCoinbase(tx) && tx.inputs != []
    requires Signed(p, layout, tx, key, prevTxs).Ok?
    ensures VerifyAsWritten(p, Signed(p, layout, tx, key, prevTxs).value, prevTxs) == Ok(false)
  {
    var signed := Signed(p, layout, tx, key, prevTxs).value;
    assert !IsCoinbase(signed);
    assert AllPresent(signed, prevTxs);
    SigningMessageIgnoresUnlocking(p, tx, signed, prevTxs, 0);
    assert BigEndian([]) == 0;
  }

  /** Sign then verify: with the corrected verification, a transaction whose inputs all carry the
      signing key's public point, laid out as the signatures are, verifies once signed. With the
      padded layout nothing more is needed; with the source's minimal layout, the point and each
      input's (r, s) must read back (Crypto.Join states that the condition is also necessary). */
  lemma SignThenVerify(p: Primitives, layout: PairLayout, tx: Transaction, key: PrivateKey,
                       prevTxs: map<Bytes, Transaction>)
    requires SignsWith(p, key)
    requires !IsCoinbase(tx) && tx.inputs != []
    requires forall i :: 0 <= i < |tx.inputs| ==> tx.inputs[i].pubKey == Join(layout, key.x, key.y)
    requires layout == Minimal ==> ReadsBack(key.x, key.y)
    requires layout == Minimal ==> forall i :: 0 <= i < |tx.inputs| && Resolvable(prevTxs, tx.inputs[i]) ==>
      ReadsBack(p.ecdsaSign(key, SigningMessage(p, tx, prevTxs, i)).0, p.ecdsaSign(key, SigningMessage(p, tx, prevTxs, i)).1)
    requires Signed(p, layout, tx, key, prevTxs).Ok?
    ensures VerifyCorrected(p, Signed(p, layout, tx, key, prevTxs).value, prevTxs) == Ok(true)
  {
    var signed := Signed(p, layout, tx, key, prevTxs).value;
    assert !IsCoinbase(signed);
    forall i | 0 <= i < |signed.inputs|
      ensures Resolvable(prevTxs, signed.inputs[i])
      ensures InputVerifies(p, signed, prevTxs, i)
    {
      SigningMessageIgnoresUnlocking(p, tx, signed, prevTxs, i);
      var msg := SigningMessage(p, tx, prevTxs, i);
      assert Split(signed.inputs[i].signature) == p.ecdsaSign(key, msg);
      assert Split(signed.inputs[i].pubKey) == (key.x, key.y);
    }
  }
}
