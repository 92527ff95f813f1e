/** The UTXO index (Blockchain/utxo.go): a view of the chain's store under the prefix "utxo-".
    Each db.Update is atomic: a failure inside it commits nothing. */
module Utxo {
  import opened ByteStrings
  import opened Outcomes
  import opened Types
  import opened Crypto
  import opened Store
  import opened Transactions
  import opened ChainSpec
  import opened Chain
  import opened UtxoSpec
  import opened Tx
  import W = Wallet

  /** The number of keys DeleteByPrefix deletes in one store transaction. */
  const CollectSize: nat := 1000

  /** The keys of a list of batches, batch by batch. */
  function Flatten(batches: seq<seq<Bytes>>): (r: seq<Bytes>)
    decreases |batches|
  {
    if batches == [] then [] else Flatten(batches[..|batches| - 1]) + batches[|batches| - 1]
  }

  function Members(keys: seq<Bytes>): (s: set<Bytes>)
    ensures forall k :: k in s <==> k in keys
  {
    set k | k in keys
  }

  lemma FlattenAppend(batches: seq<seq<Bytes>>, b: seq<Bytes>)
    ensures Flatten(batches + [b]) == Flatten(batches) + b
  {
    assert (batches + [b])[..|batches|] == batches;
  }

  /** Deleting one batch after the earlier ones deletes them all. */
  lemma DeleteStep(before: map<Bytes, Bytes>, now: map<Bytes, Bytes>, done: seq<Bytes>, batch: seq<Bytes>)
    requires now == before - Members(done)
    ensures now - Members(batch) == before - Members(done + batch)
  {
    assert Members(done + batch) == Members(done) + Members(batch);
  }

  /** Every batch holds between one and CollectSize keys. */
  predicate Batched(batches: seq<seq<Bytes>>) {
    forall j :: 0 <= j < |batches| ==> 0 < |batches[j]| <= CollectSize
  }

  /** The deleteKeys closure: one store transaction deleting every key of keys. */
  method DeleteKeys(db: Db, keys: seq<Bytes>)
    modifies db
    ensures db.data == old(db.data) - Members(keys)
    ensures db.present == old(db.present)
  {
    for i := 0 to |keys|
      invariant db.data == old(db.data) - Members(keys[..i])
      invariant db.present == old(db.present)
    {
      assert Members(keys[..i + 1]) == Members(keys[..i]) + {keys[i]} by {
        assert keys[..i + 1] == keys[..i] + [keys[i]];
      }
      db.Delete(keys[i]);
    }
    assert keys[..|keys|] == keys;
  }

  /** The loop of DeleteByPrefix over the collected keys. */
  method DeleteInBatches(db: Db, keys: seq<Bytes>) returns (ghost batches: seq<seq<Bytes>>)
    modifies db
    ensures db.data == old(db.data) - Members(keys)
    ensures db.present == old(db.present)
    ensures Flatten(batches) == keys
    ensures Batched(batches)
  {
    var keysForDeletion: seq<Bytes> := [];
    var keysCollected := 0;
    batches := [];
    ghost var deleted: seq<Bytes> := [];
    for i := 0 to |keys|
      invariant keysCollected == |keysForDeletion| < CollectSize
      invariant deleted + keysForDeletion == keys[..i]
      invariant Flatten(batches) == deleted && Batched(batches)
      invariant db.data == old(db.data) - Members(deleted)
      invariant db.present == old(db.present)
    {
      assert keys[..i + 1] == keys[..i] + [keys[i]];
      keysForDeletion := keysForDeletion + [keys[i]];
      keysCollected := keysCollected + 1;
      if keysCollected == CollectSize {
        DeleteStep(old(db.data), db.data, deleted, keysForDeletion);
        batches := Flush(db, batches, keysForDeletion);
        deleted := deleted + keysForDeletion;
        keysForDeletion := [];
        keysCollected := 0;
      }
    }
    if keysCollected > 0 {
      DeleteStep(old(db.data), db.data, deleted, keysForDeletion);
      batches := Flush(db, batches, keysForDeletion);
      deleted := deleted + keysForDeletion;
    }
    assert keys[..|keys|] == keys;
  }

  /** One call of deleteKeys on a full or final batch. */
  method Flush(db: Db, ghost batches: seq<seq<Bytes>>, batch: seq<Bytes>) returns (ghost batches': seq<seq<Bytes>>)
    requires Batched(batches) && 0 < |batch| <= CollectSize
    modifies db
    ensures db.data == old(db.data) - Members(batch) && db.present == old(db.present)
    ensures Flatten(batches') == Flatten(batches) + batch && Batched(batches')
  {
    DeleteKeys(db, batch);
    FlattenAppend(batches, batch);
    batches' := batches + [batch];
  }


  class UTXOSet {
    const chain: Blockchain

    constructor (chain: Blockchain)
      ensures this.chain == chain
    {
      this.chain := chain;
    }

    /** DeleteByPrefix: collect the keys with the prefix in key order and delete them in batches
        of CollectSize, the last batch holding the rest. The scan reads the store as it was
        before the first batch. */
    method DeleteByPrefix(prefix: Bytes) returns (ghost batches: seq<seq<Bytes>>)
      modifies chain.database
      ensures chain.database.data == old(chain.database.data) - old(chain.database.KeysWithPrefix(prefix))
      ensures chain.database.present == old(chain.database.present)
      ensures Flatten(batches) == old(SortedKeys(chain.database.KeysWithPrefix(prefix)))
      ensures Batched(batches)
    {
      var db := chain.database;
      var keys := db.Scan(prefix);
      batches := DeleteInBatches(db, keys);
    }

    /** Reindex: empty the index, then write one entry per transaction of what FindUTXO returns
        over the store without it, in whatever order the map yields them. A failing walk, one
        that reads a deleted key included, leaves the index empty (the source panics after the
        deletion was committed). */
    method Reindex(p: Primitives, ghost fuel: nat) returns (r: Result<()>)
      requires Terminates(p, chain.database.data, chain.lastHash, fuel)
      modifies chain.database
      ensures var found := ScanWithout(p, old(chain.database.data), old(chain.database.KeysWithPrefix(UtxoPrefix)),
                                       chain.lastHash, fuel);
              && (found.Err? ==> r == Err(found.error)
                                 && chain.database.data == old(chain.database.data) - old(chain.database.KeysWithPrefix(UtxoPrefix)))
              && (found.Ok? ==> r.Ok? && Reindexed(p, old(chain.database.data), chain.database.data, found.value))
      ensures chain.database.present == old(chain.database.present)
    {
      var db := chain.database;
      ghost var before := db.data;
      ghost var indexKeys := db.KeysWithPrefix(UtxoPrefix);
      ghost var batches := DeleteByPrefix(UtxoPrefix);
      TerminatesWithout(p, before, chain.lastHash, fuel, indexKeys);
      var found := chain.FindUTXO(p, fuel);
      if found.Err? {
        return Err(found.error);
      }
      WriteEntries(p, db, found.value);
      r := Ok(());
    }

    /** Update: apply a block's transactions to the index in one store transaction; a missing
        or undecodable entry fails the whole update. */
    method Update(p: Primitives, block: Block) returns (r: Result<()>)
      modifies chain.database
      ensures var applied := ApplyBlock(p, old(chain.database.data), block.transactions);
              && (applied.Ok? ==> r.Ok? && chain.database.data == applied.value)
              && (applied.Err? ==> r == Err(applied.error) && chain.database.data == old(chain.database.data))
      ensures chain.database.present == old(chain.database.present)
    {
      var db := chain.database;
      var view := db.data;
      var txs := block.transactions;
      for k := 0 to |txs|
        invariant db.data == old(db.data) && db.present == old(db.present)
        invariant ApplyBlock(p, db.data, txs[..k]) == Ok(view)
      {
        assert txs[..k + 1][..k] == txs[..k];
        var next := ApplyTransaction(p, view, txs[k]);
        if next.Err? {
          ApplyBlockStopsAtFailure(p, db.data, txs, k + 1);
          return Err(next.error);
        }
        view := next.value;
      }
      assert txs[..|txs|] == txs;
      db.Commit(view);
      r := Ok(());
    }

    /** CountTransactions: the number of index keys. */
    method CountTransactions() returns (count: nat)
      ensures count == |chain.database.KeysWithPrefix(UtxoPrefix)|
    {
      var keys := chain.database.Scan(UtxoPrefix);
      count := 0;
      for i := 0 to |keys|
        invariant count == i
      {
        count := count + 1;
      }
    }

    /** FindUnspentTransactions: the outputs locked with pubKeyHash, entry by entry in key
        order. */
    method FindUnspentTransactions(p: Primitives, pubKeyHash: Bytes) returns (r: Result<seq<TxOutput>>)
      ensures IndexKeys(chain.database.data, SortedKeys(chain.database.KeysWithPrefix(UtxoPrefix)))
      ensures r == UnspentOf(p, chain.database.data, SortedKeys(chain.database.KeysWithPrefix(UtxoPrefix)), pubKeyHash)
    {
      var keys := chain.database.Scan(UtxoPrefix);
      r := UnspentIn(p, chain.database.data, keys, pubKeyHash);
    }

    /** FindSpendableOutputs: walk the index in key order and take outputs locked with
        pubKeyHash while the total is below amount, recording for each transaction ID the
        positions taken in its stored list. */
    method FindSpendableOutputs(p: Primitives, pubKeyHash: Bytes, amount: int)
      returns (r: Result<(int, map<Bytes, seq<int>>)>)
      ensures IndexKeys(chain.database.data, SortedKeys(chain.database.KeysWithPrefix(UtxoPrefix)))
      ensures var sel := SelectAll(p, chain.database.data, SortedKeys(chain.database.KeysWithPrefix(UtxoPrefix)),
                                   pubKeyHash, amount);
              && (sel.Err? ==> r == Err(sel.error))
              && (sel.Ok? ==> r == Ok((sel.value.acc, sel.value.chosen)))
    {
      var keys := chain.database.Scan(UtxoPrefix);
      r := SpendableIn(p, chain.database.data, keys, pubKeyHash, amount);
    }

    /** NewTransaction: pay amount from the wallet w (the wallet stored for the address from) to
        the address to. It fails when the spendable outputs fall short; otherwise it spends
        every chosen position, pays amount to the receiver and any rest back to from, sets the
        ID to the hash of the transaction and signs it against the chain. The chosen entries
        are visited in whatever order the map yields them (order). */
    method NewTransaction(p: Primitives, w: W.Wallet, from: Bytes, to: Bytes, amount: int, ghost fuel: nat)
      returns (r: Result<Transaction>, ghost order: seq<Bytes>)
      requires Terminates(p, chain.database.data, chain.lastHash, fuel)
      ensures IndexKeys(chain.database.data, SortedKeys(chain.database.KeysWithPrefix(UtxoPrefix)))
      ensures var sel := SelectAll(p, chain.database.data, SortedKeys(chain.database.KeysWithPrefix(UtxoPrefix)),
                                   W.CreatePubKeyHash(p, w.publicKey), amount);
              && (sel.Err? ==> r == Err(sel.error))
              && (sel.Ok? && sel.value.acc < amount ==> r == Err(InsufficientFunds))
              && (sel.Ok? && sel.value.acc >= amount ==>
                    && Enumerates(order, sel.value.chosen.Keys)
                    && r == NewTransactionSpec(p, chain.database.data, chain.lastHash, fuel, w, from, to, amount,
                                               sel.value.acc, InputsFor(sel.value.chosen, order, w.publicKey)))
      ensures r.Ok? ==>
                var sel := SelectAll(p, chain.database.data, SortedKeys(chain.database.KeysWithPrefix(UtxoPrefix)),
                                     W.CreatePubKeyHash(p, w.publicKey), amount);
                && sel.Ok? && SpendsExactly(r.value, sel.value.chosen)
                && Total(r.value.outputs) == sel.value.acc >= amount
                && |r.value.outputs| > 0 && r.value.outputs[0].value == amount
    {
      var pubKeyHash := W.CreatePubKeyHash(p, w.publicKey);
      var found := FindSpendableOutputs(p, pubKeyHash, amount);
      order := [];
      if found.Err? {
        return Err(found.error), order;
      }
      var (acc, validOutputs) := found.value;
      if acc < amount {
        return Err(InsufficientFunds), order;  // "Error: not enough funds"
      }
      var inputs;
      inputs, order := BuildInputs(validOutputs, w.publicKey);
      var outputs :- BuildOutputs(p, from, to, amount, acc);
      var tx := Transaction([], inputs, outputs);
      tx := tx.(id := HashTransaction(p, tx));
      r := chain.SignTransaction(p, tx, w.privateKey, fuel);
      if r.Ok? {
        NewTransactionSpendsChosen(p, chain.database.data, chain.lastHash, fuel, w, from, to, amount, acc,
                                   validOutputs, order);
      }
    }
  }

  /** One input of Update on the transaction's view: read the entry, drop the spent position,
      and delete the entry or write back what is left. */
  method SpendIn(p: Primitives, view: map<Bytes, Bytes>, input: TxInput) returns (r: Result<map<Bytes, Bytes>>)
    ensures r == SpendInput(p, view, input)
  {
    var inID := UtxoKey(input.id);
    if inID !in view {
      return Err(NotFound);
    }
    var value := view[inID];
    var outputs := p.decodeOutputs(value);
    if outputs.None? {
      return Err(SerializationError);
    }
    var updatedOutputs := Without(outputs.value, input.outputIdx);
    if |updatedOutputs| == 0 {
      r := Ok(view - {inID});
    } else {
      r := Ok(view[inID := p.encodeOutputs(updatedOutputs)]);
    }
  }

  /** The outputs whose position is not idx, in order. */
  method Without(outputs: seq<TxOutput>, idx: int) returns (updated: seq<TxOutput>)
    ensures updated == RemoveAt(outputs, idx)
  {
    updated := [];
    for outIdx := 0 to |outputs|
      invariant updated == RemoveAt(outputs[..outIdx], idx)
    {
      assert outputs[..outIdx + 1][..outIdx] == outputs[..outIdx];
      if outIdx != idx {
        updated := updated + [outputs[outIdx]];
      }
    }
    assert outputs[..|outputs|] == outputs;
  }

  /** One transaction of Update: its inputs unless it is a coinbase, then its own entry. */
  method ApplyTransaction(p: Primitives, view: map<Bytes, Bytes>, tx: Transaction) returns (r: Result<map<Bytes, Bytes>>)
    ensures r == ApplyTx(p, view, tx)
  {
    var v := view;
    if !IsCoinbase(tx) {
      for j := 0 to |tx.inputs|
        invariant SpendInputs(p, view, tx.inputs[..j]) == Ok(v)
      {
        assert tx.inputs[..j + 1][..j] == tx.inputs[..j];
        var next := SpendIn(p, v, tx.inputs[j]);
        if next.Err? {
          SpendStopsAtFailure(p, view, tx.inputs, j + 1);
          return Err(next.error);
        }
        v := next.value;
      }
      assert tx.inputs[..|tx.inputs|] == tx.inputs;
    }
    var newOutputs := tx.outputs;  // the source copies the outputs one by one
    r := Ok(v[UtxoKey(tx.id) := p.encodeOutputs(newOutputs)]);
  }

  /** The loop of FindUnspentTransactions over the index keys. */
  method UnspentIn(p: Primitives, data: map<Bytes, Bytes>, keys: seq<Bytes>, pubKeyHash: Bytes)
    returns (r: Result<seq<TxOutput>>)
    requires IndexKeys(data, keys)
    ensures r == UnspentOf(p, data, keys, pubKeyHash)
  {
    var utxos: seq<TxOutput> := [];
    for i := 0 to |keys|
      invariant UnspentOf(p, data, keys[..i], pubKeyHash) == Ok(utxos)
    {
      assert keys[..i + 1][..i] == keys[..i];
      var outputs := p.decodeOutputs(data[keys[i]]);
      if outputs.None? {
        UnspentStopsAtFailure(p, data, keys, pubKeyHash, i + 1);
        return Err(SerializationError);
      }
      utxos := AppendLocked(utxos, outputs.value, pubKeyHash);
    }
    assert keys[..|keys|] == keys;
    r := Ok(utxos);
  }

  /** The loop of FindSpendableOutputs over the index keys. */
  method SpendableIn(p: Primitives, data: map<Bytes, Bytes>, keys: seq<Bytes>, pubKeyHash: Bytes, amount: int)
    returns (r: Result<(int, map<Bytes, seq<int>>)>)
    requires IndexKeys(data, keys)
    ensures var sel := SelectAll(p, data, keys, pubKeyHash, amount);
            && (sel.Err? ==> r == Err(sel.error))
            && (sel.Ok? ==> r == Ok((sel.value.acc, sel.value.chosen)))
  {
    var accumulated := 0;
    var unspentOutputs: map<Bytes, seq<int>> := map[];
    ghost var picked: seq<TxOutput> := [];
    for i := 0 to |keys|
      invariant SelectAll(p, data, keys[..i], pubKeyHash, amount) == Ok(Selection(accumulated, unspentOutputs, picked))
    {
      assert keys[..i + 1][..i] == keys[..i];
      var txID := keys[i][PrefixLength..];
      var outputs := p.decodeOutputs(data[keys[i]]);
      if outputs.None? {
        SelectStopsAtFailure(p, data, keys, pubKeyHash, amount, i + 1);
        return Err(SerializationError);
      }
      accumulated, unspentOutputs, picked := TakeFrom(accumulated, unspentOutputs, picked, txID, outputs.value, pubKeyHash, amount);
    }
    assert keys[..|keys|] == keys;
    r := Ok((accumulated, unspentOutputs));
  }

  /** The loop of Reindex: one Set per transaction of utxos, in whatever order the map yields
      them, into a store whose index is empty. */
  method WriteEntries(p: Primitives, db: Db, utxos: map<Bytes, seq<TxOutput>>)
    requires forall k :: k in db.data ==> !HasPrefix(k, UtxoPrefix)
    modifies db
    ensures Reindexed(p, old(db.data), db.data, utxos)
    ensures db.present == old(db.present)
  {
    var remaining := utxos.Keys;
    while remaining != {}
      invariant remaining <= utxos.Keys
      invariant forall id :: id in utxos && id !in remaining ==>
                  UtxoKey(id) in db.data && db.data[UtxoKey(id)] == p.encodeOutputs(utxos[id])
      invariant forall k :: k in db.data && HasPrefix(k, UtxoPrefix) ==>
                  k[PrefixLength..] in utxos && k[PrefixLength..] !in remaining
      invariant forall k :: !HasPrefix(k, UtxoPrefix) ==>
                  (k in db.data <==> k in old(db.data)) && (k in db.data ==> db.data[k] == old(db.data)[k])
      invariant db.present == old(db.present)
      decreases |remaining|
    {
      var txID :| txID in remaining;
      var key := UtxoKey(txID);
      forall id | id in utxos && id !in remaining && id != txID
        ensures UtxoKey(id) != key
      {
        if UtxoKey(id) == key {
          UtxoKeyInjective(id, txID);
        }
      }
      db.Set(key, p.encodeOutputs(utxos[txID]));
      remaining := remaining - {txID};
    }
  }

  /** The inner loop of FindUnspentTransactions. */
  method AppendLocked(utxos: seq<TxOutput>, outputs: seq<TxOutput>, pubKeyHash: Bytes) returns (r: seq<TxOutput>)
    ensures r == utxos + LockedWith(outputs, pubKeyHash)
  {
    r := utxos;
    for i := 0 to |outputs|
      invariant r == utxos + LockedWith(outputs[..i], pubKeyHash)
    {
      assert outputs[..i + 1][..i] == outputs[..i];
      if outputs[i].pubKeyHash == pubKeyHash {
        r := r + [outputs[i]];
      }
    }
    assert outputs[..|outputs|] == outputs;
  }

  /** The inner loop of FindSpendableOutputs over one entry's outputs. */
  method TakeFrom(accumulated: int, unspentOutputs: map<Bytes, seq<int>>, ghost picked: seq<TxOutput>,
                  txID: Bytes, outputs: seq<TxOutput>, pubKeyHash: Bytes, amount: int)
    returns (acc': int, unspent': map<Bytes, seq<int>>, ghost picked': seq<TxOutput>)
    ensures var sel := SelectFrom(Selection(accumulated, unspentOutputs, picked), txID, outputs, pubKeyHash, amount);
            acc' == sel.acc && unspent' == sel.chosen
    ensures Selection(acc', unspent', picked')
            == SelectFrom(Selection(accumulated, unspentOutputs, picked), txID, outputs, pubKeyHash, amount)
  {
    acc', unspent', picked' := accumulated, unspentOutputs, picked;
    for outIdx := 0 to |outputs|
      invariant Selection(acc', unspent', picked')
                == SelectFrom(Selection(accumulated, unspentOutputs, picked), txID, outputs[..outIdx], pubKeyHash, amount)
    {
      assert outputs[..outIdx + 1][..outIdx] == outputs[..outIdx];
      var out := outputs[outIdx];
      if out.pubKeyHash == pubKeyHash && acc' < amount {
        acc' := acc' + out.value;
        unspent' := unspent'[txID := Positions(unspent', txID) + [outIdx]];
        picked' := picked' + [out];
      }
    }
    assert outputs[..|outputs|] == outputs;
  }

  /** The loop of NewTransaction over the chosen entries, in whatever order the map yields
      them. */
  method BuildInputs(validOutputs: map<Bytes, seq<int>>, pubKey: Bytes)
    returns (inputs: seq<TxInput>, ghost order: seq<Bytes>)
    ensures forall input :: input in inputs <==>
              && input.id in validOutputs && input.outputIdx in validOutputs[input.id]
              && input.signature == [] && input.pubKey == pubKey
    ensures Enumerates(order, validOutputs.Keys)
    ensures inputs == InputsFor(validOutputs, order, pubKey)
  {
    inputs := [];
    order := [];
    var remaining := validOutputs.Keys;
    while remaining != {}
      invariant remaining <= validOutputs.Keys
      invariant forall id :: id in order <==> id in validOutputs && id !in remaining
      invariant forall i, j :: 0 <= i < j < |order| ==> order[i] != order[j]
      invariant inputs == InputsFor(validOutputs, order, pubKey)
      decreases |remaining|
    {
      var txID :| txID in remaining;
      var outs := validOutputs[txID];
      inputs := AppendInputs(inputs, txID, outs, pubKey);
      ghost var before := order;
      order := order + [txID];
      assert order[..|order| - 1] == before;
      remaining := remaining - {txID};
    }
    InputsSpendChosen(validOutputs, order, pubKey);
  }

  /** The outputs of NewTransaction: amount to the receiver, then any rest back to the sender. */
  method BuildOutputs(p: Primitives, from: Bytes, to: Bytes, amount: int, acc: int) returns (r: Result<seq<TxOutput>>)
    ensures r == PaymentOutputs(p, from, to, amount, acc)
  {
    var receiver :- NewTxOutput(p, amount, to);
    var outputs := [receiver];
    if acc > amount {
      var change :- NewTxOutput(p, acc - amount, from);
      outputs := [receiver, change];
    }
    r := Ok(outputs);
  }

  /** The inner loop of NewTransaction over one chosen entry. */
  method AppendInputs(inputs: seq<TxInput>, txID: Bytes, outs: seq<int>, pubKey: Bytes) returns (r: seq<TxInput>)
    ensures r == inputs + seq(|outs|, i requires 0 <= i < |outs| => TxInput(txID, outs[i], [], pubKey))
  {
    r := inputs;
    for i := 0 to |outs|
      invariant r == inputs + seq(i, j requires 0 <= j < i => TxInput(txID, outs[j], [], pubKey))
    {
      r := r + [TxInput(txID, outs[i], [], pubKey)];
    }
  }
}
