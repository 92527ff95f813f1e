/** What the UTXO index computes (Blockchain/utxo.go): the index lives in the same store as the
    chain, one entry per transaction ID under the key "utxo-" ++ ID, holding the encoded list of
    that transaction's outputs not yet spent. */
module UtxoSpec {
  import opened ByteStrings
  import opened Outcomes
  import opened Types
  import opened Crypto
  import opened Store
  import opened Transactions
  import opened ChainSpec
  import opened Tx
  import W = Wallet

  const UtxoPrefix: Bytes := Ascii("utxo-")
  const PrefixLength: nat := 5

  /** The key of the index entry of transaction id. */
  function UtxoKey(id: Bytes): (k: Bytes)
    ensures HasPrefix(k, UtxoPrefix) && |k| == PrefixLength + |id| && k[PrefixLength..] == id
  {
    UtxoPrefix + id
  }

  lemma UtxoKeyInjective(a: Bytes, b: Bytes)
    requires UtxoKey(a) == UtxoKey(b)
    ensures a == b
  {
    assert a == UtxoKey(a)[PrefixLength..];
  }

  /** The keys of an index entry are exactly UtxoKey of what follows the prefix. */
  lemma PrefixedIsUtxoKey(k: Bytes)
    requires HasPrefix(k, UtxoPrefix)
    ensures UtxoKey(k[PrefixLength..]) == k
  {
    assert k == k[..PrefixLength] + k[PrefixLength..];
  }

  /** The decoded list under an index key; SerializationError when gob fails. */
  function DecodeAt(p: Primitives, data: map<Bytes, Bytes>, k: Bytes): (r: Result<seq<TxOutput>>)
    requires k in data
    ensures r.Ok? <==> p.decodeOutputs(data[k]).Some?
    ensures r.Ok? ==> r.value == p.decodeOutputs(data[k]).value
    ensures r.Err? ==> r.error == SerializationError
  {
    match p.decodeOutputs(data[k])
    case None => Err(SerializationError)
    case Some(outputs) => Ok(outputs)
  }

  // ---- Update ----

  /** The outputs of outs whose position is not idx, in order. An idx that is no position of outs
      removes nothing. */
  function RemoveAt(outs: seq<TxOutput>, idx: int): (r: seq<TxOutput>)
    decreases |outs|
  {
    if outs == [] then []
    else
      var n := |outs| - 1;
      RemoveAt(outs[..n], idx) + if n == idx then [] else [outs[n]]
  }

  /** Removing position idx is cutting it out of the list. */
  lemma {:induction false} RemoveAtIsCut(outs: seq<TxOutput>, idx: int)
    ensures 0 <= idx < |outs| ==> RemoveAt(outs, idx) == outs[..idx] + outs[idx + 1..]
    ensures !(0 <= idx < |outs|) ==> RemoveAt(outs, idx) == outs
    decreases |outs|
  {
    if outs != [] {
      var n := |outs| - 1;
      RemoveAtIsCut(outs[..n], idx);
      if idx == n {
        assert outs[idx + 1..] == [];
        assert outs[..n] == outs[..idx] + outs[idx + 1..];
      } else if 0 <= idx < n {
        assert outs[..n][..idx] == outs[..idx];
        assert outs[..n][idx + 1..] + [outs[n]] == outs[idx + 1..];
      } else {
        assert outs[..n] + [outs[n]] == outs;
      }
    }
  }

  /** One non-coinbase input of Update: the entry of the transaction it spends loses the output at
      position OutputIdx of the stored list; an entry left with no outputs is deleted. */
  function SpendInput(p: Primitives, view: map<Bytes, Bytes>, input: TxInput): (r: Result<map<Bytes, Bytes>>)
    ensures UtxoKey(input.id) !in view ==> r == Err(NotFound)
    ensures r.Ok? ==> r.value.Keys <= view.Keys
    ensures r.Ok? ==> forall k :: k in view && k != UtxoKey(input.id) ==> k in r.value && r.value[k] == view[k]
  {
    var key := UtxoKey(input.id);
    if key !in view then Err(NotFound)
    else
      var outputs :- DecodeAt(p, view, key);
      var updated := RemoveAt(outputs, input.outputIdx);
      if updated == [] then Ok(view - {key})
      else Ok(view[key := p.encodeOutputs(updated)])
  }

  /** What spending an input does to its entry: the stored list without the spent position, kept
      when outputs remain and deleted when none do. */
  lemma SpendInputEntry(p: Primitives, view: map<Bytes, Bytes>, input: TxInput)
    requires CodecRoundTrip(p)
    requires SpendInput(p, view, input).Ok?
    ensures var key := UtxoKey(input.id);
            var before := p.decodeOutputs(view[key]).value;
            var idx := input.outputIdx;
            var after := if 0 <= idx < |before| then before[..idx] + before[idx + 1..] else before;
            && (after == [] ==> key !in SpendInput(p, view, input).value)
            && (after != [] ==> key in SpendInput(p, view, input).value
                                && p.decodeOutputs(SpendInput(p, view, input).value[key]) == Some(after))
  {
    var key := UtxoKey(input.id);
    RemoveAtIsCut(p.decodeOutputs(view[key]).value, input.outputIdx);
  }

  /** The inputs of one transaction, in order. */
  function SpendInputs(p: Primitives, view: map<Bytes, Bytes>, inputs: seq<TxInput>): (r: Result<map<Bytes, Bytes>>)
    ensures r.Ok? ==> r.value.Keys <= view.Keys
    ensures r.Ok? ==> forall k :: k in view && !HasPrefix(k, UtxoPrefix) ==> k in r.value && r.value[k] == view[k]
    decreases |inputs|
  {
    if inputs == [] then Ok(view)
    else
      var n := |inputs| - 1;
      var before :- SpendInputs(p, view, inputs[..n]);
      SpendInput(p, before, inputs[n])
  }

  /** A failing input decides the whole transaction. */
  lemma {:induction false} SpendStopsAtFailure(p: Primitives, view: map<Bytes, Bytes>, inputs: seq<TxInput>, m: nat)
    requires 0 < m <= |inputs|
    requires SpendInputs(p, view, inputs[..m]).Err?
    ensures SpendInputs(p, view, inputs) == SpendInputs(p, view, inputs[..m])
    decreases |inputs|
  {
    if m < |inputs| {
      var n := |inputs| - 1;
      assert inputs[..n][..m] == inputs[..m];
      SpendStopsAtFailure(p, view, inputs[..n], m);
    } else {
      assert inputs[..m] == inputs;
    }
  }

  /** One transaction of Update: unless it is a coinbase its inputs are spent; then its outputs,
      all of them and in order, are written under its own key. */
  function ApplyTx(p: Primitives, view: map<Bytes, Bytes>, tx: Transaction): (r: Result<map<Bytes, Bytes>>)
  {
    var spent :- if IsCoinbase(tx) then Ok(view) else SpendInputs(p, view, tx.inputs);
    Ok(spent[UtxoKey(tx.id) := p.encodeOutputs(tx.outputs)])
  }

  /** Update: the transactions of a block, in order, in one store transaction. */
  function ApplyBlock(p: Primitives, view: map<Bytes, Bytes>, txs: seq<Transaction>): (r: Result<map<Bytes, Bytes>>)
    decreases |txs|
  {
    if txs == [] then Ok(view)
    else
      var n := |txs| - 1;
      var before :- ApplyBlock(p, view, txs[..n]);
      ApplyTx(p, before, txs[n])
  }

  /** A failing transaction decides the whole block. */
  lemma {:induction false} ApplyBlockStopsAtFailure(p: Primitives, view: map<Bytes, Bytes>, txs: seq<Transaction>, m: nat)
    requires 0 < m <= |txs|
    requires ApplyBlock(p, view, txs[..m]).Err?
    ensures ApplyBlock(p, view, txs) == ApplyBlock(p, view, txs[..m])
    decreases |txs|
  {
    if m < |txs| {
      var n := |txs| - 1;
      assert txs[..n][..m] == txs[..m];
      ApplyBlockStopsAtFailure(p, view, txs[..n], m);
    } else {
      assert txs[..m] == txs;
    }
  }

  /** A transaction's entry afterwards holds all of its outputs, in order. */
  lemma ApplyTxWritesOutputs(p: Primitives, view: map<Bytes, Bytes>, tx: Transaction)
    requires CodecRoundTrip(p)
    requires ApplyTx(p, view, tx).Ok?
    ensures UtxoKey(tx.id) in ApplyTx(p, view, tx).value
    ensures p.decodeOutputs(ApplyTx(p, view, tx).value[UtxoKey(tx.id)]) == Some(tx.outputs)
  {
  }

  /** A coinbase never fails and touches no entry but its own: its inputs are not looked up. */
  lemma CoinbaseTouchesOnlyItsEntry(p: Primitives, view: map<Bytes, Bytes>, tx: Transaction)
    requires IsCoinbase(tx)
    ensures ApplyTx(p, view, tx).Ok?
    ensures forall k :: k != UtxoKey(tx.id) ==>
              (k in ApplyTx(p, view, tx).value <==> k in view)
              && (k in view ==> ApplyTx(p, view, tx).value[k] == view[k])
  {
  }

  /** An input whose entry is absent makes Update fail: spending never adds an entry, so the
      entry is still absent when that input's turn comes. */
  lemma {:induction false} MissingEntryFails(p: Primitives, view: map<Bytes, Bytes>, inputs: seq<TxInput>, i: nat)
    requires i < |inputs| && UtxoKey(inputs[i].id) !in view
    ensures SpendInputs(p, view, inputs).Err?
    decreases |inputs|
  {
    var n := |inputs| - 1;
    if i < n {
      MissingEntryFails(p, view, inputs[..n], i);
    } else {
      var before := SpendInputs(p, view, inputs[..n]);
      if before.Ok? {
        assert UtxoKey(inputs[i].id) !in before.value;
      }
    }
  }

  /** Update changes no key outside the index. */
  lemma {:induction false} ApplyBlockKeepsOtherKeys(p: Primitives, view: map<Bytes, Bytes>, txs: seq<Transaction>)
    requires ApplyBlock(p, view, txs).Ok?
    ensures forall k :: !HasPrefix(k, UtxoPrefix) ==>
              (k in ApplyBlock(p, view, txs).value <==> k in view)
              && (k in view ==> ApplyBlock(p, view, txs).value[k] == view[k])
    decreases |txs|
  {
    if txs != [] {
      var n := |txs| - 1;
      ApplyBlockKeepsOtherKeys(p, view, txs[..n]);
    }
  }

  /** Every index entry decodes to a non-empty list of outputs. */
  ghost predicate EntriesNonEmpty(p: Primitives, view: map<Bytes, Bytes>) {
    forall k :: k in view && HasPrefix(k, UtxoPrefix) ==>
      p.decodeOutputs(view[k]).Some? && p.decodeOutputs(view[k]).value != []
  }

  lemma {:induction false} SpendInputsKeepNonEmpty(p: Primitives, view: map<Bytes, Bytes>, inputs: seq<TxInput>)
    requires CodecRoundTrip(p) && EntriesNonEmpty(p, view)
    requires SpendInputs(p, view, inputs).Ok?
    ensures EntriesNonEmpty(p, SpendInputs(p, view, inputs).value)
    decreases |inputs|
  {
    if inputs != [] {
      var n := |inputs| - 1;
      SpendInputsKeepNonEmpty(p, view, inputs[..n]);
      var before := SpendInputs(p, view, inputs[..n]).value;
      var key := UtxoKey(inputs[n].id);
      var updated := RemoveAt(p.decodeOutputs(before[key]).value, inputs[n].outputIdx);
      assert updated != [] ==> p.decodeOutputs(p.encodeOutputs(updated)) == Some(updated);
    }
  }

  /** Update never leaves an empty entry behind, provided every transaction of the block has an
      output: a spent-out entry is deleted rather than stored empty. */
  lemma {:induction false} ApplyBlockKeepsNonEmpty(p: Primitives, view: map<Bytes, Bytes>, txs: seq<Transaction>)
    requires CodecRoundTrip(p) && EntriesNonEmpty(p, view)
    requires forall j :: 0 <= j < |txs| ==> txs[j].outputs != []
    requires ApplyBlock(p, view, txs).Ok?
    ensures EntriesNonEmpty(p, ApplyBlock(p, view, txs).value)
    decreases |txs|
  {
    if txs != [] {
      var n := |txs| - 1;
      ApplyBlockKeepsNonEmpty(p, view, txs[..n]);
      var before := ApplyBlock(p, view, txs[..n]).value;
      if !IsCoinbase(txs[n]) {
        SpendInputsKeepNonEmpty(p, before, txs[n].inputs);
      }
      assert p.decodeOutputs(p.encodeOutputs(txs[n].outputs)) == Some(txs[n].outputs);
    }
  }

  // ---- FindUnspentTransactions ----

  /** The outputs of outs locked with pubKeyHash, in order. */
  function LockedWith(outs: seq<TxOutput>, pubKeyHash: Bytes): (r: seq<TxOutput>)
    ensures |r| <= |outs|
    decreases |outs|
  {
    if outs == [] then []
    else
      var n := |outs| - 1;
      LockedWith(outs[..n], pubKeyHash) + if outs[n].pubKeyHash == pubKeyHash then [outs[n]] else []
  }

  lemma {:induction false} LockedWithMembers(outs: seq<TxOutput>, pubKeyHash: Bytes)
    ensures forall o :: o in LockedWith(outs, pubKeyHash) <==> o in outs && o.pubKeyHash == pubKeyHash
    decreases |outs|
  {
    if outs != [] {
      var n := |outs| - 1;
      LockedWithMembers(outs[..n], pubKeyHash);
      assert outs == outs[..n] + [outs[n]];
    }
  }

  /** Every key of keys is an index key present in data. */
  predicate IndexKeys(data: map<Bytes, Bytes>, keys: seq<Bytes>) {
    forall j :: 0 <= j < |keys| ==> keys[j] in data && HasPrefix(keys[j], UtxoPrefix)
  }

  /** FindUnspentTransactions over the entries keys, in order. */
  function UnspentOf(p: Primitives, data: map<Bytes, Bytes>, keys: seq<Bytes>, pubKeyHash: Bytes)
    : (r: Result<seq<TxOutput>>)
    requires IndexKeys(data, keys)
    decreases |keys|
  {
    if keys == [] then Ok([])
    else
      var n := |keys| - 1;
      var before :- UnspentOf(p, data, keys[..n], pubKeyHash);
      var outputs :- DecodeAt(p, data, keys[n]);
      Ok(before + LockedWith(outputs, pubKeyHash))
  }

  /** A decoding failure at an entry decides the whole scan. */
  lemma {:induction false} UnspentStopsAtFailure(p: Primitives, data: map<Bytes, Bytes>, keys: seq<Bytes>,
                                                 pubKeyHash: Bytes, m: nat)
    requires IndexKeys(data, keys) && 0 < m <= |keys|
    requires UnspentOf(p, data, keys[..m], pubKeyHash).Err?
    ensures UnspentOf(p, data, keys, pubKeyHash) == UnspentOf(p, data, keys[..m], pubKeyHash)
    decreases |keys|
  {
    if m < |keys| {
      var n := |keys| - 1;
      assert keys[..n][..m] == keys[..m];
      UnspentStopsAtFailure(p, data, keys[..n], pubKeyHash, m);
    } else {
      assert keys[..m] == keys;
    }
  }

  /** FindUnspentTransactions returns exactly the outputs locked with the key: each it returns is,
      and each locked output of a scanned entry is returned. */
  lemma {:induction false} UnspentOfExact(p: Primitives, data: map<Bytes, Bytes>, keys: seq<Bytes>, pubKeyHash: Bytes)
    requires IndexKeys(data, keys)
    requires UnspentOf(p, data, keys, pubKeyHash).Ok?
    ensures forall o :: o in UnspentOf(p, data, keys, pubKeyHash).value ==> o.pubKeyHash == pubKeyHash
    ensures forall j, o ::
              (0 <= j < |keys| && p.decodeOutputs(data[keys[j]]).Some?
               && o in p.decodeOutputs(data[keys[j]]).value && o.pubKeyHash == pubKeyHash)
              ==> o in UnspentOf(p, data, keys, pubKeyHash).value
    decreases |keys|
  {
    if keys != [] {
      var n := |keys| - 1;
      UnspentOfExact(p, data, keys[..n], pubKeyHash);
      var outputs := p.decodeOutputs(data[keys[n]]).value;
      LockedWithMembers(outputs, pubKeyHash);
      forall j, o | 0 <= j < |keys| && p.decodeOutputs(data[keys[j]]).Some?
                    && o in p.decodeOutputs(data[keys[j]]).value && o.pubKeyHash == pubKeyHash
        ensures o in UnspentOf(p, data, keys, pubKeyHash).value
      {
        if j < n {
          assert keys[..n][j] == keys[j];
        }
      }
    }
  }

  // ---- FindSpendableOutputs ----

  /** The running state of FindSpendableOutputs: the total so far, the chosen positions per
      transaction ID, and (for the proofs) the chosen outputs in the order they were taken. */
  datatype Selection = Selection(acc: int, chosen: map<Bytes, seq<int>>, picked: seq<TxOutput>)

  function Positions(chosen: map<Bytes, seq<int>>, id: Bytes): seq<int> {
    if id in chosen then chosen[id] else []
  }

  /** Output out at position i of entry id is taken when it is locked with the key and the total
      is still below amount. */
  function Consider(st: Selection, id: Bytes, i: int, out: TxOutput, pubKeyHash: Bytes, amount: int): Selection {
    if out.pubKeyHash == pubKeyHash && st.acc < amount then
      Selection(st.acc + out.value, st.chosen[id := Positions(st.chosen, id) + [i]], st.picked + [out])
    else st
  }

  /** The outputs of one entry, by position in the stored list. */
  function SelectFrom(st: Selection, id: Bytes, outs: seq<TxOutput>, pubKeyHash: Bytes, amount: int): Selection
    decreases |outs|
  {
    if outs == [] then st
    else
      var n := |outs| - 1;
      Consider(SelectFrom(st, id, outs[..n], pubKeyHash, amount), id, n, outs[n], pubKeyHash, amount)
  }

  /** FindSpendableOutputs over the entries keys, in order, from nothing chosen. */
  function SelectAll(p: Primitives, data: map<Bytes, Bytes>, keys: seq<Bytes>, pubKeyHash: Bytes, amount: int)
    : (r: Result<Selection>)
    requires IndexKeys(data, keys)
    decreases |keys|
  {
    if keys == [] then Ok(Selection(0, map[], []))
    else
      var n := |keys| - 1;
      var before :- SelectAll(p, data, keys[..n], pubKeyHash, amount);
      var outputs :- DecodeAt(p, data, keys[n]);
      Ok(SelectFrom(before, keys[n][PrefixLength..], outputs, pubKeyHash, amount))
  }

  /** A decoding failure at an entry decides the whole selection. */
  lemma {:induction false} SelectStopsAtFailure(p: Primitives, data: map<Bytes, Bytes>, keys: seq<Bytes>,
                                                pubKeyHash: Bytes, amount: int, m: nat)
    requires IndexKeys(data, keys) && 0 < m <= |keys|
    requires SelectAll(p, data, keys[..m], pubKeyHash, amount).Err?
    ensures SelectAll(p, data, keys, pubKeyHash, amount) == SelectAll(p, data, keys[..m], pubKeyHash, amount)
    decreases |keys|
  {
    if m < |keys| {
      var n := |keys| - 1;
      assert keys[..n][..m] == keys[..m];
      SelectStopsAtFailure(p, data, keys[..n], pubKeyHash, amount, m);
    } else {
      assert keys[..m] == keys;
    }
  }

  function Total(outs: seq<TxOutput>): int
    decreases |outs|
  {
    if outs == [] then 0 else Total(outs[..|outs| - 1]) + outs[|outs| - 1].value
  }

  /** The greedy selection's bookkeeping: the total is the sum of the chosen outputs, every chosen
      output is locked with the key, and the total was still below amount before the last one
      was taken. */
  predicate Tallied(st: Selection, pubKeyHash: Bytes, amount: int) {
    && st.acc == Total(st.picked)
    && (forall o :: o in st.picked ==> o.pubKeyHash == pubKeyHash)
    && (st.picked != [] ==> Total(st.picked[..|st.picked| - 1]) < amount)
  }

  lemma ConsiderTallied(st: Selection, id: Bytes, i: int, out: TxOutput, pubKeyHash: Bytes, amount: int)
    requires Tallied(st, pubKeyHash, amount)
    ensures Tallied(Consider(st, id, i, out, pubKeyHash, amount), pubKeyHash, amount)
  {
    var next := Consider(st, id, i, out, pubKeyHash, amount);
    if next != st {
      assert next.picked[..|next.picked| - 1] == st.picked;
    }
  }

  lemma {:induction false} SelectFromTallied(st: Selection, id: Bytes, outs: seq<TxOutput>, pubKeyHash: Bytes, amount: int)
    requires Tallied(st, pubKeyHash, amount)
    ensures Tallied(SelectFrom(st, id, outs, pubKeyHash, amount), pubKeyHash, amount)
    decreases |outs|
  {
    if outs != [] {
      var n := |outs| - 1;
      SelectFromTallied(st, id, outs[..n], pubKeyHash, amount);
      ConsiderTallied(SelectFrom(st, id, outs[..n], pubKeyHash, amount), id, n, outs[n], pubKeyHash, amount);
    }
  }

  /** The returned total is the sum of the chosen outputs, all locked with the key, and the
      selection stops as soon as the total reaches amount. */
  lemma {:induction false} SelectAllTallied(p: Primitives, data: map<Bytes, Bytes>, keys: seq<Bytes>,
                                            pubKeyHash: Bytes, amount: int)
    requires IndexKeys(data, keys)
    requires SelectAll(p, data, keys, pubKeyHash, amount).Ok?
    ensures Tallied(SelectAll(p, data, keys, pubKeyHash, amount).value, pubKeyHash, amount)
    decreases |keys|
  {
    if keys != [] {
      var n := |keys| - 1;
      SelectAllTallied(p, data, keys[..n], pubKeyHash, amount);
      var before := SelectAll(p, data, keys[..n], pubKeyHash, amount).value;
      SelectFromTallied(before, keys[n][PrefixLength..], p.decodeOutputs(data[keys[n]]).value, pubKeyHash, amount);
    } else {
      assert Total([]) == 0;
    }
  }

  /** Once the total reaches amount nothing more is taken; so a total that ends below amount
      was below it throughout, and every locked output was taken. */
  lemma {:induction false} SelectFromBelow(st: Selection, id: Bytes, outs: seq<TxOutput>, pubKeyHash: Bytes, amount: int)
    requires SelectFrom(st, id, outs, pubKeyHash, amount).acc < amount
    ensures st.acc < amount
    ensures SelectFrom(st, id, outs, pubKeyHash, amount).picked == st.picked + LockedWith(outs, pubKeyHash)
    decreases |outs|
  {
    if outs != [] {
      var n := |outs| - 1;
      var mid := SelectFrom(st, id, outs[..n], pubKeyHash, amount);
      SelectFromBelow(st, id, outs[..n], pubKeyHash, amount);
      assert (st.picked + LockedWith(outs[..n], pubKeyHash)) + (if outs[n].pubKeyHash == pubKeyHash then [outs[n]] else [])
             == st.picked + LockedWith(outs, pubKeyHash);
    } else {
      assert st.picked + [] == st.picked;
    }
  }

  /** FindSpendableOutputs fails exactly when FindUnspentTransactions does, and when the total it
      returns is below amount it has taken every output FindUnspentTransactions returns. */
  lemma {:induction false} SelectAllBelowTakesAll(p: Primitives, data: map<Bytes, Bytes>, keys: seq<Bytes>,
                                                  pubKeyHash: Bytes, amount: int)
    requires IndexKeys(data, keys)
    ensures SelectAll(p, data, keys, pubKeyHash, amount).Ok? <==> UnspentOf(p, data, keys, pubKeyHash).Ok?
    ensures SelectAll(p, data, keys, pubKeyHash, amount).Ok? && SelectAll(p, data, keys, pubKeyHash, amount).value.acc < amount
            ==> UnspentOf(p, data, keys, pubKeyHash) == Ok(SelectAll(p, data, keys, pubKeyHash, amount).value.picked)
    decreases |keys|
  {
    if keys != [] {
      var n := |keys| - 1;
      SelectAllBelowTakesAll(p, data, keys[..n], pubKeyHash, amount);
      var r := SelectAll(p, data, keys, pubKeyHash, amount);
      if r.Ok? && r.value.acc < amount {
        var before := SelectAll(p, data, keys[..n], pubKeyHash, amount).value;
        SelectFromBelow(before, keys[n][PrefixLength..], p.decodeOutputs(data[keys[n]]).value, pubKeyHash, amount);
      }
    }
  }

  /** The positions chosen for an entry are positions of its stored list (not of the
      transaction's original outputs) holding outputs locked with the key; other entries'
      positions are untouched. */
  lemma {:induction false} SelectFromPositions(st: Selection, id: Bytes, outs: seq<TxOutput>, pubKeyHash: Bytes, amount: int)
    requires id !in st.chosen
    ensures var r := SelectFrom(st, id, outs, pubKeyHash, amount);
            && (forall i :: i in Positions(r.chosen, id) ==> 0 <= i < |outs| && outs[i].pubKeyHash == pubKeyHash)
            && (forall k :: k != id ==> Positions(r.chosen, k) == Positions(st.chosen, k))
    decreases |outs|
  {
    if outs != [] {
      var n := |outs| - 1;
      SelectFromPositions(st, id, outs[..n], pubKeyHash, amount);
    }
  }

  // ---- Reindex ----

  /** The store after Reindex: the index holds exactly the entries of utxo, each encoded, and
      every key outside the index is as it was. */
  ghost predicate Reindexed(p: Primitives, before: map<Bytes, Bytes>, after: map<Bytes, Bytes>,
                            utxo: map<Bytes, seq<TxOutput>>) {
    && (forall id :: id in utxo ==> UtxoKey(id) in after && after[UtxoKey(id)] == p.encodeOutputs(utxo[id]))
    && (forall k :: k in after && HasPrefix(k, UtxoPrefix) ==> k[PrefixLength..] in utxo)
    && (forall k :: !HasPrefix(k, UtxoPrefix) ==>
          (k in after <==> k in before) && (k in after ==> after[k] == before[k]))
  }

  /** What Reindex scans: FindUTXO over the store once the keys of the old index are deleted.
      A walk that never reads one of those keys scans the chain as it was; a tip stored under
      one of them is no longer found. */
  function ScanWithout(p: Primitives, data: map<Bytes, Bytes>, keys: set<Bytes>, tip: Bytes, fuel: nat)
    : (r: Result<map<Bytes, seq<TxOutput>>>)
    requires Terminates(p, data, tip, fuel)
    ensures Terminates(p, data - keys, tip, fuel) && r == FindUTXOSpec(p, data - keys, tip, fuel)
    ensures WalkAvoids(p, data, tip, fuel, keys) ==> r == FindUTXOSpec(p, data, tip, fuel)
    ensures tip in keys ==> r == Err(NotFound)
  {
    TerminatesWithout(p, data, tip, fuel, keys);
    if WalkAvoids(p, data, tip, fuel, keys) then
      WalkUnchanged(p, data, data - keys, tip, fuel, keys);
      FindUTXOSpec(p, data - keys, tip, fuel)
    else
      FindUTXOSpec(p, data - keys, tip, fuel)
  }

  /** After Reindex, every output FindUTXO reports is found in the index under its transaction,
      and the index has no other entries. */
  lemma ReindexedReadsBack(p: Primitives, before: map<Bytes, Bytes>, after: map<Bytes, Bytes>,
                           utxo: map<Bytes, seq<TxOutput>>)
    requires CodecRoundTrip(p) && Reindexed(p, before, after, utxo)
    ensures forall id :: id in utxo ==> DecodeAt(p, after, UtxoKey(id)) == Ok(utxo[id])
    ensures forall k :: k in after && HasPrefix(k, UtxoPrefix) ==>
              exists id :: id in utxo && k == UtxoKey(id)
  {
    forall k | k in after && HasPrefix(k, UtxoPrefix)
      ensures exists id :: id in utxo && k == UtxoKey(id)
    {
      PrefixedIsUtxoKey(k);
    }
  }

  // ---- NewTransaction ----

  /** order lists the IDs of ids, each once (Go leaves the iteration order of a map open). */
  ghost predicate Enumerates(order: seq<Bytes>, ids: set<Bytes>) {
    && (forall id :: id in order <==> id in ids)
    && (forall i, j :: 0 <= i < j < |order| ==> order[i] != order[j])
  }

  /** One input per chosen position, entry by entry in the given order, unsigned and carrying
      the sender's public key. */
  function InputsFor(chosen: map<Bytes, seq<int>>, order: seq<Bytes>, pubKey: Bytes): seq<TxInput>
    requires forall id :: id in order ==> id in chosen
    decreases |order|
  {
    if order == [] then []
    else
      var n := |order| - 1;
      var positions := chosen[order[n]];
      InputsFor(chosen, order[..n], pubKey)
        + seq(|positions|, i requires 0 <= i < |positions| => TxInput(order[n], positions[i], [], pubKey))
  }

  lemma {:induction false} InputsForMembers(chosen: map<Bytes, seq<int>>, order: seq<Bytes>, pubKey: Bytes)
    requires forall id :: id in order ==> id in chosen
    ensures forall input :: input in InputsFor(chosen, order, pubKey) <==>
              && input.id in order && input.outputIdx in chosen[input.id]
              && input.signature == [] && input.pubKey == pubKey
    decreases |order|
  {
    if order != [] {
      var n := |order| - 1;
      InputsForMembers(chosen, order[..n], pubKey);
      var positions := chosen[order[n]];
      var tail := seq(|positions|, i requires 0 <= i < |positions| => TxInput(order[n], positions[i], [], pubKey));
      forall input: TxInput | input.id == order[n] && input.outputIdx in positions && input.signature == [] && input.pubKey == pubKey
        ensures input in tail
      {
        var i :| 0 <= i < |positions| && positions[i] == input.outputIdx;
        assert tail[i] == input;
      }
      assert order == order[..n] + [order[n]];
    }
  }

  /** The inputs NewTransaction makes spend exactly the chosen positions of the chosen entries. */
  lemma InputsSpendChosen(chosen: map<Bytes, seq<int>>, order: seq<Bytes>, pubKey: Bytes)
    requires Enumerates(order, chosen.Keys)
    ensures forall input :: input in InputsFor(chosen, order, pubKey) <==>
              && input.id in chosen && input.outputIdx in chosen[input.id]
              && input.signature == [] && input.pubKey == pubKey
  {
    InputsForMembers(chosen, order, pubKey);
  }

  /** The inputs of tx spend exactly the positions in chosen: each input spends a chosen
      position, and each chosen position is spent by some input. */
  predicate SpendsExactly(tx: Transaction, chosen: map<Bytes, seq<int>>) {
    && (forall i :: 0 <= i < |tx.inputs| ==>
          tx.inputs[i].id in chosen && tx.inputs[i].outputIdx in chosen[tx.inputs[i].id])
    && (forall id, j :: id in chosen && j in chosen[id] ==>
          exists i :: 0 <= i < |tx.inputs| && tx.inputs[i].id == id && tx.inputs[i].outputIdx == j)
  }

  /** The outputs of NewTransaction: amount to the receiver, then the change back to the sender
      when the selected total exceeds amount. */
  function PaymentOutputs(p: Primitives, from: Bytes, to: Bytes, amount: int, acc: int): Result<seq<TxOutput>> {
    var receiver :- NewTxOutput(p, amount, to);
    if acc > amount then
      var change :- NewTxOutput(p, acc - amount, from);
      Ok([receiver, change])
    else Ok([receiver])
  }

  /** NewTransaction once the spendable outputs are chosen: the unsigned transaction, its ID the
      hash of itself with an empty ID, signed against the chain. */
  function NewTransactionSpec(p: Primitives, data: map<Bytes, Bytes>, tip: Bytes, fuel: nat, w: W.Wallet,
                              from: Bytes, to: Bytes, amount: int, acc: int, inputs: seq<TxInput>)
    : Result<Transaction>
    requires Terminates(p, data, tip, fuel)
  {
    var outputs :- PaymentOutputs(p, from, to, amount, acc);
    var unsigned := Transaction([], inputs, outputs);
    SignOnChain(p, data, tip, fuel, unsigned.(id := HashTransaction(p, unsigned)), w.privateKey)
  }

  /** The transaction pays amount as its first output, returns the rest as a second output only
      when there is a rest, so its outputs add up to the selected total; its inputs spend what
      was chosen, in the same order; and its ID is the hash of the unsigned transaction. */
  lemma NewTransactionShape(p: Primitives, data: map<Bytes, Bytes>, tip: Bytes, fuel: nat, w: W.Wallet,
                            from: Bytes, to: Bytes, amount: int, acc: int, inputs: seq<TxInput>)
    requires Terminates(p, data, tip, fuel)
    requires acc >= amount
    requires NewTransactionSpec(p, data, tip, fuel, w, from, to, amount, acc, inputs).Ok?
    ensures var tx := NewTransactionSpec(p, data, tip, fuel, w, from, to, amount, acc, inputs).value;
            && Total(tx.outputs) == acc
            && tx.outputs[0].value == amount
            && |tx.outputs| == (if acc > amount then 2 else 1)
            && |tx.inputs| == |inputs|
            && (forall i :: 0 <= i < |inputs| ==>
                  tx.inputs[i].id == inputs[i].id && tx.inputs[i].outputIdx == inputs[i].outputIdx)
            && tx.id == HashTransaction(p, Transaction([], inputs, tx.outputs))
  {
    var outputs := PaymentOutputs(p, from, to, amount, acc).value;
    var unsigned := Transaction([], inputs, outputs);
    var tx := unsigned.(id := HashTransaction(p, unsigned));
    var prevTxs := CollectPrevTxs(p, data, tip, fuel, tx.inputs).value;
    assert SameSpends(tx, Signed(p, Fixed32, tx, w.privateKey, prevTxs).value);
    if acc > amount {
      assert outputs[..1][..0] == [];
      assert Total(outputs[..1]) == outputs[0].value;
    } else {
      assert Total(outputs) == outputs[0].value;
    }
  }

  /** A transaction whose inputs spend, one by one, the inputs built for chosen spends exactly
      the chosen positions. */
  lemma SpendsExactlyChosen(tx: Transaction, chosen: map<Bytes, seq<int>>, order: seq<Bytes>, pubKey: Bytes)
    requires Enumerates(order, chosen.Keys)
    requires var inputs := InputsFor(chosen, order, pubKey);
             && |tx.inputs| == |inputs|
             && forall i :: 0 <= i < |inputs| ==>
                  tx.inputs[i].id == inputs[i].id && tx.inputs[i].outputIdx == inputs[i].outputIdx
    ensures SpendsExactly(tx, chosen)
  {
    var inputs := InputsFor(chosen, order, pubKey);
    InputsSpendChosen(chosen, order, pubKey);
    forall i | 0 <= i < |tx.inputs|
      ensures tx.inputs[i].id in chosen && tx.inputs[i].outputIdx in chosen[tx.inputs[i].id]
    {
      assert inputs[i] in inputs;
    }
    forall id, j | id in chosen && j in chosen[id]
      ensures exists i :: 0 <= i < |tx.inputs| && tx.inputs[i].id == id && tx.inputs[i].outputIdx == j
    {
      assert TxInput(id, j, [], pubKey) in inputs;
      var i :| 0 <= i < |inputs| && inputs[i] == TxInput(id, j, [], pubKey);
      assert tx.inputs[i].id == id && tx.inputs[i].outputIdx == j;
    }
  }

  /** Whatever order the chosen entries are visited in, the transaction NewTransaction builds
      spends exactly the chosen outputs, pays amount first, and its outputs add up to the
      selected total. */
  lemma NewTransactionSpendsChosen(p: Primitives, data: map<Bytes, Bytes>, tip: Bytes, fuel: nat, w: W.Wallet,
                                   from: Bytes, to: Bytes, amount: int, acc: int,
                                   chosen: map<Bytes, seq<int>>, order: seq<Bytes>)
    requires Terminates(p, data, tip, fuel)
    requires acc >= amount && Enumerates(order, chosen.Keys)
    requires NewTransactionSpec(p, data, tip, fuel, w, from, to, amount, acc, InputsFor(chosen, order, w.publicKey)).Ok?
    ensures var tx := NewTransactionSpec(p, data, tip, fuel, w, from, to, amount, acc,
                                         InputsFor(chosen, order, w.publicKey)).value;
            && SpendsExactly(tx, chosen)
            && Total(tx.outputs) == acc && |tx.outputs| > 0 && tx.outputs[0].value == amount
  {
    var inputs := InputsFor(chosen, order, w.publicKey);
    NewTransactionShape(p, data, tip, fuel, w, from, to, amount, acc, inputs);
    var tx := NewTransactionSpec(p, data, tip, fuel, w, from, to, amount, acc, inputs).value;
    SpendsExactlyChosen(tx, chosen, order, w.publicKey);
  }
}
