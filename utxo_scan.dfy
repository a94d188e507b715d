/** The unspent-output rebuild that `BlockChain.FindUTXO` performs, as
    functions over the transactions of the chain in walk order (head block
    first, each block's transactions in order), and its characterisation:
    an output is reported exactly when no non-coinbase input met earlier in
    the walk references it. */
module UtxoScan {
  import opened Bytes
  import opened Tx

  /** Outputs kept so far, keyed by transaction ID. */
  type Utxo = map<Bytes, TxOutputs>

  /** Output indexes referenced so far, keyed by transaction ID. */
  type SpentMap = map<Bytes, seq<int>>

  datatype Scan = Scan(utxo: Utxo, spent: SpentMap)

  /** The entry of `id`, or the empty list Go's map lookup yields. */
  function EntryOf(u: Utxo, id: Bytes): TxOutputs
  {
    if id in u then u[id] else TxOutputs([])
  }

  function SpentOf(spent: SpentMap, id: Bytes): seq<int>
  {
    if id in spent then spent[id] else []
  }

  // ---------------------------------------------------------------------
  // The scan, step by step as the Go loops perform it

  /** The output loop for one transaction: each output whose index is not
      in `spentIdx` is appended to the entry of `id`. */
  function AddOutputs(utxo: Utxo, id: Bytes, outs: seq<TxOutput>, spentIdx: seq<int>): Utxo
  {
    if outs == [] then utxo
    else
      var u := AddOutputs(utxo, id, outs[..|outs| - 1], spentIdx);
      if |outs| - 1 in spentIdx then u
      else u[id := TxOutputs(EntryOf(u, id).Outputs + [outs[|outs| - 1]])]
  }

  /** The input loop for one transaction: each input's output index is
      appended to the list of the transaction it references. */
  function AddInputs(spent: SpentMap, ins: seq<TxInput>): SpentMap
  {
    if ins == [] then spent
    else
      var s := AddInputs(spent, ins[..|ins| - 1]);
      var input := ins[|ins| - 1];
      s[input.ID := SpentOf(s, input.ID) + [input.Out]]
  }

  /** One transaction: first its outputs, then (unless it is a coinbase)
      its inputs. */
  function ScanTx(isCoinbase: Transaction -> bool, acc: Scan, tx: Transaction): Scan
  {
    Scan(AddOutputs(acc.utxo, tx.ID, tx.Outputs, SpentOf(acc.spent, tx.ID)),
         if isCoinbase(tx) then acc.spent else AddInputs(acc.spent, tx.Inputs))
  }

  /** The scan of `txs`, starting from two empty maps. */
  function ScanTxs(isCoinbase: Transaction -> bool, txs: seq<Transaction>): Scan
  {
    if txs == [] then Scan(map[], map[])
    else ScanTx(isCoinbase, ScanTxs(isCoinbase, txs[..|txs| - 1]), txs[|txs| - 1])
  }

  lemma ScanTxsSnoc(isCoinbase: Transaction -> bool, txs: seq<Transaction>, tx: Transaction)
    ensures ScanTxs(isCoinbase, txs + [tx]) == ScanTx(isCoinbase, ScanTxs(isCoinbase, txs), tx)
  {
    assert (txs + [tx])[..|txs|] == txs;
  }

  // ---------------------------------------------------------------------
  // The inner loops of `FindUTXO`

  /** The `range spentTXOs[txID]` loop: whether `x` is listed in `xs`. */
  method Contains(xs: seq<int>, x: int) returns (found: bool)
    ensures found <==> x in xs
  {
    var i := 0;
    while i < |xs|
      invariant 0 <= i <= |xs|
      invariant x !in xs[..i]
    {
      if xs[i] == x {
        return true;
      }
      assert xs[..i + 1] == xs[..i] + [xs[i]];
      i := i + 1;
    }
    assert xs[..i] == xs;
    return false;
  }

  /** The `Outputs:` loop over one transaction's outputs. */
  method CollectOutputs(utxo: Utxo, id: Bytes, outs: seq<TxOutput>, spentIdx: seq<int>) returns (u: Utxo)
    ensures u == AddOutputs(utxo, id, outs, spentIdx)
  {
    u := utxo;
    var outIdx := 0;
    while outIdx < |outs|
      invariant 0 <= outIdx <= |outs|
      invariant u == AddOutputs(utxo, id, outs[..outIdx], spentIdx)
    {
      assert outs[..outIdx + 1][..outIdx] == outs[..outIdx];
      var spent := Contains(spentIdx, outIdx);
      if !spent {
        var entry := EntryOf(u, id);
        u := u[id := TxOutputs(entry.Outputs + [outs[outIdx]])];
      }
      outIdx := outIdx + 1;
    }
    assert outs[..outIdx] == outs;
  }

  /** The loop over a non-coinbase transaction's inputs. */
  method RecordInputs(spent: SpentMap, ins: seq<TxInput>) returns (s: SpentMap)
    ensures s == AddInputs(spent, ins)
  {
    s := spent;
    var i := 0;
    while i < |ins|
      invariant 0 <= i <= |ins|
      invariant s == AddInputs(spent, ins[..i])
    {
      assert ins[..i + 1][..i] == ins[..i];
      var input := ins[i];
      s := s[input.ID := SpentOf(s, input.ID) + [input.Out]];
      i := i + 1;
    }
    assert ins[..i] == ins;
  }

  /** The body of the loop over a block's transactions: one transaction's
      outputs, then its inputs unless it is a coinbase. */
  method ScanTransaction(isCoinbase: Transaction -> bool, utxo: Utxo, spent: SpentMap, tx: Transaction)
    returns (u: Utxo, s: SpentMap)
    ensures Scan(u, s) == ScanTx(isCoinbase, Scan(utxo, spent), tx)
  {
    u := CollectOutputs(utxo, tx.ID, tx.Outputs, SpentOf(spent, tx.ID));
    s := spent;
    if !isCoinbase(tx) {
      s := RecordInputs(spent, tx.Inputs);
    }
  }

  /** The loop over one block's transactions, continuing a scan of `prior`. */
  method ScanBlock(isCoinbase: Transaction -> bool, ghost prior: seq<Transaction>,
                   utxo: Utxo, spent: SpentMap, txs: seq<Transaction>) returns (u: Utxo, s: SpentMap)
    requires Scan(utxo, spent) == ScanTxs(isCoinbase, prior)
    ensures Scan(u, s) == ScanTxs(isCoinbase, prior + txs)
  {
    u, s := utxo, spent;
    ghost var scanned := prior;
    var i := 0;
    while i < |txs|
      invariant 0 <= i <= |txs|
      invariant scanned == prior + txs[..i]
      invariant Scan(u, s) == ScanTxs(isCoinbase, scanned)
    {
      ScanTxsSnoc(isCoinbase, scanned, txs[i]);
      u, s := ScanTransaction(isCoinbase, u, s, txs[i]);
      assert txs[..i + 1] == txs[..i] + [txs[i]];
      scanned := scanned + [txs[i]];
      i := i + 1;
    }
    assert txs[..i] == txs;
  }

  // ---------------------------------------------------------------------
  // What the scan computes, stated without maps

  /** Some non-coinbase transaction of `txs` has an input that references
      output `idx` of transaction `id`. */
  ghost predicate SpentIn(isCoinbase: Transaction -> bool, txs: seq<Transaction>, id: Bytes, idx: int)
  {
    exists j, k :: 0 <= j < |txs| && 0 <= k < |txs[j].Inputs| && !isCoinbase(txs[j])
      && txs[j].Inputs[k].ID == id && txs[j].Inputs[k].Out == idx
  }

  /** The outputs of transaction `id` not spent by `prior`, in their order. */
  ghost function Kept(isCoinbase: Transaction -> bool, prior: seq<Transaction>, id: Bytes, outs: seq<TxOutput>): seq<TxOutput>
  {
    if outs == [] then []
    else
      Kept(isCoinbase, prior, id, outs[..|outs| - 1])
        + (if SpentIn(isCoinbase, prior, id, |outs| - 1) then [] else [outs[|outs| - 1]])
  }

  /** For each transaction of `txs` with ID `id`, in order, its outputs that
      no transaction before it spends. */
  ghost function Unspent(isCoinbase: Transaction -> bool, txs: seq<Transaction>, id: Bytes): seq<TxOutput>
  {
    if txs == [] then []
    else
      var prior := txs[..|txs| - 1];
      var tx := txs[|txs| - 1];
      Unspent(isCoinbase, prior, id) + (if tx.ID == id then Kept(isCoinbase, prior, id, tx.Outputs) else [])
  }

  // ---------------------------------------------------------------------
  // The scan computes exactly that

  lemma {:induction false} AddInputsSpec(spent: SpentMap, ins: seq<TxInput>)
    ensures forall id, x :: x in SpentOf(AddInputs(spent, ins), id) <==>
      x in SpentOf(spent, id) || exists k :: 0 <= k < |ins| && ins[k].ID == id && ins[k].Out == x
  {
    if ins != [] {
      var prefix := ins[..|ins| - 1];
      AddInputsSpec(spent, prefix);
      forall id, x
        ensures x in SpentOf(AddInputs(spent, ins), id) <==>
          x in SpentOf(spent, id) || exists k :: 0 <= k < |ins| && ins[k].ID == id && ins[k].Out == x
      {
        var last := ins[|ins| - 1];
        var s := AddInputs(spent, prefix);
        assert SpentOf(AddInputs(spent, ins), id)
            == if last.ID == id then SpentOf(s, id) + [last.Out] else SpentOf(s, id);
        if exists k :: 0 <= k < |prefix| && prefix[k].ID == id && prefix[k].Out == x {
          var k :| 0 <= k < |prefix| && prefix[k].ID == id && prefix[k].Out == x;
          assert ins[k] == prefix[k];
        }
        if exists k :: 0 <= k < |ins| && ins[k].ID == id && ins[k].Out == x {
          var k :| 0 <= k < |ins| && ins[k].ID == id && ins[k].Out == x;
          if k < |prefix| {
            assert prefix[k] == ins[k];
          }
        }
      }
    }
  }

  /** The spent map holds exactly the references of non-coinbase inputs. */
  lemma {:induction false} ScanSpentSpec(isCoinbase: Transaction -> bool, txs: seq<Transaction>)
    ensures forall id, x :: x in SpentOf(ScanTxs(isCoinbase, txs).spent, id) <==> SpentIn(isCoinbase, txs, id, x)
  {
    if txs != [] {
      var prior := txs[..|txs| - 1];
      var tx := txs[|txs| - 1];
      ScanSpentSpec(isCoinbase, prior);
      var before := ScanTxs(isCoinbase, prior).spent;
      if !isCoinbase(tx) {
        AddInputsSpec(before, tx.Inputs);
      }
      forall id, x
        ensures x in SpentOf(ScanTxs(isCoinbase, txs).spent, id) <==> SpentIn(isCoinbase, txs, id, x)
      {
        if SpentIn(isCoinbase, prior, id, x) {
          var j, k :| 0 <= j < |prior| && 0 <= k < |prior[j].Inputs| && !isCoinbase(prior[j])
            && prior[j].Inputs[k].ID == id && prior[j].Inputs[k].Out == x;
          assert txs[j] == prior[j];
        }
        if !isCoinbase(tx) && exists k :: 0 <= k < |tx.Inputs| && tx.Inputs[k].ID == id && tx.Inputs[k].Out == x {
          var k :| 0 <= k < |tx.Inputs| && tx.Inputs[k].ID == id && tx.Inputs[k].Out == x;
          assert txs[|txs| - 1] == tx;
        }
        if SpentIn(isCoinbase, txs, id, x) {
          var j, k :| 0 <= j < |txs| && 0 <= k < |txs[j].Inputs| && !isCoinbase(txs[j])
            && txs[j].Inputs[k].ID == id && txs[j].Inputs[k].Out == x;
          if j < |prior| {
            assert prior[j] == txs[j];
          }
        }
      }
    }
  }

  lemma {:induction false} AddOutputsSpec(isCoinbase: Transaction -> bool, prior: seq<Transaction>,
                                           utxo: Utxo, id: Bytes, outs: seq<TxOutput>, spentIdx: seq<int>)
    requires forall x :: x in spentIdx <==> SpentIn(isCoinbase, prior, id, x)
    ensures var u := AddOutputs(utxo, id, outs, spentIdx);
      && EntryOf(u, id).Outputs == EntryOf(utxo, id).Outputs + Kept(isCoinbase, prior, id, outs)
      && (id in u <==> id in utxo || Kept(isCoinbase, prior, id, outs) != [])
      && forall k :: k != id ==> (k in u <==> k in utxo) && EntryOf(u, k) == EntryOf(utxo, k)
  {
    if outs != [] {
      var prefix := outs[..|outs| - 1];
      AddOutputsSpec(isCoinbase, prior, utxo, id, prefix, spentIdx);
      var kept := Kept(isCoinbase, prior, id, prefix);
      assert EntryOf(utxo, id).Outputs + kept + [outs[|outs| - 1]]
          == EntryOf(utxo, id).Outputs + (kept + [outs[|outs| - 1]]);
    } else {
      assert EntryOf(utxo, id).Outputs + [] == EntryOf(utxo, id).Outputs;
    }
  }

  /** The scan keeps, for every transaction ID, exactly `Unspent`, and has an
      entry for an ID only when that list is not empty. */
  lemma {:induction false} ScanUtxoSpec(isCoinbase: Transaction -> bool, txs: seq<Transaction>)
    ensures var u := ScanTxs(isCoinbase, txs).utxo;
      forall id :: (id in u <==> Unspent(isCoinbase, txs, id) != [])
                && EntryOf(u, id).Outputs == Unspent(isCoinbase, txs, id)
  {
    if txs != [] {
      var prior := txs[..|txs| - 1];
      var tx := txs[|txs| - 1];
      var before := ScanTxs(isCoinbase, prior);
      ScanUtxoSpec(isCoinbase, prior);
      ScanSpentSpec(isCoinbase, prior);
      AddOutputsSpec(isCoinbase, prior, before.utxo, tx.ID, tx.Outputs, SpentOf(before.spent, tx.ID));
      var u := ScanTxs(isCoinbase, txs).utxo;
      forall id
        ensures (id in u <==> Unspent(isCoinbase, txs, id) != [])
             && EntryOf(u, id).Outputs == Unspent(isCoinbase, txs, id)
      {
        if id != tx.ID {
          assert Unspent(isCoinbase, txs, id) == Unspent(isCoinbase, prior, id) + [];
        }
      }
    }
  }

  /** When a single transaction of `txs` has ID `id`, its entry is its
      outputs that no transaction before it spends. */
  lemma {:induction false} UnspentOfUniqueId(isCoinbase: Transaction -> bool, txs: seq<Transaction>, i: nat)
    requires i < |txs|
    requires forall j :: 0 <= j < |txs| && j != i ==> txs[j].ID != txs[i].ID
    ensures Unspent(isCoinbase, txs, txs[i].ID) == Kept(isCoinbase, txs[..i], txs[i].ID, txs[i].Outputs)
  {
    var id := txs[i].ID;
    var prior := txs[..|txs| - 1];
    if i < |txs| - 1 {
      assert forall j :: 0 <= j < |prior| && j != i ==> prior[j].ID != prior[i].ID;
      UnspentOfUniqueId(isCoinbase, prior, i);
      assert prior[..i] == txs[..i];
      assert Unspent(isCoinbase, txs, id) == Unspent(isCoinbase, prior, id) + [];
    } else {
      NoneWithId(isCoinbase, prior, id);
      assert prior == txs[..i];
    }
  }

  lemma {:induction false} NoneWithId(isCoinbase: Transaction -> bool, txs: seq<Transaction>, id: Bytes)
    requires forall j :: 0 <= j < |txs| ==> txs[j].ID != id
    ensures Unspent(isCoinbase, txs, id) == []
  {
    if txs != [] {
      NoneWithId(isCoinbase, txs[..|txs| - 1], id);
    }
  }

  /** With nothing spent, every output is kept; with everything spent, none. */
  lemma {:induction false} KeptBounds(isCoinbase: Transaction -> bool, prior: seq<Transaction>, id: Bytes, outs: seq<TxOutput>)
    ensures (forall x :: 0 <= x < |outs| ==> !SpentIn(isCoinbase, prior, id, x)) ==> Kept(isCoinbase, prior, id, outs) == outs
    ensures (forall x :: 0 <= x < |outs| ==> SpentIn(isCoinbase, prior, id, x)) ==> Kept(isCoinbase, prior, id, outs) == []
    ensures |Kept(isCoinbase, prior, id, outs)| <= |outs|
  {
    if outs != [] {
      var prefix := outs[..|outs| - 1];
      KeptBounds(isCoinbase, prior, id, prefix);
      assert prefix + [outs[|outs| - 1]] == outs;
    }
  }
}
