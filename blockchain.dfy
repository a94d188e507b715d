/** The ledger (blockchain/blockchain.go): opening or creating the store,
    adding and mining blocks, and the backward walks that list hashes, find
    transactions, rebuild the unspent outputs and check signatures.

    A walk starts at `Lasthash` and follows `PrevHash` links. Each walking
    method takes the blocks it reads as a ghost argument. `GetBlockHashes`
    and `FindUTXO` always go on to the block with an empty `PrevHash`: they
    panic at a missing parent or never end on a cycle, so they require the
    whole chain (`IsChain`). A lookup stops at its first match, so the
    lookups and the methods built on them require only the blocks read up
    to there (`IsWalk`), and the whole chain only when what they look for
    is missing from those blocks. */
module Blockchain {
  import opened Bytes
  import opened Results
  import opened Tx
  import opened Blocks
  import opened Store
  import opened ChainIter
  import opened UtxoScan

  /** The data of the genesis coinbase transaction. */
  const GenesisData: string := "First Transaction from Genesis"

  // ---------------------------------------------------------------------
  // What a walk finds, as functions over the transactions in walk order

  /** No transaction of `txs` has ID `id`. */
  predicate NoId(txs: seq<Transaction>, id: Bytes)
  {
    forall j :: 0 <= j < |txs| ==> txs[j].ID != id
  }

  /** The first transaction of `txs` with ID `id`. */
  function FindTx(txs: seq<Transaction>, id: Bytes): Result<Transaction>
  {
    if txs == [] then Err(TxNotFound)
    else if txs[0].ID == id then Ok(txs[0])
    else FindTx(txs[1..], id)
  }

  /** `FindTx` fails exactly when no transaction has the ID, and otherwise
      yields the first one that has it. */
  lemma {:induction false} FindTxSpec(txs: seq<Transaction>, id: Bytes)
    ensures FindTx(txs, id).Err? <==> NoId(txs, id)
    ensures FindTx(txs, id).Err? ==> FindTx(txs, id).error == TxNotFound
    ensures FindTx(txs, id).Ok? ==>
      exists i :: 0 <= i < |txs| && txs[i] == FindTx(txs, id).value && txs[i].ID == id && NoId(txs[..i], id)
  {
    if txs != [] && txs[0].ID != id {
      var rest := txs[1..];
      FindTxSpec(rest, id);
      if FindTx(rest, id).Ok? {
        var i :| 0 <= i < |rest| && rest[i] == FindTx(rest, id).value && rest[i].ID == id && NoId(rest[..i], id);
        assert txs[i + 1] == rest[i];
        assert forall j :: 1 <= j <= i ==> txs[j] == rest[j - 1];
      } else {
        assert forall j :: 1 <= j < |txs| ==> txs[j] == rest[j - 1];
      }
    }
  }

  /** The transaction at `i` is what `FindTx` yields when none before it has
      its ID. */
  lemma {:induction false} FindTxAt(txs: seq<Transaction>, i: nat, id: Bytes)
    requires i < |txs| && txs[i].ID == id && NoId(txs[..i], id)
    ensures FindTx(txs, id) == Ok(txs[i])
  {
    if i > 0 {
      assert txs[0] == txs[..i][0];
      assert forall j :: 0 <= j < i - 1 ==> txs[1..][j] == txs[j + 1];
      FindTxAt(txs[1..], i - 1, id);
    }
  }

  /** Every input's transaction is in `txs`. */
  predicate AllFound(txs: seq<Transaction>, ins: seq<TxInput>)
  {
    forall k :: 0 <= k < |ins| ==> !NoId(txs, ins[k].ID)
  }

  /** A lookup of `id` that has read `chain[..k + 1]` without a match, and
      whose store holds the whole chain or whose walk holds a match, goes on
      past a block with a parent. */
  lemma WalkGoesOn(blocks: map<Bytes, Block>, h: Bytes, chain: seq<Block>, k: nat, id: Bytes)
    requires k < |chain| && |chain[k].PrevHash| > 0
    requires IsChain(blocks, h, chain) || !NoId(AllTxs(chain), id)
    requires NoId(AllTxs(chain[..k + 1]), id)
    ensures k + 1 < |chain|
  {
    ChainIsWalk(blocks, h, chain);
    assert chain[..|chain|] == chain;
  }

  /** The map `SignTransaction` and `VerifyTransaction` build: for each input,
      in order, the transaction its `ID` refers to, keyed by that ID; the
      first input whose transaction is missing makes it fail. */
  function PrevTxs(txs: seq<Transaction>, ins: seq<TxInput>): Result<map<Bytes, Transaction>>
  {
    if ins == [] then Ok(map[])
    else
      match PrevTxs(txs, ins[..|ins| - 1])
      case Err(e) => Err(e)
      case Ok(m) =>
        match FindTx(txs, ins[|ins| - 1].ID)
        case Err(e) => Err(e)
        case Ok(prev) => Ok(m[prev.ID := prev])
  }

  /** `PrevTxs` succeeds exactly when every input's transaction is in
      `txs`, and fails only for a missing transaction. */
  lemma {:induction false} PrevTxsFound(txs: seq<Transaction>, ins: seq<TxInput>)
    ensures PrevTxs(txs, ins).Ok? <==> forall k :: 0 <= k < |ins| ==> !NoId(txs, ins[k].ID)
    ensures PrevTxs(txs, ins).Err? ==> PrevTxs(txs, ins).error == TxNotFound
  {
    if ins != [] {
      var prefix := ins[..|ins| - 1];
      PrevTxsFound(txs, prefix);
      FindTxSpec(txs, ins[|ins| - 1].ID);
      assert forall k :: 0 <= k < |prefix| ==> prefix[k] == ins[k];
    }
  }

  /** When `PrevTxs` succeeds, its keys are the inputs' IDs, each mapped to
      the first transaction of `txs` with that ID. */
  lemma {:induction false} PrevTxsMap(txs: seq<Transaction>, ins: seq<TxInput>)
    requires PrevTxs(txs, ins).Ok?
    ensures var m := PrevTxs(txs, ins).value;
      && (forall id :: id in m <==> exists k :: 0 <= k < |ins| && ins[k].ID == id)
      && (forall id :: id in m ==> FindTx(txs, id) == Ok(m[id]) && m[id].ID == id)
  {
    if ins != [] {
      var prefix := ins[..|ins| - 1];
      var last := ins[|ins| - 1];
      PrevTxsMap(txs, prefix);
      FindTxSpec(txs, last.ID);
      var m := PrevTxs(txs, ins).value;
      forall id
        ensures id in m <==> exists k :: 0 <= k < |ins| && ins[k].ID == id
      {
        if id == last.ID {
          assert ins[|ins| - 1].ID == id;
        }
        if exists k :: 0 <= k < |ins| && ins[k].ID == id {
          var k :| 0 <= k < |ins| && ins[k].ID == id;
          if k < |prefix| {
            assert prefix[k].ID == id;
          }
        }
      }
    }
  }

  /** Once a prefix of the inputs fails, the whole lookup fails the same way. */
  lemma {:induction false} PrevTxsPrefixErr(txs: seq<Transaction>, ins: seq<TxInput>, i: nat)
    requires i <= |ins| && PrevTxs(txs, ins[..i]).Err?
    ensures PrevTxs(txs, ins) == PrevTxs(txs, ins[..i])
  {
    if i < |ins| {
      var prefix := ins[..|ins| - 1];
      assert prefix[..i] == ins[..i];
      PrevTxsPrefixErr(txs, prefix, i);
    } else {
      assert ins[..i] == ins;
    }
  }

  /** What `VerifyTransaction` answers for `tx` against the walk `txs`. */
  function Verdict(env: Env, txs: seq<Transaction>, tx: Transaction): Result<bool>
  {
    if env.isCoinbase(tx) then Ok(true)
    else
      match PrevTxs(txs, tx.Inputs)
      case Err(e) => Err(e)
      case Ok(m) => Ok(env.verify(tx, m))
  }

  /** A transaction is accepted exactly when it is a coinbase, or all its
      inputs' transactions are in the walk and the signature check passes;
      a failure to answer is a missing input transaction. */
  lemma VerdictSpec(env: Env, txs: seq<Transaction>, tx: Transaction)
    ensures Verdict(env, txs, tx) == Ok(true) <==>
      env.isCoinbase(tx)
      || ((forall k :: 0 <= k < |tx.Inputs| ==> !NoId(txs, tx.Inputs[k].ID))
          && PrevTxs(txs, tx.Inputs).Ok? && env.verify(tx, PrevTxs(txs, tx.Inputs).value))
    ensures Verdict(env, txs, tx).Err? <==>
      !env.isCoinbase(tx) && exists k :: 0 <= k < |tx.Inputs| && NoId(txs, tx.Inputs[k].ID)
    ensures Verdict(env, txs, tx).Err? ==> Verdict(env, txs, tx).error == TxNotFound
  {
    PrevTxsFound(txs, tx.Inputs);
  }

  /** Every transaction `MineBlock` verifies, up to the first one refused,
      is a coinbase or has all its inputs' transactions in `txs`. */
  predicate WalkAnswers(env: Env, txs: seq<Transaction>, pending: seq<Transaction>)
    decreases |pending|
  {
    pending == []
    || (&& (env.isCoinbase(pending[0]) || AllFound(txs, pending[0].Inputs))
        && (Verdict(env, txs, pending[0]) == Ok(true) ==> WalkAnswers(env, txs, pending[1..])))
  }

  /** Why `MineBlock` refuses `pending`: the answer for the first transaction
      not accepted, `InvalidTransaction` when its signature check fails. */
  function Rejection(env: Env, txs: seq<Transaction>, pending: seq<Transaction>): Option<Error>
  {
    if pending == [] then None
    else
      match Verdict(env, txs, pending[0])
      case Err(e) => Some(e)
      case Ok(accepted) => if accepted then Rejection(env, txs, pending[1..]) else Some(InvalidTransaction)
  }

  /** A block is refused exactly when one of its transactions is not
      accepted, and the reason is a missing or an invalid transaction. */
  lemma {:induction false} RejectionSpec(env: Env, txs: seq<Transaction>, pending: seq<Transaction>)
    ensures Rejection(env, txs, pending).None? <==>
      forall i :: 0 <= i < |pending| ==> Verdict(env, txs, pending[i]) == Ok(true)
    ensures Rejection(env, txs, pending).Some? ==>
      Rejection(env, txs, pending).value in {TxNotFound, InvalidTransaction}
  {
    if pending != [] {
      RejectionSpec(env, txs, pending[1..]);
      VerdictSpec(env, txs, pending[0]);
      assert forall i :: 1 <= i < |pending| ==> pending[i] == pending[1..][i - 1];
    }
  }

  /** A mined block on top of a chain whose heights step by one starts a
      longer such chain. */
  lemma MinedChainExtends(blocks: map<Bytes, Block>, chain: seq<Block>, b: Block)
    requires IsChain(blocks, b.PrevHash, chain) && HeightsStep(chain)
    requires |b.PrevHash| > 0 && b.Hash !in blocks
    requires b.Height == blocks[b.PrevHash].Height + 1
    ensures IsChain(blocks[b.Hash := b], b.Hash, [b] + chain)
    ensures HeightsStep([b] + chain)
  {
    ChainExtend(blocks, chain, b);
    assert forall i :: 1 <= i < |chain| + 1 ==> ([b] + chain)[i] == chain[i - 1];
  }

  /** The inner loop of `FindTransaction`: the index of the first
      transaction of a block whose ID compares equal to `ID`, or the
      block's length when there is none. */
  method SearchBlock(txs: seq<Transaction>, ID: Bytes) returns (i: nat)
    ensures i <= |txs| && NoId(txs[..i], ID)
    ensures i < |txs| ==> txs[i].ID == ID
  {
    i := 0;
    while i < |txs|
      invariant i <= |txs| && NoId(txs[..i], ID)
    {
      CompareZeroIffEqual(txs[i].ID, ID);
      if Compare(txs[i].ID, ID) == 0 {
        return;
      }
      assert txs[..i + 1] == txs[..i] + [txs[i]];
      i := i + 1;
    }
  }

  /** A match at position `i` of block `k`, after no match in the blocks
      before it, is the first match of the walk. */
  lemma FoundInWalk(chain: seq<Block>, k: nat, i: nat, id: Bytes)
    requires k < |chain| && i < |chain[k].Transactions|
    requires NoId(AllTxs(chain[..k]), id) && NoId(chain[k].Transactions[..i], id)
    requires chain[k].Transactions[i].ID == id
    ensures FindTx(AllTxs(chain), id) == Ok(chain[k].Transactions[i])
  {
    var seen := AllTxs(chain[..k]);
    var all := AllTxs(chain);
    AllTxsStep(chain, k);
    AllTxsPrefix(chain, k + 1);
    assert all[..|seen| + i] == seen + chain[k].Transactions[..i];
    assert all[|seen| + i] == chain[k].Transactions[i];
    FindTxAt(all, |seen| + i, id);
  }

  /** No match in the blocks up to and including block `k`. */
  lemma NotInBlock(chain: seq<Block>, k: nat, id: Bytes)
    requires k < |chain|
    requires NoId(AllTxs(chain[..k]), id) && NoId(chain[k].Transactions, id)
    ensures NoId(AllTxs(chain[..k + 1]), id)
  {
    AllTxsStep(chain, k);
  }

  // ---------------------------------------------------------------------
  // The ledger

  class BlockChain {
    var Lasthash: Bytes
    const Database: Database
    const env: Env

    /** The store is valid and `Lasthash` is its head. */
    ghost predicate Valid()
      reads this, Database
    {
      Database.Valid() && Lasthash == Database.head
    }

    /** The `BlockChain{lasthash, db}` literal. */
    constructor (lasthash: Bytes, db: Database, env: Env)
      ensures Lasthash == lasthash && Database == db && this.env == env
    {
      Lasthash := lasthash;
      Database := db;
      this.env := env;
    }

    /** `Iterator`: a fresh cursor at the head over the same store. */
    method Iterator() returns (iter: BlockChainIterator)
      ensures fresh(iter)
      ensures iter.CurrentHash == Lasthash && iter.Database == Database
    {
      iter := new BlockChainIterator(Lasthash, Database);
    }

    /** `AddBlock`: a block already stored changes nothing; otherwise it is
        stored under its hash, and it becomes the head exactly when it is
        higher than the current head block. */
    method AddBlock(block: Block)
      requires Valid()
      modifies this, Database
      ensures Valid()
      ensures block.Hash in old(Database.blocks) ==>
        Database.blocks == old(Database.blocks) && Database.head == old(Database.head) && Lasthash == old(Lasthash)
      ensures block.Hash !in old(Database.blocks) ==>
        Database.blocks == old(Database.blocks)[block.Hash := block]
      ensures block.Hash !in old(Database.blocks) && block.Height > old(Database.blocks[Database.head].Height) ==>
        Database.head == block.Hash && Lasthash == block.Hash
      ensures block.Hash !in old(Database.blocks) && block.Height <= old(Database.blocks[Database.head].Height) ==>
        Database.head == old(Database.head) && Lasthash == old(Lasthash)
    {
      if block.Hash in Database.blocks {
        return;
      }
      Database.blocks := Database.blocks[block.Hash := block];
      var lastblock := Database.blocks[Database.head];
      if block.Height > lastblock.Height {
        Database.head := block.Hash;
        Lasthash := block.Hash;
      }
    }

    /** `GetBlock`: the block stored under `hash`; a missing key is
        `NotFound` (the Go code panics). */
    method GetBlock(hash: Bytes) returns (r: Result<Block>)
      requires Valid()
      ensures r.Ok? <==> hash in Database.blocks
      ensures r.Ok? ==> r.value == Database.blocks[hash] && r.value.Hash == hash
      ensures r.Err? ==> r.error == NotFound
    {
      if hash !in Database.blocks {
        return Err(NotFound);
      }
      return Ok(Database.blocks[hash]);
    }

    /** `GetBlockHashes`: the hashes of the walk from the head, head first;
        each one names the parent of the one before it and the last one is
        a block without parent. */
    method GetBlockHashes(ghost chain: seq<Block>) returns (hashes: seq<Bytes>)
      requires Valid() && IsChain(Database.blocks, Lasthash, chain)
      ensures |hashes| == |chain|
      ensures forall i :: 0 <= i < |chain| ==> hashes[i] == chain[i].Hash
      ensures hashes[0] == Lasthash
      ensures forall i :: 0 <= i < |hashes| - 1 ==>
        hashes[i] in Database.blocks && hashes[i + 1] == Database.blocks[hashes[i]].PrevHash
      ensures hashes[|hashes| - 1] in Database.blocks && |Database.blocks[hashes[|hashes| - 1]].PrevHash| == 0
    {
      ChainLinks(Database.blocks, Lasthash, chain);
      assert chain[0..] == chain;
      hashes := [];
      var iter := Iterator();
      ghost var k := 0;
      while true
        invariant 0 <= k < |chain|
        invariant IsChain(Database.blocks, iter.CurrentHash, chain[k..])
        invariant |hashes| == k && forall i :: 0 <= i < k ==> hashes[i] == chain[i].Hash
        decreases |chain| - k
      {
        ChainTail(Database.blocks, iter.CurrentHash, chain, k);
        var block := iter.Next();
        hashes := hashes + [block.Hash];
        if |block.PrevHash| == 0 {
          break;
        }
        k := k + 1;
      }
    }

    /** `GetBestHeight`: the height of the head block, which no stored block
        exceeds. */
    method GetBestHeight() returns (height: int)
      requires Valid()
      ensures height == Database.blocks[Lasthash].Height
      ensures forall k :: k in Database.blocks ==> Database.blocks[k].Height <= height
    {
      var lastblock := Database.blocks[Database.head];
      height := lastblock.Height;
    }

    /** `FindTransaction`: the first transaction with ID `ID` in walk order,
        or `TxNotFound` when the whole chain has none. `chain` is the walk up
        to the match, or the whole chain when there is none. */
    method FindTransaction(ID: Bytes, ghost chain: seq<Block>) returns (r: Result<Transaction>)
      requires Valid() && IsWalk(Database.blocks, Lasthash, chain)
      requires IsChain(Database.blocks, Lasthash, chain) || !NoId(AllTxs(chain), ID)
      ensures r == FindTx(AllTxs(chain), ID)
    {
      assert chain[0..] == chain;
      var iter := Iterator();
      ghost var k := 0;
      while true
        invariant 0 <= k < |chain|
        invariant IsWalk(Database.blocks, iter.CurrentHash, chain[k..])
        invariant NoId(AllTxs(chain[..k]), ID)
        decreases |chain| - k
      {
        WalkTail(Database.blocks, iter.CurrentHash, chain, k);
        var block := iter.Next();
        var i := SearchBlock(block.Transactions, ID);
        if i < |block.Transactions| {
          FoundInWalk(chain, k, i, ID);
          return Ok(block.Transactions[i]);
        }
        assert block.Transactions[..i] == block.Transactions;
        NotInBlock(chain, k, ID);
        if |block.PrevHash| == 0 {
          assert chain[..k + 1] == chain;
          break;
        }
        WalkGoesOn(Database.blocks, Lasthash, chain, k, ID);
        k := k + 1;
      }
      FindTxSpec(AllTxs(chain), ID);
      return Err(TxNotFound);
    }

    /** The input loop shared by `SignTransaction` and `VerifyTransaction`.
        A missing input transaction is looked for down the whole chain. */
    method CollectPrevTxs(ins: seq<TxInput>, ghost chain: seq<Block>) returns (r: Result<map<Bytes, Transaction>>)
      requires Valid() && IsWalk(Database.blocks, Lasthash, chain)
      requires IsChain(Database.blocks, Lasthash, chain) || AllFound(AllTxs(chain), ins)
      ensures r == PrevTxs(AllTxs(chain), ins)
    {
      var prevTXs := map[];
      var i := 0;
      while i < |ins|
        invariant 0 <= i <= |ins|
        invariant PrevTxs(AllTxs(chain), ins[..i]) == Ok(prevTXs)
      {
        assert ins[..i + 1][..i] == ins[..i];
        var prevTX := FindTransaction(ins[i].ID, chain);
        if prevTX.Err? {
          PrevTxsPrefixErr(AllTxs(chain), ins, i + 1);
          return Err(prevTX.error);
        }
        prevTXs := prevTXs[prevTX.value.ID := prevTX.value];
        i := i + 1;
      }
      assert ins[..i] == ins;
      return Ok(prevTXs);
    }

    /** `SignTransaction`: `tx` signed with `privKey` over the transactions
        its inputs spend; `TxNotFound` when one of them is not in the walk
        (the Go code panics). */
    method SignTransaction(tx: Transaction, privKey: Bytes, ghost chain: seq<Block>) returns (r: Result<Transaction>)
      requires Valid() && IsWalk(Database.blocks, Lasthash, chain)
      requires IsChain(Database.blocks, Lasthash, chain) || AllFound(AllTxs(chain), tx.Inputs)
      ensures r.Err? <==> PrevTxs(AllTxs(chain), tx.Inputs).Err?
      ensures r.Err? ==> r.error == TxNotFound
      ensures r.Ok? ==> r.value == env.sign(tx, privKey, PrevTxs(AllTxs(chain), tx.Inputs).value)
    {
      PrevTxsFound(AllTxs(chain), tx.Inputs);
      var prevTXs := CollectPrevTxs(tx.Inputs, chain);
      if prevTXs.Err? {
        return Err(prevTXs.error);
      }
      return Ok(env.sign(tx, privKey, prevTXs.value));
    }

    /** `VerifyTransaction`: the verdict on `tx` against the walk. */
    method VerifyTransaction(tx: Transaction, ghost chain: seq<Block>) returns (r: Result<bool>)
      requires Valid() && IsWalk(Database.blocks, Lasthash, chain)
      requires IsChain(Database.blocks, Lasthash, chain) || env.isCoinbase(tx) || AllFound(AllTxs(chain), tx.Inputs)
      ensures r == Verdict(env, AllTxs(chain), tx)
    {
      if env.isCoinbase(tx) {
        return Ok(true);
      }
      var prevTXs := CollectPrevTxs(tx.Inputs, chain);
      if prevTXs.Err? {
        return Err(prevTXs.error);
      }
      return Ok(env.verify(tx, prevTXs.value));
    }

    /** `MineBlock`: when every transaction is accepted, a block over them on
        top of the head, one higher, stored and made the head; otherwise
        the reason of the first refusal, with the store untouched. */
    method MineBlock(transactions: seq<Transaction>, ghost chain: seq<Block>) returns (r: Result<Block>)
      requires Valid() && IsWalk(Database.blocks, Lasthash, chain)
      requires IsChain(Database.blocks, Lasthash, chain) || WalkAnswers(env, AllTxs(chain), transactions)
      modifies this, Database
      ensures Valid()
      ensures r.Err? <==> Rejection(env, AllTxs(chain), transactions).Some?
      ensures r.Err? ==> r.error == Rejection(env, AllTxs(chain), transactions).value
      ensures r.Err? ==> Database.blocks == old(Database.blocks) && Lasthash == old(Lasthash)
      ensures r.Ok? ==>
        r.value == CreateBlock(env, transactions, old(Lasthash), old(Database.blocks[Lasthash].Height) + 1)
      ensures r.Ok? ==> Database.blocks == old(Database.blocks)[r.value.Hash := r.value] && Lasthash == r.value.Hash
      ensures (&& r.Ok? && r.value.Hash !in old(Database.blocks) && |old(Lasthash)| > 0
               && IsChain(old(Database.blocks), old(Lasthash), chain) && HeightsStep(chain)) ==>
        IsChain(Database.blocks, Lasthash, [r.value] + chain) && HeightsStep([r.value] + chain)
    {
      ghost var all := AllTxs(chain);
      var i := 0;
      while i < |transactions|
        invariant 0 <= i <= |transactions|
        invariant Rejection(env, all, transactions) == Rejection(env, all, transactions[i..])
        invariant IsChain(Database.blocks, Lasthash, chain) || WalkAnswers(env, all, transactions[i..])
        invariant Database.blocks == old(Database.blocks) && Database.head == old(Database.head)
        invariant Lasthash == old(Lasthash)
      {
        var verdict := VerifyTransaction(transactions[i], chain);
        if verdict.Err? {
          return Err(verdict.error);
        }
        if !verdict.value {
          return Err(InvalidTransaction);
        }
        assert transactions[i..][1..] == transactions[i + 1..];
        i := i + 1;
      }
      var lasthash := Database.head;
      var lastblock := Database.blocks[lasthash];
      var newBlock := CreateBlock(env, transactions, lasthash, lastblock.Height + 1);
      if newBlock.Hash !in Database.blocks && |lasthash| > 0 && HeightsStep(chain) && IsChain(Database.blocks, lasthash, chain) {
        MinedChainExtends(Database.blocks, chain, newBlock);
      }
      Database.blocks := Database.blocks[newBlock.Hash := newBlock];
      Database.head := newBlock.Hash;
      Lasthash := newBlock.Hash;
      return Ok(newBlock);
    }

    /** `FindUTXO`: for each transaction ID, the outputs no input met
        earlier in the walk spends, in walk order; IDs with none are
        absent. */
    method FindUTXO(ghost chain: seq<Block>) returns (UTXO: map<Bytes, TxOutputs>)
      requires Valid() && IsChain(Database.blocks, Lasthash, chain)
      ensures UTXO == ScanTxs(env.isCoinbase, AllTxs(chain)).utxo
      ensures forall id :: id in UTXO <==> Unspent(env.isCoinbase, AllTxs(chain), id) != []
      ensures forall id :: id in UTXO ==> UTXO[id].Outputs == Unspent(env.isCoinbase, AllTxs(chain), id)
    {
      UTXO := map[];
      var spentTXOs: SpentMap := map[];
      assert chain[0..] == chain;
      var iter := Iterator();
      ghost var k := 0;
      while true
        invariant 0 <= k < |chain|
        invariant IsChain(Database.blocks, iter.CurrentHash, chain[k..])
        invariant Scan(UTXO, spentTXOs) == ScanTxs(env.isCoinbase, AllTxs(chain[..k]))
        decreases |chain| - k
      {
        ChainTail(Database.blocks, iter.CurrentHash, chain, k);
        var block := iter.Next();
        UTXO, spentTXOs := ScanBlock(env.isCoinbase, AllTxs(chain[..k]), UTXO, spentTXOs, block.Transactions);
        AllTxsStep(chain, k);
        if |block.PrevHash| == 0 {
          assert chain[..k + 1] == chain;
          break;
        }
        k := k + 1;
      }
      ScanUtxoSpec(env.isCoinbase, AllTxs(chain));
    }
  }

  /** `InitBlockChain`: refused when a store already exists (the Go code
      exits the goroutine); otherwise a new store holding only the genesis
      block, whose coinbase pays `address`, as its head. */
  method InitBlockChain(env: Env, address: string, storeExists: bool) returns (bc: BlockChain?)
    ensures bc == null <==> storeExists
    ensures bc != null ==> fresh(bc) && fresh(bc.Database) && bc.env == env && bc.Valid()
    ensures bc != null ==>
      var genesis := Genesis(env, env.coinbaseTx(address, GenesisData));
      && bc.Database.blocks == map[genesis.Hash := genesis]
      && bc.Lasthash == genesis.Hash
      && IsChain(bc.Database.blocks, bc.Lasthash, [genesis])
  {
    if storeExists {
      return null;
    }
    var cbtx := env.coinbaseTx(address, GenesisData);
    var genesis := Genesis(env, cbtx);
    var db := new Database(genesis);
    bc := new BlockChain(genesis.Hash, db, env);
  }

  /** `ContinueBlockChain`: refused when there is no store; otherwise the
      ledger over it, at the head recorded under "lh". */
  method ContinueBlockChain(env: Env, db: Database?) returns (bc: BlockChain?)
    requires db != null ==> db.Valid()
    ensures bc == null <==> db == null
    ensures bc != null ==> fresh(bc) && bc.Database == db && bc.Lasthash == db.head && bc.env == env && bc.Valid()
  {
    if db == null {
      return null;
    }
    bc := new BlockChain(db.head, db, env);
  }
}
