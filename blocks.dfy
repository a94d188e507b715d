/** Blocks and the collaborators of the ledger whose code is not part of this
    model (block.go, transaction.go, the wallet package, crypto/sha256).
    Each collaborator is a function value in `Env`, so every property proved
    here holds whatever those functions compute. */
module Blocks {
  import opened Bytes
  import opened Tx

  /** A SHA-256 digest. */
  type Hash32 = s: Bytes | |s| == 32 witness seq(32, _ => 0)

  /** The fields of a block that the ledger reads. */
  datatype Block = Block(
    Hash: Bytes,
    PrevHash: Bytes,
    Transactions: seq<Transaction>,
    Nonce: Int64,
    Height: int)

  /** What `CreateBlock` obtains from the proof-of-work search: the block's
      hash and nonce. */
  datatype Seal = Seal(hash: Bytes, nonce: Int64)

  datatype Env = Env(
    sha256: Bytes -> Hash32,                                    // crypto/sha256.Sum256
    hashTransactions: seq<Transaction> -> Bytes,                // Block.HashTransactions
    seal: (seq<Transaction>, Bytes, int) -> Seal,               // the mining inside CreateBlock
    coinbaseTx: (string, string) -> Transaction,                // CoinbaseTx(to, data)
    isCoinbase: Transaction -> bool,                            // Transaction.IsCoinbase
    verify: (Transaction, map<Bytes, Transaction>) -> bool,     // Transaction.Verify
    sign: (Transaction, Bytes, map<Bytes, Transaction>) -> Transaction, // Transaction.Sign
    base58Decode: Bytes -> Bytes,                               // wallet.Base58Decode
    publicKeyHash: Bytes -> Bytes)                              // wallet.PublicKeyHash

  /** `CreateBlock(txs, prevHash, height)`: a block over `txs` whose parent is
      `prevHash`, sealed by the proof-of-work search. */
  function CreateBlock(env: Env, txs: seq<Transaction>, prevHash: Bytes, height: int): (b: Block)
    ensures b.Transactions == txs && b.PrevHash == prevHash && b.Height == height
  {
    var s := env.seal(txs, prevHash, height);
    Block(s.hash, prevHash, txs, s.nonce, height)
  }

  /** `Genesis(coinbase)`: the parentless block at height 0. */
  function Genesis(env: Env, coinbase: Transaction): (b: Block)
    ensures b.Transactions == [coinbase] && b.PrevHash == [] && b.Height == 0
  {
    CreateBlock(env, [coinbase], [], 0)
  }

  /** The transactions of `chain` in the order a walk from its first block
      meets them. */
  function AllTxs(chain: seq<Block>): seq<Transaction>
  {
    if chain == [] then [] else AllTxs(chain[..|chain| - 1]) + chain[|chain| - 1].Transactions
  }

  lemma AllTxsStep(chain: seq<Block>, k: nat)
    requires k < |chain|
    ensures AllTxs(chain[..k + 1]) == AllTxs(chain[..k]) + chain[k].Transactions
  {
    assert chain[..k + 1][..k] == chain[..k];
  }

  /** The transactions of a prefix of the chain come first. */
  lemma {:induction false} AllTxsPrefix(chain: seq<Block>, k: nat)
    requires k <= |chain|
    ensures AllTxs(chain[..k]) <= AllTxs(chain)
  {
    if k < |chain| {
      AllTxsPrefix(chain[..|chain| - 1], k);
      assert chain[..|chain| - 1][..k] == chain[..k];
    } else {
      assert chain[..k] == chain;
    }
  }
}
