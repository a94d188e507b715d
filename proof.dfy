/** The proof-of-work engine (blockchain/proof.go): the fixed target, the
    digest input of a block, the first-hit nonce search and its re-check.
    SHA-256 and the transaction digest are the `Env` functions. */
module Proof {
  import opened Bytes
  import opened Tx
  import opened Blocks

  /** The number of leading zero bits a block hash must have. */
  const Difficulty: nat := 10

  datatype ProofOfWork = ProofOfWork(Block: Block, Target: nat)

  /** `big.Int.Lsh`: `x` shifted left by `n` bits. */
  function Lsh(x: nat, n: nat): nat
  {
    if n == 0 then x else 2 * Lsh(x, n - 1)
  }

  lemma {:induction false} LshIsMul(x: nat, n: nat)
    ensures Lsh(x, n) == x * Pow2(n)
  {
    if n > 0 {
      LshIsMul(x, n - 1);
    }
  }

  /** `NewProof`: the target is `1 << (256 - Difficulty)`, so a 32-byte hash
      is below it exactly when its first `Difficulty` bits are zero. */
  function NewProof(b: Block): (pow: ProofOfWork)
    ensures pow.Block == b
    ensures pow.Target == Pow2(256 - Difficulty)
    ensures forall h: Bytes :: |h| == 32 ==> (BeValue(h) < pow.Target <==> LeadingZeroBits(h, Difficulty))
  {
    LshIsMul(1, 256 - Difficulty);
    TargetMeansLeadingZeros(32, Difficulty);
    ProofOfWork(b, Lsh(1, 256 - Difficulty))
  }

  /** `ToHex`: the 8-byte big-endian two's-complement encoding of `num`. */
  function ToHex(num: Int64): (r: Bytes)
    ensures |r| == 8
  {
    PutInt64(num)
  }

  /** `ToHex` is big-endian two's complement: read as an unsigned number it
      is `num` modulo 2^64, and read back as a signed one it is `num`. */
  lemma ToHexReadBack(num: Int64)
    ensures GetInt64(ToHex(num)) == num
    ensures BeValue(ToHex(num)) == num % Two64
  {
    GetPutInt64(num);
    Pow256Of8();
    BeValueOfBeBytes(num % Two64, 8);
  }

  /** `InitData`: the block's parent hash, its transaction digest, then the
      nonce and the difficulty as 8 bytes each, with no separators. */
  function InitData(env: Env, pow: ProofOfWork, nonce: Int64): (data: Bytes)
    ensures |data| == |pow.Block.PrevHash| + |env.hashTransactions(pow.Block.Transactions)| + 16
  {
    pow.Block.PrevHash + env.hashTransactions(pow.Block.Transactions) + ToHex(nonce) + ToHex(Difficulty)
  }

  /** The digest input starts with the parent hash and the transaction
      digest, and the nonce and the difficulty can be read back from its
      last 16 bytes. */
  lemma InitDataReadBack(env: Env, pow: ProofOfWork, n: Int64)
    ensures var data := InitData(env, pow, n);
      var prefix := pow.Block.PrevHash + env.hashTransactions(pow.Block.Transactions);
      && data[..|prefix|] == prefix
      && GetInt64(data[|data| - 16..|data| - 8]) == n
      && GetInt64(data[|data| - 8..]) == Difficulty
  {
    var prefix := pow.Block.PrevHash + env.hashTransactions(pow.Block.Transactions);
    var data := InitData(env, pow, n);
    ToHexReadBack(n);
    ToHexReadBack(Difficulty);
    assert data[..|prefix|] == prefix;
    assert data[|data| - 16..|data| - 8] == ToHex(n);
    assert data[|data| - 8..] == ToHex(Difficulty);
  }

  /** Different nonces give different digest inputs. */
  lemma InitDataInjective(env: Env, pow: ProofOfWork, m: Int64, n: Int64)
    ensures InitData(env, pow, m) == InitData(env, pow, n) ==> m == n
  {
    InitDataReadBack(env, pow, m);
    InitDataReadBack(env, pow, n);
  }

  /** The hash of the digest input for `nonce`, read as an unsigned
      big-endian integer, is below the target. */
  predicate Hits(env: Env, pow: ProofOfWork, nonce: Int64)
  {
    BeValue(HashAt(env, pow, nonce)) < pow.Target
  }

  /** The SHA-256 hash of the digest input for `nonce`. */
  function HashAt(env: Env, pow: ProofOfWork, nonce: Int64): Hash32
  {
    env.sha256(InitData(env, pow, nonce))
  }

  /** `Run`: the first nonce from 0 upward that hits the target, and its
      hash; when none below `MaxInt64` does, `MaxInt64` and the hash of the
      last nonce tried. */
  method Run(env: Env, pow: ProofOfWork) returns (nonce: int, hash: Hash32)
    ensures 0 <= nonce <= MaxInt64
    ensures nonce < MaxInt64 ==> Hits(env, pow, nonce)
    ensures forall n: Int64 :: 0 <= n < nonce ==> !Hits(env, pow, n)
    ensures nonce < MaxInt64 ==> hash == HashAt(env, pow, nonce)
    ensures nonce == MaxInt64 ==> hash == HashAt(env, pow, MaxInt64 - 1)
  {
    hash := seq(32, _ => 0);
    nonce := 0;
    while nonce < MaxInt64
      invariant 0 <= nonce <= MaxInt64
      invariant forall n: Int64 :: 0 <= n < nonce ==> !Hits(env, pow, n)
      invariant nonce > 0 ==> hash == HashAt(env, pow, nonce - 1)
    {
      var data := InitData(env, pow, nonce);
      hash := env.sha256(data);
      assert hash == HashAt(env, pow, nonce);
      if BeValue(hash) < pow.Target {
        break;
      }
      assert !Hits(env, pow, nonce);
      nonce := nonce + 1;
    }
  }

  /** `Validate`: the block's stored nonce hits the target; with the standard
      target, its hash has `Difficulty` leading zero bits. */
  function Validate(env: Env, pow: ProofOfWork): (r: bool)
    ensures r <==> BeValue(env.sha256(InitData(env, pow, pow.Block.Nonce))) < pow.Target
    ensures pow.Target == Pow2(256 - Difficulty) ==>
      (r <==> LeadingZeroBits(env.sha256(InitData(env, pow, pow.Block.Nonce)), Difficulty))
  {
    TargetMeansLeadingZeros(32, Difficulty);
    Hits(env, pow, pow.Block.Nonce)
  }

  /** Storing the nonce found by `Run` in the block makes it validate: the
      digest input does not depend on the stored nonce. */
  lemma RunNonceValidates(env: Env, b: Block, nonce: Int64)
    requires Hits(env, NewProof(b), nonce)
    ensures Validate(env, NewProof(b.(Nonce := nonce)))
  {
    assert InitData(env, NewProof(b.(Nonce := nonce)), nonce) == InitData(env, NewProof(b), nonce);
  }

  // ---------------------------------------------------------------------
  // Leading zero bits

  /** The `w`-bit binary expansion of `x`, most significant bit first. */
  function WidthBits(x: nat, w: nat): (bits: seq<bool>)
    requires x < Pow2(w)
    ensures |bits| == w
  {
    if w == 0 then []
    else
      var p := Pow2(w - 1);
      if x >= p then [true] + WidthBits(x - p, w - 1) else [false] + WidthBits(x, w - 1)
  }

  /** The bits of a byte string, most significant first. */
  function Bits(h: Bytes): (bits: seq<bool>)
    ensures |bits| == 8 * |h|
  {
    if h == [] then []
    else
      assert Pow2(8) == 256;
      WidthBits(h[0], 8) + Bits(h[1..])
  }

  /** The first `d` bits of `h` are all zero. */
  predicate LeadingZeroBits(h: Bytes, d: nat)
    requires d <= 8 * |h|
  {
    var bits := Bits(h);
    forall i :: 0 <= i < d ==> !bits[i]
  }

  /** The unsigned value of a bit string, most significant bit first. */
  function BitsValue(bits: seq<bool>): (v: nat)
    ensures v < Pow2(|bits|)
  {
    if bits == [] then 0
    else (if bits[0] then Pow2(|bits| - 1) else 0) + BitsValue(bits[1..])
  }

  lemma {:induction false} WidthBitsValue(x: nat, w: nat)
    requires x < Pow2(w)
    ensures BitsValue(WidthBits(x, w)) == x
  {
    if w > 0 {
      var p := Pow2(w - 1);
      var bits := WidthBits(x, w);
      if x >= p {
        assert bits[1..] == WidthBits(x - p, w - 1);
        WidthBitsValue(x - p, w - 1);
      } else {
        assert bits[1..] == WidthBits(x, w - 1);
        WidthBitsValue(x, w - 1);
      }
    }
  }

  lemma {:induction false} BitsValueAppend(a: seq<bool>, c: seq<bool>)
    ensures BitsValue(a + c) == BitsValue(a) * Pow2(|c|) + BitsValue(c)
  {
    if a != [] {
      var p := Pow2(|c|);
      var top := if a[0] then Pow2(|a| - 1) else 0;
      assert (a + c)[1..] == a[1..] + c;
      BitsValueAppend(a[1..], c);
      Pow2Add(|a| - 1, |c|);
      assert BitsValue(a + c) == top * p + BitsValue(a[1..]) * p + BitsValue(c);
      Distribute(top, BitsValue(a[1..]), p);
    } else {
      assert a + c == c;
    }
  }

  lemma Distribute(x: nat, y: nat, p: nat)
    ensures (x + y) * p == x * p + y * p
  {
  }

  /** `Bits(h)` is the binary expansion of the big-endian value of `h`. */
  lemma {:induction false} BitsValueOfBytes(h: Bytes)
    ensures BitsValue(Bits(h)) == BeValue(h)
  {
    if h != [] {
      assert Pow2(8) == 256;
      BitsValueAppend(WidthBits(h[0], 8), Bits(h[1..]));
      WidthBitsValue(h[0], 8);
      BitsValueOfBytes(h[1..]);
      Pow256IsPow2(|h| - 1);
    }
  }

  /** A bit string is below `2^(|bits| - d)` iff its first `d` bits are zero. */
  lemma {:induction false} BitsBelowIffLeadingZeros(bits: seq<bool>, d: nat)
    requires d <= |bits|
    ensures BitsValue(bits) < Pow2(|bits| - d) <==> forall i :: 0 <= i < d ==> !bits[i]
  {
    if d > 0 {
      if bits[0] {
        Pow2Monotone(|bits| - d, |bits| - 1);
      } else {
        BitsBelowIffLeadingZeros(bits[1..], d - 1);
        assert forall i :: 1 <= i < d ==> bits[i] == bits[1..][i - 1];
      }
    }
  }

  /** For an `n`-byte hash, being below `2^(8n - d)` is having `d` leading
      zero bits. */
  lemma TargetMeansLeadingZeros(n: nat, d: nat)
    requires d <= 8 * n
    ensures forall h: Bytes :: |h| == n ==> (BeValue(h) < Pow2(8 * n - d) <==> LeadingZeroBits(h, d))
  {
    forall h: Bytes | |h| == n
      ensures BeValue(h) < Pow2(8 * n - d) <==> LeadingZeroBits(h, d)
    {
      BitsValueOfBytes(h);
      BitsBelowIffLeadingZeros(Bits(h), d);
    }
  }
}
