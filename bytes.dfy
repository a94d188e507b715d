/** Byte strings and the pieces of Go's `bytes`, `encoding/binary` and
    `math/big` packages that the ledger relies on: lexicographic comparison,
    big-endian reading of an unsigned integer, and the 8-byte big-endian
    two's-complement encoding of an `int64`. */
module Bytes {

  type byte = x: int | 0 <= x < 256
  type Bytes = seq<byte>

  /** Go's `int64` (and `int` on a 64-bit platform). */
  type Int64 = x: int | -0x8000_0000_0000_0000 <= x < 0x8000_0000_0000_0000

  const MaxInt64: Int64 := 0x7fff_ffff_ffff_ffff
  const Two63: nat := 0x8000_0000_0000_0000
  const Two64: nat := 0x1_0000_0000_0000_0000

  // ---------------------------------------------------------------------
  // bytes.Compare

  /** Lexicographic three-way comparison; a proper prefix is smaller. */
  function Compare(a: Bytes, b: Bytes): (r: int)
    ensures -1 <= r <= 1
  {
    if |a| == 0 && |b| == 0 then 0
    else if |a| == 0 then -1
    else if |b| == 0 then 1
    else if a[0] < b[0] then -1
    else if a[0] > b[0] then 1
    else Compare(a[1..], b[1..])
  }

  /** `bytes.Compare(a, b) == 0` is byte-for-byte equality. */
  lemma {:induction false} CompareZeroIffEqual(a: Bytes, b: Bytes)
    ensures Compare(a, b) == 0 <==> a == b
  {
    if |a| > 0 && |b| > 0 && a[0] == b[0] {
      CompareZeroIffEqual(a[1..], b[1..]);
      assert a == [a[0]] + a[1..];
      assert b == [b[0]] + b[1..];
    }
  }

  // ---------------------------------------------------------------------
  // Powers

  function Pow2(n: nat): (r: nat)
    ensures r > 0
  {
    if n == 0 then 1 else 2 * Pow2(n - 1)
  }

  function Pow256(n: nat): (r: nat)
    ensures r > 0
  {
    if n == 0 then 1 else 256 * Pow256(n - 1)
  }

  lemma {:induction false} Pow2Add(a: nat, b: nat)
    ensures Pow2(a + b) == Pow2(a) * Pow2(b)
  {
    if b > 0 {
      Pow2Add(a, b - 1);
    }
  }

  lemma {:induction false} Pow2Monotone(a: nat, b: nat)
    requires a <= b
    ensures Pow2(a) <= Pow2(b)
  {
    if a < b {
      Pow2Monotone(a, b - 1);
    }
  }

  lemma {:induction false} Pow256IsPow2(n: nat)
    ensures Pow256(n) == Pow2(8 * n)
  {
    if n > 0 {
      Pow256IsPow2(n - 1);
      Pow2Add(8 * (n - 1), 8);
      assert Pow2(8) == 256;
    }
  }

  lemma Pow256Of8()
    ensures Pow256(8) == Two64
  {
  }

  // ---------------------------------------------------------------------
  // Unsigned big-endian integers (big.Int.SetBytes and its inverse)

  /** The unsigned integer whose big-endian bytes are `s`. */
  function BeValue(s: Bytes): (v: nat)
    ensures v < Pow256(|s|)
  {
    if |s| == 0 then 0
    else
      var p := Pow256(|s| - 1);
      MulMonotone(s[0], 255, p);
      s[0] * p + BeValue(s[1..])
  }

  /** The `w` big-endian bytes of `x`. */
  function BeBytes(x: nat, w: nat): (s: Bytes)
    requires x < Pow256(w)
    ensures |s| == w
  {
    if w == 0 then []
    else
      var p := Pow256(w - 1);
      assert x < 256 * p;
      DivBelow(x, p, 256);
      var hi: byte := x / p;
      var lo := x % p;
      assert lo < p;
      [hi] + BeBytes(lo, w - 1)
  }

  /** Writing `x` in `w` bytes and reading it back gives `x`. */
  lemma {:induction false} BeValueOfBeBytes(x: nat, w: nat)
    requires x < Pow256(w)
    ensures BeValue(BeBytes(x, w)) == x
  {
    if w > 0 {
      var p := Pow256(w - 1);
      var s := BeBytes(x, w);
      assert s[0] == x / p && s[1..] == BeBytes(x % p, w - 1);
      BeValueOfBeBytes(x % p, w - 1);
      DivModIdentity(x, p);
    }
  }

  /** Reading and then writing back the same width gives the same bytes. */
  lemma {:induction false} BeBytesOfBeValue(s: Bytes)
    ensures BeBytes(BeValue(s), |s|) == s
  {
    if |s| > 0 {
      var p := Pow256(|s| - 1);
      DivModOf(s[0], p, BeValue(s[1..]));
      BeBytesOfBeValue(s[1..]);
      assert s == [s[0]] + s[1..];
    }
  }

  // ---------------------------------------------------------------------
  // binary.Write(buf, binary.BigEndian, int64) and its reader

  /** The 8 big-endian bytes of the two's-complement form of `n`. */
  function PutInt64(n: Int64): (s: Bytes)
    ensures |s| == 8
  {
    Pow256Of8();
    BeBytes(n % Two64, 8)
  }

  /** Reads 8 big-endian bytes as a two's-complement `int64`. */
  function GetInt64(s: Bytes): Int64
    requires |s| == 8
  {
    Pow256Of8();
    var v := BeValue(s);
    if v < Two63 then v else v - Two64
  }

  lemma GetPutInt64(n: Int64)
    ensures GetInt64(PutInt64(n)) == n
  {
    Pow256Of8();
    BeValueOfBeBytes(n % Two64, 8);
    if n < 0 {
      assert n % Two64 == n + Two64;
    } else {
      assert n % Two64 == n;
    }
  }

  lemma PutGetInt64(s: Bytes)
    requires |s| == 8
    ensures PutInt64(GetInt64(s)) == s
  {
    Pow256Of8();
    var v := BeValue(s);
    if v >= Two63 {
      assert (v - Two64) % Two64 == v;
    }
    BeBytesOfBeValue(s);
  }

  /** `PutInt64` is a bijection between `int64` values and 8-byte strings. */
  lemma PutInt64Injective(m: Int64, n: Int64)
    requires PutInt64(m) == PutInt64(n)
    ensures m == n
  {
    GetPutInt64(m);
    GetPutInt64(n);
  }

  // ---------------------------------------------------------------------
  // Arithmetic helpers

  lemma MulMonotone(a: nat, b: nat, p: nat)
    requires a <= b
    ensures a * p <= b * p
  {
  }

  lemma DivModIdentity(x: nat, p: nat)
    requires p > 0
    ensures x == (x / p) * p + x % p
  {
  }

  lemma DivBelow(x: nat, p: nat, k: nat)
    requires p > 0 && x < k * p
    ensures x / p < k
  {
    if x / p >= k {
      MulMonotone(k, x / p, p);
    }
  }

  lemma DivModOf(q: nat, p: nat, r: nat)
    requires 0 <= r < p
    ensures (q * p + r) / p == q && (q * p + r) % p == r
  {
    var x := q * p + r;
    var q', r' := x / p, x % p;
    assert x == q' * p + r';
    if q' < q {
      MulMonotone(q' + 1, q, p);
    } else if q' > q {
      MulMonotone(q + 1, q', p);
    }
  }
}
