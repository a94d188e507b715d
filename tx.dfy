/** Transactions, their inputs and outputs, output locking and the
    serialisation of a transaction's output list (blockchain/tx.go). */
module Tx {
  import opened Bytes
  import opened Results

  /** A reference to output `Out` of transaction `ID`, with the spender's
      signature and public key. */
  datatype TxInput = TxInput(ID: Bytes, Out: int, Sig: Bytes, PubKey: Bytes)

  /** `Value` coins spendable by the owner of `PubKeyHash`. */
  datatype TxOutput = TxOutput(Value: Int64, PubKeyHash: Bytes)

  /** The unit the UTXO index stores per transaction ID. */
  datatype TxOutputs = TxOutputs(Outputs: seq<TxOutput>)

  /** The fields of a transaction that the ledger reads (transaction.go is
      not part of this model). */
  datatype Transaction = Transaction(ID: Bytes, Inputs: seq<TxInput>, Outputs: seq<TxOutput>)

  // ---------------------------------------------------------------------
  // Ownership checks

  /** `TxInput.UsesKey`: the input's public key hashes to `pubKeyHash`.
      `publicKeyHash` is the wallet's hash of a public key. */
  function UsesKey(publicKeyHash: Bytes -> Bytes, input: TxInput, pubKeyHash: Bytes): (r: bool)
    ensures r <==> publicKeyHash(input.PubKey) == pubKeyHash
  {
    CompareZeroIffEqual(publicKeyHash(input.PubKey), pubKeyHash);
    Compare(publicKeyHash(input.PubKey), pubKeyHash) == 0
  }

  /** `TxOutput.IsLockedWithKey`. */
  function IsLockedWithKey(out: TxOutput, pubKeyHash: Bytes): (r: bool)
    ensures r <==> out.PubKeyHash == pubKeyHash
  {
    CompareZeroIffEqual(out.PubKeyHash, pubKeyHash);
    Compare(out.PubKeyHash, pubKeyHash) == 0
  }

  /** `TxOutput.Lock`: the output locked to `address`, whose decoded form is
      a version byte, the public-key hash and a 4-byte checksum.
      `base58Decode` is the wallet's address decoder. Slicing panics on a
      decoded address shorter than 5 bytes. */
  function Lock(base58Decode: Bytes -> Bytes, out: TxOutput, address: Bytes): (r: TxOutput)
    requires |base58Decode(address)| >= 5
    ensures r.Value == out.Value
    ensures var d := base58Decode(address);
      |r.PubKeyHash| == |d| - 5 && d == [d[0]] + r.PubKeyHash + d[|d| - 4..]
  {
    var d := base58Decode(address);
    var r := out.(PubKeyHash := d[1..|d| - 4]);
    assert d == [d[0]] + d[1..|d| - 4] + d[|d| - 4..];
    r
  }

  /** `NewTXOutput`: an output of `value` coins locked to `address`. */
  function NewTXOutput(base58Decode: Bytes -> Bytes, value: Int64, address: Bytes): (r: TxOutput)
    requires |base58Decode(address)| >= 5
    ensures r.Value == value
    ensures var d := base58Decode(address);
      forall key :: IsLockedWithKey(r, key) <==> key == d[1..|d| - 4]
  {
    var r := Lock(base58Decode, TxOutput(value, []), address);
    var d := base58Decode(address);
    assert r.PubKeyHash == d[1..|d| - 4] by {
      assert d[1..|d| - 4] == (d[..1] + r.PubKeyHash + d[|d| - 4..])[1..|d| - 4];
    }
    r
  }

  // ---------------------------------------------------------------------
  // TxOutputs.Serialize / DeserializeOutputs
  //
  // A self-delimiting big-endian codec: the output count, then for each
  // output its value and the length of its key hash (8 bytes each) and the
  // key hash itself.

  /** Every length fits Go's `int`, as the length of a Go slice does. */
  predicate Encodable(outs: seq<TxOutput>)
  {
    |outs| <= MaxInt64 && forall o :: o in outs ==> |o.PubKeyHash| <= MaxInt64
  }

  function EncodeOutput(o: TxOutput): Bytes
    requires |o.PubKeyHash| <= MaxInt64
  {
    PutInt64(o.Value) + PutInt64(|o.PubKeyHash|) + o.PubKeyHash
  }

  function EncodeOutputList(os: seq<TxOutput>): Bytes
    requires forall o :: o in os ==> |o.PubKeyHash| <= MaxInt64
  {
    if os == [] then [] else EncodeOutput(os[0]) + EncodeOutputList(os[1..])
  }

  function DecodeOutput(data: Bytes): Option<(TxOutput, Bytes)>
  {
    if |data| < 16 then None
    else
      var value := GetInt64(data[..8]);
      var n := GetInt64(data[8..16]);
      if n < 0 || |data| - 16 < n then None
      else Some((TxOutput(value, data[16..16 + n]), data[16 + n..]))
  }

  function DecodeOutputList(data: Bytes, count: nat): Option<(seq<TxOutput>, Bytes)>
  {
    if count == 0 then Some(([], data))
    else
      var first := DecodeOutput(data);
      if first.None? then None
      else
        var more := DecodeOutputList(first.value.1, count - 1);
        if more.None? then None
        else Some(([first.value.0] + more.value.0, more.value.1))
  }

  /** `TxOutputs.Serialize`: decoding what it writes gives back `outs`. */
  function Serialize(outs: TxOutputs): (data: Bytes)
    requires Encodable(outs.Outputs)
    ensures DeserializeOutputs(data) == Some(outs)
  {
    var data := PutInt64(|outs.Outputs|) + EncodeOutputList(outs.Outputs);
    assert data[..8] == PutInt64(|outs.Outputs|) && data[8..] == EncodeOutputList(outs.Outputs) + [];
    GetPutInt64(|outs.Outputs|);
    DecodeOutputListRoundTrip(outs.Outputs, []);
    data
  }

  /** `DeserializeOutputs`: `None` where the Go decoder panics on malformed
      input. A decoded list always fits Go's slice lengths. */
  function DeserializeOutputs(data: Bytes): (r: Option<TxOutputs>)
    ensures r.Some? ==> Encodable(r.value.Outputs) && |data| >= 8 && |r.value.Outputs| == GetInt64(data[..8])
  {
    if |data| < 8 then None
    else
      var n := GetInt64(data[..8]);
      if n < 0 then None
      else
        match DecodeOutputList(data[8..], n)
        case None => None
        case Some((os, _)) =>
          DecodedFits(data[8..], n);
          Some(TxOutputs(os))
  }

  lemma {:induction false} DecodedFits(data: Bytes, count: nat)
    requires DecodeOutputList(data, count).Some?
    ensures var os := DecodeOutputList(data, count).value.0;
      |os| == count && forall o :: o in os ==> |o.PubKeyHash| <= MaxInt64
  {
    if count > 0 {
      DecodedFits(DecodeOutput(data).value.1, count - 1);
    }
  }

  lemma DecodeOutputRoundTrip(o: TxOutput, tail: Bytes)
    requires |o.PubKeyHash| <= MaxInt64
    ensures DecodeOutput(EncodeOutput(o) + tail) == Some((o, tail))
  {
    var n := |o.PubKeyHash|;
    var data := EncodeOutput(o) + tail;
    assert data[..8] == PutInt64(o.Value);
    assert data[8..16] == PutInt64(n);
    GetPutInt64(o.Value);
    GetPutInt64(n);
    assert data[16..16 + n] == o.PubKeyHash;
    assert data[16 + n..] == tail;
  }

  lemma {:induction false} DecodeOutputListRoundTrip(os: seq<TxOutput>, rest: Bytes)
    requires forall o :: o in os ==> |o.PubKeyHash| <= MaxInt64
    ensures DecodeOutputList(EncodeOutputList(os) + rest, |os|) == Some((os, rest))
  {
    if os != [] {
      var tail := EncodeOutputList(os[1..]) + rest;
      var data := EncodeOutputList(os) + rest;
      assert data == EncodeOutput(os[0]) + tail;
      DecodeOutputRoundTrip(os[0], tail);
      assert DecodeOutput(data) == Some((os[0], tail));
      DecodeOutputListRoundTrip(os[1..], rest);
      assert [os[0]] + os[1..] == os;
    } else {
      assert EncodeOutputList(os) + rest == rest;
    }
  }
}
