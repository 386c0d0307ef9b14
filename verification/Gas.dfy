/** Gas of one transaction (state/executor.go TransactionGasCost, state/runtime/runtime.go UpdateGasUsed). */
module TransactionGas {
  import opened Arithmetic
  import opened Transactions

  const TX_GAS: nat := 21000
  const TX_GAS_CONTRACT_CREATION: nat := 53000

  function BaseGas(t: Tx, homestead: bool): nat {
    if t.msg.to.None? && homestead then TX_GAS_CONTRACT_CREATION else TX_GAS
  }

  function ByteGas(x: bv8, istanbul: bool): nat { if x == 0 then 4 else if istanbul then 16 else 68 }

  function PayloadGas(payload: seq<bv8>, istanbul: bool): nat {
    if payload == [] then 0 else ByteGas(payload[0], istanbul) + PayloadGas(payload[1..], istanbul)
  }

  /** The gas a transaction needs before it runs, as a mathematical integer. */
  function IntrinsicGas(t: Tx, homestead: bool, istanbul: bool): nat {
    BaseGas(t, homestead) + PayloadGas(t.msg.input, istanbul)
  }

  function Zeros(payload: seq<bv8>): nat {
    if payload == [] then 0 else (if payload[0] == 0 then 1 else 0) + Zeros(payload[1..])
  }

  lemma {:induction false} CountedGas(payload: seq<bv8>, istanbul: bool)
    ensures Zeros(payload) <= |payload|
    ensures PayloadGas(payload, istanbul) ==
            4 * Zeros(payload) + (if istanbul then 16 else 68) * (|payload| - Zeros(payload))
  {
    if payload != [] { CountedGas(payload[1..], istanbul); }
  }

  lemma {:induction false} ZerosSnoc(payload: seq<bv8>, x: bv8)
    ensures Zeros(payload + [x]) == Zeros(payload) + (if x == 0 then 1 else 0)
  {
    if payload == [] {
      assert payload + [x] == [x];
    } else {
      ZerosSnoc(payload[1..], x);
      assert (payload + [x])[1..] == payload[1..] + [x];
    }
  }

  method CountZeros(payload: seq<bv8>) returns (zeros: nat)
    ensures zeros == Zeros(payload)
  {
    zeros := 0;
    for i := 0 to |payload|
      invariant zeros == Zeros(payload[..i])
    {
      ZerosSnoc(payload[..i], payload[i]);
      assert payload[..i + 1] == payload[..i] + [payload[i]];
      if payload[i] == 0 { zeros := zeros + 1; }
    }
    assert payload[..|payload|] == payload;
  }

  /** The 64-bit computation gives the sum over the bytes, and fails exactly when that sum does not fit 64 bits. */
  method TransactionGasCost(t: Tx, homestead: bool, istanbul: bool) returns (r: Option<nat>)
    ensures r.Some? <==> IntrinsicGas(t, homestead, istanbul) <= MAX_UINT64
    ensures r.Some? ==> r.value == IntrinsicGas(t, homestead, istanbul)
  {
    var cost := BaseGas(t, homestead);
    var payload := t.msg.input;
    CountedGas(payload, istanbul);
    if |payload| > 0 {
      var zeros := CountZeros(payload);
      var nonZeros := |payload| - zeros;
      var nonZeroCost := if istanbul then 16 else 68;
      DivFits(MAX_UINT64 - cost, nonZeroCost, nonZeros);
      if (MAX_UINT64 - cost) / nonZeroCost < nonZeros {
        return None;
      }
      cost := cost + nonZeros * nonZeroCost;
      if (MAX_UINT64 - cost) / 4 < zeros {
        return None;
      }
      cost := cost + zeros * 4;
    }
    return Some(cost);
  }

  /**
   Gas used and gas left of a run that got `gas` and returned `returned`; at most half of the used gas is refunded.
   */
  function UpdateGasUsed(gas: nat, returned: nat, refund: nat): (r: (nat, nat))
    requires returned <= gas
    ensures r.0 + r.1 == gas && r.1 >= returned
    ensures 2 * r.0 >= gas - returned && r.0 >= gas - returned - refund
    ensures 2 * r.0 <= gas - returned + 1 || r.0 == gas - returned - refund
  {
    var used := gas - returned;
    var back := if refund > used / 2 then used / 2 else refund;
    (used - back, returned + back)
  }
}
