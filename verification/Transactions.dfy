/** Transactions and their price rules (types/transaction.go). */
module Transactions {

  datatype Option<+T> = None | Some(value: T)

  type Address = nat
  type Hash = nat

  const ZERO_ADDRESS: Address := 0
  const TWO64: nat := 0x1_0000_0000_0000_0000
  const MAX_UINT64: nat := TWO64 - 1
  const TWO63: nat := 0x8000_0000_0000_0000

  /** The conversion of an unsigned 64-bit integer to a signed one. */
  function Signed(x: nat): int { if x < TWO63 then x else x - TWO64 }

  datatype TxType = LegacyTx | DynamicFeeTx | StateTx

  /** The price fields. A missing big integer of the source is modelled as zero, as every price rule treats it. */
  datatype Fees = Fees(txType: TxType, gasPrice: nat, gasTipCap: nat, gasFeeCap: nat)

  /** What the transaction asks the virtual machine to do. */
  datatype Message = Message(gas: nat, to: Option<Address>, value: nat, input: seq<bv8>)

  /** `size` is the length of the RLP encoding. */
  datatype Tx = Tx(nonce: nat, from: Address, hash: Hash, size: nat, fees: Fees, msg: Message)

  function Min(a: int, b: int): int { if a > b then b else a }

  function Max(a: int, b: int): int { if a > b then a else b }

  /** The price set in the transaction if there is one, else min(tip + base fee, fee cap). */
  function GetGasPrice(t: Tx, baseFee: nat): nat {
    if t.fees.gasPrice > 0 then t.fees.gasPrice
    else if baseFee == 0 then 0
    else if t.fees.gasFeeCap > 0 || t.fees.gasTipCap > 0 then Min(t.fees.gasTipCap + baseFee, t.fees.gasFeeCap)
    else 0
  }

  function GetGasTipCap(t: Tx): nat {
    if t.fees.txType == DynamicFeeTx then t.fees.gasTipCap else t.fees.gasPrice
  }

  function GetGasFeeCap(t: Tx): nat {
    if t.fees.txType == DynamicFeeTx then t.fees.gasFeeCap else t.fees.gasPrice
  }

  /** May be negative: the fee cap can be below the base fee. */
  function EffectiveGasTip(t: Tx, baseFee: nat): int {
    if baseFee == 0 then GetGasTipCap(t)
    else Min(GetGasTipCap(t), GetGasFeeCap(t) - baseFee)
  }
}
