/**
 Net gas metering of storage writes (EIP-2200, section "Specification", and EIP-1283): what a slot costs in the end.
 The gas of a write is charged by state/runtime/evm/instructions.go from the status that state/txn.go returns.
 */
module Metering {
  import opened Transactions
  import opened WorldState

  /** What a write costs that changes nothing new. */
  function BaseCost(f: Forks): nat { if f.istanbul then 800 else if Legacy(f) then 5000 else 200 }

  /** The gas charged for a write with the given status. */
  function StoreCost(f: Forks, status: StorageStatus): nat {
    match status
    case StorageUnchanged => if f.istanbul then 800 else if Legacy(f) then 5000 else 200
    case StorageModified => 5000
    case StorageModifiedAgain => if f.istanbul then 800 else if Legacy(f) then 5000 else 200
    case StorageAdded => 20000
    case StorageDeleted => 5000
  }

  /** How far a write moves the refund counter, as an unbounded integer. */
  function RefundChange(f: Forks, original: Value, current: Value, value: Value): int {
    RefundFor(f, 15000, original, current, value) - 15000
  }

  /** Away from the ends of the counter the refund moves by the same amount, whatever it was. */
  lemma RefundMoves(f: Forks, refund: nat, original: Value, current: Value, value: Value)
    requires 15000 <= refund && refund + 24000 < TWO64
    ensures RefundFor(f, refund, original, current, value) == refund + RefundChange(f, original, current, value)
  {
  }

  /** The gas charged less the refunds earned over a sequence of writes to one slot. */
  function Spent(f: Forks, original: Value, current: Value, writes: seq<Value>): int
    decreases |writes|
  {
    if writes == [] then 0
    else
      StoreCost(f, StatusFor(f, original, current, writes[0])) - RefundChange(f, original, current, writes[0])
      + Spent(f, original, writes[0], writes[1..])
  }

  function Last(current: Value, writes: seq<Value>): Value { if writes == [] then current else writes[|writes| - 1] }

  /** What it costs that a slot committed as `original` holds `value`; before net metering only that it is in use. */
  function NetCost(f: Forks, original: Value, value: Value): int {
    if Legacy(f) then (if value == ZERO then 0 else 15000)
    else if value == original then 0
    else if original == ZERO then 20000 - BaseCost(f)
    else 5000 - BaseCost(f) - if value == ZERO then 15000 else 0
  }

  lemma OneWrite(f: Forks, original: Value, current: Value, value: Value)
    ensures StoreCost(f, StatusFor(f, original, current, value)) - RefundChange(f, original, current, value)
            == BaseCost(f) + NetCost(f, original, value) - NetCost(f, original, current)
  {
  }

  /**
   However a slot is written within a transaction, the gas charged less the refunds depends only on the number of
   writes, the committed value and the last value: detours through other values cost nothing but the base cost.
   */
  lemma {:induction false} NetCostIsPathIndependent(f: Forks, original: Value, current: Value, writes: seq<Value>)
    ensures Spent(f, original, current, writes) ==
            BaseCost(f) * |writes| + NetCost(f, original, Last(current, writes)) - NetCost(f, original, current)
    decreases |writes|
  {
    if writes != [] {
      OneWrite(f, original, current, writes[0]);
      NetCostIsPathIndependent(f, original, writes[0], writes[1..]);
    }
  }

  /**
   The costs by the numbers: setting a new slot, changing and clearing a committed one, writing without effect, and
   going back and forth.
   */
  lemma CostsByNumbers(f: Forks, x: Value, y: Value)
    requires x != ZERO && y != ZERO && x != y
    ensures Spent(f, ZERO, ZERO, [x]) == 20000 && Spent(f, x, x, [y]) == 5000 && Spent(f, x, x, [ZERO]) == 5000 - 15000
    ensures f.istanbul ==>
              && Spent(f, x, x, [x]) == 800 && Spent(f, ZERO, ZERO, [x, ZERO]) == 1600
              && Spent(f, ZERO, ZERO, [x, y]) == 20800 && Spent(f, x, x, [y, x]) == 1600
    ensures !f.istanbul && f.constantinople && !f.petersburg ==>
              && Spent(f, x, x, [x]) == 200 && Spent(f, ZERO, ZERO, [x, ZERO]) == 400
              && Spent(f, ZERO, ZERO, [x, y]) == 20200 && Spent(f, x, x, [y, x]) == 400
    ensures !f.istanbul && (f.petersburg || !f.constantinople) ==>
              && Spent(f, x, x, [x]) == 5000 && Spent(f, ZERO, ZERO, [x, ZERO]) == 10000
              && Spent(f, ZERO, ZERO, [x, y]) == 25000 && Spent(f, x, x, [y, x]) == 10000
  {
    NetCostIsPathIndependent(f, ZERO, ZERO, [x]);
    NetCostIsPathIndependent(f, x, x, [y]);
    NetCostIsPathIndependent(f, x, x, [ZERO]);
    NetCostIsPathIndependent(f, x, x, [x]);
    NetCostIsPathIndependent(f, ZERO, ZERO, [x, ZERO]);
    NetCostIsPathIndependent(f, ZERO, ZERO, [x, y]);
    NetCostIsPathIndependent(f, x, x, [y, x]);
    hide Spent;
  }

  /** Writing a slot and restoring it costs the base cost of the writes alone. */
  lemma RestoringIsFree(f: Forks, original: Value, writes: seq<Value>)
    requires writes != [] && writes[|writes| - 1] == original
    ensures Spent(f, original, original, writes) == BaseCost(f) * |writes|
  {
    NetCostIsPathIndependent(f, original, original, writes);
  }
}
