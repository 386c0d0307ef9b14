/** Validator sets (validators/set.go), quorums and proposer selection (consensus/ibft/validators.go). */
module Validators {
  import opened Arithmetic
  import opened Transactions

  type Kind = nat

  datatype Validator = Validator(addr: Address, kind: Kind)

  ghost predicate Distinct(vs: seq<Validator>) {
    forall i, j :: 0 <= i < j < |vs| ==> vs[i].addr != vs[j].addr
  }

  ghost function Addresses(vs: seq<Validator>): set<Address> { set i | 0 <= i < |vs| :: vs[i].addr }

  lemma {:induction false} DistinctCount(vs: seq<Validator>)
    requires Distinct(vs)
    ensures |Addresses(vs)| == |vs|
    decreases |vs|
  {
    if vs != [] {
      var n := |vs| - 1;
      DistinctCount(vs[..n]);
      assert Addresses(vs) == Addresses(vs[..n]) + {vs[n].addr};
    }
  }

  // Quorums of a set of `n` validators.

  function MaxFaulty(n: nat): nat { if n == 0 then 0 else (n - 1) / 3 }

  function LegacyQuorum(n: nat): nat { 2 * MaxFaulty(n) + 1 }

  /** All of fewer than four validators, else two thirds rounded up. */
  function OptimalQuorum(n: nat): nat { if MaxFaulty(n) == 0 then n else (2 * n + 2) / 3 }

  lemma Overlap<T>(all: set<T>, a: set<T>, b: set<T>)
    requires a <= all && b <= all
    ensures |a * b| >= |a| + |b| - |all|
  {
    assert |a + b| == |a| + |b| - |a * b|;
    assert all == (a + b) + (all - (a + b));
  }

  /** Any two optimal quorums of a validator set share more than F members, so one that is not faulty. */
  lemma OptimalQuorumsIntersect(vs: seq<Validator>, a: set<Address>, b: set<Address>)
    requires Distinct(vs) && vs != [] && a <= Addresses(vs) && b <= Addresses(vs)
    requires |a| >= OptimalQuorum(|vs|) && |b| >= OptimalQuorum(|vs|)
    ensures |a * b| > MaxFaulty(|vs|)
  {
    DistinctCount(vs);
    Overlap(Addresses(vs), a, b);
  }

  /** The members that are not faulty are enough for a quorum. */
  lemma CorrectMembersAreAQuorum(vs: seq<Validator>, faulty: set<Address>)
    requires Distinct(vs) && faulty <= Addresses(vs) && |faulty| <= MaxFaulty(|vs|)
    ensures |Addresses(vs) - faulty| >= OptimalQuorum(|vs|)
  {
    DistinctCount(vs);
    assert |Addresses(vs)| == |Addresses(vs) - faulty| + |faulty|;
  }

  /** The faulty members that a set bears: the largest number below a third. */
  lemma MaxFaultyExactly(n: nat)
    requires n > 0
    ensures 3 * MaxFaulty(n) < n <= 3 * MaxFaulty(n) + 3
  {
  }

  /** Fewer than four validators must all agree; of more, two thirds, rounded up. */
  lemma OptimalQuorumExactly(n: nat)
    ensures if n < 4 then OptimalQuorum(n) == n else 2 * n <= 3 * OptimalQuorum(n) < 2 * n + 3
  {
  }

  /** An optimal quorum of four or more is the least that makes any two of its size share more than F members. */
  lemma OptimalQuorumIsLeast(vs: seq<Validator>, q: nat)
    requires Distinct(vs) && |vs| >= 4 && q <= |vs|
    ensures q >= OptimalQuorum(|vs|) <==>
            forall a, b :: a <= Addresses(vs) && b <= Addresses(vs) && |a| == q && |b| == q ==>
                             |a * b| > MaxFaulty(|vs|)
  {
    if q >= OptimalQuorum(|vs|) {
      forall a, b | a <= Addresses(vs) && b <= Addresses(vs) && |a| == q && |b| == q ensures |a * b| > MaxFaulty(|vs|) {
        OptimalQuorumsIntersect(vs, a, b);
      }
    } else {
      QuorumsCanMiss(vs, q, MaxFaulty(|vs|));
    }
  }

  ghost predicate LegacyQuorumsIntersect(vs: seq<Validator>) {
    forall a, b :: a <= Addresses(vs) && b <= Addresses(vs) && |a| >= LegacyQuorum(|vs|) && |b| >= LegacyQuorum(|vs|)
                   ==> |a * b| > MaxFaulty(|vs|)
  }

  lemma InSlice(vs: seq<Validator>, lo: nat, hi: nat, x: Address)
    requires lo <= hi <= |vs|
    ensures x in Addresses(vs[lo..hi]) <==> exists i :: lo <= i < hi && vs[i].addr == x
  {
    if i :| lo <= i < hi && vs[i].addr == x { assert vs[lo..hi][i - lo].addr == x; }
  }

  lemma SliceAddresses(vs: seq<Validator>, lo: nat, hi: nat)
    requires Distinct(vs) && lo <= hi <= |vs|
    ensures Addresses(vs[lo..hi]) <= Addresses(vs) && |Addresses(vs[lo..hi])| == hi - lo
  {
    DistinctCount(vs[lo..hi]);
    forall x | x in Addresses(vs[lo..hi]) ensures x in Addresses(vs) { InSlice(vs, lo, hi, x); }
  }

  lemma EndsCover(vs: seq<Validator>, q: nat)
    requires Distinct(vs) && q <= |vs| <= 2 * q
    ensures Addresses(vs[0..q]) + Addresses(vs[|vs| - q..|vs|]) == Addresses(vs)
  {
    var n := |vs|;
    SliceAddresses(vs, 0, q);
    SliceAddresses(vs, n - q, n);
    forall x | x in Addresses(vs) ensures x in Addresses(vs[0..q]) || x in Addresses(vs[n - q..n]) {
      InSlice(vs, 0, q, x);
      InSlice(vs, n - q, n, x);
    }
  }

  lemma EndsApart(vs: seq<Validator>, q: nat)
    requires Distinct(vs) && 2 * q < |vs|
    ensures Addresses(vs[0..q]) * Addresses(vs[|vs| - q..|vs|]) == {}
  {
    var n := |vs|;
    forall x | x in Addresses(vs[0..q]) ensures x !in Addresses(vs[n - q..n]) {
      InSlice(vs, 0, q, x);
      InSlice(vs, n - q, n, x);
    }
  }

  /** The first `q` and the last `q` members have as few members in common as two sets of `q` can. */
  lemma EndsOverlap(vs: seq<Validator>, q: nat)
    requires Distinct(vs) && q <= |vs|
    ensures var common := Addresses(vs[0..q]) * Addresses(vs[|vs| - q..|vs|]);
            |common| == if |vs| <= 2 * q then 2 * q - |vs| else 0
  {
    var n := |vs|;
    SliceAddresses(vs, 0, q);
    SliceAddresses(vs, n - q, n);
    DistinctCount(vs);
    if n <= 2 * q { EndsCover(vs, q); } else { EndsApart(vs, q); }
    hide Addresses, Distinct;
    var a, b := Addresses(vs[0..q]), Addresses(vs[n - q..n]);
    assert |a + b| == |a| + |b| - |a * b|;
  }

  lemma LegacyNumbers(n: nat)
    requires n > 0 && n % 3 != 1
    ensures LegacyQuorum(n) <= n && 2 * LegacyQuorum(n) - n <= MaxFaulty(n)
  {
    OneMore(MaxFaulty(n));
  }

  lemma OneMore(f: nat)
    ensures (3 * f + 1) % 3 == 1
  {
  }

  /** The first and the last `q` members are two sets that share at most `f` members, where that is possible at all. */
  lemma QuorumsCanMiss(vs: seq<Validator>, q: nat, f: nat)
    requires Distinct(vs) && q <= |vs| && 2 * q - |vs| <= f
    ensures var a, b := Addresses(vs[0..q]), Addresses(vs[|vs| - q..|vs|]);
            a <= Addresses(vs) && |a| == q && b <= Addresses(vs) && |b| == q && |a * b| <= f
  {
    hide Addresses, Distinct;
    SliceAddresses(vs, 0, q);
    SliceAddresses(vs, |vs| - q, |vs|);
    EndsOverlap(vs, q);
  }

  /** The legacy quorum guarantees a correct member in common exactly for N = 3F + 1. */
  lemma LegacyQuorumsIntersectExactly(vs: seq<Validator>)
    requires Distinct(vs) && vs != []
    ensures LegacyQuorumsIntersect(vs) <==> |vs| % 3 == 1
  {
    if |vs| % 3 == 1 {
      var q := LegacyQuorum(|vs|);
      forall a, b | a <= Addresses(vs) && b <= Addresses(vs) && |a| >= q && |b| >= q ensures |a * b| > MaxFaulty(|vs|) {
        DistinctCount(vs);
        Overlap(Addresses(vs), a, b);
      }
    } else {
      LegacyNumbers(|vs|);
      QuorumsCanMiss(vs, LegacyQuorum(|vs|), MaxFaulty(|vs|));
    }
  }

  // The proposer.

  function Pick(n: nat, start: nat, round: nat): nat
    requires n > 0
  {
    (start + round) % n
  }

  /** Rounds `first` up to `first + n - 1` pick every one of `n` places exactly once. */
  lemma EveryPlaceOnce(n: nat, start: nat, first: nat, place: nat)
    requires place < n
    ensures exists r: nat :: first <= r < first + n && Pick(n, start, r) == place
    ensures forall r: nat, s: nat ::
              first <= r < first + n && first <= s < first + n && Pick(n, start, r) == Pick(n, start, s) ==> r == s
  {
    var base := (start + first) % n;
    var r := first + if place >= base then place - base else place + n - base;
    RemainderOfSum(start + first, n, r - first);
    assert Pick(n, start, r) == place;
    forall r: nat, s: nat | first <= r < first + n && first <= s < first + n && Pick(n, start, r) == Pick(n, start, s)
      ensures r == s
    {
      if r < s { Apart(start + r, start + s, n); }
      if s < r { Apart(start + s, start + r, n); }
    }
  }

  lemma Apart(x: nat, y: nat, n: nat)
    requires 0 < n && x < y < x + n
    ensures x % n != y % n
  {
    RemainderOfSum(x, n, y - x);
  }

  /** The first place of an address. */
  ghost predicate FirstPlace(vs: seq<Validator>, addr: Address, i: nat) {
    i < |vs| && vs[i].addr == addr && forall j :: 0 <= j < i ==> vs[j].addr != addr
  }

  lemma FirstIsUnique(vs: seq<Validator>, addr: Address, i: nat)
    requires FirstPlace(vs, addr, i)
    ensures addr in Addresses(vs) && forall j: nat :: FirstPlace(vs, addr, j) ==> j == i
  {
  }

  /**
   Where the count starts: after the last proposer, at the second place if it left the set, at the first if there was
   none.
   */
  ghost function StartPlace(vs: seq<Validator>, lastProposer: Address): nat {
    if lastProposer == ZERO_ADDRESS then 0
    else if exists i: nat :: FirstPlace(vs, lastProposer, i) then
      var i: nat :| FirstPlace(vs, lastProposer, i); i + 1
    else 1
  }

  /** The proposer of a round; the count is 64 bits wide. */
  ghost function Proposer(vs: seq<Validator>, round: nat, lastProposer: Address): Validator
    requires vs != []
  {
    vs[(StartPlace(vs, lastProposer) + round) % TWO64 % |vs|]
  }

  /** After a member has proposed, the count goes on with the one behind it. */
  lemma NextInLine(vs: seq<Validator>, i: nat, round: nat)
    requires Distinct(vs) && i < |vs| && vs[i].addr != ZERO_ADDRESS && i + 1 + round < TWO64
    ensures Proposer(vs, round, vs[i].addr) == vs[(i + 1 + round) % |vs|]
  {
    FirstIsUnique(vs, vs[i].addr, i);
  }

  lemma StartOfOthers(vs: seq<Validator>, lastProposer: Address)
    ensures StartPlace(vs, ZERO_ADDRESS) == 0
    ensures lastProposer != ZERO_ADDRESS && lastProposer !in Addresses(vs) ==> StartPlace(vs, lastProposer) == 1
  {
    if lastProposer !in Addresses(vs) {
      forall i: nat ensures !FirstPlace(vs, lastProposer, i) {}
    }
  }

  /** A last proposer that has left the set starts the count at the second member, and none at all at the first. */
  lemma NoLastProposer(vs: seq<Validator>, lastProposer: Address, round: nat)
    requires vs != [] && 1 + round < TWO64
    ensures Proposer(vs, round, ZERO_ADDRESS) == vs[round % |vs|]
    ensures lastProposer != ZERO_ADDRESS && lastProposer !in Addresses(vs) ==>
              Proposer(vs, round, lastProposer) == vs[(1 + round) % |vs|]
  {
    StartOfOthers(vs, lastProposer);
    hide StartPlace, Addresses;
  }

  /** With two or more validators nobody proposes two heights in a row while the first round succeeds. */
  lemma NotTwiceInARow(vs: seq<Validator>, i: nat)
    requires Distinct(vs) && i < |vs| < TWO64 && vs[i].addr != ZERO_ADDRESS
    ensures Proposer(vs, 0, vs[i].addr) == vs[i] <==> |vs| == 1
  {
    hide Proposer;
    NextInLine(vs, i, 0);
    if i + 1 < |vs| { Remainder(i + 1, |vs|, 0, i + 1); } else { Remainder(i + 1, |vs|, 1, 0); }
  }

  lemma ProposerAt(vs: seq<Validator>, round: nat, lastProposer: Address)
    requires vs != [] && StartPlace(vs, lastProposer) + round < TWO64
    ensures Proposer(vs, round, lastProposer) == vs[Pick(|vs|, StartPlace(vs, lastProposer), round)]
  {
  }

  /**
   As long as the count does not overflow, each of as many consecutive rounds as there are validators has another
   proposer.
   */
  lemma EveryValidatorOnce(vs: seq<Validator>, first: nat, lastProposer: Address, place: nat)
    requires Distinct(vs) && place < |vs| && StartPlace(vs, lastProposer) + first + |vs| <= TWO64
    ensures exists r: nat :: first <= r < first + |vs| && Proposer(vs, r, lastProposer) == vs[place]
    ensures forall r: nat, s: nat :: first <= r < s < first + |vs| ==>
                                       Proposer(vs, r, lastProposer) != Proposer(vs, s, lastProposer)
  {
    var n, start := |vs|, StartPlace(vs, lastProposer);
    EveryPlaceOnce(n, start, first, place);
    forall r: nat | first <= r < first + n ensures Proposer(vs, r, lastProposer) == vs[Pick(n, start, r)] {
      ProposerAt(vs, r, lastProposer);
    }
    hide Proposer, Pick, StartPlace;
    var r: nat :| first <= r < first + n && Pick(n, start, r) == place;
    assert Proposer(vs, r, lastProposer) == vs[place];
    forall r: nat, s: nat | first <= r < s < first + n
      ensures Proposer(vs, r, lastProposer) != Proposer(vs, s, lastProposer)
    {
      assert Pick(n, start, r) != Pick(n, start, s);
    }
  }

  /** A set of validators of one kind. */
  class ValidatorSet {
    const kind: Kind
    var validators: seq<Validator>

    /** No two members share an address. */
    ghost predicate Valid()
      reads this
    {
      Distinct(validators) && forall i :: 0 <= i < |validators| ==> validators[i].kind == kind
    }

    constructor (kind: Kind)
      ensures Valid() && validators == [] && this.kind == kind
    {
      this.kind, validators := kind, [];
    }

    method Index(addr: Address) returns (index: int)
      ensures -1 <= index < |validators|
      ensures index == -1 <==> addr !in Addresses(validators)
      ensures index >= 0 ==> FirstPlace(validators, addr, index)
    {
      for i := 0 to |validators|
        invariant forall j :: 0 <= j < i ==> validators[j].addr != addr
      {
        if validators[i].addr == addr { return i; }
      }
      return -1;
    }

    /** Appends a member of the right kind whose address is new; otherwise nothing changes. */
    method Add(v: Validator) returns (ok: bool)
      requires Valid()
      modifies this
      ensures Valid() && ok == (v.kind == kind && v.addr !in old(Addresses(validators)))
      ensures validators == old(validators) + if ok then [v] else []
    {
      if v.kind != kind { return false; }
      var index := Index(v.addr);
      if index != -1 { return false; }
      assert forall i :: 0 <= i < |validators| ==> validators[i].addr in Addresses(validators);
      validators := validators + [v];
      return true;
    }

    /** Removes the member with the address; the others keep their order. */
    method Del(v: Validator) returns (ok: bool)
      requires Valid()
      modifies this
      ensures Valid() && ok == (v.kind == kind && v.addr in old(Addresses(validators)))
      ensures !ok ==> validators == old(validators)
      ensures ok ==> exists i :: && 0 <= i < |old(validators)| && old(validators)[i].addr == v.addr
                                 && validators == old(validators)[..i] + old(validators)[i + 1..]
    {
      if v.kind != kind { return false; }
      var index := Index(v.addr);
      if index == -1 { return false; }
      validators := validators[..index] + validators[index + 1..];
      return true;
    }

    /** Appends the members of the other set whose addresses are new, in order. */
    method Merge(other: seq<Validator>, otherKind: Kind) returns (ok: bool)
      requires Valid() && forall i :: 0 <= i < |other| ==> other[i].kind == otherKind
      modifies this
      ensures Valid() && ok == (otherKind == kind)
      ensures !ok ==> validators == old(validators)
      ensures ok ==> validators == Merged(old(validators), other)
      ensures ok ==> Addresses(validators) == old(Addresses(validators)) + Addresses(other)
    {
      if otherKind != kind { return false; }
      for i := 0 to |other|
        invariant Valid() && validators == Merged(old(validators), other[..i])
      {
        assert other[..i + 1][..i] == other[..i];
        var index := Index(other[i].addr);
        if index != -1 { continue; }
        var added := Add(other[i]);
      }
      assert other[..|other|] == other;
      MergedAddresses(old(validators), other);
      return true;
    }

    /** The round counts on from the place after the last proposer, or from the first place when there was none. */
    method CalcProposer(round: nat, lastProposer: Address) returns (v: Validator)
      requires validators != [] && round < TWO64
      ensures v == Proposer(validators, round, lastProposer)
    {
      var seed := round;
      if lastProposer != ZERO_ADDRESS {
        var index := Index(lastProposer);
        var offset := if index != -1 then index else 0;
        if index != -1 { FirstIsUnique(validators, lastProposer, index); }
        seed := (offset + round + 1) % TWO64;
      }
      return validators[seed % |validators|];
    }
  }

  /** The members of `other` with new addresses, appended in order. */
  ghost function Merged(vs: seq<Validator>, other: seq<Validator>): seq<Validator> {
    if other == [] then vs
    else
      var merged, v := Merged(vs, other[..|other| - 1]), other[|other| - 1];
      if v.addr in Addresses(merged) then merged else merged + [v]
  }

  /** A merge appends: the old members stay in front, and every other one is a member of `other` with a new address. */
  lemma {:induction false} MergedAppends(vs: seq<Validator>, other: seq<Validator>, i: nat)
    ensures vs <= Merged(vs, other)
    ensures |vs| <= i < |Merged(vs, other)| ==>
              Merged(vs, other)[i] in other && Merged(vs, other)[i].addr !in Addresses(vs)
    ensures Distinct(vs) ==> Distinct(Merged(vs, other))
    decreases |other|
  {
    if other != [] {
      var n := |other| - 1;
      var merged := Merged(vs, other[..n]);
      MergedAppends(vs, other[..n], i);
      MergedAddresses(vs, other[..n]);
      if other[n].addr !in Addresses(merged) {
        forall j | 0 <= j < |merged| ensures merged[j].addr in Addresses(merged) {}
      }
    }
  }

  lemma {:induction false} MergedAddresses(vs: seq<Validator>, other: seq<Validator>)
    ensures Addresses(Merged(vs, other)) == Addresses(vs) + Addresses(other)
  {
    if other != [] {
      var n := |other| - 1;
      MergedAddresses(vs, other[..n]);
      AddressesSnoc(other[..n], other[n]);
      AddressesSnoc(Merged(vs, other[..n]), other[n]);
      assert other[..n] + [other[n]] == other;
    }
  }

  lemma AddressesSnoc(vs: seq<Validator>, v: Validator)
    ensures Addresses(vs + [v]) == Addresses(vs) + {v.addr}
  {
    var all := vs + [v];
    forall x | x in Addresses(vs) + {v.addr} ensures x in Addresses(all) {
      if x in Addresses(vs) {
        var i :| 0 <= i < |vs| && vs[i].addr == x;
        assert all[i].addr == x;
      } else {
        assert all[|vs|].addr == x;
      }
    }
  }
}
