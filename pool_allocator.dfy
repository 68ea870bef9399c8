/**
 * The greedy pool allocator of backend/src/core/domain/services/PoolAllocator.ts.
 *
 * `AllocatePool` is the source's `allocatePool`: it validates the pool, splits the ships by the
 * sign of their balance, sorts both sides largest-first and runs the cursor loop that moves
 * surplus into deficits. It is proved against `Allocation`, an independent closed form of the
 * outcome: the deficits' total need D is taken from the sorted surplus ships in order, so the
 * ship at position i gives up min(cb_i, max(0, D - (cb_0 + ... + cb_{i-1}))), and every deficit
 * ship ends at exactly zero. The documented invariants are proved of `Allocation` in
 * module PoolInvariants.
 */
module PoolAllocator {
  import opened Wrappers
  import opened Errors
  import opened Entities
  import opened Sums
  import opened Seqs
  import opened StableSort

  /** Input to the allocator: a ship and its compliance balance. */
  datatype ShipCb = ShipCb(shipId: string, cbGco2eq: real)

  datatype AllocationResult = AllocationResult(
    members: seq<PoolMember>,
    totalSurplusBefore: real,
    totalDeficitBefore: real,
    netCb: real)

  function Min(a: real, b: real): real { if a <= b then a else b }

  function Max(a: real, b: real): real { if a >= b then a else b }

  function Abs(a: real): real { if a < 0.0 then -a else a }

  /** The measures summed and sorted on. */
  function Cb(s: ShipCb): real { s.cbGco2eq }

  function Needed(s: ShipCb): real { Abs(s.cbGco2eq) }

  function NegNeeded(s: ShipCb): real { -Abs(s.cbGco2eq) }

  /** The net balance of a pool, the reduce of line 54. */
  function NetCb(ships: seq<ShipCb>): real { Sum(ships, Cb) }

  function Surpluses(ships: seq<ShipCb>): (r: seq<ShipCb>)
    ensures forall k :: 0 <= k < |r| ==> r[k].cbGco2eq > 0.0
    decreases |ships|
  {
    if ships == [] then []
    else (if ships[0].cbGco2eq > 0.0 then [ships[0]] else []) + Surpluses(ships[1..])
  }

  function Deficits(ships: seq<ShipCb>): (r: seq<ShipCb>)
    ensures forall k :: 0 <= k < |r| ==> r[k].cbGco2eq < 0.0
    decreases |ships|
  {
    if ships == [] then []
    else (if ships[0].cbGco2eq < 0.0 then [ships[0]] else []) + Deficits(ships[1..])
  }

  function Zeros(ships: seq<ShipCb>): (r: seq<ShipCb>)
    ensures forall k :: 0 <= k < |r| ==> r[k].cbGco2eq == 0.0
    decreases |ships|
  {
    if ships == [] then []
    else (if ships[0].cbGco2eq == 0.0 then [ships[0]] else []) + Zeros(ships[1..])
  }

  /** Surplus ships, largest surplus first (lines 60-63). */
  function SortedSurpluses(ships: seq<ShipCb>): seq<ShipCb> {
    SortDesc(Surpluses(ships), Cb)
  }

  /** Deficit ships, largest need first (lines 65-68). */
  function SortedDeficits(ships: seq<ShipCb>): seq<ShipCb> {
    SortDesc(Deficits(ships), Needed)
  }

  /** What the deficits of a pool need in all. */
  function TotalNeed(ships: seq<ShipCb>): real {
    Sum(SortedDeficits(ships), Needed)
  }

  /** The surplus held by the ships before position i. */
  function Prefix(c: seq<ShipCb>, i: nat): real
    requires i <= |c|
  {
    Sum(c[..i], Cb)
  }

  /** What the ship at position i gives when t is drawn from c front to back. */
  function Given(c: seq<ShipCb>, t: real, i: nat): real
    requires i < |c|
  {
    Min(c[i].cbGco2eq, Max(0.0, t - Prefix(c, i)))
  }

  function SurplusMembers(poolId: string, c: seq<ShipCb>, t: real): seq<PoolMember> {
    seq(|c|, i requires 0 <= i < |c| =>
      PoolMember(poolId, c[i].shipId, c[i].cbGco2eq, c[i].cbGco2eq - Given(c, t, i)))
  }

  function DeficitMembers(poolId: string, d: seq<ShipCb>): seq<PoolMember> {
    seq(|d|, j requires 0 <= j < |d| => PoolMember(poolId, d[j].shipId, d[j].cbGco2eq, 0.0))
  }

  function ZeroMembers(poolId: string, z: seq<ShipCb>): seq<PoolMember> {
    seq(|z|, k requires 0 <= k < |z| => PoolMember(poolId, z[k].shipId, 0.0, 0.0))
  }

  /** The outcome of a pool that passes validation: the closed form described above. */
  function Allocated(poolId: string, ships: seq<ShipCb>): AllocationResult {
    AllocationResult(
      SurplusMembers(poolId, SortedSurpluses(ships), TotalNeed(ships))
        + DeficitMembers(poolId, SortedDeficits(ships))
        + ZeroMembers(poolId, Zeros(ships)),
      Sum(Surpluses(ships), Cb),
      Sum(Deficits(ships), Cb),
      NetCb(ships))
  }

  /** The specification of allocatePool: the two checks in order, then the closed form. */
  function Allocation(poolId: string, ships: seq<ShipCb>): Result<AllocationResult, DomainError> {
    if |ships| < 2 then Failure(InsufficientMembers(|ships|))
    else if NetCb(ships) < 0.0 then Failure(PoolNetNegative(NetCb(ships)))
    else Success(Allocated(poolId, ships))
  }

  // ---------------------------------------------------------------------------------------
  // Facts about the partition and the sorted groups.

  /** The head of a pool goes to exactly one of the three groups. */
  lemma PartitionStep(ships: seq<ShipCb>)
    requires ships != []
    ensures var x := ships[0];
      && Surpluses(ships) == (if x.cbGco2eq > 0.0 then [x] else []) + Surpluses(ships[1..])
      && Deficits(ships) == (if x.cbGco2eq < 0.0 then [x] else []) + Deficits(ships[1..])
      && Zeros(ships) == (if x.cbGco2eq == 0.0 then [x] else []) + Zeros(ships[1..])
  {
  }

  /** The three groups of a pool, counted together. */
  function Groups(ships: seq<ShipCb>): multiset<ShipCb> {
    multiset(Surpluses(ships)) + multiset(Deficits(ships)) + multiset(Zeros(ships))
  }

  /** The three groups together hold each ship of the pool exactly once. */
  lemma {:induction false} PartitionPermutes(ships: seq<ShipCb>)
    ensures Groups(ships) == multiset(ships)
    decreases |ships|
  {
    if ships != [] {
      PartitionPermutes(ships[1..]);
      PartitionHead(ships);
      MultisetHead(ships);
    }
  }

  /** The head of a pool adds itself once to the three groups of the rest. */
  lemma PartitionHead(ships: seq<ShipCb>)
    requires ships != []
    ensures Groups(ships) == multiset{ships[0]} + Groups(ships[1..])
  {
    var x, rest := ships[0], ships[1..];
    var s, d, z := Surpluses(rest), Deficits(rest), Zeros(rest);
    PartitionStep(ships);
    if x.cbGco2eq > 0.0 {
      assert Surpluses(ships) == [x] + s && Deficits(ships) == d && Zeros(ships) == z;
      AddOne(x, s, multiset(d), multiset(z));
    } else if x.cbGco2eq < 0.0 {
      assert Surpluses(ships) == s && Deficits(ships) == [x] + d && Zeros(ships) == z;
      AddOne(x, d, multiset(s), multiset(z));
    } else {
      assert Surpluses(ships) == s && Deficits(ships) == d && Zeros(ships) == [x] + z;
      AddOne(x, z, multiset(s), multiset(d));
    }
  }

  /** Putting x in front of one of three groups adds x once to their union, whichever group it is. */
  lemma AddOne<T>(x: T, g: seq<T>, a: multiset<T>, b: multiset<T>)
    ensures multiset([x] + g) + a + b == multiset{x} + (multiset(g) + a + b)
    ensures a + multiset([x] + g) + b == multiset{x} + (a + multiset(g) + b)
    ensures a + b + multiset([x] + g) == multiset{x} + (a + b + multiset(g))
  {
    assert multiset([x] + g) == multiset{x} + multiset(g);
  }

  lemma {:induction false} PartitionSum(ships: seq<ShipCb>)
    ensures NetCb(ships) == Sum(Surpluses(ships), Cb) + Sum(Deficits(ships), Cb)
    ensures Sum(Zeros(ships), Cb) == 0.0
    decreases |ships|
  {
    if ships != [] {
      var x, rest := ships[0], ships[1..];
      PartitionSum(rest);
      assert ships == [x] + rest;
      SumCons(x, rest, Cb);
      var gs := if x.cbGco2eq > 0.0 then [x] else [];
      var gd := if x.cbGco2eq < 0.0 then [x] else [];
      var gz := if x.cbGco2eq == 0.0 then [x] else [];
      SumAppend(gs, Surpluses(rest), Cb);
      SumAppend(gd, Deficits(rest), Cb);
      SumAppend(gz, Zeros(rest), Cb);
      if x.cbGco2eq > 0.0 { SumSingleton(x, Cb); }
      if x.cbGco2eq < 0.0 { SumSingleton(x, Cb); }
      if x.cbGco2eq == 0.0 { SumSingleton(x, Cb); }
    }
  }

  /** Sorting keeps the groups' signs, and the need of the deficits is minus their balance. */
  lemma SortedGroups(ships: seq<ShipCb>)
    ensures forall i :: 0 <= i < |SortedSurpluses(ships)| ==> SortedSurpluses(ships)[i].cbGco2eq > 0.0
    ensures forall j :: 0 <= j < |SortedDeficits(ships)| ==> SortedDeficits(ships)[j].cbGco2eq < 0.0
    ensures Sum(SortedSurpluses(ships), Cb) == Sum(Surpluses(ships), Cb)
    ensures TotalNeed(ships) == -Sum(Deficits(ships), Cb)
    ensures Sum(SortedDeficits(ships), NegNeeded) == Sum(Deficits(ships), Cb)
  {
    var s, d := Surpluses(ships), Deficits(ships);
    SortDescElements(s, Cb);
    SortDescElements(d, Needed);
    SortDescSum(s, Cb, Cb);
    SortDescSum(d, Needed, Needed);
    SortDescSum(d, Needed, NegNeeded);
    SortDescSum(d, Needed, Cb);
    NeedIsNegatedBalance(d);
    SumCongruent(d, NegNeeded, Cb);
  }

  lemma {:induction false} NeedIsNegatedBalance(d: seq<ShipCb>)
    requires forall j :: 0 <= j < |d| ==> d[j].cbGco2eq < 0.0
    ensures Sum(d, Needed) == -Sum(d, Cb)
    decreases |d|
  {
    if |d| > 0 {
      NeedIsNegatedBalance(d[..|d| - 1]);
    }
  }

  /** A pool that passes the net check holds enough surplus for every deficit. */
  lemma NeedCovered(ships: seq<ShipCb>)
    requires NetCb(ships) >= 0.0
    ensures TotalNeed(ships) <= Sum(SortedSurpluses(ships), Cb)
    ensures Sum(SortedSurpluses(ships), Cb) - TotalNeed(ships) == NetCb(ships)
  {
    PartitionSum(ships);
    SortedGroups(ships);
  }

  // ---------------------------------------------------------------------------------------
  // The greedy transfer loop.

  lemma PrefixFacts(c: seq<ShipCb>, i: nat, j: nat)
    requires forall k :: 0 <= k < |c| ==> c[k].cbGco2eq > 0.0
    requires i <= j <= |c|
    ensures 0.0 <= Prefix(c, i) <= Prefix(c, j)
    ensures i < j ==> Prefix(c, i) + c[i].cbGco2eq <= Prefix(c, j)
  {
    PrefixSumMonotone(c, Cb, 0, i);
    PrefixSumMonotone(c, Cb, i, j);
    assert c[..0] == [];
    if i < j {
      SumPrefixStep(c, i, Cb);
      PrefixSumMonotone(c, Cb, i + 1, j);
    }
  }

  /** Drawing more from c while the cursor rests on ship si changes what si alone gives. */
  lemma GivenStep(c: seq<ShipCb>, t: real, t': real, si: nat)
    requires forall k :: 0 <= k < |c| ==> c[k].cbGco2eq > 0.0
    requires si < |c|
    requires Prefix(c, si) <= t <= t' <= Prefix(c, si + 1)
    ensures Given(c, t, si) == t - Prefix(c, si)
    ensures Given(c, t', si) == t' - Prefix(c, si)
    ensures forall i :: 0 <= i < |c| && i != si ==> Given(c, t', i) == Given(c, t, i)
  {
    SumPrefixStep(c, si, Cb);
    forall i | 0 <= i < |c| && i != si ensures Given(c, t', i) == Given(c, t, i) {
      if i < si {
        PrefixFacts(c, i, si);
      } else {
        PrefixFacts(c, si + 1, i);
      }
    }
  }

  /** Nothing is given before anything is drawn. */
  lemma GivenNothing(c: seq<ShipCb>)
    requires forall k :: 0 <= k < |c| ==> c[k].cbGco2eq > 0.0
    ensures forall i :: 0 <= i < |c| ==> Given(c, 0.0, i) == 0.0
  {
    forall i | 0 <= i < |c| ensures Given(c, 0.0, i) == 0.0 {
      PrefixFacts(c, i, i);
    }
  }

  /**
   * The state of the surplus side after `t` has been drawn with the cursor on ship `si`: every
   * surplus ship holds its balance less what the closed form gives it, and the cursor rests on
   * the first ship that is not yet empty.
   */
  ghost predicate Drawn(c: seq<ShipCb>, remaining: seq<real>, t: real, si: nat)
  {
    && |remaining| == |c| && si <= |c|
    && (forall i :: 0 <= i < |c| ==> remaining[i] == c[i].cbGco2eq - Given(c, t, i))
    && Prefix(c, si) <= t
    && (si < |c| ==> t < Prefix(c, si + 1))
    && (si == |c| ==> t == Prefix(c, |c|))
  }

  /** Before anything is drawn every surplus ship holds its whole balance. */
  lemma DrawStart(c: seq<ShipCb>, remaining: seq<real>)
    requires forall k :: 0 <= k < |c| ==> c[k].cbGco2eq > 0.0
    requires |remaining| == |c| && forall i :: 0 <= i < |c| ==> remaining[i] == c[i].cbGco2eq
    ensures Drawn(c, remaining, 0.0, 0)
  {
    GivenNothing(c);
    assert c[..0] == [];
    if 0 < |c| {
      PrefixFacts(c, 0, 1);
    }
  }

  /**
   * One transfer out of the ship under the cursor: that ship holds exactly what is left of its
   * prefix, and drawing at most that much keeps the closed form, the cursor moving on when the
   * ship is emptied.
   */
  lemma DrawStep(c: seq<ShipCb>, remaining: seq<real>, t: real, si: nat, amount: real)
    requires forall k :: 0 <= k < |c| ==> c[k].cbGco2eq > 0.0
    requires Drawn(c, remaining, t, si) && si < |c|
    requires 0.0 <= amount <= remaining[si]
    ensures remaining[si] == Prefix(c, si + 1) - t
    ensures Drawn(c, remaining[si := remaining[si] - amount], t + amount,
                  if remaining[si] - amount == 0.0 then si + 1 else si)
  {
    SumPrefixStep(c, si, Cb);
    GivenStep(c, t, t, si);
    GivenStep(c, t, t + amount, si);
    if remaining[si] - amount == 0.0 && si + 1 < |c| {
      PrefixFacts(c, si + 1, si + 2);
    }
  }

  /** The ship under the cursor still holds some surplus. */
  lemma CursorHolds(c: seq<ShipCb>, remaining: seq<real>, t: real, si: nat)
    requires Drawn(c, remaining, t, si) && si < |c|
    ensures remaining[si] > 0.0
  {
    SumPrefixStep(c, si, Cb);
  }

  /**
   * A transfer of min(held, outstanding) is positive and within both; unless it empties the
   * surplus ship, it meets the outstanding need.
   */
  lemma TransferBounds(held: real, outstanding: real)
    requires held > 0.0 && outstanding > 0.0
    ensures 0.0 < Min(held, outstanding) <= held && Min(held, outstanding) <= outstanding
    ensures held - Min(held, outstanding) != 0.0 ==> Min(held, outstanding) == outstanding
  {
  }

  /**
   * The inner loop of lines 76-86 for one deficit ship of the given need: draw from the ship
   * under the cursor, move the cursor on when that ship is empty, and stop when the need is met
   * or the surplus ships are used up. What the deficit ship receives is drawn from the surplus
   * side in the order of the closed form, and it falls short only when no surplus is left.
   */
  method FillDeficit(c: seq<ShipCb>, remaining0: seq<real>, surplusIdx0: nat, need: real, ghost t: real)
    returns (remaining: seq<real>, surplusIdx: nat, got: real)
    requires forall k :: 0 <= k < |c| ==> c[k].cbGco2eq > 0.0
    requires Drawn(c, remaining0, t, surplusIdx0)
    requires 0.0 <= need
    ensures Drawn(c, remaining, t + got, surplusIdx)
    ensures 0.0 <= got <= need
    ensures got < need ==> surplusIdx == |c|
  {
    remaining, surplusIdx, got := remaining0, surplusIdx0, 0.0;
    ghost var drawn := t;
    while got < need && surplusIdx < |c|
      invariant Drawn(c, remaining, drawn, surplusIdx)
      invariant drawn == t + got
      invariant 0.0 <= got <= need
      decreases |c| - surplusIdx + (if got < need then 1 else 0)
    {
      var transfer;
      remaining, surplusIdx, transfer := Transfer(c, remaining, surplusIdx, need - got, drawn);
      got := got + transfer;
      drawn := drawn + transfer;
    }
  }

  /**
   * One pass of the inner loop (lines 77-85): move min(what the cursor ship holds, what is still
   * outstanding) and step the cursor past the ship if that empties it. Either the cursor moves or
   * the outstanding need is met.
   */
  method Transfer(c: seq<ShipCb>, remaining0: seq<real>, surplusIdx0: nat, outstanding: real, ghost t: real)
    returns (remaining: seq<real>, surplusIdx: nat, transfer: real)
    requires forall k :: 0 <= k < |c| ==> c[k].cbGco2eq > 0.0
    requires Drawn(c, remaining0, t, surplusIdx0) && surplusIdx0 < |c|
    requires outstanding > 0.0
    ensures Drawn(c, remaining, t + transfer, surplusIdx)
    ensures 0.0 < transfer <= outstanding
    ensures surplusIdx == surplusIdx0 + 1 || (surplusIdx == surplusIdx0 && transfer == outstanding)
  {
    CursorHolds(c, remaining0, t, surplusIdx0);
    transfer := Min(remaining0[surplusIdx0], outstanding);
    TransferBounds(remaining0[surplusIdx0], outstanding);
    DrawStep(c, remaining0, t, surplusIdx0, transfer);
    remaining := remaining0[surplusIdx0 := remaining0[surplusIdx0] - transfer];
    surplusIdx := surplusIdx0;
    if remaining[surplusIdx] == 0.0 {
      surplusIdx := surplusIdx + 1;
    }
  }

  /**
   * The working copies and the cursor loop (lines 60-87). `remaining` is the surplus each
   * surplus ship still holds, `needed` and `received` the need of each deficit ship and what it
   * got. Since the surplus covers the need, every deficit is filled, and the surplus ships were
   * drained front to back by exactly the total need.
   */
  method GreedyFill(surplusShips: seq<ShipCb>, deficitShips: seq<ShipCb>)
    returns (remaining: seq<real>, needed: seq<real>, received: seq<real>)
    requires forall i :: 0 <= i < |surplusShips| ==> surplusShips[i].cbGco2eq > 0.0
    requires forall j :: 0 <= j < |deficitShips| ==> deficitShips[j].cbGco2eq < 0.0
    requires Sum(deficitShips, Needed) <= Sum(surplusShips, Cb)
    ensures |remaining| == |surplusShips|
    ensures forall i :: 0 <= i < |surplusShips| ==>
      remaining[i] == surplusShips[i].cbGco2eq - Given(surplusShips, Sum(deficitShips, Needed), i)
    ensures |needed| == |received| == |deficitShips|
    ensures forall j :: 0 <= j < |deficitShips| ==>
      needed[j] == -deficitShips[j].cbGco2eq && received[j] == needed[j]
  {
    var c := surplusShips;
    remaining := seq(|c|, i requires 0 <= i < |c| => c[i].cbGco2eq);
    needed := seq(|deficitShips|, j requires 0 <= j < |deficitShips| => Abs(deficitShips[j].cbGco2eq));
    received := seq(|deficitShips|, j => 0.0);
    DrawStart(c, remaining);
    SumWhole(c, Cb);
    SumWhole(deficitShips, Needed);

    var surplusIdx := 0;
    ghost var transferred := 0.0;
    for d := 0 to |deficitShips|
      invariant Drawn(c, remaining, transferred, surplusIdx)
      invariant |received| == |deficitShips|
      invariant forall j :: 0 <= j < d ==> received[j] == needed[j]
      invariant transferred == Sum(deficitShips[..d], Needed)
    {
      var got;
      remaining, surplusIdx, got := FillDeficit(c, remaining, surplusIdx, needed[d], transferred);
      FilledInFull(c, deficitShips, d, transferred, got);
      received := received[d := got];
      transferred := transferred + got;
    }
  }

  /**
   * While the surplus covers the total need, a deficit ship falls short only if the surplus side is
   * exhausted, which cannot happen before the need in front of it is met: every deficit ship gets
   * its whole need.
   */
  lemma FilledInFull(c: seq<ShipCb>, deficitShips: seq<ShipCb>, d: nat, transferred: real, got: real)
    requires forall j :: 0 <= j < |deficitShips| ==> deficitShips[j].cbGco2eq < 0.0
    requires Sum(deficitShips, Needed) <= Sum(c, Cb)
    requires d < |deficitShips|
    requires transferred == Sum(deficitShips[..d], Needed)
    requires 0.0 <= got <= Needed(deficitShips[d])
    requires got < Needed(deficitShips[d]) ==> transferred + got == Sum(c, Cb)
    ensures got == Needed(deficitShips[d])
    ensures transferred + got == Sum(deficitShips[..d + 1], Needed)
  {
    SumPrefixStep(deficitShips, d, Needed);
    PrefixSumMonotone(deficitShips, Needed, d + 1, |deficitShips|);
    SumWhole(deficitShips, Needed);
  }

  /**
   * The three push loops of lines 89-117: one member per surplus ship carrying what it still
   * holds, one per deficit ship carrying its need less what it received, one per zero ship.
   * Once the greedy loop has run this is the closed form.
   */
  method BuildMembers(poolId: string, surplusShips: seq<ShipCb>, remaining: seq<real>, t: real,
                      deficitShips: seq<ShipCb>, needed: seq<real>, received: seq<real>,
                      zeroShips: seq<ShipCb>)
    returns (members: seq<PoolMember>)
    requires |remaining| == |surplusShips| && |needed| == |received| == |deficitShips|
    requires forall i :: 0 <= i < |surplusShips| ==>
      remaining[i] == surplusShips[i].cbGco2eq - Given(surplusShips, t, i)
    requires forall j :: 0 <= j < |deficitShips| ==>
      needed[j] == -deficitShips[j].cbGco2eq && received[j] == needed[j]
    requires forall k :: 0 <= k < |zeroShips| ==> zeroShips[k].cbGco2eq == 0.0
    ensures members == SurplusMembers(poolId, surplusShips, t)
      + DeficitMembers(poolId, deficitShips) + ZeroMembers(poolId, zeroShips)
  {
    ghost var sm := SurplusMembers(poolId, surplusShips, t);
    ghost var dm := DeficitMembers(poolId, deficitShips);
    ghost var zm := ZeroMembers(poolId, zeroShips);
    members := [];
    for i := 0 to |surplusShips|
      invariant members == sm[..i]
    {
      var s := surplusShips[i];
      members := members + [PoolMember(poolId, s.shipId, s.cbGco2eq, remaining[i])];
      assert sm[..i + 1] == sm[..i] + [sm[i]];
    }
    assert sm[..|sm|] == sm;
    for j := 0 to |deficitShips|
      invariant members == sm + dm[..j]
    {
      var d := deficitShips[j];
      members := members + [PoolMember(poolId, d.shipId, -needed[j], -needed[j] + received[j])];
      assert dm[..j + 1] == dm[..j] + [dm[j]];
    }
    assert dm[..|dm|] == dm;
    for k := 0 to |zeroShips|
      invariant members == sm + dm + zm[..k]
    {
      var z := zeroShips[k];
      members := members + [PoolMember(poolId, z.shipId, 0.0, 0.0)];
      assert zm[..k + 1] == zm[..k] + [zm[k]];
    }
    assert zm[..|zm|] == zm;
  }

  /**
   * allocatePool: validation, partition and sort, the greedy loop, then one member per ship
   * (surplus ships, then deficit ships, then zero ships) and the totals.
   */
  method AllocatePool(poolId: string, ships: seq<ShipCb>) returns (r: Result<AllocationResult, DomainError>)
    ensures |ships| < 2 ==> r == Failure(InsufficientMembers(|ships|))
    ensures |ships| >= 2 && NetCb(ships) < 0.0 ==> r == Failure(PoolNetNegative(NetCb(ships)))
    ensures r.Success? <==> |ships| >= 2 && NetCb(ships) >= 0.0
    ensures r == Allocation(poolId, ships)
  {
    if |ships| < 2 {
      return Failure(InsufficientMembers(|ships|));
    }
    var netCb := Sum(ships, Cb);
    if netCb < 0.0 {
      return Failure(PoolNetNegative(netCb));
    }

    var surplusShips := SortDesc(Surpluses(ships), Cb);
    var deficitShips := SortDesc(Deficits(ships), Needed);
    var zeroShips := Zeros(ships);
    SortedGroups(ships);
    NeedCovered(ships);

    var remaining, needed, received := GreedyFill(surplusShips, deficitShips);
    var members := BuildMembers(poolId, surplusShips, remaining, TotalNeed(ships),
                                deficitShips, needed, received, zeroShips);

    var totalSurplusBefore := Sum(surplusShips, Cb);
    var totalDeficitBefore := Sum(deficitShips, NegNeeded);
    return Success(AllocationResult(members, totalSurplusBefore, totalDeficitBefore, netCb));
  }
}
