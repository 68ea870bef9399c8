/**
 * The invariants the pool allocator documents (conservation, surplus ships never negative,
 * deficit ships never worse, zero ships untouched), proved of the closed form that
 * `PoolAllocator.AllocatePool` is shown to compute, together with the shape of its output:
 * a permutation of the input ships in a fixed group order, and the totals.
 */
module PoolInvariants {
  import opened Wrappers
  import opened Entities
  import opened Sums
  import opened StableSort
  import opened PoolAllocator

  function CbBefore(m: PoolMember): real { m.cbBefore }

  function CbAfter(m: PoolMember): real { m.cbAfter }

  /** The ship and balance a member was built from. */
  function Befores(ms: seq<PoolMember>): (r: seq<ShipCb>)
    ensures |r| == |ms|
    ensures forall i :: 0 <= i < |ms| ==> r[i].shipId == ms[i].shipId && r[i].cbGco2eq == ms[i].cbBefore
  {
    seq(|ms|, i requires 0 <= i < |ms| => ShipCb(ms[i].shipId, ms[i].cbBefore))
  }

  /** The share of a balance that counts as surplus, and the share that counts as deficit. */
  function PositivePart(s: ShipCb): real { if s.cbGco2eq > 0.0 then s.cbGco2eq else 0.0 }

  function NegativePart(s: ShipCb): real { if s.cbGco2eq < 0.0 then s.cbGco2eq else 0.0 }

  // ---------------------------------------------------------------------------------------
  // Sums over the three blocks of members.

  /** The first k surplus members hold their prefix less what the total need t took from it. */
  lemma {:induction false} SurplusBlockSums(poolId: string, c: seq<ShipCb>, t: real, k: nat)
    requires forall i :: 0 <= i < |c| ==> c[i].cbGco2eq > 0.0
    requires 0.0 <= t
    requires k <= |c|
    ensures Sum(SurplusMembers(poolId, c, t)[..k], CbBefore) == Prefix(c, k)
    ensures Sum(SurplusMembers(poolId, c, t)[..k], CbAfter) == Prefix(c, k) - Min(t, Prefix(c, k))
    decreases k
  {
    var sm := SurplusMembers(poolId, c, t);
    if k == 0 {
      assert sm[..0] == [] && c[..0] == [];
    } else {
      SurplusBlockSums(poolId, c, t, k - 1);
      SumPrefixStep(sm, k - 1, CbBefore);
      SumPrefixStep(sm, k - 1, CbAfter);
      SumPrefixStep(c, k - 1, Cb);
      PrefixFacts(c, k - 1, k - 1);
    }
  }

  lemma {:induction false} DeficitBlockSums(poolId: string, d: seq<ShipCb>, k: nat)
    requires k <= |d|
    ensures Sum(DeficitMembers(poolId, d)[..k], CbBefore) == Sum(d[..k], Cb)
    ensures Sum(DeficitMembers(poolId, d)[..k], CbAfter) == 0.0
    decreases k
  {
    var dm := DeficitMembers(poolId, d);
    if k == 0 {
      assert dm[..0] == [] && d[..0] == [];
    } else {
      DeficitBlockSums(poolId, d, k - 1);
      SumPrefixStep(dm, k - 1, CbBefore);
      SumPrefixStep(dm, k - 1, CbAfter);
      SumPrefixStep(d, k - 1, Cb);
    }
  }

  lemma {:induction false} ZeroBlockSums(poolId: string, z: seq<ShipCb>, k: nat)
    requires k <= |z|
    ensures Sum(ZeroMembers(poolId, z)[..k], CbBefore) == 0.0
    ensures Sum(ZeroMembers(poolId, z)[..k], CbAfter) == 0.0
    decreases k
  {
    var zm := ZeroMembers(poolId, z);
    if k == 0 {
      assert zm[..0] == [];
    } else {
      ZeroBlockSums(poolId, z, k - 1);
      SumPrefixStep(zm, k - 1, CbBefore);
      SumPrefixStep(zm, k - 1, CbAfter);
    }
  }

  /** The surplus block in all: it held the group's sum and gave up the total need t. */
  lemma SurplusTotals(poolId: string, c: seq<ShipCb>, t: real)
    requires forall i :: 0 <= i < |c| ==> c[i].cbGco2eq > 0.0
    requires 0.0 <= t <= Sum(c, Cb)
    ensures Sum(SurplusMembers(poolId, c, t), CbBefore) == Sum(c, Cb)
    ensures Sum(SurplusMembers(poolId, c, t), CbAfter) == Sum(c, Cb) - t
  {
    SurplusBlockSums(poolId, c, t, |c|);
    WholePrefix(SurplusMembers(poolId, c, t));
    WholePrefix(c);
  }

  lemma DeficitTotals(poolId: string, d: seq<ShipCb>)
    ensures Sum(DeficitMembers(poolId, d), CbBefore) == Sum(d, Cb)
    ensures Sum(DeficitMembers(poolId, d), CbAfter) == 0.0
  {
    DeficitBlockSums(poolId, d, |d|);
    WholePrefix(DeficitMembers(poolId, d));
    WholePrefix(d);
  }

  lemma ZeroTotals(poolId: string, z: seq<ShipCb>)
    ensures Sum(ZeroMembers(poolId, z), CbBefore) == 0.0
    ensures Sum(ZeroMembers(poolId, z), CbAfter) == 0.0
  {
    ZeroBlockSums(poolId, z, |z|);
    WholePrefix(ZeroMembers(poolId, z));
  }

  lemma WholePrefix<T>(s: seq<T>)
    ensures s[..|s|] == s
  {
  }

  lemma SumThree<T>(a: seq<T>, b: seq<T>, c: seq<T>, f: T -> real)
    ensures Sum(a + b + c, f) == Sum(a, f) + Sum(b, f) + Sum(c, f)
  {
    SumAppend(a, b, f);
    SumAppend(a + b, c, f);
  }

  /** The three blocks of a successful allocation and what each sums to. */
  lemma BlockTotals(poolId: string, ships: seq<ShipCb>)
    requires NetCb(ships) >= 0.0
    ensures var sm := SurplusMembers(poolId, SortedSurpluses(ships), TotalNeed(ships));
      var dm := DeficitMembers(poolId, SortedDeficits(ships));
      var zm := ZeroMembers(poolId, Zeros(ships));
      && Sum(sm, CbBefore) + Sum(dm, CbBefore) + Sum(zm, CbBefore) == NetCb(ships)
      && Sum(sm, CbAfter) + Sum(dm, CbAfter) + Sum(zm, CbAfter) == NetCb(ships)
  {
    var c, d := SortedSurpluses(ships), SortedDeficits(ships);
    SortedGroups(ships);
    NeedCovered(ships);
    PartitionSum(ships);
    SumNonNegative(d, Needed);
    SortDescSum(Deficits(ships), Needed, Cb);
    SurplusTotals(poolId, c, TotalNeed(ships));
    DeficitTotals(poolId, d);
    ZeroTotals(poolId, Zeros(ships));
  }

  /**
   * Conservation (the allocator's first documented invariant): the balances after pooling add up
   * to the balances before, and both to the pool's net balance.
   */
  lemma Conservation(poolId: string, ships: seq<ShipCb>)
    requires Allocation(poolId, ships).Success?
    ensures Sum(Allocation(poolId, ships).value.members, CbAfter) == NetCb(ships)
    ensures Sum(Allocation(poolId, ships).value.members, CbBefore) == NetCb(ships)
  {
    var sm := SurplusMembers(poolId, SortedSurpluses(ships), TotalNeed(ships));
    var dm := DeficitMembers(poolId, SortedDeficits(ships));
    var zm := ZeroMembers(poolId, Zeros(ships));
    BlockTotals(poolId, ships);
    SumThree(sm, dm, zm, CbBefore);
    SumThree(sm, dm, zm, CbAfter);
  }

  // ---------------------------------------------------------------------------------------
  // Member by member.

  /**
   * Surplus ships never go negative and never gain; deficit ships never get worse and, since the
   * net balance is not negative, end at exactly zero; zero ships stay at zero.
   */
  lemma MemberBounds(poolId: string, ships: seq<ShipCb>)
    requires Allocation(poolId, ships).Success?
    ensures var ms := Allocation(poolId, ships).value.members;
      forall i :: 0 <= i < |ms| ==>
        && (ms[i].cbBefore > 0.0 ==> 0.0 <= ms[i].cbAfter <= ms[i].cbBefore)
        && (ms[i].cbBefore < 0.0 ==> ms[i].cbBefore < ms[i].cbAfter == 0.0)
        && (ms[i].cbBefore == 0.0 ==> ms[i].cbAfter == 0.0)
  {
    var c, d, z := SortedSurpluses(ships), SortedDeficits(ships), Zeros(ships);
    SortedGroups(ships);
    var ms := Allocation(poolId, ships).value.members;
    var sm := SurplusMembers(poolId, c, TotalNeed(ships));
    var dm := DeficitMembers(poolId, d);
    forall i | 0 <= i < |ms|
      ensures ms[i].cbBefore > 0.0 ==> 0.0 <= ms[i].cbAfter <= ms[i].cbBefore
      ensures ms[i].cbBefore < 0.0 ==> ms[i].cbBefore < ms[i].cbAfter == 0.0
      ensures ms[i].cbBefore == 0.0 ==> ms[i].cbAfter == 0.0
    {
      if i < |sm| {
        assert ms[i] == sm[i];
      } else if i < |sm| + |dm| {
        assert ms[i] == dm[i - |sm|];
      } else {
        assert ms[i] == ZeroMembers(poolId, z)[i - |sm| - |dm|];
      }
    }
  }

  /** An all-surplus pool (no deficit ship) passes validation with two ships and changes nothing. */
  lemma AllSurplusUnchanged(poolId: string, ships: seq<ShipCb>)
    requires |ships| >= 2
    requires forall i :: 0 <= i < |ships| ==> ships[i].cbGco2eq >= 0.0
    ensures Allocation(poolId, ships).Success?
    ensures var ms := Allocation(poolId, ships).value.members;
      forall i :: 0 <= i < |ms| ==> ms[i].cbAfter == ms[i].cbBefore
  {
    NoDeficits(ships);
    PartitionSum(ships);
    SumNonNegative(Surpluses(ships), Cb);
    var c := SortedSurpluses(ships);
    SortedGroups(ships);
    assert TotalNeed(ships) == 0.0;
    GivenNothing(c);
    var ms := Allocation(poolId, ships).value.members;
    forall i | 0 <= i < |ms| ensures ms[i].cbAfter == ms[i].cbBefore {
      if i < |c| {
        assert ms[i] == SurplusMembers(poolId, c, 0.0)[i];
      } else {
        assert ms[i] == ZeroMembers(poolId, Zeros(ships))[i - |c|];
      }
    }
  }

  lemma {:induction false} NoDeficits(ships: seq<ShipCb>)
    requires forall i :: 0 <= i < |ships| ==> ships[i].cbGco2eq >= 0.0
    ensures Deficits(ships) == []
    decreases |ships|
  {
    if ships != [] {
      NoDeficits(ships[1..]);
    }
  }

  /**
   * The cursor drains the surplus ships front to back: once a surplus ship has given anything,
   * every surplus ship ahead of it in the output has given all it had.
   */
  lemma DrainedInOrder(poolId: string, ships: seq<ShipCb>)
    requires Allocation(poolId, ships).Success?
    ensures var ms := Allocation(poolId, ships).value.members;
      forall i, j :: 0 <= i < j < |ms| && ms[j].cbBefore > 0.0 && ms[j].cbAfter < ms[j].cbBefore
        ==> ms[i].cbAfter == 0.0
  {
    var c, d := SortedSurpluses(ships), SortedDeficits(ships);
    var need := TotalNeed(ships);
    SortedGroups(ships);
    var ms := Allocation(poolId, ships).value.members;
    var sm, dm := SurplusMembers(poolId, c, need), DeficitMembers(poolId, d);
    forall i, j | 0 <= i < j < |ms| && ms[j].cbBefore > 0.0 && ms[j].cbAfter < ms[j].cbBefore
      ensures ms[i].cbAfter == 0.0
    {
      if j >= |sm| {
        assert false;
      }
      assert ms[i] == sm[i] && ms[j] == sm[j];
      PrefixFacts(c, i + 1, j);
      PrefixFacts(c, i, i + 1);
      SumPrefixStep(c, i, Cb);
    }
  }

  // ---------------------------------------------------------------------------------------
  // The shape of the output.

  lemma BeforesAppend(a: seq<PoolMember>, b: seq<PoolMember>)
    ensures Befores(a + b) == Befores(a) + Befores(b)
  {
    assert forall i :: 0 <= i < |a| ==> (a + b)[i] == a[i];
    assert forall i :: |a| <= i < |a + b| ==> (a + b)[i] == b[i - |a|];
  }

  /** Each block is built from its group, ship by ship, and tagged with the pool id. */
  lemma BlockBefores(poolId: string, c: seq<ShipCb>, t: real, d: seq<ShipCb>, z: seq<ShipCb>)
    requires forall k :: 0 <= k < |z| ==> z[k].cbGco2eq == 0.0
    ensures Befores(SurplusMembers(poolId, c, t)) == c
    ensures Befores(DeficitMembers(poolId, d)) == d
    ensures Befores(ZeroMembers(poolId, z)) == z
    ensures forall i :: 0 <= i < |SurplusMembers(poolId, c, t)| ==> SurplusMembers(poolId, c, t)[i].poolId == poolId
    ensures forall i :: 0 <= i < |DeficitMembers(poolId, d)| ==> DeficitMembers(poolId, d)[i].poolId == poolId
    ensures forall i :: 0 <= i < |ZeroMembers(poolId, z)| ==> ZeroMembers(poolId, z)[i].poolId == poolId
  {
  }

  lemma PoolIdsAppend(a: seq<PoolMember>, b: seq<PoolMember>, poolId: string)
    requires forall i :: 0 <= i < |a| ==> a[i].poolId == poolId
    requires forall i :: 0 <= i < |b| ==> b[i].poolId == poolId
    ensures forall i :: 0 <= i < |a + b| ==> (a + b)[i].poolId == poolId
  {
    assert forall i :: |a| <= i < |a + b| ==> (a + b)[i] == b[i - |a|];
  }

  /** A surplus block, a deficit block and a zero block, built from the groups in that order. */
  lemma MembersOrder(poolId: string, ships: seq<ShipCb>)
    requires Allocation(poolId, ships).Success?
    ensures var ms := Allocation(poolId, ships).value.members;
      && Befores(ms) == SortedSurpluses(ships) + SortedDeficits(ships) + Zeros(ships)
      && (forall i :: 0 <= i < |ms| ==> ms[i].poolId == poolId)
      && SortedDesc(SortedSurpluses(ships), Cb)
      && SortedDesc(SortedDeficits(ships), Needed)
  {
    var c, d, z := SortedSurpluses(ships), SortedDeficits(ships), Zeros(ships);
    var sm := SurplusMembers(poolId, c, TotalNeed(ships));
    var dm, zm := DeficitMembers(poolId, d), ZeroMembers(poolId, z);
    BlockBefores(poolId, c, TotalNeed(ships), d, z);
    BeforesAppend(sm, dm);
    BeforesAppend(sm + dm, zm);
    PoolIdsAppend(sm, dm, poolId);
    PoolIdsAppend(sm + dm, zm, poolId);
    SortDescSorted(Surpluses(ships), Cb);
    SortDescSorted(Deficits(ships), Needed);
  }

  /** The members are the input ships, each exactly once, with their balances before pooling. */
  lemma MembersPermute(poolId: string, ships: seq<ShipCb>)
    requires Allocation(poolId, ships).Success?
    ensures |Allocation(poolId, ships).value.members| == |ships|
    ensures multiset(Befores(Allocation(poolId, ships).value.members)) == multiset(ships)
  {
    var c, d, z := SortedSurpluses(ships), SortedDeficits(ships), Zeros(ships);
    MembersOrder(poolId, ships);
    assert multiset(c + d + z) == multiset(c) + multiset(d) + multiset(z);
    SortDescPermutes(Surpluses(ships), Cb);
    SortDescPermutes(Deficits(ships), Needed);
    PartitionPermutes(ships);
    assert Groups(ships) == multiset(Surpluses(ships)) + multiset(Deficits(ships)) + multiset(Zeros(ships));
  }

  lemma {:induction false} SurplusesWithKey(ships: seq<ShipCb>, v: real)
    requires v > 0.0
    ensures WithKey(Surpluses(ships), Cb, v) == WithKey(ships, Cb, v)
    decreases |ships|
  {
    if ships != [] {
      SurplusesWithKey(ships[1..], v);
      PartitionStep(ships);
      WithKeyAppend((if ships[0].cbGco2eq > 0.0 then [ships[0]] else []), Surpluses(ships[1..]), Cb, v);
    }
  }

  lemma {:induction false} DeficitsWithKey(ships: seq<ShipCb>, v: real)
    requires v < 0.0
    ensures WithKey(Deficits(ships), Cb, v) == WithKey(ships, Cb, v)
    decreases |ships|
  {
    if ships != [] {
      DeficitsWithKey(ships[1..], v);
      PartitionStep(ships);
      WithKeyAppend((if ships[0].cbGco2eq < 0.0 then [ships[0]] else []), Deficits(ships[1..]), Cb, v);
    }
  }

  lemma {:induction false} ZerosWithKey(ships: seq<ShipCb>)
    ensures Zeros(ships) == WithKey(ships, Cb, 0.0)
    decreases |ships|
  {
    if ships != [] {
      ZerosWithKey(ships[1..]);
    }
  }

  lemma {:induction false} WithKeyAppend<T>(a: seq<T>, b: seq<T>, key: T -> real, v: real)
    ensures WithKey(a + b, key, v) == WithKey(a, key, v) + WithKey(b, key, v)
    decreases |a|
  {
    if a == [] {
      assert a + b == b;
    } else {
      WithKeyAppend(a[1..], b, key, v);
      AppendTail(a, b);
    }
  }

  lemma AppendTail<T>(a: seq<T>, b: seq<T>)
    requires a != []
    ensures a + b != [] && (a + b)[0] == a[0] && (a + b)[1..] == a[1..] + b
  {
  }

  /** Among deficit ships, equal need means equal balance. */
  lemma {:induction false} NeedKeyIsBalanceKey(d: seq<ShipCb>, v: real)
    requires forall j :: 0 <= j < |d| ==> d[j].cbGco2eq < 0.0
    requires v < 0.0
    ensures WithKey(d, Needed, -v) == WithKey(d, Cb, v)
    decreases |d|
  {
    if d != [] {
      NeedKeyIsBalanceKey(d[1..], v);
    }
  }

  /**
   * Ties keep input order (the sort is stable): the ships of any one balance appear in the
   * surplus, deficit or zero block in the order they were given.
   */
  lemma TiesKeepInputOrder(ships: seq<ShipCb>, v: real)
    ensures v > 0.0 ==> WithKey(SortedSurpluses(ships), Cb, v) == WithKey(ships, Cb, v)
    ensures v < 0.0 ==> WithKey(SortedDeficits(ships), Cb, v) == WithKey(ships, Cb, v)
    ensures Zeros(ships) == WithKey(ships, Cb, 0.0)
  {
    ZerosWithKey(ships);
    if v > 0.0 {
      SurplusTies(ships, v);
    }
    if v < 0.0 {
      DeficitTies(ships, v);
    }
  }

  lemma SurplusTies(ships: seq<ShipCb>, v: real)
    requires v > 0.0
    ensures WithKey(SortedSurpluses(ships), Cb, v) == WithKey(ships, Cb, v)
  {
    SortDescStable(Surpluses(ships), Cb, v);
    SurplusesWithKey(ships, v);
  }

  /** The deficits are sorted on need, so a tie in need is a tie in balance. */
  lemma DeficitTies(ships: seq<ShipCb>, v: real)
    requires v < 0.0
    ensures WithKey(SortedDeficits(ships), Cb, v) == WithKey(ships, Cb, v)
  {
    var d := Deficits(ships);
    SortedGroups(ships);
    SortDescStable(d, Needed, -v);
    NeedKeyIsBalanceKey(d, v);
    NeedKeyIsBalanceKey(SortDesc(d, Needed), v);
    DeficitsWithKey(ships, v);
  }

  // ---------------------------------------------------------------------------------------
  // Totals.

  lemma {:induction false} GroupSums(ships: seq<ShipCb>)
    ensures Sum(Surpluses(ships), Cb) == Sum(ships, PositivePart)
    ensures Sum(Deficits(ships), Cb) == Sum(ships, NegativePart)
    decreases |ships|
  {
    if ships != [] {
      var x, rest := ships[0], ships[1..];
      GroupSums(rest);
      PartitionStep(ships);
      assert ships == [x] + rest;
      SumCons(x, rest, PositivePart);
      SumCons(x, rest, NegativePart);
      if x.cbGco2eq > 0.0 {
        assert Surpluses(ships) == [x] + Surpluses(rest) && Deficits(ships) == Deficits(rest);
        SumCons(x, Surpluses(rest), Cb);
      } else if x.cbGco2eq < 0.0 {
        assert Surpluses(ships) == Surpluses(rest) && Deficits(ships) == [x] + Deficits(rest);
        SumCons(x, Deficits(rest), Cb);
      } else {
        assert Surpluses(ships) == Surpluses(rest) && Deficits(ships) == Deficits(rest);
      }
    }
  }

  /**
   * totalSurplusBefore is the sum of the positive balances, totalDeficitBefore the sum of the
   * negative ones, and netCb their sum, the sum of all balances.
   */
  lemma Totals(poolId: string, ships: seq<ShipCb>)
    requires Allocation(poolId, ships).Success?
    ensures var r := Allocation(poolId, ships).value;
      && r.totalSurplusBefore == Sum(ships, PositivePart)
      && r.totalDeficitBefore == Sum(ships, NegativePart)
      && r.netCb == r.totalSurplusBefore + r.totalDeficitBefore == Sum(ships, Cb)
  {
    GroupSums(ships);
    PartitionSum(ships);
  }
}
