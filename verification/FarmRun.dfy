/** The pool loop of `PancakeSwapBSCFarmService.run`
    (src/scheduler-job/pancake-swap-job/pancake-swap-job.bsc.farm.service.ts:196-281). */
module FarmRun {
  import opened Arrays
  import opened Numbers
  import opened FarmRewards
  import opened Addresses

  /** A farm row; `stake` is the address of stake_tokens[0]. */
  datatype FarmRow = FarmRow(status: bool, stake: Address, liquidityAmount: real, liquidityValue: real, apr: Num)
  type FarmTable = map<nat, FarmRow> // by pid

  datatype StakeToken = StakeToken(decimals: nat, price: real, active: bool)
  datatype PoolInfo = PoolInfo(lpToken: Address, allocPoint: nat)

  /** Everything a run reads: the chain at one block and the token table. */
  datatype Snapshot = Snapshot(
    farmInfos: seq<Option<PoolInfo>>, // None: the pool could not be read
    totalAllocPoint: nat,
    rewardValueInOneYear: Num,
    tokens: map<Address, StakeToken>,
    stakedBalance: Address -> Option<nat>) // None: the read throws

  datatype Outcome = Done(row: Option<FarmRow>) | Failed

  /** `registerFarm`: a pool whose stake token is missing or inactive is not registered. */
  function Register(snap: Snapshot, info: PoolInfo): Option<FarmRow> {
    if info.lpToken in snap.tokens && snap.tokens[info.lpToken].active
    then Some(FarmRow(true, info.lpToken, 0.0, 0.0, Finite(0.0))) else None
  }

  /** The numbers `refreshFarm` stores; a missing stake token and a balance that cannot be read throw. */
  function FreshRow(snap: Snapshot, info: PoolInfo, stake: Address): Option<FarmRow> {
    if stake !in snap.tokens || snap.stakedBalance(stake).None? then None
    else
      var token := snap.tokens[stake];
      var liquidityAmount := DivideDecimals(snap.stakedBalance(stake).value, token.decimals);
      var liquidityValue := liquidityAmount * token.price;
      Some(FarmRow(true, stake, liquidityAmount, liquidityValue,
                   Apr(info.allocPoint, snap.totalAllocPoint, snap.rewardValueInOneYear, liquidityValue)))
  }

  /** `refreshFarm`: an inactive row is left alone. */
  function Refresh(snap: Snapshot, info: PoolInfo, row: FarmRow): Outcome {
    if !row.status then Done(Some(row))
    else
      var numbers := FreshRow(snap, info, row.stake);
      if numbers.None? then Failed else Done(numbers)
  }

  /** One pass of the loop body, seen from the row of its own pid. `fault` is any other failure: of the
      database, of a connection, of the commit. */
  function PoolStep(snap: Snapshot, info: Option<PoolInfo>, fault: bool, row: Option<FarmRow>): Outcome {
    if fault then Failed
    else if info.None? then Done(row)
    else if info.value.allocPoint == 0 then Done(if row.Some? then Some(row.value.(status := false)) else None)
    else
      var registered := if row.Some? then row else Register(snap, info.value);
      if registered.None? then Done(None) else Refresh(snap, info.value, registered.value)
  }

  function Lookup(farms: FarmTable, pid: nat): Option<FarmRow> {
    if pid in farms then Some(farms[pid]) else None
  }

  function Put(farms: FarmTable, pid: nat, row: Option<FarmRow>): FarmTable {
    if row.Some? then farms[pid := row.value] else farms
  }

  /** Table and failed pids after the first n pools. */
  function RunPools(snap: Snapshot, faults: nat -> bool, farms: FarmTable, n: nat): (FarmTable, seq<nat>)
    requires n <= |snap.farmInfos|
  {
    if n == 0 then (farms, [])
    else
      var (before, failed) := RunPools(snap, faults, farms, n - 1);
      var outcome := PoolStep(snap, snap.farmInfos[n - 1], faults(n - 1), Lookup(before, n - 1));
      if outcome.Failed? then (before, failed + [n - 1])
      else (Put(before, n - 1, outcome.row), failed)
  }

  class FarmStore {
    var farms: FarmTable

    /** The loop of `run`: each pool in its own transaction, a failure is recorded and the loop goes on. */
    method Run(snap: Snapshot, faults: nat -> bool) returns (failed: seq<nat>)
      modifies this
      ensures (farms, failed) == RunPools(snap, faults, old(farms), |snap.farmInfos|)
    {
      failed := [];
      for pid := 0 to |snap.farmInfos|
        invariant (farms, failed) == RunPools(snap, faults, old(farms), pid)
      {
        var farm, farmInfo := Lookup(farms, pid), snap.farmInfos[pid];
        assert Put(farms, pid, farm) == farms;
        if faults(pid) {
          failed := failed + [pid];
          continue;
        }
        if farmInfo.None? {
          continue;
        }
        if farmInfo.value.allocPoint == 0 {
          if farm.Some? {
            farms := farms[pid := farm.value.(status := false)];
          }
          continue;
        }
        // the transaction works on a staged copy
        var staged := farms;
        var initialized := true;
        if farm.None? {
          var created := Register(snap, farmInfo.value);
          initialized := created.Some?;
          if initialized {
            staged := staged[pid := created.value];
          }
        }
        if initialized {
          var refreshed := Refresh(snap, farmInfo.value, staged[pid]);
          if refreshed.Failed? {
            failed := failed + [pid];
            continue;
          }
          staged := staged[pid := refreshed.row.value];
          assert staged == farms[pid := refreshed.row.value];
        }
        farms := staged;
      }
    }
  }

  /** Pools are independent: the run leaves in every row exactly what its own pass leaves there, a failing
      pool's row is untouched, and the failed pids are reported once each, in order. */
  lemma {:induction false} PoolsIndependent(snap: Snapshot, faults: nat -> bool, farms: FarmTable, n: nat, pid: nat)
    requires n <= |snap.farmInfos|
    ensures pid >= n ==> Lookup(RunPools(snap, faults, farms, n).0, pid) == Lookup(farms, pid)
    ensures pid < n ==>
              var outcome := PoolStep(snap, snap.farmInfos[pid], faults(pid), Lookup(farms, pid));
              Lookup(RunPools(snap, faults, farms, n).0, pid)
              == if outcome.Failed? then Lookup(farms, pid) else outcome.row
    ensures pid in RunPools(snap, faults, farms, n).1 <==>
              pid < n && PoolStep(snap, snap.farmInfos[pid], faults(pid), Lookup(farms, pid)).Failed?
    ensures Distinct(RunPools(snap, faults, farms, n).1)
  {
    if n > 0 {
      PoolsIndependent(snap, faults, farms, n - 1, pid);
      PoolsIndependent(snap, faults, farms, n - 1, n - 1);
      StepKeepsRow(snap, snap.farmInfos[n - 1], faults(n - 1), Lookup(farms, n - 1));
    }
  }

  lemma StepKeepsRow(snap: Snapshot, info: Option<PoolInfo>, fault: bool, row: Option<FarmRow>)
    ensures var o := PoolStep(snap, info, fault, row); o.Done? && row.Some? ==> o.row.Some?
  {
  }

  /** A second pass over the row a pass left there, with nothing changed outside, leaves it as it is. */
  lemma StepIdempotent(snap: Snapshot, info: Option<PoolInfo>, fault: bool, row: Option<FarmRow>)
    ensures var first := PoolStep(snap, info, fault, row);
            var left := if first.Failed? then row else first.row;
            PoolStep(snap, info, false, left) == PoolStep(snap, info, false, row)
  {
  }

  // ---------- what one run does to one pool ----------

  /** The value of what is staked, as the chain's balance and the token's price give it. */
  function StakedValue(snap: Snapshot, stake: Address): real
    requires stake in snap.tokens && snap.stakedBalance(stake).Some?
  {
    snap.stakedBalance(stake).value as real * snap.tokens[stake].price / Pow10(snap.tokens[stake].decimals)
  }

  /** No rate without liquidity, and otherwise one that pays the pool's share of the reward up to half of 10^-20 per
      unit of reward and of liquidity; an infinite one when there are no points in all. */
  predicate RateOk(apr: Num, alloc: nat, total: nat, reward: Num, liquidity: real) {
    && (liquidity == 0.0 ==> apr == Finite(0.0))
    && (liquidity > 0.0 && total == 0 && alloc > 0 && reward.Finite? && reward.v > 0.0 ==> apr == Infinite(true))
    && (liquidity > 0.0 && total > 0 && reward.Finite? && reward.v >= 0.0 ==>
          && apr.Finite?
          && OffShare(apr.v, liquidity, reward.v, alloc, total) <= 0.000000000000000000005 * (reward.v + liquidity))
  }

  /** How far what the rate pays, in percent of the liquidity, is from the pool's share of the reward. */
  function OffShare(apr: real, liquidity: real, reward: real, alloc: nat, total: nat): real
    requires total > 0
  {
    Abs(apr * liquidity / 100.0 - reward * (alloc as real / total as real))
  }

  /** The row holds this snapshot's numbers: the staked amount and value, and the rate. */
  predicate HoldsNumbers(snap: Snapshot, info: PoolInfo, row: FarmRow) {
    && row.status && row.stake in snap.tokens && snap.stakedBalance(row.stake).Some?
    && row.liquidityAmount * Pow10(snap.tokens[row.stake].decimals) == snap.stakedBalance(row.stake).value as real
    && row.liquidityValue == row.liquidityAmount * snap.tokens[row.stake].price
    && row.liquidityValue == StakedValue(snap, row.stake)
    && RateOk(row.apr, info.allocPoint, snap.totalAllocPoint, snap.rewardValueInOneYear, row.liquidityValue)
  }

  /** The pass comes to the refresh: the pool was read with points, and its row is active, or there is none and the
      stake token is registered and active. */
  predicate ComesToRefresh(snap: Snapshot, faults: nat -> bool, farms: FarmTable, pid: nat) {
    && pid < |snap.farmInfos| && !faults(pid)
    && snap.farmInfos[pid].Some? && snap.farmInfos[pid].value.allocPoint != 0
    && if pid in farms then farms[pid].status
       else var lp := snap.farmInfos[pid].value.lpToken; lp in snap.tokens && snap.tokens[lp].active
  }

  function StakeOf(snap: Snapshot, farms: FarmTable, pid: nat): Address
    requires pid < |snap.farmInfos| && snap.farmInfos[pid].Some?
  {
    if pid in farms then farms[pid].stake else snap.farmInfos[pid].value.lpToken
  }

  predicate CanRefresh(snap: Snapshot, faults: nat -> bool, farms: FarmTable, pid: nat) {
    && ComesToRefresh(snap, faults, farms, pid)
    && StakeOf(snap, farms, pid) in snap.tokens && snap.stakedBalance(StakeOf(snap, farms, pid)).Some?
  }

  /** What a run does to one pool, for any snapshot, failures and table. It is reported as failed iff something outside
      failed, or it came to the refresh and its stake token or balance could not be read. A refreshed row keeps its
      stake token, a new one has the pool's, and both hold this snapshot's numbers. A row whose pool has no points is
      switched off. Everything else stays. */
  lemma RunPoolsExact(snap: Snapshot, faults: nat -> bool, farms: FarmTable, pid: nat)
    requires pid < |snap.farmInfos|
    ensures var (after, failed) := RunPools(snap, faults, farms, |snap.farmInfos|);
            && (pid in failed <==>
                  faults(pid) || (ComesToRefresh(snap, faults, farms, pid) && !CanRefresh(snap, faults, farms, pid)))
            && (CanRefresh(snap, faults, farms, pid) ==>
                  && pid in after && after[pid].stake == StakeOf(snap, farms, pid)
                  && HoldsNumbers(snap, snap.farmInfos[pid].value, after[pid]))
            && (!CanRefresh(snap, faults, farms, pid) ==>
                  if !faults(pid) && pid in farms
                     && snap.farmInfos[pid].Some? && snap.farmInfos[pid].value.allocPoint == 0
                  then pid in after && after[pid] == farms[pid].(status := false)
                  else (pid in after <==> pid in farms) && (pid in farms ==> after[pid] == farms[pid]))
  {
    PoolsIndependent(snap, faults, farms, |snap.farmInfos|, pid);
    var after := RunPools(snap, faults, farms, |snap.farmInfos|).0;
    assert pid in after <==> Lookup(after, pid).Some?;
    if CanRefresh(snap, faults, farms, pid) {
      FreshNumbers(snap, snap.farmInfos[pid].value, StakeOf(snap, farms, pid));
    }
    hide RunPools, HoldsNumbers, Apr, DivideDecimals;
  }

  lemma FreshNumbers(snap: Snapshot, info: PoolInfo, stake: Address)
    requires stake in snap.tokens && snap.stakedBalance(stake).Some?
    ensures var row := FreshRow(snap, info, stake);
            row.Some? && row.value.stake == stake && HoldsNumbers(snap, info, row.value)
  {
    hide Apr, DivideDecimals, Pow10, RateOk;
    var row, token, raw := FreshRow(snap, info, stake).value, snap.tokens[stake], snap.stakedBalance(stake).value;
    AmountScaled(raw, token.decimals);
    ValueScaled(row.liquidityAmount, raw as real, token.price, Pow10(token.decimals));
    RateBound(info.allocPoint, snap.totalAllocPoint, snap.rewardValueInOneYear, row.liquidityValue);
  }

  lemma AmountScaled(raw: nat, decimals: nat)
    ensures Pow10(decimals) > 0.0
    ensures DivideDecimals(raw, decimals) * Pow10(decimals) == raw as real
  {
  }

  lemma ValueScaled(amount: real, raw: real, price: real, scale: real)
    requires scale > 0.0 && amount * scale == raw
    ensures amount * price == raw * price / scale
  {
    var v := amount * price;
    assert v * scale == raw * price;
  }

  lemma RateBound(alloc: nat, total: nat, reward: Num, liquidity: real)
    ensures RateOk(Apr(alloc, total, reward, liquidity), alloc, total, reward, liquidity)
  {
    hide Apr, Paid, Part, Slack, Abs, OffShare;
    if liquidity == 0.0 {
      NoLiquidityNoRate(alloc, total, reward);
    }
    if liquidity > 0.0 && total == 0 && alloc > 0 && reward.Finite? && reward.v > 0.0 {
      NoPointsInfiniteRate(alloc, reward.v, liquidity);
    }
    if liquidity > 0.0 && total > 0 && reward.Finite? && reward.v >= 0.0 {
      assert reward == Finite(reward.v);
      PoolPaysItsShare(alloc, total, reward.v, liquidity);
      RateSpelledOut(Apr(alloc, total, reward, liquidity), alloc, total, reward.v, liquidity);
    }
  }

  lemma RateSpelledOut(apr: Num, alloc: nat, total: nat, reward: real, liquidity: real)
    requires apr.Finite? && total > 0
    requires Abs(Paid(apr, liquidity) - Part(reward, alloc, total)) <= Slack(1, reward, liquidity)
    ensures OffShare(apr.v, liquidity, reward, alloc, total) <= 0.000000000000000000005 * (reward + liquidity)
  {
  }

  lemma NoPointsInfiniteRate(alloc: nat, reward: real, liquidity: real)
    requires alloc > 0 && reward > 0.0 && liquidity > 0.0
    ensures Apr(alloc, 0, Finite(reward), liquidity) == Infinite(true)
  {
    assert Div(Finite(alloc as real), Finite(0 as real)) == Infinite(true);
    assert Mul(Finite(reward), Infinite(true)) == Infinite(true);
    assert Mul(Div(Infinite(true), Finite(liquidity)), Finite(100.0)) == Infinite(true);
    hide Div, Mul;
  }

  lemma NoLiquidityNoRate(alloc: nat, total: nat, reward: Num)
    ensures Apr(alloc, total, reward, 0.0) == Finite(0.0)
  {
    hide Div, Mul;
  }

  // ---------- what the refreshed rows pay ----------

  /** The pools of a list of pids: their points, and the value of what is staked in them. */
  function PoolsAfter(snap: Snapshot, farms: FarmTable, pids: seq<nat>): seq<Pool>
    requires forall i :: 0 <= i < |pids| ==> Refreshed(snap, farms, pids[i])
  {
    seq(|pids|, i requires 0 <= i < |pids| =>
          assert Refreshed(snap, farms, pids[i]);
          Pool(snap.farmInfos[pids[i]].value.allocPoint, StakedValue(snap, farms[pids[i]].stake)))
  }

  /** The row of an active pool with the numbers of this snapshot, and liquidity in it. */
  predicate Refreshed(snap: Snapshot, farms: FarmTable, pid: nat) {
    && pid < |snap.farmInfos| && snap.farmInfos[pid].Some? && pid in farms
    && FreshRow(snap, snap.farmInfos[pid].value, farms[pid].stake) == Some(farms[pid])
    && farms[pid].liquidityValue > 0.0
  }

  /** What the stored rates pay on what is staked. */
  function SumStored(snap: Snapshot, farms: FarmTable, pids: seq<nat>): real
    requires forall i :: 0 <= i < |pids| ==> Refreshed(snap, farms, pids[i])
  {
    if pids == [] then 0.0
    else
      var pid := pids[|pids| - 1];
      assert Refreshed(snap, farms, pid);
      SumStored(snap, farms, pids[..|pids| - 1]) + Paid(farms[pid].apr, StakedValue(snap, farms[pid].stake))
  }

  /** A pass that does not fail over a pool with allocation points leaves a row with this snapshot's numbers, or
      an inactive row as it was, or no row. */
  lemma PassLeavesFreshRow(snap: Snapshot, info: PoolInfo, row: Option<FarmRow>)
    requires info.allocPoint != 0
    ensures var o := PoolStep(snap, Some(info), false, row);
            o.Done? ==> o.row.None? || !o.row.value.status || FreshRow(snap, info, o.row.value.stake) == o.row
  {
  }

  /** What the rows of a run pay together is their part of the year's reward, up to the rounding. */
  lemma {:induction false} StoredRatesConserveReward(snap: Snapshot, farms: FarmTable, pids: seq<nat>)
    requires snap.rewardValueInOneYear.Finite? && snap.rewardValueInOneYear.v >= 0.0 && snap.totalAllocPoint > 0
    requires forall i :: 0 <= i < |pids| ==> Refreshed(snap, farms, pids[i]) && pids[i] in farms
    ensures var pools, reward := PoolsAfter(snap, farms, pids), snap.rewardValueInOneYear.v;
            Abs(SumStored(snap, farms, pids) - Part(reward, SumAlloc(pools), snap.totalAllocPoint))
            <= Slack(|pids|, reward, SumLiquidity(pools))
  {
    StoredIsPaid(snap, farms, pids);
    var pools := PoolsAfter(snap, farms, pids);
    forall i | 0 <= i < |pools|
      ensures pools[i].liquidityValue > 0.0
    {
      RefreshedRate(snap, farms, pids[i]);
      hide StakedValue, FreshRow;
    }
    hide Refreshed, FreshRow, SumPaid, Part, Slack, SumStored;
    RewardConserved(pools, snap.totalAllocPoint, snap.rewardValueInOneYear.v);
  }

  /** The run has refreshed the row of the pool, and there is liquidity in it: the pool was read with points, its pass
      did not fail, and its row is active afterwards. */
  predicate RefreshedByRun(snap: Snapshot, faults: nat -> bool, farms: FarmTable, pid: nat) {
    var (after, failed) := RunPools(snap, faults, farms, |snap.farmInfos|);
    && pid < |snap.farmInfos| && snap.farmInfos[pid].Some? && snap.farmInfos[pid].value.allocPoint != 0
    && pid !in failed
    && pid in after && after[pid].status && after[pid].liquidityValue > 0.0
  }

  lemma RunRefreshes(snap: Snapshot, faults: nat -> bool, farms: FarmTable, pid: nat)
    requires RefreshedByRun(snap, faults, farms, pid)
    ensures Refreshed(snap, RunPools(snap, faults, farms, |snap.farmInfos|).0, pid)
  {
    PoolsIndependent(snap, faults, farms, |snap.farmInfos|, pid);
    PassLeavesFreshRow(snap, snap.farmInfos[pid].value, Lookup(farms, pid));
    hide RunPools, FreshRow;
  }

  /** After any run, with any failures, on any table: the rows it has refreshed pay their part of the year's reward, up
      to the rounding. */
  lemma RunConservesReward(snap: Snapshot, faults: nat -> bool, farms: FarmTable, pids: seq<nat>)
    requires snap.rewardValueInOneYear.Finite? && snap.rewardValueInOneYear.v >= 0.0 && snap.totalAllocPoint > 0
    requires forall i :: 0 <= i < |pids| ==> RefreshedByRun(snap, faults, farms, pids[i])
    ensures var after := RunPools(snap, faults, farms, |snap.farmInfos|).0;
            && (forall i :: 0 <= i < |pids| ==> Refreshed(snap, after, pids[i]) && pids[i] in after)
            && var pools, reward := PoolsAfter(snap, after, pids), snap.rewardValueInOneYear.v;
               Abs(SumStored(snap, after, pids) - Part(reward, SumAlloc(pools), snap.totalAllocPoint))
               <= Slack(|pids|, reward, SumLiquidity(pools))
  {
    hide *;
    AllRefreshed(snap, faults, farms, pids);
    StoredRatesConserveReward(snap, RunPools(snap, faults, farms, |snap.farmInfos|).0, pids);
  }

  lemma AllRefreshed(snap: Snapshot, faults: nat -> bool, farms: FarmTable, pids: seq<nat>)
    requires forall i :: 0 <= i < |pids| ==> RefreshedByRun(snap, faults, farms, pids[i])
    ensures var after := RunPools(snap, faults, farms, |snap.farmInfos|).0;
            forall i :: 0 <= i < |pids| ==> Refreshed(snap, after, pids[i]) && pids[i] in after
  {
    var after := RunPools(snap, faults, farms, |snap.farmInfos|).0;
    forall i | 0 <= i < |pids|
      ensures Refreshed(snap, after, pids[i]) && pids[i] in after
    {
      RunRefreshes(snap, faults, farms, pids[i]);
      hide RunPools, FreshRow;
    }
  }

  lemma {:induction false} StoredIsPaid(snap: Snapshot, farms: FarmTable, pids: seq<nat>)
    requires snap.rewardValueInOneYear.Finite?
    requires forall i :: 0 <= i < |pids| ==> Refreshed(snap, farms, pids[i]) && pids[i] in farms
    ensures SumStored(snap, farms, pids)
         == SumPaid(PoolsAfter(snap, farms, pids), snap.totalAllocPoint, snap.rewardValueInOneYear.v)
  {
    hide Apr, Paid, FreshRow, Refreshed, StakedValue;
    if pids != [] {
      var n := |pids| - 1;
      StoredIsPaid(snap, farms, pids[..n]);
      RefreshedRate(snap, farms, pids[n]);
      var pools := PoolsAfter(snap, farms, pids);
      assert pools[..n] == PoolsAfter(snap, farms, pids[..n]);
      RefreshedPool(snap, farms, pids, n);
    }
  }

  lemma RefreshedPool(snap: Snapshot, farms: FarmTable, pids: seq<nat>, i: nat)
    requires forall k :: 0 <= k < |pids| ==> Refreshed(snap, farms, pids[k])
    requires i < |pids|
    ensures pids[i] < |snap.farmInfos| && snap.farmInfos[pids[i]].Some? && pids[i] in farms
    ensures farms[pids[i]].stake in snap.tokens && snap.stakedBalance(farms[pids[i]].stake).Some?
    ensures PoolsAfter(snap, farms, pids)[i]
         == Pool(snap.farmInfos[pids[i]].value.allocPoint, StakedValue(snap, farms[pids[i]].stake))
  {
    assert Refreshed(snap, farms, pids[i]);
    hide Apr, DivideDecimals, StakedValue;
  }

  lemma RefreshedRate(snap: Snapshot, farms: FarmTable, pid: nat)
    requires Refreshed(snap, farms, pid)
    ensures farms[pid].liquidityValue == StakedValue(snap, farms[pid].stake)
    ensures farms[pid].apr == Apr(snap.farmInfos[pid].value.allocPoint, snap.totalAllocPoint,
                                  snap.rewardValueInOneYear, StakedValue(snap, farms[pid].stake))
  {
    hide Apr, DivideDecimals, RateOk, StakedValue;
    FreshNumbers(snap, snap.farmInfos[pid].value, farms[pid].stake);
  }

  predicate NoFaults(pid: nat) { false }

  /** Retrying converges: whatever failed in a first run, a run without failures afterwards leaves the table
      that one run without failures would have left. With no failures at all the run is idempotent. */
  lemma RetryConverges(snap: Snapshot, faults: nat -> bool, farms: FarmTable)
    ensures var n := |snap.farmInfos|;
            RunPools(snap, NoFaults, RunPools(snap, faults, farms, n).0, n) == RunPools(snap, NoFaults, farms, n)
  {
    ConvergesUpTo(snap, faults, farms, |snap.farmInfos|);
  }

  lemma ConvergesUpTo(snap: Snapshot, faults: nat -> bool, farms: FarmTable, n: nat)
    requires n <= |snap.farmInfos|
    ensures RunPools(snap, NoFaults, RunPools(snap, faults, farms, n).0, n) == RunPools(snap, NoFaults, farms, n)
  {
    var first := RunPools(snap, faults, farms, n).0;
    var again, once := RunPools(snap, NoFaults, first, n), RunPools(snap, NoFaults, farms, n);
    forall pid: nat
      ensures Lookup(again.0, pid) == Lookup(once.0, pid)
    {
      PoolsIndependent(snap, faults, farms, n, pid);
      PoolsIndependent(snap, NoFaults, first, n, pid);
      PoolsIndependent(snap, NoFaults, farms, n, pid);
      if pid < n {
        StepIdempotent(snap, snap.farmInfos[pid], faults(pid), Lookup(farms, pid));
      }
    }
    SameTable(again.0, once.0);
    SameFailures(snap, faults, farms, n, n);
  }

  lemma SameTable(a: FarmTable, b: FarmTable)
    requires forall pid: nat :: Lookup(a, pid) == Lookup(b, pid)
    ensures a == b
  {
    forall pid: nat
      ensures pid in a <==> pid in b
      ensures pid in a ==> a[pid] == b[pid]
    {
      assert Lookup(a, pid) == Lookup(b, pid);
    }
  }

  lemma {:induction false} SameFailures(snap: Snapshot, faults: nat -> bool, farms: FarmTable, n: nat, k: nat)
    requires k <= n <= |snap.farmInfos|
    ensures RunPools(snap, NoFaults, RunPools(snap, faults, farms, n).0, k).1 == RunPools(snap, NoFaults, farms, k).1
  {
    if k > 0 {
      var first := RunPools(snap, faults, farms, n).0;
      SameFailures(snap, faults, farms, n, k - 1);
      PoolsIndependent(snap, faults, farms, n, k - 1);
      PoolsIndependent(snap, NoFaults, first, k - 1, k - 1);
      PoolsIndependent(snap, NoFaults, farms, k - 1, k - 1);
      StepIdempotent(snap, snap.farmInfos[k - 1], faults(k - 1), Lookup(farms, k - 1));
    }
  }

  /** The table after a sequence of runs, each with its own snapshot and failures. */
  function RunAll(runs: seq<(Snapshot, nat -> bool)>, farms: FarmTable): FarmTable {
    if runs == [] then farms
    else RunAll(runs[1..], RunPools(runs[0].0, runs[0].1, farms, |runs[0].0.farmInfos|).0)
  }

  /** Once a row is inactive it stays inactive through every later sequential run, and keeps its last numbers. */
  lemma {:induction false} InactiveForGood(runs: seq<(Snapshot, nat -> bool)>, farms: FarmTable, pid: nat)
    requires pid in farms && !farms[pid].status
    ensures pid in RunAll(runs, farms) && RunAll(runs, farms)[pid] == farms[pid]
  {
    if runs != [] {
      var (snap, faults) := runs[0];
      var next := RunPools(snap, faults, farms, |snap.farmInfos|).0;
      PoolsIndependent(snap, faults, farms, |snap.farmInfos|, pid);
      assert Lookup(next, pid) == Some(farms[pid]);
      InactiveForGood(runs[1..], next, pid);
    }
  }

  /** A row becomes inactive in a run exactly when the pool was read with no allocation points and did not fail. */
  lemma BecomesInactive(snap: Snapshot, faults: nat -> bool, farms: FarmTable, pid: nat)
    requires pid in farms && farms[pid].status
    ensures var after := RunPools(snap, faults, farms, |snap.farmInfos|).0;
            && pid in after
            && (!after[pid].status <==>
                pid < |snap.farmInfos| && !faults(pid) && snap.farmInfos[pid].Some?
                && snap.farmInfos[pid].value.allocPoint == 0)
  {
    PoolsIndependent(snap, faults, farms, |snap.farmInfos|, pid);
    var after := RunPools(snap, faults, farms, |snap.farmInfos|).0;
    if pid < |snap.farmInfos| {
      StepKeepsRow(snap, snap.farmInfos[pid], faults(pid), Lookup(farms, pid));
    }
    assert pid in after <==> Lookup(after, pid).Some?;
  }

  // ---------- overlapping runs ----------

  /** One row shared by runs that overlap: the committed row, and what the refreshes that have read it, and found
      it active, are about to write. */
  datatype Shared = Shared(row: FarmRow, writing: map<nat, FarmRow>)

  datatype RowStep =
    | SwitchOff                                          // a run sees no allocation points
    | ReadRow(run: nat, snap: Snapshot, info: PoolInfo)  // `refreshFarm` finds the row and computes
    | WriteRow(run: nat)                                 // and updates it, `status: true` included
    | GiveUp(run: nat)                                   // or fails

  function RowAfter(s: Shared, step: RowStep): Shared {
    match step
    case SwitchOff => s.(row := s.row.(status := false))
    case ReadRow(run, snap, info) =>
      var numbers := FreshRow(snap, info, s.row.stake);
      if s.row.status && numbers.Some? then s.(writing := s.writing[run := numbers.value]) else s
    case WriteRow(run) => if run in s.writing then Shared(s.writing[run], s.writing - {run}) else s
    case GiveUp(run) => s.(writing := s.writing - {run})
  }

  function RowAfterAll(s: Shared, steps: seq<RowStep>): Shared {
    if steps == [] then s else RowAfter(RowAfterAll(s, steps[..|steps| - 1]), steps[|steps| - 1])
  }

  /** What refreshes are about to write is always an active row. */
  predicate WritesActive(s: Shared) {
    forall run :: run in s.writing ==> s.writing[run].status
  }

  lemma {:induction false} AlwaysWritesActive(s: Shared, steps: seq<RowStep>)
    requires WritesActive(s)
    ensures WritesActive(RowAfterAll(s, steps))
  {
    if steps != [] {
      AlwaysWritesActive(s, steps[..|steps| - 1]);
    }
  }

  lemma {:induction false} StaysInactive(s: Shared, steps: seq<RowStep>)
    requires !s.row.status && s.writing == map[]
    ensures RowAfterAll(s, steps) == s
  {
    if steps != [] {
      StaysInactive(s, steps[..|steps| - 1]);
      assert s.writing - {} == s.writing;
    }
  }

  lemma OneMoreStep(s: Shared, steps: seq<RowStep>, step: RowStep)
    ensures RowAfterAll(s, [step]) == RowAfter(s, step)
    ensures RowAfterAll(s, steps + [step]) == RowAfter(RowAfterAll(s, steps), step)
  {
    assert [step][..0] == [] && (steps + [step])[..|steps|] == steps;
    hide RowAfter;
  }

  /** When the promise breaks: in any reachable state an inactive row can become active again iff some refresh
      read it before it was switched off and has not written yet. With no such refresh in flight it stays inactive
      through every interleaving. */
  lemma ReactivatedIffReadEarlier(start: FarmRow, before: seq<RowStep>)
    requires !RowAfterAll(Shared(start, map[]), before).row.status
    ensures var s := RowAfterAll(Shared(start, map[]), before);
            (exists steps :: RowAfterAll(s, steps).row.status) <==> s.writing != map[]
  {
    var s := RowAfterAll(Shared(start, map[]), before);
    AlwaysWritesActive(Shared(start, map[]), before);
    if s.writing != map[] {
      var run :| run in s.writing;
      OneMoreStep(s, [], WriteRow(run));
      assert RowAfterAll(s, [WriteRow(run)]).row.status;
    } else if steps :| RowAfterAll(s, steps).row.status {
      StaysInactive(s, steps);
      assert false;
    }
  }

  /** Such a state is reached as soon as two runs overlap on an active row that can be refreshed. */
  lemma OverlapReactivates(snap: Snapshot, info: PoolInfo, row: FarmRow)
    requires row.status && FreshRow(snap, info, row.stake).Some?
    ensures var s := RowAfterAll(Shared(row, map[]), [ReadRow(0, snap, info), SwitchOff]);
            !s.row.status && s.writing != map[]
            && RowAfterAll(s, [WriteRow(0)]).row == FreshRow(snap, info, row.stake).value
            && FreshRow(snap, info, row.stake).value.status
  {
    var start, read := Shared(row, map[]), ReadRow(0, snap, info);
    OneMoreStep(start, [read], SwitchOff);
    OneMoreStep(start, [], read);
    assert [read] + [SwitchOff] == [read, SwitchOff];
    OneMoreStep(RowAfterAll(start, [read, SwitchOff]), [], WriteRow(0));
    hide FreshRow, RowAfterAll;
  }
}
