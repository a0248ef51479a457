/** The yearly reward and the reward shares of
    src/scheduler-job/pancake-swap-job/pancake-swap-job.bsc.farm.service.ts:93-194. */
module FarmRewards {
  import opened Numbers

  const ONE_DAY_SECONDS: real := 86400.0
  const ONE_YEAR_DAYS: real := 365.0

  /** `getFarmState`: the USD value of a year of rewards. */
  function RewardValueInOneYear(rewardPerBlock: nat, decimals: nat, blockTimeSecond: real, price: real): Num {
    var rewardAmountInOneBlock := Finite(DivideDecimals(rewardPerBlock, decimals));
    var blocksInOneDay := Div(Finite(ONE_DAY_SECONDS), Finite(blockTimeSecond));
    var rewardAmountInOneDay := Mul(rewardAmountInOneBlock, blocksInOneDay);
    Mul(Finite(ONE_YEAR_DAYS), Mul(rewardAmountInOneDay, Finite(price)))
  }

  /** The rate `refreshFarm` stores, in percent. */
  function Apr(allocPoint: nat, totalAllocPoint: nat, reward: Num, liquidityValue: real): Num {
    var share := Div(Finite(allocPoint as real), Finite(totalAllocPoint as real));
    var given := Mul(reward, share);
    if IsZero(given) || liquidityValue == 0.0 then Finite(0.0)
    else Mul(Div(given, Finite(liquidityValue)), Finite(100.0))
  }

  /** What the stored rate pays out on the pool's liquidity in a year. */
  function Paid(apr: Num, liquidityValue: real): real {
    if apr.Finite? then apr.v * liquidityValue / 100.0 else 0.0
  }

  datatype Pool = Pool(allocPoint: nat, liquidityValue: real)

  function SumAlloc(pools: seq<Pool>): nat {
    if pools == [] then 0 else SumAlloc(pools[..|pools| - 1]) + pools[|pools| - 1].allocPoint
  }

  function SumLiquidity(pools: seq<Pool>): real {
    if pools == [] then 0.0 else SumLiquidity(pools[..|pools| - 1]) + pools[|pools| - 1].liquidityValue
  }

  function SumPaid(pools: seq<Pool>, total: nat, reward: real): real {
    if pools == [] then 0.0
    else
      var last := pools[|pools| - 1];
      SumPaid(pools[..|pools| - 1], total, reward)
      + Paid(Apr(last.allocPoint, total, Finite(reward), last.liquidityValue), last.liquidityValue)
  }

  /** The part of the reward that `alloc` of `total` points stand for, without rounding. */
  function Part(reward: real, alloc: nat, total: nat): real
    requires total > 0
  {
    reward * (alloc as real / total as real)
  }

  /** Half a unit per unit of reward for each of n pools, and per unit of liquidity. */
  function Slack(n: nat, reward: real, liquidity: real): real {
    HALF_ULP * (n as real * reward + liquidity)
  }

  /** One pool with liquidity pays its share of the reward, up to half a unit per unit of reward (the share is
      rounded) and per unit of liquidity (the rate is rounded). A share that rounds to zero is covered too. */
  lemma PoolPaysItsShare(alloc: nat, total: nat, reward: real, liquidity: real)
    requires total > 0 && reward >= 0.0 && liquidity > 0.0
    ensures Apr(alloc, total, Finite(reward), liquidity).Finite?
    ensures Abs(Paid(Apr(alloc, total, Finite(reward), liquidity), liquidity) - Part(reward, alloc, total))
         <= Slack(1, reward, liquidity)
  {
    hide *;
    var given := Mul(Finite(reward), Div(Finite(alloc as real), Finite(total as real)));
    GivenNearPart(alloc, total, reward);
    PaidNearGiven(alloc, total, reward, liquidity, given);
    var paid := Paid(Apr(alloc, total, Finite(reward), liquidity), liquidity);
    TwoErrors(paid, given.v, Part(reward, alloc, total), reward, liquidity);
  }

  lemma GivenNearPart(alloc: nat, total: nat, reward: real)
    requires total > 0 && reward >= 0.0
    ensures var given := Mul(Finite(reward), Div(Finite(alloc as real), Finite(total as real)));
            given.Finite? && Abs(given.v - Part(reward, alloc, total)) <= HALF_ULP * reward
  {
    var exact := alloc as real / total as real;
    RoundIsNearest(exact, 0);
    hide RoundHalfUp, OnGrid;
    assert Div(Finite(alloc as real), Finite(total as real)) == Finite(RoundHalfUp(exact));
    var share := RoundHalfUp(exact);
    assert Mul(Finite(reward), Finite(share)) == Finite(reward * share);
    ShareError(reward * share, Part(reward, alloc, total), share, exact, reward);
  }

  lemma PaidNearGiven(alloc: nat, total: nat, reward: real, liquidity: real, given: Num)
    requires liquidity > 0.0 && given.Finite?
    requires given == Mul(Finite(reward), Div(Finite(alloc as real), Finite(total as real)))
    ensures Apr(alloc, total, Finite(reward), liquidity).Finite?
    ensures Abs(Paid(Apr(alloc, total, Finite(reward), liquidity), liquidity) - given.v) <= HALF_ULP * liquidity
  {
    hide Apr, Paid, Div, Mul, IsZero, RoundHalfUp, ToFixed;
    DivTimesDivisor(given.v, liquidity);
    var rate := Div(Finite(given.v), Finite(liquidity));
    PercentUndone(rate.v, liquidity);
    if IsZero(given) {
      ZeroRate(alloc, total, reward, liquidity, given);
    } else {
      RateUnfolds(alloc, total, reward, liquidity, given, rate);
      assert Paid(Apr(alloc, total, Finite(reward), liquidity), liquidity) - given.v == rate.v * liquidity - given.v;
    }
  }

  lemma RateUnfolds(alloc: nat, total: nat, reward: real, liquidity: real, given: Num, rate: Num)
    requires liquidity > 0.0 && given.Finite? && rate.Finite?
    requires given == Mul(Finite(reward), Div(Finite(alloc as real), Finite(total as real)))
    requires rate == Div(given, Finite(liquidity))
    ensures !IsZero(given) ==> Apr(alloc, total, Finite(reward), liquidity) == Finite(rate.v * 100.0)
    ensures !IsZero(given) ==>
              Paid(Apr(alloc, total, Finite(reward), liquidity), liquidity) == rate.v * 100.0 * liquidity / 100.0
  {
    hide Div, Abs;
  }

  lemma ZeroRate(alloc: nat, total: nat, reward: real, liquidity: real, given: Num)
    requires liquidity > 0.0 && IsZero(given)
    requires given == Mul(Finite(reward), Div(Finite(alloc as real), Finite(total as real)))
    ensures Apr(alloc, total, Finite(reward), liquidity) == Finite(0.0)
    ensures given.Finite?
    ensures Abs(Paid(Apr(alloc, total, Finite(reward), liquidity), liquidity) - given.v) <= HALF_ULP * liquidity
  {
    hide Div, Mul;
  }

  lemma PercentUndone(x: real, y: real)
    ensures x * 100.0 * y / 100.0 == x * y
  {
    var z := x * y;
    assert x * 100.0 * y == z * 100.0;
  }

  lemma ShareError(value: real, target: real, share: real, exact: real, reward: real)
    requires value == reward * share && target == reward * exact
    requires Abs(share - exact) <= HALF_ULP && reward >= 0.0
    ensures Abs(value - target) <= HALF_ULP * reward
  {
    var d := share - exact;
    ScaleBound(d, HALF_ULP, reward);
    assert d * reward == reward * share - reward * exact;
    assert value - target == d * reward;
  }

  lemma TwoErrors(paid: real, given: real, target: real, reward: real, liquidity: real)
    requires reward >= 0.0 && liquidity >= 0.0
    requires Abs(paid - given) <= HALF_ULP * liquidity && Abs(given - target) <= HALF_ULP * reward
    ensures Abs(paid - target) <= Slack(1, reward, liquidity)
  {
    assert HALF_ULP * (reward + liquidity) == HALF_ULP * reward + HALF_ULP * liquidity;
  }

  /** Reward conservation: over any list of pools with liquidity, the sum paid out differs from the pools' part
      of the year's reward by at most half a unit times (n * reward + total liquidity). */
  lemma {:induction false} RewardConserved(pools: seq<Pool>, total: nat, reward: real)
    requires total > 0 && reward >= 0.0
    requires forall i :: 0 <= i < |pools| ==> pools[i].liquidityValue > 0.0
    ensures Abs(SumPaid(pools, total, reward) - Part(reward, SumAlloc(pools), total))
         <= Slack(|pools|, reward, SumLiquidity(pools))
  {
    hide Part, Slack, Apr, Paid, Abs;
    if pools == [] {
      NothingPaid(total, reward);
    } else {
      var init, last := pools[..|pools| - 1], pools[|pools| - 1];
      var paid := Paid(Apr(last.allocPoint, total, Finite(reward), last.liquidityValue), last.liquidityValue);
      RewardConserved(init, total, reward);
      PoolPaysItsShare(last.allocPoint, total, reward, last.liquidityValue);
      PartsAdd(reward, SumAlloc(init), last.allocPoint, total);
      SlackAdds(|init|, reward, SumLiquidity(init), last.liquidityValue);
      ErrorsAdd(SumPaid(init, total, reward), Part(reward, SumAlloc(init), total),
                Slack(|init|, reward, SumLiquidity(init)), paid, Part(reward, last.allocPoint, total),
                Slack(1, reward, last.liquidityValue));
    }
  }

  lemma NothingPaid(total: nat, reward: real)
    requires total > 0
    ensures Abs(0.0 - Part(reward, 0, total)) <= Slack(0, reward, 0.0)
  {
    assert 0.0 / total as real == 0.0;
  }

  lemma ErrorsAdd(a: real, x: real, s: real, b: real, y: real, t: real)
    requires Abs(a - x) <= s && Abs(b - y) <= t
    ensures Abs((a + b) - (x + y)) <= s + t
  {
  }

  lemma PartsAdd(reward: real, a: nat, b: nat, total: nat)
    requires total > 0
    ensures Part(reward, a + b, total) == Part(reward, a, total) + Part(reward, b, total)
  {
    var x, y, t := a as real, b as real, total as real;
    assert (x + y) / t == x / t + y / t;
  }

  lemma SlackAdds(n: nat, reward: real, liquidity: real, more: real)
    ensures Slack(n + 1, reward, liquidity + more) == Slack(n, reward, liquidity) + Slack(1, reward, more)
  {
    var x := n as real * reward;
    assert (n + 1) as real * reward == x + reward;
  }

  /** When the pools hold all allocation points, nothing but the rounding is lost. */
  lemma WholeRewardConserved(pools: seq<Pool>, reward: real)
    requires reward >= 0.0 && SumAlloc(pools) > 0
    requires forall i :: 0 <= i < |pools| ==> pools[i].liquidityValue > 0.0
    ensures Abs(SumPaid(pools, SumAlloc(pools), reward) - reward) <= Slack(|pools|, reward, SumLiquidity(pools))
  {
    RewardConserved(pools, SumAlloc(pools), reward);
    WholePart(reward, SumAlloc(pools));
    hide *;
  }

  lemma WholePart(reward: real, total: nat)
    requires total > 0
    ensures Part(reward, total, total) == reward
  {
    assert total as real / total as real == 1.0;
  }

  /** The year's reward itself is exact but for the rounding of the blocks per day. */
  lemma YearlyRewardBound(rewardPerBlock: nat, decimals: nat, blockTimeSecond: real, price: real)
    requires blockTimeSecond > 0.0 && price >= 0.0
    ensures var year := RewardValueInOneYear(rewardPerBlock, decimals, blockTimeSecond, price);
            var perBlock := YearPerDailyBlock(rewardPerBlock, decimals, price);
            year.Finite? && perBlock >= 0.0
            && Abs(year.v - perBlock * (86400.0 / blockTimeSecond)) <= 0.000000000000000000005 * perBlock
  {
    hide RoundHalfUp, OnGrid, DivideDecimals, YearPerDailyBlock, RewardValueInOneYear, Div, Mul;
    var exact := ONE_DAY_SECONDS / blockTimeSecond;
    var perBlock := YearPerDailyBlock(rewardPerBlock, decimals, price);
    RoundIsNearest(exact, 0);
    YearUnfolds(rewardPerBlock, decimals, blockTimeSecond, price);
    var year := RewardValueInOneYear(rewardPerBlock, decimals, blockTimeSecond, price);
    ShareError(year.v, perBlock * exact, RoundHalfUp(exact), exact, perBlock);
  }

  lemma YearUnfolds(rewardPerBlock: nat, decimals: nat, blockTimeSecond: real, price: real)
    requires blockTimeSecond > 0.0 && price >= 0.0
    ensures YearPerDailyBlock(rewardPerBlock, decimals, price) >= 0.0
    ensures RewardValueInOneYear(rewardPerBlock, decimals, blockTimeSecond, price)
         == Finite(YearPerDailyBlock(rewardPerBlock, decimals, price) * RoundHalfUp(ONE_DAY_SECONDS / blockTimeSecond))
  {
    var amount, blocks := DivideDecimals(rewardPerBlock, decimals), RoundHalfUp(ONE_DAY_SECONDS / blockTimeSecond);
    AmountNonNegative(rewardPerBlock, decimals);
    assert Div(Finite(ONE_DAY_SECONDS), Finite(blockTimeSecond)) == Finite(blocks);
    hide RoundHalfUp, DivideDecimals, Div;
    assert Mul(Finite(amount), Finite(blocks)) == Finite(amount * blocks);
    assert Mul(Finite(amount * blocks), Finite(price)) == Finite((amount * blocks) * price);
    ProductsCommute(amount, blocks, price);
  }

  function YearPerDailyBlock(rewardPerBlock: nat, decimals: nat, price: real): real {
    365.0 * (DivideDecimals(rewardPerBlock, decimals) * price)
  }

  lemma AmountNonNegative(raw: nat, decimals: nat)
    ensures DivideDecimals(raw, decimals) >= 0.0
  {
  }

  lemma ProductsCommute(amount: real, blocks: real, price: real)
    ensures 365.0 * ((amount * blocks) * price) == (365.0 * (amount * price)) * blocks
    ensures amount >= 0.0 && price >= 0.0 ==> 365.0 * (amount * price) >= 0.0
  {
    var p := amount * price;
    assert (amount * blocks) * price == p * blocks;
  }

  /** A pool without liquidity pays nothing, whatever its share. */
  lemma EmptyPoolPaysNothing(alloc: nat, total: nat, reward: real)
    ensures Paid(Apr(alloc, total, Finite(reward), 0.0), 0.0) == 0.0
  {
  }

  function Funded(pools: seq<Pool>): seq<Pool> {
    if pools == [] then []
    else
      var last := pools[|pools| - 1];
      Funded(pools[..|pools| - 1]) + if last.liquidityValue == 0.0 then [] else [last]
  }

  lemma {:induction false} EmptyPoolsDropOut(pools: seq<Pool>, total: nat, reward: real)
    requires forall i :: 0 <= i < |pools| ==> pools[i].liquidityValue >= 0.0
    ensures forall i :: 0 <= i < |Funded(pools)| ==> Funded(pools)[i].liquidityValue > 0.0
    ensures SumPaid(Funded(pools), total, reward) == SumPaid(pools, total, reward)
    ensures SumLiquidity(Funded(pools)) == SumLiquidity(pools)
  {
    if pools != [] {
      var n := |pools| - 1;
      EmptyPoolsDropOut(pools[..n], total, reward);
      EmptyPoolPaysNothing(pools[n].allocPoint, total, reward);
      hide Apr, Paid;
      if pools[n].liquidityValue != 0.0 {
        assert Funded(pools) == Funded(pools[..n]) + [pools[n]];
        assert Funded(pools)[..|Funded(pools)| - 1] == Funded(pools[..n]);
      } else {
        assert Funded(pools) == Funded(pools[..n]);
      }
    }
  }

  /** Over any pools, empty ones included, what is paid out is the funded pools' part of the reward, up to the same
      bound; the empty pools' part is paid to nobody. */
  lemma FundedRewardConserved(pools: seq<Pool>, total: nat, reward: real)
    requires total > 0 && reward >= 0.0
    requires forall i :: 0 <= i < |pools| ==> pools[i].liquidityValue >= 0.0
    ensures Abs(SumPaid(pools, total, reward) - Part(reward, SumAlloc(Funded(pools)), total))
         <= Slack(|Funded(pools)|, reward, SumLiquidity(pools))
  {
    EmptyPoolsDropOut(pools, total, reward);
    hide Part, Slack, Apr, Paid;
    RewardConserved(Funded(pools), total, reward);
  }
}
