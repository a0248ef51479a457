/** The yearly reward of the Mdex farms (src/scheduler-job/mdex-job/mdex-job.bsc.farm.service.ts:63-117).
    The contract's reward is constant within a phase; phase n ends with block startBlock + (n + 1) * halvingPeriod. */
module MdexHalving {

  datatype Farm = Farm(startBlock: nat, halvingPeriod: nat, phaseReward: nat -> nat)

  function Phase(f: Farm, block: nat): nat {
    if f.halvingPeriod == 0 || block <= f.startBlock then 0 else (block - f.startBlock - 1) / f.halvingPeriod
  }

  function Reward(f: Farm, block: nat): nat { f.phaseReward(Phase(f, block)) }

  function Boundary(f: Farm, n: nat): nat { n * f.halvingPeriod + f.startBlock }

  /** What the blocks after `first`, up to and including `last`, pay: the reference the loop is compared with. */
  function PaidByBlocks(f: Farm, first: nat, last: nat): nat
    requires first <= last
    decreases last
  {
    if first == last then 0 else PaidByBlocks(f, first, last - 1) + Reward(f, last)
  }

  /** One tail per crossed boundary: the blocks from the boundary to the end, at the end's reward. */
  function Tails(f: Farm, end: nat, n: nat, m: nat): int {
    if n >= m then 0 else Tails(f, end, n, m - 1) + (end - Boundary(f, m)) * Reward(f, end)
  }

  /** The amount the loop leaves, as a function of the two blocks. */
  function Computed(f: Farm, current: nat, end: nat): int
    requires current <= end
  {
    var n, m := Phase(f, current), Phase(f, end);
    if m <= n then 0 else PaidByBlocks(f, current, end) + Tails(f, end, n, m - 1)
  }

  /** `getFarmState`'s loop. */
  method RewardAmountInOneYear(f: Farm, current: nat, afterOneYear: nat) returns (amount: int)
    requires current <= afterOneYear
    ensures amount == Computed(f, current, afterOneYear)
  {
    var n, m := Phase(f, current), Phase(f, afterOneYear);
    PhaseMonotone(f, current, afterOneYear);
    ghost var first := n;
    var l := current;
    amount := 0;
    while m > n
      invariant first <= n <= m
      invariant l == if n == first then current else Boundary(f, n)
      invariant current <= l <= afterOneYear
      invariant amount == PaidByBlocks(f, current, l) + Tails(f, afterOneYear, first, n)
    {
      BoundaryBetween(f, l, afterOneYear, n);
      n := n + 1;
      var r := n * f.halvingPeriod + f.startBlock;
      SamePhasePays(f, l, r);
      PaidAdds(f, current, l, r);
      amount := amount + (r - l) * Reward(f, r);
      l := r;
      amount := amount + (afterOneYear - l) * Reward(f, afterOneYear);
    }
    if first < m {
      LastSegment(f, m, afterOneYear);
      PaidAdds(f, current, l, afterOneYear);
    }
  }

  lemma PhaseMonotone(f: Farm, a: nat, b: nat)
    requires a <= b
    ensures Phase(f, a) <= Phase(f, b)
  {
    if f.halvingPeriod > 0 && a > f.startBlock {
      PhaseBounds(f, a);
      PhaseBounds(f, b);
      if Phase(f, a) > Phase(f, b) {
        BoundaryMonotone(f, Phase(f, b) + 1, Phase(f, a));
        assert false;
      }
    }
  }

  /** A block after the start lies after its phase's first boundary and not after the next one. */
  lemma PhaseBounds(f: Farm, block: nat)
    requires f.halvingPeriod > 0
    ensures block > f.startBlock ==> Boundary(f, Phase(f, block)) < block
    ensures block <= Boundary(f, Phase(f, block) + 1)
  {
    if block > f.startBlock {
      var d, h := block - f.startBlock - 1, f.halvingPeriod;
      var q := d / h;
      assert d == q * h + d % h;
      assert (q + 1) * h == q * h + h;
    } else {
      assert Boundary(f, 1) == f.halvingPeriod + f.startBlock;
    }
  }

  lemma BoundaryMonotone(f: Farm, i: nat, j: nat)
    requires i <= j
    ensures Boundary(f, i) <= Boundary(f, j)
    ensures i < j ==> Boundary(f, i) + f.halvingPeriod <= Boundary(f, j)
  {
    var h, gap := f.halvingPeriod, j - i;
    assert j * h == i * h + gap * h;
    if i < j {
      assert gap * h == h + (gap - 1) * h;
    }
  }

  /** The phase is determined by the boundaries around the block. */
  lemma PhaseIs(f: Farm, block: nat, n: nat)
    requires f.halvingPeriod > 0 && block <= Boundary(f, n + 1)
    requires n > 0 ==> Boundary(f, n) < block
    ensures Phase(f, block) == n
  {
    PhaseBounds(f, block);
    var p := Phase(f, block);
    if p < n {
      BoundaryMonotone(f, p + 1, n);
      assert false;
    } else if n < p {
      BoundaryMonotone(f, n + 1, p);
      assert false;
    }
  }

  lemma BoundaryBetween(f: Farm, l: nat, end: nat, n: nat)
    requires l <= end && n < Phase(f, end)
    requires Phase(f, l) == n || l == Boundary(f, n)
    ensures f.halvingPeriod > 0
    ensures l <= Boundary(f, n + 1) <= end
    ensures forall b :: l < b <= Boundary(f, n + 1) ==> Phase(f, b) == n
  {
    PhaseBounds(f, l);
    PhaseBounds(f, end);
    BoundaryMonotone(f, n, n + 1);
    BoundaryMonotone(f, n + 1, Phase(f, end));
    forall b | l < b <= Boundary(f, n + 1)
      ensures Phase(f, b) == n
    {
      if n > 0 {
        AfterStart(f, l, n);
      }
      PhaseIs(f, b, n);
    }
  }

  lemma AfterStart(f: Farm, l: nat, n: nat)
    requires n > 0 && f.halvingPeriod > 0 && (Phase(f, l) == n || l == Boundary(f, n))
    ensures Boundary(f, n) <= l
  {
    PhaseBounds(f, l);
  }

  lemma {:induction false} SamePhasePays(f: Farm, l: nat, r: nat)
    requires l <= r && forall b :: l < b <= r ==> Phase(f, b) == Phase(f, r)
    ensures PaidByBlocks(f, l, r) == (r - l) * Reward(f, r)
    decreases r
  {
    if l < r {
      if l < r - 1 {
        assert Phase(f, r - 1) == Phase(f, r);
        SamePhasePays(f, l, r - 1);
      }
      var w := Reward(f, r);
      assert (r - l) * w == (r - 1 - l) * w + w;
    }
  }

  lemma {:induction false} PaidAdds(f: Farm, a: nat, b: nat, c: nat)
    requires a <= b <= c
    ensures PaidByBlocks(f, a, c) == PaidByBlocks(f, a, b) + PaidByBlocks(f, b, c)
    decreases c
  {
    if b < c {
      PaidAdds(f, a, b, c - 1);
    }
  }

  /** The blocks after the last boundary pay exactly the last tail. */
  lemma LastSegment(f: Farm, m: nat, end: nat)
    requires m > 0 && m == Phase(f, end)
    ensures Boundary(f, m) <= end
    ensures PaidByBlocks(f, Boundary(f, m), end) == (end - Boundary(f, m)) * Reward(f, end)
  {
    PhaseBounds(f, end);
    forall b | Boundary(f, m) < b <= end
      ensures Phase(f, b) == m
    {
      PhaseIs(f, b, m);
    }
    SamePhasePays(f, Boundary(f, m), end);
  }

  /** The loop gives what the year's blocks pay iff exactly one boundary is crossed, or nothing is paid at the
      end of the year, or the year has no blocks. */
  lemma YearlyAmountRight(f: Farm, current: nat, end: nat)
    requires current <= end
    ensures Computed(f, current, end) == PaidByBlocks(f, current, end)
       <==> Phase(f, end) == Phase(f, current) + 1 || Reward(f, end) == 0 || current == end
  {
    var n, m := Phase(f, current), Phase(f, end);
    PhaseMonotone(f, current, end);
    if n == m {
      forall b | current < b <= end
        ensures Phase(f, b) == m
      {
        PhaseMonotone(f, current, b);
        PhaseMonotone(f, b, end);
      }
      SamePhasePays(f, current, end);
      ProductZero(end - current, Reward(f, end));
    } else {
      assert f.halvingPeriod > 0;
      TailsPositive(f, end, n, m - 1);
    }
  }

  lemma ProductZero(x: nat, y: nat)
    ensures x * y == 0 <==> x == 0 || y == 0
  {
  }

  /** Every tail that is counted too much is a positive number of blocks at the end's reward. */
  lemma {:induction false} TailsPositive(f: Farm, end: nat, n: nat, k: nat)
    requires f.halvingPeriod > 0 && n <= k < Phase(f, end)
    ensures Tails(f, end, n, k) >= 0
    ensures Tails(f, end, n, k) == 0 <==> n == k || Reward(f, end) == 0
  {
    if n < k {
      TailsPositive(f, end, n, k - 1);
      PhaseBounds(f, end);
      BoundaryMonotone(f, k, Phase(f, end));
      ProductZero(end - Boundary(f, k), Reward(f, end));
    }
  }

  /** With two or more boundaries in the year the loop counts too much, by the tails of all but the last one. */
  lemma TooMuchAfterTwoBoundaries(f: Farm, current: nat, end: nat)
    requires current <= end && Phase(f, end) >= Phase(f, current) + 2 && Reward(f, end) > 0
    ensures Computed(f, current, end) - PaidByBlocks(f, current, end)
         == Tails(f, end, Phase(f, current), Phase(f, end) - 1)
    ensures Computed(f, current, end) > PaidByBlocks(f, current, end)
  {
    TailsPositive(f, end, Phase(f, current), Phase(f, end) - 1);
  }

  /** Concrete years that go wrong: no halving at all gives zero, two halvings count a tail twice. */
  lemma WrongYears()
    ensures var f := Farm(0, 10, n => if n == 0 then 4 else if n == 1 then 2 else 1);
            && Computed(f, 1, 9) == 0 && PaidByBlocks(f, 1, 9) == 32
            && Computed(f, 9, 21) == PaidByBlocks(f, 9, 21) + 11
  {
    var f := Farm(0, 10, n => if n == 0 then 4 else if n == 1 then 2 else 1);
    SamePhasePays(f, 1, 9);
    assert Phase(f, 9) == 0 && Phase(f, 21) == 2 && Reward(f, 21) == 1;
    assert Tails(f, 21, 0, 1) == Tails(f, 21, 0, 0) + (21 - Boundary(f, 1)) * Reward(f, 21);
  }
}
