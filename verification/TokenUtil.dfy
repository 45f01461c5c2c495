/** Released and future rewards (filscaner/fs_token_util.go and the release loop of
    filscaner/fs_loops.go).  The reward schedule is a parameter. */
module TokenUtil {
  import opened Chain

  type Schedule = int -> int

  // Blocks the network expects in a day: two a minute.
  const BLOCKS_PER_DAY := 2 * 60 * 24

  /** The reward of a whole tipset when `remaining` coins are still to be released. */
  function SelfTipsetRewards(f: Schedule, blocksPerEpoch: nat, remaining: int): int {
    f(remaining) * blocksPerEpoch
  }

  /** Rewards are non-negative, do not grow as the coins run out, and `scale` of them at a time
      never exceed the coins left. */
  ghost predicate Declining(f: Schedule, scale: nat) {
    forall x, y :: 0 <= x <= y ==> 0 <= f(x) <= f(y) && f(y) * scale <= y
  }

  // ----- the exact release, height by height -----

  datatype Release = Release(remaining: int, released: int)

  /** The state after `k` heights. */
  function Released(f: Schedule, bpe: nat, r: Release, k: nat): Release {
    if k == 0 then r
    else
      var s := Released(f, bpe, r, k - 1);
      var rewards := SelfTipsetRewards(f, bpe, s.remaining);
      Release(s.remaining - rewards, s.released + rewards)
  }

  /** The release loop from a stored checkpoint up to the head of the chain. */
  method ReleaseUpTo(f: Schedule, bpe: nat, total: int, height: nat, released: int, headHeight: nat)
      returns (r: Release)
    ensures r == Released(f, bpe, Release(total - released, released),
                          if headHeight > height then headHeight - height else 0)
  {
    var totalRewards := total - released;
    var releasedRewards := released;
    var i := height;
    while i < headHeight
      invariant height <= i && (i <= headHeight || i == height)
      invariant Release(totalRewards, releasedRewards)
             == Released(f, bpe, Release(total - released, released), i - height)
    {
      var rewards := SelfTipsetRewards(f, bpe, totalRewards);
      totalRewards := totalRewards - rewards;
      releasedRewards := releasedRewards + rewards;
      i := i + 1;
    }
    r := Release(totalRewards, releasedRewards);
  }

  lemma {:induction false} ReleaseConserves(f: Schedule, bpe: nat, r: Release, k: nat)
    ensures Released(f, bpe, r, k).remaining + Released(f, bpe, r, k).released == r.remaining + r.released
  {
    if k > 0 {
      ReleaseConserves(f, bpe, r, k - 1);
    }
  }

  /** Every step pays the reward of a single block, at the coins then remaining, for each block of the
      height; the first one is paid at the start. */
  lemma EachHeightPays(f: Schedule, bpe: nat, r: Release, k: nat)
    ensures Released(f, bpe, r, 0) == r
    ensures var s, q := Released(f, bpe, r, k), Released(f, bpe, r, k + 1);
            && q.released == s.released + f(s.remaining) * bpe
            && q.remaining == s.remaining - f(s.remaining) * bpe
  {
  }

  /** At a constant reward, `k` heights release `k` times the reward of all blocks of a height. */
  lemma {:induction false} ConstantRelease(f: Schedule, bpe: nat, reward: int, r: Release, k: nat)
    requires forall x :: f(x) == reward
    ensures Released(f, bpe, r, k).released == r.released + k * (reward * bpe)
  {
    if k > 0 {
      ConstantRelease(f, bpe, reward, r, k - 1);
      EachHeightPays(f, bpe, r, k - 1);
      assert k * (reward * bpe) == (k - 1) * (reward * bpe) + reward * bpe;
    }
  }

  lemma ProductOrder(a: int, b: int, n: nat)
    requires a <= b
    ensures a * n <= b * n
  {
  }

  /** Each exact step releases at most what the first one does. */
  lemma {:induction false} StepsDecline(f: Schedule, bpe: nat, r: Release, k: nat)
    requires Declining(f, bpe) && 0 <= r.remaining
    ensures 0 <= Released(f, bpe, r, k).remaining <= r.remaining
    ensures 0 <= SelfTipsetRewards(f, bpe, Released(f, bpe, r, k).remaining) <= SelfTipsetRewards(f, bpe, r.remaining)
  {
    if k > 0 {
      StepsDecline(f, bpe, r, k - 1);
    }
    var x := Released(f, bpe, r, k).remaining;
    ProductOrder(f(x), f(r.remaining), bpe);
    ProductOrder(0, f(x), bpe);
  }

  // ----- the linear estimate -----

  datatype Checkpoint = Checkpoint(height: nat, released: int)

  /** The stored checkpoint at or below a height; none, or a failed query, counts from genesis. */
  function ReleasedRewardAtHeight(f: Schedule, bpe: nat, total: int, found: Option<Checkpoint>, height: nat): int {
    var c := if found.Some? then found.value else Checkpoint(0, 0);
    SelfTipsetRewards(f, bpe, total - c.released) * (height - c.height) + c.released
  }

  /** Extrapolating a checkpoint never falls short of the exact release, at any distance; it is
      exact as long as the reward of a tipset has not changed since. */
  lemma {:induction false} EstimateIsUpperBound(f: Schedule, bpe: nat, total: int, c: Checkpoint, k: nat)
    requires Declining(f, bpe) && c.released <= total
    ensures Released(f, bpe, Release(total - c.released, c.released), k).released
         <= ReleasedRewardAtHeight(f, bpe, total, Some(c), c.height + k)
  {
    var r, per := Release(total - c.released, c.released), SelfTipsetRewards(f, bpe, total - c.released);
    if k == 0 {
      assert per * 0 == 0;
    } else {
      EstimateIsUpperBound(f, bpe, total, c, k - 1);
      StepsDecline(f, bpe, r, k - 1);
      assert per * k == per * (k - 1) + per;
    }
  }

  /** The exact release never shrinks and never exceeds the total. */
  lemma ReleaseStaysWithin(f: Schedule, bpe: nat, total: int, released: int, k: nat)
    requires Declining(f, bpe) && released <= total
    ensures released <= Released(f, bpe, Release(total - released, released), k).released <= total
  {
    var r := Release(total - released, released);
    StepsDecline(f, bpe, r, k);
    ReleaseConserves(f, bpe, r, k);
  }

  lemma EstimateStep(f: Schedule, bpe: nat, total: int, c: Checkpoint, k: nat)
    ensures ReleasedRewardAtHeight(f, bpe, total, Some(c), c.height + (k + 1))
         == ReleasedRewardAtHeight(f, bpe, total, Some(c), c.height + k) + SelfTipsetRewards(f, bpe, total - c.released)
  {
    var per := SelfTipsetRewards(f, bpe, total - c.released);
    assert per * (k + 1) == per * k + per;
  }

  /** The estimate is exact if and only if the reward of a tipset is still the same at every
      height passed. */
  lemma {:induction false} EstimateIsExact(f: Schedule, bpe: nat, total: int, c: Checkpoint, k: nat)
    requires Declining(f, bpe) && c.released <= total
    ensures var r := Release(total - c.released, c.released);
            Released(f, bpe, r, k).released == ReleasedRewardAtHeight(f, bpe, total, Some(c), c.height + k)
            <==> forall j :: 0 <= j < k ==>
                   SelfTipsetRewards(f, bpe, Released(f, bpe, r, j).remaining) == SelfTipsetRewards(f, bpe, r.remaining)
  {
    hide SelfTipsetRewards, ReleasedRewardAtHeight, Released, Declining;
    var r := Release(total - c.released, c.released);
    if k == 0 {
      EstimateStart(f, bpe, total, c);
    } else {
      EstimateIsExact(f, bpe, total, c, k - 1);
      EstimateIsUpperBound(f, bpe, total, c, k - 1);
      StepsDecline(f, bpe, r, k - 1);
      EstimateStep(f, bpe, total, c, k - 1);
      ReleaseStep(f, bpe, r, k - 1);
    }
  }

  /** Without a checkpoint the estimate starts from genesis: it is the first height's reward for every
      height, and no less than the exact release of that many heights. */
  lemma NoCheckpointCountsFromGenesis(f: Schedule, bpe: nat, total: int, height: nat)
    ensures ReleasedRewardAtHeight(f, bpe, total, None, height) == f(total) * bpe * height
    ensures Declining(f, bpe) && 0 <= total ==>
              Released(f, bpe, Release(total, 0), height).released
              <= ReleasedRewardAtHeight(f, bpe, total, None, height)
  {
    if Declining(f, bpe) && 0 <= total {
      EstimateIsUpperBound(f, bpe, total, Checkpoint(0, 0), height);
    }
  }

  lemma EstimateStart(f: Schedule, bpe: nat, total: int, c: Checkpoint)
    ensures ReleasedRewardAtHeight(f, bpe, total, Some(c), c.height) == c.released
    ensures Released(f, bpe, Release(total - c.released, c.released), 0).released == c.released
  {
    assert SelfTipsetRewards(f, bpe, total - c.released) * 0 == 0;
  }

  lemma ReleaseStep(f: Schedule, bpe: nat, r: Release, k: nat)
    ensures Released(f, bpe, r, k + 1).released
         == Released(f, bpe, r, k).released + SelfTipsetRewards(f, bpe, Released(f, bpe, r, k).remaining)
  {
  }

  // ----- future rewards, period by period -----

  /** The coffer after `k` days of mining. */
  function Coffer(f: Schedule, bpe: nat, coffer: int, k: nat): int {
    if k == 0 then coffer else var c := Coffer(f, bpe, coffer, k - 1); c - DailyReward(f, bpe, c)
  }

  function DailyReward(f: Schedule, bpe: nat, coffer: int): int {
    SelfTipsetRewards(f, bpe, coffer) * BLOCKS_PER_DAY
  }

  /** How many days the inner loop runs for a number of blocks. */
  function Days(blocks: nat): nat {
    (blocks + (BLOCKS_PER_DAY - 1)) / BLOCKS_PER_DAY
  }

  /** Every started day counts as a whole one. */
  lemma DaysCoverBlocks(blocks: nat, days: nat)
    ensures Days(blocks) == days <==> blocks <= days * 2880 < blocks + 2880
  {
  }

  /** The coffer loses, day by day, the reward at the coins then in it, for each block of a day. */
  lemma EachDayPays(f: Schedule, bpe: nat, coffer: int, k: nat)
    ensures Coffer(f, bpe, coffer, 0) == coffer
    ensures var c := Coffer(f, bpe, coffer, k);
            Coffer(f, bpe, coffer, k + 1) == c - f(c) * bpe * 2880
  {
  }

  /** At a constant reward, `k` days pay `k` times the reward of a day. */
  lemma {:induction false} ConstantCoffer(f: Schedule, bpe: nat, reward: int, coffer: int, k: nat)
    requires forall x :: f(x) == reward
    ensures Coffer(f, bpe, coffer, k) == coffer - k * (reward * bpe * 2880)
  {
    if k > 0 {
      ConstantCoffer(f, bpe, reward, coffer, k - 1);
      EachDayPays(f, bpe, coffer, k - 1);
      hide Coffer;
      assert k * (reward * bpe * 2880) == (k - 1) * (reward * bpe * 2880) + reward * bpe * 2880;
    }
  }

  function Sum(s: seq<int>): int {
    if s == [] then 0 else Sum(s[..|s| - 1]) + s[|s| - 1]
  }

  /** What the `i`-th period of `days` days pays. */
  function PeriodReward(f: Schedule, bpe: nat, balance: int, days: nat, i: nat): int {
    Coffer(f, bpe, balance, i * days) - Coffer(f, bpe, balance, (i + 1) * days)
  }

  /** The rewards of each period, their total added to the balance, and the balance left. */
  method FutureBlockRewards(f: Schedule, bpe: nat, balance: int, timediff: nat, repeat: nat)
      returns (sums: seq<int>, released: int, coffer: int)
    ensures |sums| == repeat && coffer == balance - Sum(sums) && released == balance + Sum(sums)
    ensures forall i :: 0 <= i < repeat ==> sums[i] == PeriodReward(f, bpe, balance, Days(timediff / 30), i)
    ensures coffer == Coffer(f, bpe, balance, repeat * Days(timediff / 30))
    ensures timediff % 86400 == 0 ==> coffer == Coffer(f, bpe, balance, repeat * (timediff / 86400))
    ensures Declining(f, bpe * 2880) && 0 <= balance && 30 <= timediff && 0 < repeat ==>
              sums[0] >= f(balance) * bpe * 2880
  {
    coffer := balance;
    released := balance;
    var blockDiff := timediff / 30;
    ghost var days := Days(blockDiff);
    sums := [];
    var sum := 0;
    var i := 0;
    ghost var past := 0;
    hide Coffer, PeriodReward, DailyReward;
    CofferAtStart(f, bpe, balance);
    while i < repeat
      invariant 0 <= i <= repeat && |sums| == i && past == i * days
      invariant sum == Sum(sums) && coffer == balance - sum
      invariant coffer == Coffer(f, bpe, balance, past)
      invariant forall j :: 0 <= j < i ==> sums[j] == PeriodReward(f, bpe, balance, days, j)
    {
      var period;
      period, sum, coffer := MineForPeriod(f, bpe, coffer, sum, blockDiff, balance, past);
      PeriodIs(f, bpe, balance, days, i, past);
      assert (sums + [period])[..i] == sums;
      sums := sums + [period];
      past := past + days;
      i := i + 1;
    }
    released := released + sum;
    if timediff % 86400 == 0 {
      WholeDays(timediff);
    }
    if Declining(f, bpe * 2880) && 0 <= balance && 30 <= timediff && 0 < repeat {
      FirstPeriodPays(f, bpe, balance, blockDiff);
    }
  }

  lemma WholeDays(timediff: nat)
    requires timediff % 86400 == 0
    ensures Days(timediff / 30) == timediff / 86400
  {
    DaysCoverBlocks(timediff / 30, timediff / 86400);
  }

  /** A period of at least one block pays at least the first day's reward. */
  lemma FirstPeriodPays(f: Schedule, bpe: nat, balance: int, blocks: nat)
    requires Declining(f, bpe * 2880) && 0 <= balance && 0 < blocks
    ensures PeriodReward(f, bpe, balance, Days(blocks), 0) >= f(balance) * bpe * 2880
  {
    DaysCoverBlocks(blocks, 0);
    EachDayPays(f, bpe, balance, 0);
    CofferFromStart(f, bpe, balance, 1);
    PeriodIs(f, bpe, balance, Days(blocks), 0, 0);
    hide Coffer, PeriodReward, Days, Declining;
    CofferDeclines(f, bpe, balance, 1, Days(blocks));
  }

  /** The inner loop: one day's reward after another until the period's blocks are mined. */
  method MineForPeriod(f: Schedule, bpe: nat, coffer0: int, sum0: int, blockDiff: nat, ghost balance: int,
                       ghost past: nat)
      returns (period: int, sum: int, coffer: int)
    requires coffer0 == Coffer(f, bpe, balance, past)
    ensures coffer == Coffer(f, bpe, balance, past + Days(blockDiff))
    ensures period == coffer0 - coffer && sum == sum0 + period
  {
    hide Coffer, DailyReward;
    period, sum, coffer := 0, sum0, coffer0;
    ghost var k := 0;
    var c := 0;
    while c < blockDiff
      invariant 0 <= k <= Days(blockDiff) && c == k * BLOCKS_PER_DAY
      invariant coffer == Coffer(f, bpe, balance, past + k)
      invariant period == coffer0 - coffer && sum == sum0 + period
      decreases blockDiff - c
    {
      var rewardDaily := f(coffer) * bpe * BLOCKS_PER_DAY;
      CofferStep(f, bpe, balance, past + k);
      DailyIs(f, bpe, coffer);
      sum := sum + rewardDaily;
      period := period + rewardDaily;
      coffer := coffer - rewardDaily;
      c := c + BLOCKS_PER_DAY;
      k := k + 1;
    }
  }

  lemma CofferAtStart(f: Schedule, bpe: nat, balance: int)
    ensures Coffer(f, bpe, balance, 0) == balance
  {
  }

  lemma DailyIs(f: Schedule, bpe: nat, coffer: int)
    ensures DailyReward(f, bpe, coffer) == f(coffer) * bpe * 2880
  {
  }

  lemma PeriodIs(f: Schedule, bpe: nat, balance: int, days: nat, i: nat, past: nat)
    requires past == i * days
    ensures PeriodReward(f, bpe, balance, days, i)
         == Coffer(f, bpe, balance, past) - Coffer(f, bpe, balance, past + days)
    ensures past + days == (i + 1) * days
  {
    assert (i + 1) * days == i * days + days;
  }

  lemma CofferStep(f: Schedule, bpe: nat, coffer: int, k: nat)
    ensures Coffer(f, bpe, coffer, k + 1) == Coffer(f, bpe, coffer, k) - DailyReward(f, bpe, Coffer(f, bpe, coffer, k))
  {
  }

  lemma DailyOrder(f: Schedule, bpe: nat, x: int, y: int)
    requires Declining(f, bpe * BLOCKS_PER_DAY) && 0 <= y <= x
    ensures 0 <= DailyReward(f, bpe, y) <= DailyReward(f, bpe, x) <= x
  {
    assert f(x) * (bpe * BLOCKS_PER_DAY) <= x;
    assert DailyReward(f, bpe, x) == f(x) * (bpe * BLOCKS_PER_DAY);
    ProductOrder(0, f(y), bpe);
    ProductOrder(f(y), f(x), bpe);
  }

  /** The coffer never grows nor is overdrawn, and a day's reward never grows. */
  lemma {:induction false} CofferDeclines(f: Schedule, bpe: nat, coffer: int, i: nat, j: nat)
    requires Declining(f, bpe * BLOCKS_PER_DAY) && i <= j && 0 <= Coffer(f, bpe, coffer, i)
    ensures 0 <= Coffer(f, bpe, coffer, j) <= Coffer(f, bpe, coffer, i)
    ensures 0 <= DailyReward(f, bpe, Coffer(f, bpe, coffer, j)) <= DailyReward(f, bpe, Coffer(f, bpe, coffer, i))
    decreases j - i
  {
    hide Declining, DailyReward, Coffer;
    if i < j {
      CofferDeclines(f, bpe, coffer, i, j - 1);
      CofferStep(f, bpe, coffer, j - 1);
      DailyOrder(f, bpe, Coffer(f, bpe, coffer, j - 1), Coffer(f, bpe, coffer, j - 1));
    }
    DailyOrder(f, bpe, Coffer(f, bpe, coffer, i), Coffer(f, bpe, coffer, j));
  }

  /** Later periods of the same length pay no more than earlier ones. */
  lemma {:induction false} PeriodsDecline(f: Schedule, bpe: nat, coffer: int, i: nat, j: nat, days: nat)
    requires Declining(f, bpe * BLOCKS_PER_DAY) && i <= j && 0 <= coffer
    ensures Coffer(f, bpe, coffer, j) - Coffer(f, bpe, coffer, j + days)
         <= Coffer(f, bpe, coffer, i) - Coffer(f, bpe, coffer, i + days)
    decreases days
  {
    hide Coffer, DailyReward;
    if days > 0 {
      PeriodsDecline(f, bpe, coffer, i, j, days - 1);
      CofferFromStart(f, bpe, coffer, i + days - 1);
      CofferDeclines(f, bpe, coffer, i + days - 1, j + days - 1);
      CofferStep(f, bpe, coffer, i + days - 1);
      CofferStep(f, bpe, coffer, j + days - 1);
    }
  }

  /** No period pays more than an earlier one. */
  lemma PeriodRewardsDecline(f: Schedule, bpe: nat, balance: int, days: nat, i: nat, j: nat)
    requires Declining(f, bpe * BLOCKS_PER_DAY) && i <= j && 0 <= balance
    ensures PeriodReward(f, bpe, balance, days, j) <= PeriodReward(f, bpe, balance, days, i)
  {
    hide Coffer, Declining;
    ProductOrder(i, j, days);
    PeriodIs(f, bpe, balance, days, i, i * days);
    PeriodIs(f, bpe, balance, days, j, j * days);
    PeriodsDecline(f, bpe, balance, i * days, j * days, days);
  }

  lemma CofferFromStart(f: Schedule, bpe: nat, coffer: int, k: nat)
    requires Declining(f, bpe * BLOCKS_PER_DAY) && 0 <= coffer
    ensures 0 <= Coffer(f, bpe, coffer, k)
  {
    assert Coffer(f, bpe, coffer, 0) == coffer;
    CofferDeclines(f, bpe, coffer, 0, k);
  }
}
