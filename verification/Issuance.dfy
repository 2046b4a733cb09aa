/** The issuance schedule: a reward that decays by an eighth each era, and what it can ever sum to. */
module Issuance {
  import opened Arith
  import opened Primitives

  datatype Schedule = Schedule(eraBlocks: nat, initialReward: int)

  /** The reward after `eras` decays. */
  function Decayed(reward: nat, eras: nat): nat {
    if eras == 0 then reward else Decayed(reward, eras - 1) * 7 / 8
  }

  /** The scheduled reward of the block at `height`. */
  function Reward(height: nat, s: Schedule): (r: nat) {
    if s.eraBlocks == 0 || s.initialReward <= 0 then 0 else Decayed(s.initialReward, height / s.eraBlocks)
  }

  lemma {:induction false} DecayedStaysZero(reward: nat, era: nat, later: nat)
    requires era <= later && Decayed(reward, era) == 0
    ensures Decayed(reward, later) == 0
    decreases later
  {
    if era != later {
      DecayedStaysZero(reward, era, later - 1);
    }
  }

  method BlockReward(height: nat, s: Schedule) returns (r: int)
    ensures r == Reward(height, s)
  {
    if s.eraBlocks == 0 {
      return 0;
    }
    var era := height / s.eraBlocks;
    var reward := s.initialReward;
    for index := 0 to era
      invariant s.initialReward <= 0 ==> reward == s.initialReward
      invariant s.initialReward > 0 ==> reward == Decayed(s.initialReward, index)
    {
      if reward <= 0 {
        if s.initialReward > 0 {
          DecayedStaysZero(s.initialReward, index, era);
        }
        return 0;
      }
      reward := reward * 7 / 8;
    }
    return if reward > 0 then reward else 0;
  }

  /** The rewards scheduled for heights `0 .. n`, `n` excluded. */
  function Scheduled(n: nat, s: Schedule): nat {
    if n == 0 then 0 else Scheduled(n - 1, s) + Reward(n - 1, s)
  }

  lemma ScheduledNext(n: nat, s: Schedule)
    ensures Scheduled(n + 1, s) == Scheduled(n, s) + Reward(n, s)
  {
  }

  /** What the schedule emits from an era paying `reward` onwards. */
  function EmittedFrom(reward: nat, eraBlocks: nat): nat
    decreases reward
  {
    if reward == 0 then 0 else reward * eraBlocks + EmittedFrom(reward * 7 / 8, eraBlocks)
  }

  /** The realised cap: what the schedule emits if every block is mined. */
  function Total(s: Schedule): nat {
    if s.initialReward <= 0 then 0 else EmittedFrom(s.initialReward, s.eraBlocks)
  }

  method TotalIssuance(s: Schedule) returns (total: int)
    ensures total == Total(s)
  {
    total := 0;
    var reward := s.initialReward;
    while reward > 0
      invariant s.initialReward <= 0 ==> reward == s.initialReward && total == 0
      invariant s.initialReward > 0 ==> reward >= 0 && total + EmittedFrom(reward, s.eraBlocks) == Total(s)
    {
      total := total + reward * s.eraBlocks;
      reward := reward * 7 / 8;
    }
  }

  /** After `n` blocks, `rest` of them in era `k`, the schedule still holds back the unmined part of
      era `k` and everything the later eras emit; the three together are the cap. */
  lemma {:induction false} ScheduledSplits(n: nat, k: nat, rest: nat, s: Schedule)
    requires rest < s.eraBlocks && s.initialReward > 0
    requires n == s.eraBlocks * k + rest
    ensures Scheduled(n, s)
              + Decayed(s.initialReward, k) * (s.eraBlocks - rest)
              + EmittedFrom(Decayed(s.initialReward, k) * 7 / 8, s.eraBlocks) == Total(s)
    decreases n
  {
    hide Decayed, EmittedFrom, Reward;
    var e, d := s.eraBlocks, Decayed(s.initialReward, k);
    if rest > 0 {
      ScheduledSplits(n - 1, k, rest - 1, s);
      RewardInEra(n - 1, k, rest - 1, s);
      MulSucc(e - rest, d);
      assert (e - rest) * d == d * (e - rest) && (e - rest + 1) * d == d * (e - rest + 1);
    } else if k > 0 {
      MulSucc(k - 1, e);
      ScheduledSplits(n - 1, k - 1, e - 1, s);
      RewardInEra(n - 1, k - 1, e - 1, s);
      DecayedNext(s.initialReward, k - 1);
      EmittedUnfolds(d, e);
    } else {
      assert n == 0 by { assert e * 0 == 0; }
      DecayedNext(s.initialReward, 0);
      EmittedUnfolds(d, e);
    }
  }

  lemma RewardInEra(n: nat, k: nat, rest: nat, s: Schedule)
    requires rest < s.eraBlocks && s.initialReward > 0 && n == s.eraBlocks * k + rest
    ensures Reward(n, s) == Decayed(s.initialReward, k)
  {
    DivModUnique(n, s.eraBlocks, k, rest);
  }

  lemma DecayedNext(reward: nat, k: nat)
    ensures Decayed(reward, 0) == reward && Decayed(reward, k + 1) == Decayed(reward, k) * 7 / 8
  {
  }

  lemma EmittedUnfolds(reward: nat, eraBlocks: nat)
    ensures EmittedFrom(reward, eraBlocks) == reward * eraBlocks + EmittedFrom(reward * 7 / 8, eraBlocks)
  {
  }

  /** No prefix of the schedule pays out more than the realised cap. */
  lemma ScheduledWithinTotal(n: nat, s: Schedule)
    ensures Scheduled(n, s) <= Total(s)
  {
    if s.eraBlocks > 0 && s.initialReward > 0 {
      var k, rest := n / s.eraBlocks, n % s.eraBlocks;
      ScheduledSplits(n, k, rest, s);
      MulMono(Decayed(s.initialReward, k), 0, s.eraBlocks - rest);
    } else {
      ScheduledNothing(n, s);
    }
  }

  lemma {:induction false} ScheduledNothing(n: nat, s: Schedule)
    requires s.eraBlocks == 0 || s.initialReward <= 0
    ensures Scheduled(n, s) == 0
  {
    if n > 0 {
      ScheduledNothing(n - 1, s);
    }
  }

  /** Truncation only ever loses coins: the closed form `8 * reward * era`, eight being the sum of
      the powers of 7/8, is a strict upper bound on what is emitted. */
  lemma {:induction false} EmittedBelowIdeal(reward: nat, eraBlocks: nat)
    requires reward > 0 && eraBlocks > 0
    ensures EmittedFrom(reward, eraBlocks) < 8 * (reward * eraBlocks)
    decreases reward
  {
    var next := reward * 7 / 8;
    MulAtLeast(eraBlocks, reward);
    if next > 0 {
      EmittedBelowIdeal(next, eraBlocks);
      Scale(8, next, 7, reward, eraBlocks);
    }
  }
}
