/** Offline catch-up, run once when the game mounts: the time since the
    last checkpoint is converted into completed manual hunts, their
    experience is credited in one gain, and the checkpoint is refreshed.
    Deployed shadows earn nothing while the game is closed. */
module OfflineProgress {
  import opened GameTypes
  import HuntingAreas
  import opened GameStore

  /** Absences shorter than this many milliseconds (one minute) earn nothing. */
  const MinOfflineTime := 60000

  /** What the catch-up reports: the absence in milliseconds, the hunts it
      covers, their experience, and the area's display name. */
  datatype OfflineReport = OfflineReport(timeOffline: int, huntsCompleted: int, expGained: int, areaName: string)

  lemma FloorDivBounds(x: int, d: int)
    requires x >= 0 && d > 0
    ensures (x / d) * d <= x < (x / d + 1) * d
  {
    assert x == d * (x / d) + x % d;
  }

  /** `calculateOfflineProgress()` at `now`: a report exactly when the
      absence is at least a minute, a manual hunt is on in a known area, and
      at least one whole hunt fits in the absence. The report counts the
      whole hunts that fit (the floor of absence over duration) and credits
      each with the area's reward. */
  function CalculateOfflineProgress(areas: HuntingAreas.AreaTable, lastOnlineTime: int, isHunting: bool,
                                    currentHuntingArea: Option<string>, now: int): (r: Option<OfflineReport>)
    ensures now - lastOnlineTime < MinOfflineTime ==> r.None?
    ensures HuntTarget(areas, isHunting, currentHuntingArea).None? ==> r.None?
    ensures r.Some? <==>
      && now - lastOnlineTime >= MinOfflineTime
      && HuntTarget(areas, isHunting, currentHuntingArea).Some?
      && now - lastOnlineTime >= HuntTarget(areas, isHunting, currentHuntingArea).value.huntDuration
    ensures r.Some? ==>
      var area := HuntTarget(areas, isHunting, currentHuntingArea).value;
      var offline := now - lastOnlineTime;
      && r.value.timeOffline == offline
      && r.value.huntsCompleted > 0
      && r.value.huntsCompleted * area.huntDuration <= offline < (r.value.huntsCompleted + 1) * area.huntDuration
      && r.value.expGained == r.value.huntsCompleted * area.expReward
      && r.value.areaName == area.name
  {
    var offline := now - lastOnlineTime;
    if offline < MinOfflineTime then None
    else match HuntTarget(areas, isHunting, currentHuntingArea)
      case None => None
      case Some(area) =>
        var completed := offline / area.huntDuration;
        FloorDivBounds(offline, area.huntDuration);
        if completed > 0 then Some(OfflineReport(offline, completed, completed * area.expReward, area.name))
        else None
  }

  /** The player after `n` gains of `amount`, one after another: what `n`
      hunts completed online would credit, drops aside. */
  function RepeatedGains(p: Player, amount: real, n: nat): (q: Player)
    requires p.level >= 1 && p.expToNext >= 1
    ensures q.level >= p.level && q.expToNext >= 1
    ensures q.totalExpEarned == p.totalExpEarned + n as real * amount
  {
    if n == 0 then p
    else
      var q := RepeatedGains(p, amount, n - 1);
      OneMoreGain(p, q, amount, n);
      ApplyExperience(q, amount)
  }

  lemma OneMoreGain(p: Player, q: Player, amount: real, n: nat)
    requires n >= 1 && q.level >= 1 && q.expToNext >= 1
    requires q.totalExpEarned == p.totalExpEarned + (n - 1) as real * amount
    ensures ApplyExperience(q, amount).totalExpEarned == p.totalExpEarned + n as real * amount
  {
    MultipleStep(n, amount);
  }

  lemma MultipleStep(n: nat, amount: real)
    requires n >= 1
    ensures (n - 1) as real * amount + amount == n as real * amount
  {
    var k := (n - 1) as real;
    assert n as real == k + 1.0;
    assert (k + 1.0) * amount == k * amount + amount;
  }

  /** One gain of `n` rewards settles exactly where `n` separate gains do,
      because the level-up loop pays the same thresholds either way. */
  lemma {:induction false} OneGainEqualsRepeatedGains(p: Player, amount: real, n: nat)
    requires p.level >= 1 && p.expToNext >= 1 && p.currentExp < p.expToNext as real
    requires amount >= 0.0
    ensures ApplyExperience(p, n as real * amount) == RepeatedGains(p, amount, n)
  {
    if n == 0 {
      ApplyExperienceZero(p);
    } else {
      var k := (n - 1) as real * amount;
      OneGainEqualsRepeatedGains(p, amount, n - 1);
      assert RepeatedGains(p, amount, n) == ApplyExperience(ApplyExperience(p, k), amount);
      ApplyExperienceChunk(p, k, amount);
      MultipleStep(n, amount);
    }
  }

  /** The credited experience is what the completed hunts would have paid
      one at a time: the catch-up is `huntsCompleted` manual completions
      without their drop rolls. */
  lemma OfflineCreditEqualsCompletedHunts(areas: HuntingAreas.AreaTable, p: Player, lastOnlineTime: int,
                                          isHunting: bool, currentHuntingArea: Option<string>, now: int)
    requires p.level >= 1 && p.expToNext >= 1 && p.currentExp < p.expToNext as real
    requires CalculateOfflineProgress(areas, lastOnlineTime, isHunting, currentHuntingArea, now).Some?
    ensures var report := CalculateOfflineProgress(areas, lastOnlineTime, isHunting, currentHuntingArea, now).value;
      var area := HuntTarget(areas, isHunting, currentHuntingArea).value;
      ApplyExperience(p, report.expGained as real) == RepeatedGains(p, area.expReward as real, report.huntsCompleted)
  {
    var report := CalculateOfflineProgress(areas, lastOnlineTime, isHunting, currentHuntingArea, now).value;
    var area := HuntTarget(areas, isHunting, currentHuntingArea).value;
    RewardTimesHunts(p, report.huntsCompleted, area.expReward);
  }

  /** `n` rewards credited at once are `n` rewards credited one by one. */
  lemma RewardTimesHunts(p: Player, n: nat, reward: int)
    requires p.level >= 1 && p.expToNext >= 1 && p.currentExp < p.expToNext as real
    requires reward >= 0
    ensures ApplyExperience(p, (n * reward) as real) == RepeatedGains(p, reward as real, n)
  {
    IntProductAsReal(n, reward);
    OneGainEqualsRepeatedGains(p, reward as real, n);
  }

  lemma IntProductAsReal(a: int, b: int)
    ensures (a * b) as real == a as real * b as real
  {
  }

  /** The mount effect at `now`: the report's experience, if there is a
      report, in a single gain; then the checkpoint is moved to `now`
      whether or not anything was credited. Shadows and the hunt are not
      touched. */
  method ApplyOfflineProgress(g: Store, now: int) returns (report: Option<OfflineReport>)
    requires g.player.level >= 1 && g.player.expToNext >= 1
    modifies g`player, g`lastOnlineTime
    ensures report == CalculateOfflineProgress(g.areas, old(g.lastOnlineTime), g.isHunting, g.currentHuntingArea, now)
    ensures g.player == if report.Some? then ApplyExperience(old(g.player), report.value.expGained as real) else old(g.player)
    ensures g.lastOnlineTime == now
    ensures old(g.Valid()) ==> g.Valid()
  {
    report := CalculateOfflineProgress(g.areas, g.lastOnlineTime, g.isHunting, g.currentHuntingArea, now);
    if report.Some? {
      if PlayerValid(g.player) {
        OfflineKeepsPlayerValid(g.areas, g.player, g.lastOnlineTime, g.isHunting, g.currentHuntingArea, now);
      }
      g.GainExperience(report.value.expGained as real);
    }
    g.UpdateLastOnlineTime(now);
  }

  /** The mount effect as the hook is written: after the gain it calls
      `gainGold`, which the store does not define, so when there is a report
      that call throws a `TypeError` out of the effect (`threw`) and the
      checkpoint update after it is never reached. Without a report the
      effect completes and the checkpoint moves to `now` as intended. */
  method ApplyOfflineProgressAsWritten(g: Store, now: int) returns (report: Option<OfflineReport>, threw: bool)
    requires g.player.level >= 1 && g.player.expToNext >= 1
    modifies g`player, g`lastOnlineTime
    ensures report == CalculateOfflineProgress(g.areas, old(g.lastOnlineTime), g.isHunting, g.currentHuntingArea, now)
    ensures threw <==> report.Some?
    ensures g.player == if report.Some? then ApplyExperience(old(g.player), report.value.expGained as real) else old(g.player)
    ensures g.lastOnlineTime == if threw then old(g.lastOnlineTime) else now
  {
    report := CalculateOfflineProgress(g.areas, g.lastOnlineTime, g.isHunting, g.currentHuntingArea, now);
    if report.Some? {
      g.GainExperience(report.value.expGained as real);
      // the call to the missing `gainGold` throws here and ends the effect
      return report, true;
    }
    g.UpdateLastOnlineTime(now);
    threw := false;
  }

  /** With the checkpoint left where it was, any later catch-up from it
      credits at least the hunts already credited, a second time. */
  lemma StaleCheckpointRecredits(areas: HuntingAreas.AreaTable, lastOnlineTime: int, isHunting: bool,
                                 currentHuntingArea: Option<string>, now: int, later: int)
    requires CalculateOfflineProgress(areas, lastOnlineTime, isHunting, currentHuntingArea, now).Some?
    requires later >= now
    ensures CalculateOfflineProgress(areas, lastOnlineTime, isHunting, currentHuntingArea, later).Some?
    ensures CalculateOfflineProgress(areas, lastOnlineTime, isHunting, currentHuntingArea, later).value.huntsCompleted
         >= CalculateOfflineProgress(areas, lastOnlineTime, isHunting, currentHuntingArea, now).value.huntsCompleted
  {
    var first := CalculateOfflineProgress(areas, lastOnlineTime, isHunting, currentHuntingArea, now).value;
    var second := CalculateOfflineProgress(areas, lastOnlineTime, isHunting, currentHuntingArea, later);
    var d := HuntTarget(areas, isHunting, currentHuntingArea).value.huntDuration;
    assert second.Some?;
    HuntsMonotone(first.huntsCompleted, second.value.huntsCompleted, d, now - lastOnlineTime, later - lastOnlineTime);
  }

  lemma HuntsMonotone(n1: int, n2: int, d: int, t1: int, t2: int)
    requires d > 0 && t1 <= t2
    requires n1 * d <= t1 && t2 < (n2 + 1) * d
    ensures n1 <= n2
  {
    assert n1 * d < (n2 + 1) * d;
    MulCancel(n1, n2 + 1, d);
  }

  lemma MulCancel(a: int, b: int, d: int)
    requires d > 0 && a * d < b * d
    ensures a < b
  {
    assert (b - a) * d > 0;
  }

  /** With the checkpoint refreshed, the catch-up is one-shot: a catch-up
      from the new checkpoint credits nothing for the next minute. */
  lemma RefreshedCheckpointCreditsNothing(areas: HuntingAreas.AreaTable, isHunting: bool,
                                          currentHuntingArea: Option<string>, now: int, later: int)
    requires now <= later < now + MinOfflineTime
    ensures CalculateOfflineProgress(areas, now, isHunting, currentHuntingArea, later).None?
  {
  }

  /** The catch-up keeps the player record consistent. */
  lemma OfflineKeepsPlayerValid(areas: HuntingAreas.AreaTable, p: Player, lastOnlineTime: int,
                                isHunting: bool, currentHuntingArea: Option<string>, now: int)
    requires PlayerValid(p)
    requires CalculateOfflineProgress(areas, lastOnlineTime, isHunting, currentHuntingArea, now).Some?
    ensures PlayerValid(ApplyExperience(p, CalculateOfflineProgress(areas, lastOnlineTime, isHunting, currentHuntingArea, now).value.expGained as real))
  {
    var report := CalculateOfflineProgress(areas, lastOnlineTime, isHunting, currentHuntingArea, now).value;
    var area := HuntTarget(areas, isHunting, currentHuntingArea).value;
    assert report.expGained >= 0 by {
      assert area.expReward >= 0;
      assert report.huntsCompleted > 0;
    }
    ApplyExperiencePreservesValid(p, report.expGained as real);
  }
}
