/** The two timer bodies of the game loop, and the progress readouts.
    The hunting timer completes a hunt once its duration has passed; the
    shadow timer pays, once a second, every deployed shadow's rate to the
    player and a tenth of it to the shadow. The timers themselves (their
    scheduling and cancellation) are not modelled: each method here is one
    firing of a timer body. */
module GameLoop {
  import opened GameTypes
  import Shadows
  import HuntingAreas
  import opened Sums
  import opened GameStore

  // ---------------------------------------------------------- hunting timer

  /** What the hunting effect does on one firing at `now`. */
  datatype HuntStep =
    | Idle      // not hunting, or the area id or start time is falsy
    | Stop      // the hunt's area is not in the table: hunting stops
    | Wait      // the hunt is still running
    | Complete  // the duration has passed: `completeHunt()`

  /** JavaScript truthiness of the three hunting fields. */
  predicate HuntingActive(isHunting: bool, area: Option<string>, start: Option<int>)
  {
    isHunting && area.Some? && area.value != "" && start.Some? && start.value != 0
  }

  function HuntingStep(areas: HuntingAreas.AreaTable, isHunting: bool, area: Option<string>, start: Option<int>, now: int)
    : (r: HuntStep)
    ensures r == Idle <==> !HuntingActive(isHunting, area, start)
    ensures r == Stop <==> HuntingActive(isHunting, area, start) && HuntingAreas.FindArea(areas, area.value).None?
    ensures r == Complete ==> HuntTarget(areas, isHunting, area).Some?
    ensures r == Complete <==>
      (HuntingActive(isHunting, area, start) && HuntingAreas.FindArea(areas, area.value).Some?
       && now - start.value >= HuntingAreas.FindArea(areas, area.value).value.huntDuration)
  {
    if !HuntingActive(isHunting, area, start) then Idle
    else match HuntingAreas.FindArea(areas, area.value)
      case None => Stop
      case Some(a) => if now - start.value >= a.huntDuration then Complete else Wait
  }

  /** One firing of the hunting effect and its interval body at `now`. */
  method HuntingTick(g: Store, now: nat, roll: nat -> real)
    requires g.player.level >= 1 && g.player.expToNext >= 1
    modifies g`player, g`ownedShadows, g`huntingStartTime, g`isHunting, g`currentHuntingArea
    ensures var step := HuntingStep(g.areas, old(g.isHunting), old(g.currentHuntingArea), old(g.huntingStartTime), now);
      && (step == Idle || step == Wait ==>
            && g.player == old(g.player) && g.ownedShadows == old(g.ownedShadows)
            && g.huntingStartTime == old(g.huntingStartTime)
            && g.isHunting == old(g.isHunting) && g.currentHuntingArea == old(g.currentHuntingArea))
      && (step == Stop ==>
            && g.player == old(g.player) && g.ownedShadows == old(g.ownedShadows)
            && !g.isHunting && g.currentHuntingArea == None && g.huntingStartTime == None)
      && (step == Complete ==>
            var area := HuntingAreas.FindArea(g.areas, old(g.currentHuntingArea).value).value;
            && g.player == ApplyExperience(old(g.player), area.expReward as real)
            && g.ownedShadows == ExtractAll(g.templates, old(g.ownedShadows), DroppedTemplates(area.shadowDrops, roll), now)
            && g.huntingStartTime == Some(now)
            && g.isHunting && g.currentHuntingArea == old(g.currentHuntingArea))
  {
    var step := HuntingStep(g.areas, g.isHunting, g.currentHuntingArea, g.huntingStartTime, now);
    if step == Stop {
      g.StopHunting();
    } else if step == Complete {
      g.CompleteHunt(now, roll);
    }
  }

  /** `getHuntingProgress()`: the percentage of the hunt's duration
      elapsed, capped at 100; 0 when not hunting, and not negative once the
      hunt has started. */
  function HuntingProgress(areas: HuntingAreas.AreaTable, isHunting: bool, area: Option<string>, start: Option<int>, now: int)
    : (r: real)
    ensures r <= 100.0
    ensures !HuntingActive(isHunting, area, start) ==> r == 0.0
    ensures HuntingActive(isHunting, area, start) && HuntingAreas.FindArea(areas, area.value).Some? && now >= start.value ==>
      r >= 0.0
  {
    if !HuntingActive(isHunting, area, start) then 0.0
    else match HuntingAreas.FindArea(areas, area.value)
      case None => 0.0
      case Some(a) =>
        ProgressScale(now - start.value, a.huntDuration);
        var p := (now - start.value) as real / a.huntDuration as real * 100.0;
        if p < 100.0 then p else 100.0
  }

  /** `getRemainingTime()`: the milliseconds left in the hunt, never below
      0 and, once the hunt has started, never above its duration; 0 when
      not hunting. */
  function RemainingTime(areas: HuntingAreas.AreaTable, isHunting: bool, area: Option<string>, start: Option<int>, now: int)
    : (r: int)
    ensures r >= 0
    ensures !HuntingActive(isHunting, area, start) ==> r == 0
    ensures HuntingActive(isHunting, area, start) && HuntingAreas.FindArea(areas, area.value).Some? && now >= start.value ==>
      r <= HuntingAreas.FindArea(areas, area.value).value.huntDuration
  {
    if !HuntingActive(isHunting, area, start) then 0
    else match HuntingAreas.FindArea(areas, area.value)
      case None => 0
      case Some(a) =>
        var rem := a.huntDuration - (now - start.value);
        if rem > 0 then rem else 0
  }

  lemma ProgressScale(elapsed: int, d: int)
    requires d > 0
    ensures elapsed as real / d as real * 100.0 < 100.0 <==> elapsed < d
    ensures elapsed >= 0 ==> elapsed as real / d as real * 100.0 >= 0.0
  {
    var q := elapsed as real / d as real;
    assert q * d as real == elapsed as real;
    if elapsed < d {
      assert q < 1.0;
    } else {
      assert q >= 1.0;
    }
  }

  /** While a hunt runs in a known area, progress reaches 100 exactly when
      no time remains, which is exactly when the hunting timer completes it. */
  lemma ProgressFullIffNoTimeLeft(areas: HuntingAreas.AreaTable, isHunting: bool, area: Option<string>, start: Option<int>, now: int)
    requires HuntingActive(isHunting, area, start) && HuntingAreas.FindArea(areas, area.value).Some?
    ensures var d := HuntingAreas.FindArea(areas, area.value).value.huntDuration;
      && (HuntingProgress(areas, isHunting, area, start, now) == 100.0 <==> now - start.value >= d)
      && (RemainingTime(areas, isHunting, area, start, now) == 0 <==> now - start.value >= d)
      && (HuntingStep(areas, isHunting, area, start, now) == Complete <==> now - start.value >= d)
  {
    ProgressScale(now - start.value, HuntingAreas.FindArea(areas, area.value).value.huntDuration);
  }

  // ----------------------------------------------------------- shadow timer

  /** The area a shadow earns in: its own, when it is deployed there and the
      area is in the table. */
  function EarningArea(areas: HuntingAreas.AreaTable, s: Shadow): (r: Option<HuntingArea>)
    ensures r.Some? ==> s.isDeployed && s.deployedArea == Some(r.value.id)
  {
    if s.isDeployed && s.deployedArea.Some? then HuntingAreas.FindArea(areas, s.deployedArea.value) else None
  }

  /** A shadow after one shadow tick: a tenth of what it earns the player
      is added to its own experience; shadows that earn nothing are left alone. */
  function TickedShadow(areas: HuntingAreas.AreaTable, s: Shadow): (r: Shadow)
    requires Shadows.WellFormedShadow(s)
    ensures Shadows.WellFormedShadow(r)
    ensures r.id == s.id && r.isDeployed == s.isDeployed && r.deployedArea == s.deployedArea
    ensures EarningArea(areas, s).None? ==> r == s
  {
    match EarningArea(areas, s)
    case None => s
    case Some(area) =>
      ShadowExperiencePreservesWellFormed(s, ShadowRate(area, s) * 0.1);
      ApplyShadowExperience(s, ShadowRate(area, s) * 0.1)
  }

  /** The shadow dictionary with the shadows in `done` ticked. */
  function TickedUpTo(areas: HuntingAreas.AreaTable, owned: map<string, OwnedShadow>, done: set<string>)
    : (r: map<string, OwnedShadow>)
    requires OwnedValid(owned)
    ensures r.Keys == owned.Keys
  {
    map id | id in owned :: if id in done then owned[id].(shadow := TickedShadow(areas, owned[id].shadow)) else owned[id]
  }

  /** The shadow dictionary after one full shadow tick: every shadow ticked. */
  function TickedShadows(areas: HuntingAreas.AreaTable, owned: map<string, OwnedShadow>): (r: map<string, OwnedShadow>)
    requires OwnedValid(owned)
    ensures OwnedValid(r)
    ensures r.Keys == owned.Keys
    ensures forall id :: id in owned && EarningArea(areas, owned[id].shadow).None? ==> r[id] == owned[id]
  {
    TickedUpToValid(areas, owned, owned.Keys);
    TickedUpTo(areas, owned, owned.Keys)
  }

  lemma TickedUpToValid(areas: HuntingAreas.AreaTable, owned: map<string, OwnedShadow>, done: set<string>)
    requires OwnedValid(owned)
    ensures OwnedValid(TickedUpTo(areas, owned, done))
  {
  }

  /** Ticking one more shadow, still untouched, extends `done` by it. */
  lemma TickedUpToStep(areas: HuntingAreas.AreaTable, owned: map<string, OwnedShadow>, done: set<string>, id: string)
    requires OwnedValid(owned) && id in owned && id !in done
    ensures TickedUpTo(areas, owned, done)[id] == owned[id]
    ensures TickedUpTo(areas, owned, done)[id := owned[id].(shadow := TickedShadow(areas, owned[id].shadow))]
         == TickedUpTo(areas, owned, done + {id})
  {
    var m := TickedUpTo(areas, owned, done)[id := owned[id].(shadow := TickedShadow(areas, owned[id].shadow))];
    var n := TickedUpTo(areas, owned, done + {id});
    assert m.Keys == n.Keys;
    forall k | k in m
      ensures m[k] == n[k]
    {
    }
  }

  /** The owned shadows earning in one of the areas `done`. */
  ghost function EarnersIn(areas: HuntingAreas.AreaTable, owned: map<string, OwnedShadow>, done: set<string>): set<string>
  {
    set id | id in owned && EarningArea(areas, owned[id].shadow).Some? && owned[id].shadow.deployedArea.value in done
  }

  /** The ids of `ids` that name an owned shadow that is deployed. */
  ghost function ListedDeployed(owned: map<string, OwnedShadow>, ids: seq<string>): set<string>
  {
    set id | id in ids && id in owned && owned[id].shadow.isDeployed
  }

  lemma ListedDeployedStep(owned: map<string, OwnedShadow>, ids: seq<string>, j: nat)
    requires j < |ids|
    ensures ids[j] in owned && owned[ids[j]].shadow.isDeployed ==>
      ListedDeployed(owned, ids[..j + 1]) == ListedDeployed(owned, ids[..j]) + {ids[j]}
    ensures !(ids[j] in owned && owned[ids[j]].shadow.isDeployed) ==>
      ListedDeployed(owned, ids[..j + 1]) == ListedDeployed(owned, ids[..j])
  {
    assert ids[..j + 1] == ids[..j] + [ids[j]];
  }

  lemma TickedUpToNothing(areas: HuntingAreas.AreaTable, owned: map<string, OwnedShadow>)
    requires OwnedValid(owned)
    ensures TickedUpTo(areas, owned, {}) == owned
  {
  }

  /** Ticking an area's list adds exactly that area's earners, given the
      index invariants: an id listed under a named area is deployed there,
      and every deployed shadow is listed under its area. */
  lemma EarnersStep(areas: HuntingAreas.AreaTable, owned: map<string, OwnedShadow>, deps: map<string, seq<string>>,
                    done: set<string>, a: string)
    requires ShadowsValid(owned, deps) && a in deps
    ensures EarnersIn(areas, owned, done + {a}) == EarnersIn(areas, owned, done) +
      (if HuntingAreas.FindArea(areas, a).Some? then ListedDeployed(owned, deps[a]) else {})
  {
  }

  /** Once every area of the index has been ticked, every earning shadow has been. */
  lemma EarnersAllTicked(areas: HuntingAreas.AreaTable, owned: map<string, OwnedShadow>, deps: map<string, seq<string>>)
    requires ShadowsValid(owned, deps)
    ensures TickedUpTo(areas, owned, EarnersIn(areas, owned, deps.Keys)) == TickedShadows(areas, owned)
  {
    var m, n := TickedUpTo(areas, owned, EarnersIn(areas, owned, deps.Keys)), TickedShadows(areas, owned);
    forall id | id in owned
      ensures m[id] == n[id]
    {
      if EarningArea(areas, owned[id].shadow).Some? {
        assert id in EarnersIn(areas, owned, deps.Keys);
      }
    }
  }

  /** The body of the inner loop for a listed shadow that is owned and
      deployed: its rate goes to the player, a tenth of it to the shadow. */
  method TickShadow(g: Store, owned: map<string, OwnedShadow>, area: HuntingArea, id: string,
                    ghost done: set<string>, ghost p1: Player, ghost sum: real)
    requires OwnedValid(owned) && area.huntDuration > 0 && area.expReward >= 0
    requires id in owned && owned[id].shadow.isDeployed && id !in done
    requires EarningArea(g.areas, owned[id].shadow) == Some(area)
    requires p1.level >= 1 && p1.expToNext >= 1 && g.player == ApplyExperience(p1, sum)
    requires g.ownedShadows == TickedUpTo(g.areas, owned, done)
    modifies g`player, g`ownedShadows
    ensures g.player == ApplyExperience(p1, sum + Contribution(owned, area, id))
    ensures g.ownedShadows == TickedUpTo(g.areas, owned, done + {id})
  {
    var gain := ShadowRate(area, owned[id].shadow);
    PayPlayer(g, gain, p1, sum);
    PayShadow(g, owned, area, id, gain * 0.1, done);
  }

  method PayPlayer(g: Store, gain: real, ghost p1: Player, ghost sum: real)
    requires gain >= 0.0
    requires p1.level >= 1 && p1.expToNext >= 1 && g.player == ApplyExperience(p1, sum)
    modifies g`player
    ensures g.player == ApplyExperience(p1, sum + gain)
  {
    ApplyExperienceChunk(p1, sum, gain);
    g.GainExperience(gain);
  }

  method PayShadow(g: Store, owned: map<string, OwnedShadow>, area: HuntingArea, id: string, exp: real,
                   ghost done: set<string>)
    requires OwnedValid(owned) && area.huntDuration > 0
    requires id in owned && id !in done
    requires EarningArea(g.areas, owned[id].shadow) == Some(area)
    requires exp == ShadowRate(area, owned[id].shadow) * 0.1
    requires g.ownedShadows == TickedUpTo(g.areas, owned, done)
    modifies g`ownedShadows
    ensures g.ownedShadows == TickedUpTo(g.areas, owned, done + {id})
  {
    TickedUpToValid(g.areas, owned, done);
    TickedUpToGain(g.areas, owned, done, id, area, exp);
    g.GainShadowExp(id, exp);
  }

  /** Adding a tick's share to an untouched shadow ticks it. */
  lemma TickedUpToGain(areas: HuntingAreas.AreaTable, owned: map<string, OwnedShadow>, done: set<string>,
                       id: string, area: HuntingArea, exp: real)
    requires OwnedValid(owned) && area.huntDuration > 0
    requires id in owned && id !in done
    requires EarningArea(areas, owned[id].shadow) == Some(area)
    requires exp == ShadowRate(area, owned[id].shadow) * 0.1
    ensures OwnedValid(TickedUpTo(areas, owned, done))
    ensures GainShadowExpIn(TickedUpTo(areas, owned, done), id, exp) == TickedUpTo(areas, owned, done + {id})
  {
    TickedUpToValid(areas, owned, done);
    TickedUpToStep(areas, owned, done, id);
    var cur := TickedUpTo(areas, owned, done);
    assert cur[id] == owned[id];
    assert TickedShadow(areas, owned[id].shadow) == ApplyShadowExperience(owned[id].shadow, exp);
  }

  /** The inner loop of the shadow timer over one area's list. */
  method TickAreaList(g: Store, owned: map<string, OwnedShadow>, area: HuntingArea, ids: seq<string>,
                      ghost before: set<string>)
    requires OwnedValid(owned) && area.huntDuration > 0 && area.expReward >= 0
    requires NoDup(ids)
    requires forall id :: id in ids && id in owned && owned[id].shadow.isDeployed ==>
      EarningArea(g.areas, owned[id].shadow) == Some(area)
    requires forall id :: id in ids ==> id !in before
    requires g.player.level >= 1 && g.player.expToNext >= 1 && g.player.currentExp < g.player.expToNext as real
    requires g.ownedShadows == TickedUpTo(g.areas, owned, before)
    modifies g`player, g`ownedShadows
    ensures g.player == ApplyExperience(old(g.player), SeqSum(ids, ContributionIn(owned, area)))
    ensures g.ownedShadows == TickedUpTo(g.areas, owned, before + ListedDeployed(owned, ids))
  {
    ghost var p1 := g.player;
    ApplyExperienceZero(p1);
    assert ListedDeployed(owned, ids[..0]) == {};
    var j := 0;
    while j < |ids|
      invariant j <= |ids|
      invariant ListedPaid(g.areas, owned, area, ids, j, before, p1, g.player, g.ownedShadows)
    {
      TickListed(g, owned, area, ids, j, before, p1);
      j := j + 1;
    }
    assert ids[..|ids|] == ids;
  }

  /** The inner loop's state after the first `j` entries of `ids`: the
      player has gained their summed contributions and exactly the owned,
      deployed ones among them have been ticked. */
  ghost predicate ListedPaid(areas: HuntingAreas.AreaTable, owned: map<string, OwnedShadow>, area: HuntingArea,
                             ids: seq<string>, j: nat, before: set<string>, p1: Player,
                             player: Player, shadows: map<string, OwnedShadow>)
    requires OwnedValid(owned) && area.huntDuration > 0 && p1.level >= 1 && p1.expToNext >= 1
  {
    && j <= |ids|
    && player == ApplyExperience(p1, SeqSum(ids[..j], ContributionIn(owned, area)))
    && shadows == TickedUpTo(areas, owned, before + ListedDeployed(owned, ids[..j]))
  }

  /** The body of the inner loop: the shadow listed at `j`. */
  method TickListed(g: Store, owned: map<string, OwnedShadow>, area: HuntingArea, ids: seq<string>, j: nat,
                    ghost before: set<string>, ghost p1: Player)
    requires OwnedValid(owned) && area.huntDuration > 0 && area.expReward >= 0 && NoDup(ids) && j < |ids|
    requires p1.level >= 1 && p1.expToNext >= 1
    requires forall id :: id in ids && id in owned && owned[id].shadow.isDeployed ==>
      EarningArea(g.areas, owned[id].shadow) == Some(area)
    requires forall id :: id in ids ==> id !in before
    requires ListedPaid(g.areas, owned, area, ids, j, before, p1, g.player, g.ownedShadows)
    modifies g`player, g`ownedShadows
    ensures ListedPaid(g.areas, owned, area, ids, j + 1, before, p1, g.player, g.ownedShadows)
  {
    var id := ids[j];
    ghost var sum := SeqSum(ids[..j], ContributionIn(owned, area));
    ghost var done := before + ListedDeployed(owned, ids[..j]);
    ListedStep(owned, area, ids, j, before, sum, done);
    TickEntry(g, owned, area, id, done, p1, sum);
    assert SeqSum(ids[..j + 1], ContributionIn(owned, area)) == sum + Contribution(owned, area, id);
    assert g.player == ApplyExperience(p1, SeqSum(ids[..j + 1], ContributionIn(owned, area)));
    assert g.ownedShadows == TickedUpTo(g.areas, owned, before + ListedDeployed(owned, ids[..j + 1]));
  }

  /** Pays the listed shadow `id` if it is owned and deployed; skips it otherwise. */
  method TickEntry(g: Store, owned: map<string, OwnedShadow>, area: HuntingArea, id: string,
                   ghost done: set<string>, ghost p1: Player, ghost sum: real)
    requires OwnedValid(owned) && area.huntDuration > 0 && area.expReward >= 0
    requires id in owned && owned[id].shadow.isDeployed ==>
      EarningArea(g.areas, owned[id].shadow) == Some(area) && id !in done
    requires p1.level >= 1 && p1.expToNext >= 1 && g.player == ApplyExperience(p1, sum)
    requires g.ownedShadows == TickedUpTo(g.areas, owned, done)
    modifies g`player, g`ownedShadows
    ensures g.player == ApplyExperience(p1, sum + Contribution(owned, area, id))
    ensures g.ownedShadows == TickedUpTo(g.areas, owned, if id in owned && owned[id].shadow.isDeployed then done + {id} else done)
  {
    if id in owned && owned[id].shadow.isDeployed {
      TickShadow(g, owned, area, id, done, p1, sum);
    } else {
      assert sum + Contribution(owned, area, id) == sum;
    }
  }

  /** The inner loop's running total and ticked set after the first `j` entries. */
  ghost predicate ListedSoFar(owned: map<string, OwnedShadow>, area: HuntingArea, ids: seq<string>, j: nat,
                              before: set<string>, sum: real, done: set<string>)
    requires area.huntDuration > 0
  {
    && j <= |ids|
    && sum == SeqSum(ids[..j], ContributionIn(owned, area))
    && done == before + ListedDeployed(owned, ids[..j])
  }

  /** What one more list entry adds: its contribution to the sum and, when
      it is owned and deployed, itself to the ticked set, which it was not in. */
  lemma ListedStep(owned: map<string, OwnedShadow>, area: HuntingArea, ids: seq<string>, j: nat,
                   before: set<string>, sum: real, done: set<string>)
    requires area.huntDuration > 0 && NoDup(ids) && j < |ids|
    requires forall id :: id in ids ==> id !in before
    requires ListedSoFar(owned, area, ids, j, before, sum, done)
    ensures var id := ids[j];
      var deployed := id in owned && owned[id].shadow.isDeployed;
      && ListedSoFar(owned, area, ids, j + 1, before, sum + Contribution(owned, area, id),
                     if deployed then done + {id} else done)
      && (deployed ==> id !in done)
  {
    var id := ids[j];
    ContributionInApply(owned, area, id);
    SeqSumStep(ids, ContributionIn(owned, area), j);
    ListedDeployedStep(owned, ids, j);
    if id in owned && owned[id].shadow.isDeployed {
      assert id !in ids[..j];
    }
  }

  /** One step of the shadow timer's outer loop: area `a` and its list. */
  method TickArea(g: Store, owned: map<string, OwnedShadow>, deps: map<string, seq<string>>, a: string,
                  ghost done: set<string>)
    requires ShadowsValid(owned, deps) && a in deps && a !in done
    requires g.player.level >= 1 && g.player.expToNext >= 1 && g.player.currentExp < g.player.expToNext as real
    requires g.ownedShadows == TickedUpTo(g.areas, owned, EarnersIn(g.areas, owned, done))
    modifies g`player, g`ownedShadows
    ensures g.player == ApplyExperience(old(g.player), AreaExpPerSecond(g.areas, owned, deps, a))
    ensures g.ownedShadows == TickedUpTo(g.areas, owned, EarnersIn(g.areas, owned, done + {a}))
  {
    var found := HuntingAreas.FindArea(g.areas, a);
    var ids := deps[a];
    EarnersStep(g.areas, owned, deps, done, a);
    if found.None? {
      ApplyExperienceZero(g.player);
      return;
    }
    if |ids| == 0 {
      ApplyExperienceZero(g.player);
      assert ListedDeployed(owned, ids) == {};
      return;
    }
    AreaListFacts(g.areas, owned, deps, a, done);
    TickAreaList(g, owned, found.value, ids, EarnersIn(g.areas, owned, done));
  }

  /** What the inner loop needs to know of the list of a known area `a`
      that has not been ticked yet. */
  lemma AreaListFacts(areas: HuntingAreas.AreaTable, owned: map<string, OwnedShadow>, deps: map<string, seq<string>>,
                      a: string, done: set<string>)
    requires ShadowsValid(owned, deps) && a in deps && a !in done && HuntingAreas.FindArea(areas, a).Some?
    ensures var area := HuntingAreas.FindArea(areas, a).value;
      && OwnedValid(owned) && area.huntDuration > 0 && area.expReward >= 0 && NoDup(deps[a])
      && (forall id :: id in deps[a] && id in owned && owned[id].shadow.isDeployed ==>
            EarningArea(areas, owned[id].shadow) == Some(area))
      && (forall id :: id in deps[a] ==> id !in EarnersIn(areas, owned, done))
  {
  }

  /** A shadow tick keeps the store's invariants: the player stays
      consistent, and the shadows keep their ids, well-formedness and
      deployment, so the index still agrees with them. */
  lemma ShadowTickKeepsValid(areas: HuntingAreas.AreaTable, p: Player, owned: map<string, OwnedShadow>,
                             deps: map<string, seq<string>>)
    requires PlayerValid(p) && ShadowsValid(owned, deps)
    ensures PlayerValid(ApplyExperience(p, ExpPerSecond(areas, owned, deps)))
    ensures ShadowsValid(TickedShadows(areas, owned), deps)
  {
    ApplyExperiencePreservesValid(p, ExpPerSecond(areas, owned, deps));
    TickedShadowsKeepIndex(areas, owned, deps);
  }

  lemma TickedShadowsKeepIndex(areas: HuntingAreas.AreaTable, owned: map<string, OwnedShadow>,
                               deps: map<string, seq<string>>)
    requires ShadowsValid(owned, deps)
    ensures ShadowsValid(TickedShadows(areas, owned), deps)
  {
    var t := TickedShadows(areas, owned);
    forall id | id in owned
      ensures t[id].shadow.deployedArea == owned[id].shadow.deployedArea
    {
      assert t[id].shadow == TickedShadow(areas, owned[id].shadow);
    }
    IndexFollowsDeployment(owned, t, deps);
  }

  /** The index only looks at the keys and the deployed areas. */
  lemma IndexFollowsDeployment(owned: map<string, OwnedShadow>, other: map<string, OwnedShadow>,
                               deps: map<string, seq<string>>)
    requires IndexAgrees(owned, deps) && other.Keys == owned.Keys
    requires forall id :: id in owned ==> other[id].shadow.deployedArea == owned[id].shadow.deployedArea
    ensures IndexAgrees(other, deps)
  {
  }

  /** Where the shadow timer's outer loop stands once the areas in `done`
      are through: the player holds their rates on top of `p0`, and their
      earners are ticked. */
  ghost predicate PaidUpTo(areas: HuntingAreas.AreaTable, owned: map<string, OwnedShadow>, deps: map<string, seq<string>>,
                           done: set<string>, p0: Player, player: Player, shadows: map<string, OwnedShadow>)
    requires OwnedValid(owned)
  {
    && p0.level >= 1 && p0.expToNext >= 1
    && player == ApplyExperience(p0, SumOver(done, AreaRate(areas, owned, deps)))
    && shadows == TickedUpTo(areas, owned, EarnersIn(areas, owned, done))
  }

  /** The body of the shadow timer's outer loop: area `a`, one of the
      `remaining` ones, is paid and its earners ticked. */
  method TickAreaInto(g: Store, owned: map<string, OwnedShadow>, deps: map<string, seq<string>>, a: string,
                      ghost remaining: set<string>, ghost p0: Player)
    requires ShadowsValid(owned, deps) && a in remaining && remaining <= deps.Keys
    requires PaidUpTo(g.areas, owned, deps, deps.Keys - remaining, p0, g.player, g.ownedShadows)
    modifies g`player, g`ownedShadows
    ensures PaidUpTo(g.areas, owned, deps, deps.Keys - (remaining - {a}), p0, g.player, g.ownedShadows)
  {
    ghost var done := deps.Keys - remaining;
    PayOneMoreArea(g.areas, owned, deps, a, done, p0);
    TickArea(g, owned, deps, a, done);
    assert done + {a} == deps.Keys - (remaining - {a});
  }

  /** Paying area `a` after the areas in `done` is paying all of them at once. */
  lemma PayOneMoreArea(areas: HuntingAreas.AreaTable, owned: map<string, OwnedShadow>, deps: map<string, seq<string>>,
                       a: string, done: set<string>, p0: Player)
    requires OwnedValid(owned) && a !in done
    requires p0.level >= 1 && p0.expToNext >= 1
    ensures ApplyExperience(ApplyExperience(p0, SumOver(done, AreaRate(areas, owned, deps))), AreaExpPerSecond(areas, owned, deps, a))
         == ApplyExperience(p0, SumOver(done + {a}, AreaRate(areas, owned, deps)))
  {
    var rate := AreaRate(areas, owned, deps);
    var sum, x := SumOver(done, rate), AreaExpPerSecond(areas, owned, deps, a);
    AreaExpPerSecondNonNegative(areas, owned, deps, a);
    SumOverAdd(done, rate, a);
    assert SumOver(done + {a}, rate) == sum + x;
    ApplyExperienceChunk(p0, sum, x);
  }

  /** One firing of the shadow timer. Each shadow listed under an area in
      the table, owned and deployed, pays its rate to the player and a tenth
      of it to itself. The index is the snapshot the timer was started with;
      so are the rates. */
  method ShadowTick(g: Store)
    requires g.Valid()
    modifies g`player, g`ownedShadows
    ensures g.player == ApplyExperience(old(g.player), ExpPerSecond(g.areas, old(g.ownedShadows), old(g.shadowDeployments)))
    ensures g.ownedShadows == TickedShadows(g.areas, old(g.ownedShadows))
    ensures g.Valid()
  {
    ShadowTickKeepsValid(g.areas, g.player, g.ownedShadows, g.shadowDeployments);
    TickAllAreas(g, g.ownedShadows, g.shadowDeployments);
  }

  /** The outer loop of the shadow timer over the snapshot `owned`, `deps`. */
  method TickAllAreas(g: Store, owned: map<string, OwnedShadow>, deps: map<string, seq<string>>)
    requires ShadowsValid(owned, deps) && g.ownedShadows == owned
    requires g.player.level >= 1 && g.player.expToNext >= 1 && g.player.currentExp < g.player.expToNext as real
    modifies g`player, g`ownedShadows
    ensures g.player == ApplyExperience(old(g.player), ExpPerSecond(g.areas, owned, deps))
    ensures g.ownedShadows == TickedShadows(g.areas, owned)
  {
    ghost var p0 := g.player;
    var remaining := deps.Keys;
    NothingTickedYet(g.areas, p0, owned, deps);
    assert deps.Keys - remaining == {};
    while remaining != {}
      invariant remaining <= deps.Keys
      invariant PaidUpTo(g.areas, owned, deps, deps.Keys - remaining, p0, g.player, g.ownedShadows)
      decreases |remaining|
    {
      var a :| a in remaining;
      TickAreaInto(g, owned, deps, a, remaining, p0);
      remaining := remaining - {a};
    }
    assert deps.Keys - remaining == deps.Keys;
    PaidAll(g.areas, owned, deps, p0, g.player, g.ownedShadows);
  }

  /** After the shadow timer's outer loop: every rate paid, every earner ticked. */
  lemma PaidAll(areas: HuntingAreas.AreaTable, owned: map<string, OwnedShadow>, deps: map<string, seq<string>>,
                p0: Player, player: Player, shadows: map<string, OwnedShadow>)
    requires ShadowsValid(owned, deps) && PaidUpTo(areas, owned, deps, deps.Keys, p0, player, shadows)
    ensures player == ApplyExperience(p0, ExpPerSecond(areas, owned, deps))
    ensures shadows == TickedShadows(areas, owned)
  {
    assert ExpPerSecond(areas, owned, deps) == SumOver(deps.Keys, AreaRate(areas, owned, deps));
    EarnersAllTicked(areas, owned, deps);
  }

  /** Before the shadow timer's outer loop: nothing paid, nothing ticked. */
  lemma NothingTickedYet(areas: HuntingAreas.AreaTable, p0: Player, owned: map<string, OwnedShadow>,
                         deps: map<string, seq<string>>)
    requires ShadowsValid(owned, deps)
    requires p0.level >= 1 && p0.expToNext >= 1 && p0.currentExp < p0.expToNext as real
    ensures PaidUpTo(areas, owned, deps, {}, p0, p0, owned)
  {
    ApplyExperienceZero(p0);
    TickedUpToNothing(areas, owned);
    assert EarnersIn(areas, owned, {}) == {};
  }
}
