/** The game store: the player's progression (experience, levels, stat
    points), the manual hunt, and the owned shadows with the per-area
    deployment index. Every transition is a pure function on the player or
    on the shadow dictionaries; the `Store` class holds the state and its
    methods apply those functions. The clock (`Date.now()`) and the random
    drop rolls are parameters. */
module GameStore {
  import opened GameTypes
  import Shadows
  import HuntingAreas
  import Decimal
  import opened Sums

  /** Stat points granted per level gained. */
  const StatPointsPerLevel := 5

  /** The player's level curve, floor(100 * 1.5^(level - 1)): the same formula
      the shadows use, written inline in the store. */
  function PlayerExpToNext(level: int): (r: int)
    requires level >= 1
    ensures r >= 100
    ensures r == Shadows.ShadowExpToNext(level)
  {
    Shadows.ShadowExpToNext(level)
  }

  /** Experience needed to climb from level 1 (with no experience) to `level`. */
  function CumulativeExp(level: int): nat
    requires level >= 1
  {
    if level == 1 then 0 else CumulativeExp(level - 1) + PlayerExpToNext(level - 1)
  }

  lemma {:induction false} CumulativeExpMonotone(l1: int, l2: int)
    requires 1 <= l1 <= l2
    ensures CumulativeExp(l1) + 100 * (l2 - l1) <= CumulativeExp(l2)
    decreases l2 - l1
  {
    if l1 < l2 {
      CumulativeExpMonotone(l1, l2 - 1);
    }
  }

  /** Level, experience and threshold after a level-up loop. */
  datatype Settled = Settled(level: int, exp: real, expToNext: int)

  /** The level-up loop of `gainExperience`: while the experience covers the
      threshold, pay the threshold, gain a level, and take the next level's
      threshold from the curve. */
  function SettleLevels(level: int, exp: real, expToNext: int): (r: Settled)
    requires level >= 1 && expToNext >= 1
    ensures r.level >= level
    ensures r.exp < r.expToNext as real
    ensures r.level > level ==> r.expToNext == PlayerExpToNext(r.level)
    ensures r.level == level <==> exp < expToNext as real
    ensures r.level == level ==> r.exp == exp && r.expToNext == expToNext
    ensures exp >= 0.0 ==> r.exp >= 0.0
    decreases if exp < 0.0 then 0 else exp.Floor
  {
    if exp >= expToNext as real then
      SettleLevels(level + 1, exp - expToNext as real, PlayerExpToNext(level + 1))
    else
      Settled(level, exp, expToNext)
  }

  /** Settling never loses experience: what the passed thresholds cost plus
      what is left equals what there was. */
  lemma {:induction false} SettleConserves(level: int, exp: real)
    requires level >= 1
    ensures var r := SettleLevels(level, exp, PlayerExpToNext(level));
      CumulativeExp(r.level) as real + r.exp == CumulativeExp(level) as real + exp
    decreases if exp < 0.0 then 0 else exp.Floor
  {
    var t := PlayerExpToNext(level);
    if exp >= t as real {
      SettleConserves(level + 1, exp - t as real);
    }
  }

  /** Adding experience in two chunks settles to the same place as adding
      it at once, provided the second chunk is not negative. */
  lemma {:induction false} SettleChunk(level: int, exp: real, expToNext: int, b: real)
    requires level >= 1 && expToNext >= 1 && b >= 0.0
    ensures var r := SettleLevels(level, exp, expToNext);
      SettleLevels(r.level, r.exp + b, r.expToNext) == SettleLevels(level, exp + b, expToNext)
    decreases if exp < 0.0 then 0 else exp.Floor
  {
    if exp >= expToNext as real {
      SettleChunk(level + 1, exp - expToNext as real, PlayerExpToNext(level + 1), b);
      assert exp - expToNext as real + b == exp + b - expToNext as real;
    }
  }

  /** The player after `gainExperience(amount)`. */
  function ApplyExperience(p: Player, amount: real): (q: Player)
    requires p.level >= 1 && p.expToNext >= 1
    ensures q.level >= p.level
    ensures q.currentExp < q.expToNext as real
    ensures q.expToNext >= 1
    ensures q.availableStatPoints - p.availableStatPoints == StatPointsPerLevel * (q.level - p.level)
    ensures q.totalExpEarned == p.totalExpEarned + amount
    ensures q.name == p.name && q.rank == p.rank && q.stats == p.stats && q.lastSaved == p.lastSaved
  {
    var r := SettleLevels(p.level, p.currentExp + amount, p.expToNext);
    p.(level := r.level, currentExp := r.exp, expToNext := r.expToNext,
       availableStatPoints := p.availableStatPoints + StatPointsPerLevel * (r.level - p.level),
       totalExpEarned := p.totalExpEarned + amount)
  }

  /** Settling `a` and then `b` on top of `exp` lands where settling `a + b` does. */
  lemma SettleTwice(level: int, exp: real, expToNext: int, a: real, b: real)
    requires level >= 1 && expToNext >= 1 && b >= 0.0
    ensures var r := SettleLevels(level, exp + a, expToNext);
      SettleLevels(r.level, r.exp + b, r.expToNext) == SettleLevels(level, exp + (a + b), expToNext)
  {
    SettleChunk(level, exp + a, expToNext, b);
    assert exp + a + b == exp + (a + b);
  }

  /** Two gains in a row are one gain of the sum. */
  lemma ApplyExperienceChunk(p: Player, a: real, b: real)
    requires p.level >= 1 && p.expToNext >= 1 && b >= 0.0
    ensures ApplyExperience(ApplyExperience(p, a), b) == ApplyExperience(p, a + b)
  {
    SettleTwice(p.level, p.currentExp, p.expToNext, a, b);
  }

  /** Gaining nothing changes nothing, for a player below the threshold. */
  lemma ApplyExperienceZero(p: Player)
    requires p.level >= 1 && p.expToNext >= 1 && p.currentExp < p.expToNext as real
    ensures ApplyExperience(p, 0.0) == p
  {
  }

  /** The player the store starts with, created at time `now`. */
  function InitialPlayer(now: int): (p: Player)
    ensures PlayerValid(p)
    ensures p.level == 1 && p.currentExp == 0.0 && p.expToNext == 100 && p.rank == "E"
    ensures forall s :: p.stats.Get(s) == 10
    ensures p.availableStatPoints == 0 && p.totalExpEarned == 0.0 && p.lastSaved == now
  {
    Shadows.ShadowExpToNextFirstLevels();
    Player("Sung Jin-Woo", 1, 0.0, 100, "E", PlayerStats(10, 10, 10, 10, 10), 0, 0.0, now)
  }

  /** The invariants of the player record: the threshold follows the curve,
      the experience is below it, every level above 1 has paid its five stat
      points, each attribute is at least its starting 10, and the lifetime
      total equals the experience spent on levels plus what is held. */
  predicate PlayerValid(p: Player)
  {
    && p.level >= 1
    && p.expToNext == PlayerExpToNext(p.level)
    && 0.0 <= p.currentExp < p.expToNext as real
    && p.availableStatPoints >= 0
    && (forall s :: p.stats.Get(s) >= 10)
    && p.availableStatPoints + p.stats.Total() == 50 + StatPointsPerLevel * (p.level - 1)
    && p.totalExpEarned == CumulativeExp(p.level) as real + p.currentExp
  }

  lemma ApplyExperiencePreservesValid(p: Player, amount: real)
    requires PlayerValid(p) && amount >= 0.0
    ensures PlayerValid(ApplyExperience(p, amount))
  {
    SettleConserves(p.level, p.currentExp + amount);
  }

  /** A valid player never holds enough experience for a level-up: the
      manual trigger never fires. */
  lemma ValidPlayerCannotLevelUp(p: Player)
    requires PlayerValid(p)
    ensures !(p.currentExp >= p.expToNext as real)
    ensures ApplyExperience(p, 0.0) == p
  {
  }

  /** From a fresh player, 250 experience passes levels 1 (100) and 2 (150):
      level 3 with nothing left over, 225 to go, and ten stat points. */
  lemma GainFromInitialPlayer(now: int)
    ensures var q := ApplyExperience(InitialPlayer(now), 250.0);
      q.level == 3 && q.currentExp == 0.0 && q.expToNext == 225 && q.availableStatPoints == 10
  {
    Shadows.ShadowExpToNextFirstLevels();
    var p := InitialPlayer(now);
    assert SettleLevels(3, 0.0, 225) == Settled(3, 0.0, 225);
    assert SettleLevels(2, 150.0, 150) == Settled(3, 0.0, 225);
    assert SettleLevels(1, 250.0, 100) == Settled(3, 0.0, 225);
  }

  /** A gain of experience of at least the threshold raises the level. */
  lemma GainRaisesLevel(p: Player, amount: real)
    requires PlayerValid(p) && amount >= 0.0
    ensures ApplyExperience(p, amount).level > p.level <==> p.currentExp + amount >= p.expToNext as real
  {
  }

  /** The player after `allocateStatPoint(stat)`: one point moves into the
      attribute when there is one to spend; otherwise nothing changes. */
  function AllocateStat(p: Player, stat: StatName): (q: Player)
    ensures p.availableStatPoints > 0 ==>
      && q.availableStatPoints == p.availableStatPoints - 1
      && q.stats.Get(stat) == p.stats.Get(stat) + 1
      && (forall other :: other != stat ==> q.stats.Get(other) == p.stats.Get(other))
    ensures p.availableStatPoints <= 0 ==> q == p
    ensures q.level == p.level && q.currentExp == p.currentExp && q.totalExpEarned == p.totalExpEarned
  {
    if p.availableStatPoints > 0 then
      p.(stats := p.stats.With(stat, p.stats.Get(stat) + 1),
         availableStatPoints := p.availableStatPoints - 1)
    else p
  }

  lemma AllocateStatPreservesValid(p: Player, stat: StatName)
    requires PlayerValid(p)
    ensures PlayerValid(AllocateStat(p, stat))
    ensures AllocateStat(p, stat).availableStatPoints + AllocateStat(p, stat).stats.Total()
         == p.availableStatPoints + p.stats.Total()
  {
    var q := AllocateStat(p, stat);
    if p.availableStatPoints > 0 {
      assert q.stats.Total() == p.stats.Total() + 1 by {
        match stat
        case Strength =>
        case Agility =>
        case Intelligence =>
        case Vitality =>
        case Sense =>
      }
    }
  }

  // ---------------------------------------------------------------- shadows

  /** The level-up loop of `gainShadowExp`: as for the player, but it also
      stops at the level cap, where further experience is kept unspent. */
  function SettleShadowLevels(level: int, exp: real, expToNext: int, maxLevel: int): (r: Settled)
    requires level >= 1 && expToNext >= 1
    ensures r.level >= level
    ensures r.level > level ==> r.level <= maxLevel && r.expToNext == Shadows.ShadowExpToNext(r.level)
    ensures r.level < maxLevel ==> r.exp < r.expToNext as real
    ensures r.level == level <==> (exp < expToNext as real || level >= maxLevel)
    ensures r.level == level ==> r.exp == exp && r.expToNext == expToNext
    ensures exp >= 0.0 ==> r.exp >= 0.0
    decreases maxLevel - level
  {
    if exp >= expToNext as real && level < maxLevel then
      SettleShadowLevels(level + 1, exp - expToNext as real, Shadows.ShadowExpToNext(level + 1), maxLevel)
    else
      Settled(level, exp, expToNext)
  }

  /** The shadow after `gainShadowExp(id, amount)`: levels settled, and the
      multiplier recomputed for the new level. */
  function ApplyShadowExperience(s: Shadow, amount: real): (r: Shadow)
    requires s.level >= 1 && s.expToNext >= 1
    ensures r.level >= s.level
    ensures r.currentExpMultiplier == Shadows.ShadowExpMultiplier(r)
    ensures r.id == s.id && r.name == s.name && r.rarity == s.rarity && r.maxLevel == s.maxLevel
    ensures r.baseExpMultiplier == s.baseExpMultiplier && r.extractedFrom == s.extractedFrom
    ensures r.isDeployed == s.isDeployed && r.deployedArea == s.deployedArea
  {
    var q := SettleShadowLevels(s.level, s.currentExp + amount, s.expToNext, s.maxLevel);
    s.(level := q.level, currentExp := q.exp, expToNext := q.expToNext,
       currentExpMultiplier := Shadows.ShadowExpMultiplier(s.(level := q.level)))
  }

  /** The level-up loop of `gainShadowExp`, on local copies of the
      shadow's level, experience and threshold. */
  method LevelShadow(shadow: Shadow, exp: real) returns (updated: Shadow)
    requires shadow.level >= 1 && shadow.expToNext >= 1
    ensures updated == ApplyShadowExperience(shadow, exp)
  {
    var newExp := shadow.currentExp + exp;
    var newLevel := shadow.level;
    var newExpToNext := shadow.expToNext;
    while newExp >= newExpToNext as real && newLevel < shadow.maxLevel
      invariant newLevel >= shadow.level && newExpToNext >= 1
      invariant SettleShadowLevels(newLevel, newExp, newExpToNext, shadow.maxLevel)
             == SettleShadowLevels(shadow.level, shadow.currentExp + exp, shadow.expToNext, shadow.maxLevel)
      decreases shadow.maxLevel - newLevel
    {
      newExp := newExp - newExpToNext as real;
      newLevel := newLevel + 1;
      newExpToNext := Shadows.ShadowExpToNext(newLevel);
    }
    assert SettleShadowLevels(newLevel, newExp, newExpToNext, shadow.maxLevel)
        == Settled(newLevel, newExp, newExpToNext);
    var newMultiplier := Shadows.ShadowExpMultiplier(shadow.(level := newLevel));
    updated := shadow.(level := newLevel, currentExp := newExp, expToNext := newExpToNext,
      currentExpMultiplier := newMultiplier);
  }

  lemma ShadowExperiencePreservesWellFormed(s: Shadow, amount: real)
    requires Shadows.WellFormedShadow(s)
    ensures Shadows.WellFormedShadow(ApplyShadowExperience(s, amount))
    ensures ApplyShadowExperience(s, amount).level <= s.maxLevel
  {
  }

  /** The shadow curve is the player's curve, so the same conservation holds
      below the cap. */
  lemma {:induction false} ShadowSettleConserves(level: int, exp: real, maxLevel: int)
    requires level >= 1
    ensures var r := SettleShadowLevels(level, exp, Shadows.ShadowExpToNext(level), maxLevel);
      CumulativeExp(r.level) as real + r.exp == CumulativeExp(level) as real + exp
    decreases maxLevel - level
  {
    var t := Shadows.ShadowExpToNext(level);
    if exp >= t as real && level < maxLevel {
      ShadowSettleConserves(level + 1, exp - t as real, maxLevel);
    }
  }

  /** At the cap, experience is added to the stored amount and never spent:
      the level, the threshold and the multiplier stay as they are. */
  lemma ShadowAtCapBanksExperience(s: Shadow, amount: real)
    requires Shadows.WellFormedShadow(s) && s.level == s.maxLevel
    ensures var r := ApplyShadowExperience(s, amount);
      r.level == s.level && r.expToNext == s.expToNext && r.currentExp == s.currentExp + amount
      && r.currentExpMultiplier == s.currentExpMultiplier
  {
  }

  /** The shadow's lifetime experience grows by exactly the amount gained. */
  lemma ShadowExperienceConserves(s: Shadow, amount: real)
    requires Shadows.WellFormedShadow(s)
    ensures var r := ApplyShadowExperience(s, amount);
      CumulativeExp(r.level) as real + r.currentExp == CumulativeExp(s.level) as real + s.currentExp + amount
  {
    ShadowSettleConserves(s.level, s.currentExp + amount, s.maxLevel);
  }

  // ------------------------------------------------------------ extraction

  /** The dictionary key of a shadow extracted from template `templateId` at
      time `now`: the template id, a dash, and the time in decimal. */
  function ExtractionKey(templateId: string, now: nat): (r: string)
    ensures |r| > |templateId| + 1 && r[..|templateId|] == templateId && r[|templateId|] == '-'
    ensures Decimal.ParseNat(r[|templateId| + 1..]) == now
  {
    Decimal.ParseNatToString(now);
    var r := templateId + "-" + Decimal.NatToString(now);
    assert r[|templateId| + 1..] == Decimal.NatToString(now);
    r
  }

  /** Two templates extracted at the same moment get different keys. */
  lemma ExtractionKeySameTime(t1: string, t2: string, now: nat)
    requires ExtractionKey(t1, now) == ExtractionKey(t2, now)
    ensures t1 == t2
  {
    var k, n := ExtractionKey(t1, now), |Decimal.NatToString(now)|;
    assert t1 == k[..|k| - n - 1];
    assert t2 == k[..|k| - n - 1];
  }

  /** One template extracted at two moments gets two keys. */
  lemma ExtractionKeySameTemplate(t: string, n1: nat, n2: nat)
    requires ExtractionKey(t, n1) == ExtractionKey(t, n2)
    ensures n1 == n2
  {
    var k := ExtractionKey(t, n1);
    assert Decimal.NatToString(n1) == k[|t| + 1..];
    assert Decimal.NatToString(n2) == k[|t| + 1..];
    Decimal.NatToStringInjective(n1, n2);
  }

  /** The dictionary after `extractShadow(templateId)` at `now`: a new entry
      under the extraction key holding a fresh instance renamed to that key;
      unchanged when the template does not exist (the source's caught throw). */
  function Extracted(templates: Shadows.TemplateTable, owned: map<string, OwnedShadow>, templateId: string, now: nat): (r: map<string, OwnedShadow>)
    ensures Shadows.InstanceFrom(templates, templateId).None? ==> r == owned
    ensures Shadows.InstanceFrom(templates, templateId).Some? ==>
      var key := ExtractionKey(templateId, now);
      && r.Keys == owned.Keys + {key}
      && r[key].shadowId == key && r[key].extractedAt == now
      && r[key].shadow == Shadows.InstanceFrom(templates, templateId).value.(id := key)
      && (forall k :: k in owned && k != key ==> r[k] == owned[k])
  {
    match Shadows.InstanceFrom(templates, templateId)
    case None => owned
    case Some(inst) =>
      var key := ExtractionKey(templateId, now);
      owned[key := OwnedShadow(key, inst.(id := key), now)]
  }

  /** The template ids whose roll came in at or under their drop chance, in
      table order. `roll(i)` is the i-th `Math.random() * 100`. */
  function DroppedTemplates(drops: seq<ShadowDrop>, roll: nat -> real): (r: seq<string>)
    ensures |r| <= |drops|
  {
    if |drops| == 0 then []
    else
      var n := |drops| - 1;
      DroppedTemplates(drops[..n], roll) + (if roll(n) <= drops[n].dropChance as real then [drops[n].shadowId] else [])
  }

  /** A line drops exactly when its roll is at or under its chance: every
      such line's template is in the result, and everything in the result
      comes from such a line. */
  lemma {:induction false} DroppedTemplatesMembers(drops: seq<ShadowDrop>, roll: nat -> real)
    ensures forall i :: 0 <= i < |drops| && roll(i) <= drops[i].dropChance as real ==>
      drops[i].shadowId in DroppedTemplates(drops, roll)
    ensures forall t :: t in DroppedTemplates(drops, roll) ==>
      exists i :: 0 <= i < |drops| && drops[i].shadowId == t && roll(i) <= drops[i].dropChance as real
    decreases |drops|
  {
    if |drops| > 0 {
      var n := |drops| - 1;
      var prefix := drops[..n];
      DroppedTemplatesMembers(prefix, roll);
      forall i | 0 <= i < n
        ensures drops[i] == prefix[i]
      {
      }
    }
  }

  /** A line with a 100% chance always drops, since every roll is below 100. */
  lemma CertainDropAlwaysDrops(drops: seq<ShadowDrop>, roll: nat -> real, i: nat)
    requires i < |drops| && drops[i].dropChance >= 100
    requires forall j :: 0 <= j < |drops| ==> roll(j) < 100.0
    ensures drops[i].shadowId in DroppedTemplates(drops, roll)
  {
    DroppedTemplatesMembers(drops, roll);
  }

  /** The dictionary after extracting each id of `ids` in turn: every known
      template among them gets its key of this moment, holding an idle
      instance; no entry is lost, and entries under keys of other moments
      are left alone. */
  function ExtractAll(templates: Shadows.TemplateTable, owned: map<string, OwnedShadow>, ids: seq<string>, now: nat): (r: map<string, OwnedShadow>)
    ensures ExtractionOf(templates, owned, ids, now, r)
  {
    if |ids| == 0 then owned
    else
      var prefix, t := ids[..|ids| - 1], ids[|ids| - 1];
      var before := ExtractAll(templates, owned, prefix, now);
      ExtractionOfOneMore(templates, owned, prefix, t, now, before);
      assert ids == prefix + [t];
      Extracted(templates, before, t, now)
  }

  /** What extracting `ids` into `owned` at `now` yields in `r`: every
      existing key kept, one key per known template, each new key named
      after a listed template with an idle shadow extracted now, and every
      key no extraction of this moment could use left as it was. */
  ghost predicate ExtractionOf(templates: Shadows.TemplateTable, owned: map<string, OwnedShadow>, ids: seq<string>, now: nat,
                               r: map<string, OwnedShadow>)
  {
    KeysCovered(templates, owned, ids, now, r) && NewKeysExtracted(templates, owned, ids, now, r) && OthersKept(owned, now, r)
  }

  ghost predicate KeysCovered(templates: Shadows.TemplateTable, owned: map<string, OwnedShadow>, ids: seq<string>, now: nat,
                              r: map<string, OwnedShadow>)
  {
    && (forall k :: k in owned ==> k in r)
    && (forall t :: t in ids && t in templates ==> ExtractionKey(t, now) in r)
  }

  ghost predicate NewKeysExtracted(templates: Shadows.TemplateTable, owned: map<string, OwnedShadow>, ids: seq<string>, now: nat,
                                   r: map<string, OwnedShadow>)
  {
    forall k :: k in r && k !in owned ==>
      && (exists t :: t in ids && t in templates && k == ExtractionKey(t, now))
      && r[k].shadowId == k && r[k].extractedAt == now && !r[k].shadow.isDeployed
  }

  ghost predicate OthersKept(owned: map<string, OwnedShadow>, now: nat, r: map<string, OwnedShadow>)
  {
    forall k :: k in owned && (forall t :: k != ExtractionKey(t, now)) ==> k in r && r[k] == owned[k]
  }

  lemma ExtractionOfOneMore(templates: Shadows.TemplateTable, owned: map<string, OwnedShadow>, prefix: seq<string>, x: string,
                            now: nat, before: map<string, OwnedShadow>)
    requires ExtractionOf(templates, owned, prefix, now, before)
    ensures ExtractionOf(templates, owned, prefix + [x], now, Extracted(templates, before, x, now))
  {
    KeysCoveredOneMore(templates, owned, prefix, x, now, before);
    NewKeysOneMore(templates, owned, prefix, x, now, before);
    OthersKeptOneMore(templates, owned, x, now, before);
  }

  lemma KeysCoveredOneMore(templates: Shadows.TemplateTable, owned: map<string, OwnedShadow>, prefix: seq<string>, x: string,
                           now: nat, before: map<string, OwnedShadow>)
    requires KeysCovered(templates, owned, prefix, now, before)
    ensures KeysCovered(templates, owned, prefix + [x], now, Extracted(templates, before, x, now))
  {
    var ids, r := prefix + [x], Extracted(templates, before, x, now);
    forall t | t in ids && t in templates
      ensures ExtractionKey(t, now) in r
    {
      if t != x {
        assert t in prefix;
      }
    }
  }

  lemma NewKeysOneMore(templates: Shadows.TemplateTable, owned: map<string, OwnedShadow>, prefix: seq<string>, x: string,
                       now: nat, before: map<string, OwnedShadow>)
    requires NewKeysExtracted(templates, owned, prefix, now, before)
    ensures NewKeysExtracted(templates, owned, prefix + [x], now, Extracted(templates, before, x, now))
  {
    var ids, r := prefix + [x], Extracted(templates, before, x, now);
    forall k | k in r && k !in owned
      ensures exists t :: t in ids && t in templates && k == ExtractionKey(t, now)
      ensures r[k].shadowId == k && r[k].extractedAt == now && !r[k].shadow.isDeployed
    {
      if x in templates && k == ExtractionKey(x, now) {
        assert x in ids;
      } else {
        var t :| t in prefix && t in templates && k == ExtractionKey(t, now);
        assert t in ids;
      }
    }
  }

  lemma OthersKeptOneMore(templates: Shadows.TemplateTable, owned: map<string, OwnedShadow>, x: string,
                          now: nat, before: map<string, OwnedShadow>)
    requires OthersKept(owned, now, before)
    ensures OthersKept(owned, now, Extracted(templates, before, x, now))
  {
    var r := Extracted(templates, before, x, now);
    forall k | k in owned && (forall t :: k != ExtractionKey(t, now))
      ensures k in r && r[k] == owned[k]
    {
      assert k != ExtractionKey(x, now);
    }
  }

  /** Rolling one more drop-table line extracts its template when the roll
      is at or under its chance and leaves the collection alone otherwise. */
  lemma ExtractDroppedStep(templates: Shadows.TemplateTable, owned: map<string, OwnedShadow>, drops: seq<ShadowDrop>, roll: nat -> real, now: nat, i: nat)
    requires i < |drops|
    ensures var before := ExtractAll(templates, owned, DroppedTemplates(drops[..i], roll), now);
      ExtractAll(templates, owned, DroppedTemplates(drops[..i + 1], roll), now) ==
        if roll(i) <= drops[i].dropChance as real then Extracted(templates, before, drops[i].shadowId, now) else before
  {
    var prefix := DroppedTemplates(drops[..i], roll);
    assert drops[..i + 1][..i] == drops[..i];
    if roll(i) <= drops[i].dropChance as real {
      assert DroppedTemplates(drops[..i + 1], roll) == prefix + [drops[i].shadowId];
      ExtractOneMore(templates, owned, prefix, drops[i].shadowId, now);
    } else {
      assert DroppedTemplates(drops[..i + 1], roll) == prefix + [];
      assert prefix + [] == prefix;
    }
  }

  /** Extracting one more id extends the extraction of the ones before. */
  lemma ExtractOneMore(templates: Shadows.TemplateTable, owned: map<string, OwnedShadow>, ids: seq<string>, x: string, now: nat)
    ensures ExtractAll(templates, owned, ids + [x], now) == Extracted(templates, ExtractAll(templates, owned, ids, now), x, now)
  {
    assert (ids + [x])[..|ids|] == ids;
  }

  // ------------------------------------------------------------ deployment

  predicate NoDup(xs: seq<string>)
  {
    forall i, j :: 0 <= i < j < |xs| ==> xs[i] != xs[j]
  }

  /** `xs.filter(y => y !== x)`. */
  function Without(xs: seq<string>, x: string): (r: seq<string>)
    ensures forall y :: y in r <==> y in xs && y != x
    ensures |r| <= |xs|
  {
    if |xs| == 0 then []
    else (if xs[0] == x then [] else [xs[0]]) + Without(xs[1..], x)
  }

  lemma {:induction false} WithoutKeepsNoDup(xs: seq<string>, x: string)
    requires NoDup(xs)
    ensures NoDup(Without(xs, x))
  {
    if |xs| > 0 {
      assert NoDup(xs[1..]);
      WithoutKeepsNoDup(xs[1..], x);
      var rest := Without(xs[1..], x);
      assert xs[0] !in xs[1..];
      assert xs[0] !in rest;
    }
  }

  function Deployed(o: OwnedShadow, areaId: string): (r: OwnedShadow)
    ensures r.shadow.isDeployed && r.shadow.deployedArea == Some(areaId)
  {
    o.(shadow := o.shadow.(isDeployed := true, deployedArea := Some(areaId)))
  }

  function Recalled(o: OwnedShadow): (r: OwnedShadow)
    ensures !r.shadow.isDeployed && r.shadow.deployedArea == None
  {
    o.(shadow := o.shadow.(isDeployed := false, deployedArea := None))
  }

  /** Each entry is stored under its own id and is a well-formed shadow. */
  predicate OwnedValid(owned: map<string, OwnedShadow>)
  {
    forall k :: k in owned ==>
      owned[k].shadowId == k && owned[k].shadow.id == k && Shadows.WellFormedShadow(owned[k].shadow)
  }

  /** The deployment index agrees with the shadows' own flags: an id listed
      under a (non-empty) area is an owned shadow deployed there, each area
      lists an id at most once, and every deployed shadow is listed under its
      area. The empty area id is exempt from the first two, because
      `recallShadow` tests the area for truthiness and leaves its list alone. */
  predicate IndexAgrees(owned: map<string, OwnedShadow>, deps: map<string, seq<string>>)
  {
    && (forall a, id :: a in deps && a != "" && id in deps[a] ==>
          id in owned && owned[id].shadow.deployedArea == Some(a))
    && (forall a :: a in deps && a != "" ==> NoDup(deps[a]))
    && (forall id :: id in owned && owned[id].shadow.deployedArea.Some? ==>
          owned[id].shadow.deployedArea.value in deps
          && id in deps[owned[id].shadow.deployedArea.value])
  }

  predicate ShadowsValid(owned: map<string, OwnedShadow>, deps: map<string, seq<string>>)
  {
    OwnedValid(owned) && IndexAgrees(owned, deps)
  }

  /** `deployShadow(id, areaId)` on the two dictionaries. */
  function DeployShadows(owned: map<string, OwnedShadow>, deps: map<string, seq<string>>, id: string, areaId: string)
    : (r: (map<string, OwnedShadow>, map<string, seq<string>>))
    ensures !(id in owned && !owned[id].shadow.isDeployed) ==> r == (owned, deps)
    ensures id in owned && !owned[id].shadow.isDeployed ==>
      && r.0 == owned[id := Deployed(owned[id], areaId)]
      && r.1 == deps[areaId := (if areaId in deps then deps[areaId] else []) + [id]]
  {
    if id in owned && !owned[id].shadow.isDeployed then
      var list := if areaId in deps then deps[areaId] else [];
      (owned[id := Deployed(owned[id], areaId)], deps[areaId := list + [id]])
    else (owned, deps)
  }

  /** `recallShadow(id)` on the two dictionaries. */
  function RecallShadows(owned: map<string, OwnedShadow>, deps: map<string, seq<string>>, id: string)
    : (r: (map<string, OwnedShadow>, map<string, seq<string>>))
    ensures !(id in owned && owned[id].shadow.isDeployed) ==> r == (owned, deps)
    ensures id in owned && owned[id].shadow.isDeployed ==>
      var area := owned[id].shadow.deployedArea;
      && r.0 == owned[id := Recalled(owned[id])]
      && r.1 == if area.Some? && area.value != "" && area.value in deps
                then deps[area.value := Without(deps[area.value], id)] else deps
  {
    if id in owned && owned[id].shadow.isDeployed then
      var area := owned[id].shadow.deployedArea;
      var deps' := if area.Some? && area.value != "" && area.value in deps
                   then deps[area.value := Without(deps[area.value], id)] else deps;
      (owned[id := Recalled(owned[id])], deps')
    else (owned, deps)
  }

  lemma DeployPreservesValid(owned: map<string, OwnedShadow>, deps: map<string, seq<string>>, id: string, areaId: string)
    requires ShadowsValid(owned, deps)
    ensures var r := DeployShadows(owned, deps, id, areaId); ShadowsValid(r.0, r.1)
  {
    if id in owned && !owned[id].shadow.isDeployed {
      var list := if areaId in deps then deps[areaId] else [];
      var o2 := owned[id := Deployed(owned[id], areaId)];
      var d2 := deps[areaId := list + [id]];
      assert owned[id].shadow.deployedArea == None;
      assert OwnedValid(o2) by {
        assert Shadows.WellFormedShadow(o2[id].shadow);
      }
      forall a, x | a in d2 && a != "" && x in d2[a]
        ensures x in o2 && o2[x].shadow.deployedArea == Some(a)
      {
        if a == areaId && x != id {
          assert x in list;
        }
      }
      forall a | a in d2 && a != ""
        ensures NoDup(d2[a])
      {
        if a == areaId {
          assert id !in list;
        }
      }
      forall x | x in o2 && o2[x].shadow.deployedArea.Some?
        ensures o2[x].shadow.deployedArea.value in d2 && x in d2[o2[x].shadow.deployedArea.value]
      {
        if x != id {
          var b := owned[x].shadow.deployedArea.value;
          if b == areaId {
            assert x in list;
          }
        }
      }
    }
  }

  lemma RecallPreservesValid(owned: map<string, OwnedShadow>, deps: map<string, seq<string>>, id: string)
    requires ShadowsValid(owned, deps)
    ensures var r := RecallShadows(owned, deps, id); ShadowsValid(r.0, r.1)
  {
    if id in owned && owned[id].shadow.isDeployed {
      var area := owned[id].shadow.deployedArea;
      if area.value != "" {
        WithoutKeepsNoDup(deps[area.value], id);
      }
    }
  }

  /** Recalling a deployed shadow from a named area removes it from that
      area's list and from every other list it could be in. */
  lemma RecallUnlists(owned: map<string, OwnedShadow>, deps: map<string, seq<string>>, id: string)
    requires ShadowsValid(owned, deps)
    requires id in owned && owned[id].shadow.isDeployed && owned[id].shadow.deployedArea.value != ""
    ensures var r := RecallShadows(owned, deps, id);
      forall a :: a in r.1 && a != "" ==> id !in r.1[a]
  {
  }

  /** Deploying then recalling a shadow restores both dictionaries, except
      that an area list created by the deployment stays behind, empty. */
  lemma DeployThenRecall(owned: map<string, OwnedShadow>, deps: map<string, seq<string>>, id: string, areaId: string)
    requires ShadowsValid(owned, deps) && areaId != ""
    requires id in owned && !owned[id].shadow.isDeployed
    ensures var d := DeployShadows(owned, deps, id, areaId);
      var r := RecallShadows(d.0, d.1, id);
      && r.0 == owned
      && r.1 == deps[areaId := if areaId in deps then deps[areaId] else []]
  {
    IdleShadowIsUnlisted(owned, deps, id, areaId);
    DeployThenRecallIdle(owned, deps, id, areaId);
  }

  /** An idle shadow has no area and is in no area's list. */
  lemma IdleShadowIsUnlisted(owned: map<string, OwnedShadow>, deps: map<string, seq<string>>, id: string, areaId: string)
    requires ShadowsValid(owned, deps) && areaId != ""
    requires id in owned && !owned[id].shadow.isDeployed
    ensures owned[id].shadow.deployedArea == None
    ensures id !in (if areaId in deps then deps[areaId] else [])
  {
  }

  lemma DeployThenRecallIdle(owned: map<string, OwnedShadow>, deps: map<string, seq<string>>, id: string, areaId: string)
    requires areaId != ""
    requires id in owned && !owned[id].shadow.isDeployed && owned[id].shadow.deployedArea == None
    requires id !in (if areaId in deps then deps[areaId] else [])
    ensures var d := DeployShadows(owned, deps, id, areaId);
      var r := RecallShadows(d.0, d.1, id);
      && r.0 == owned
      && r.1 == deps[areaId := if areaId in deps then deps[areaId] else []]
  {
    var list := if areaId in deps then deps[areaId] else [];
    WithoutNotIn(list, id);
    WithoutAppended(list, id);
    var o2 := owned[id := Deployed(owned[id], areaId)];
    var d2 := deps[areaId := list + [id]];
    assert DeployShadows(owned, deps, id, areaId) == (o2, d2);
    assert RecallShadows(o2, d2, id) == (o2[id := Recalled(o2[id])], d2[areaId := list]);
    assert Recalled(o2[id]) == owned[id];
    assert o2[id := Recalled(o2[id])] == owned;
  }

  lemma {:induction false} WithoutNotIn(xs: seq<string>, x: string)
    requires x !in xs
    ensures Without(xs, x) == xs
  {
    if |xs| > 0 {
      assert xs[1..] + [] == xs[1..];
      WithoutNotIn(xs[1..], x);
      assert xs == [xs[0]] + xs[1..];
    }
  }

  lemma {:induction false} WithoutAppended(xs: seq<string>, x: string)
    ensures Without(xs + [x], x) == Without(xs, x)
  {
    if |xs| == 0 {
      assert ([] + [x])[1..] == [];
    } else {
      assert (xs + [x])[1..] == xs[1..] + [x];
      WithoutAppended(xs[1..], x);
    }
  }

  /** `gainShadowExp(id, exp)` on the shadow dictionary; unknown ids are ignored. */
  function GainShadowExpIn(owned: map<string, OwnedShadow>, id: string, exp: real): (r: map<string, OwnedShadow>)
    requires OwnedValid(owned)
    ensures id !in owned ==> r == owned
    ensures id in owned ==> r == owned[id := owned[id].(shadow := ApplyShadowExperience(owned[id].shadow, exp))]
  {
    if id in owned then owned[id := owned[id].(shadow := ApplyShadowExperience(owned[id].shadow, exp))]
    else owned
  }

  lemma GainShadowExpPreservesValid(owned: map<string, OwnedShadow>, deps: map<string, seq<string>>, id: string, exp: real)
    requires ShadowsValid(owned, deps)
    ensures ShadowsValid(GainShadowExpIn(owned, id, exp), deps)
  {
    if id in owned {
      ShadowExperiencePreservesWellFormed(owned[id].shadow, exp);
    }
  }

  /** A key an extraction may write: unused, or holding an idle shadow
      (which the index then lists nowhere). */
  predicate KeyFree(owned: map<string, OwnedShadow>, key: string)
  {
    key !in owned || !owned[key].shadow.isDeployed
  }

  /** Every key an extraction at `now` would use is free. */
  ghost predicate IdleKeysAt(owned: map<string, OwnedShadow>, now: nat)
  {
    forall t :: KeyFree(owned, ExtractionKey(t, now))
  }

  /** Extraction under a free key keeps the shadow invariants: the new
      shadow is undeployed and listed nowhere, and what it may overwrite was
      idle and listed nowhere too. */
  lemma ExtractPreservesValid(templates: Shadows.TemplateTable, owned: map<string, OwnedShadow>, deps: map<string, seq<string>>, templateId: string, now: nat)
    requires ShadowsValid(owned, deps)
    requires KeyFree(owned, ExtractionKey(templateId, now))
    ensures ShadowsValid(Extracted(templates, owned, templateId, now), deps)
  {
    if Shadows.InstanceFrom(templates, templateId).Some? {
      var key := ExtractionKey(templateId, now);
      var s := Shadows.InstanceFrom(templates, templateId).value;
      assert Shadows.WellFormedShadow(s.(id := key));
      var r := Extracted(templates, owned, templateId, now);
      forall a, id | a in deps && a != "" && id in deps[a]
        ensures id in r && r[id].shadow.deployedArea == Some(a)
      {
        assert id != key;
      }
    }
  }

  /** The drops of one hunt, extracted in turn at the same moment, keep the
      shadow invariants; every key of that moment stays free, because each
      extraction writes an idle shadow. */
  lemma {:induction false} ExtractAllPreservesValid(templates: Shadows.TemplateTable, owned: map<string, OwnedShadow>, deps: map<string, seq<string>>, ids: seq<string>, now: nat)
    requires ShadowsValid(owned, deps) && IdleKeysAt(owned, now)
    ensures ShadowsValid(ExtractAll(templates, owned, ids, now), deps)
    ensures IdleKeysAt(ExtractAll(templates, owned, ids, now), now)
  {
    if |ids| > 0 {
      var prefix, t := ids[..|ids| - 1], ids[|ids| - 1];
      var before := ExtractAll(templates, owned, prefix, now);
      assert ExtractAll(templates, owned, ids, now) == Extracted(templates, before, t, now);
      ExtractAllPreservesValid(templates, owned, deps, prefix, now);
      assert KeyFree(before, ExtractionKey(t, now));
      ExtractPreservesValid(templates, before, deps, t, now);
      ExtractKeepsKeysIdle(templates, before, t, now);
    }
  }

  /** An extraction writes an idle shadow, so the keys of its moment stay free. */
  lemma ExtractKeepsKeysIdle(templates: Shadows.TemplateTable, owned: map<string, OwnedShadow>, templateId: string, now: nat)
    requires IdleKeysAt(owned, now)
    ensures IdleKeysAt(Extracted(templates, owned, templateId, now), now)
  {
    var r := Extracted(templates, owned, templateId, now);
    forall t
      ensures KeyFree(r, ExtractionKey(t, now))
    {
      assert KeyFree(owned, ExtractionKey(t, now));
    }
  }

  // ------------------------------------------------------- passive income

  /** A shadow's rate in an area: the area's base rate times the shadow's multiplier. */
  function ShadowRate(area: HuntingArea, s: Shadow): (r: real)
    requires area.huntDuration > 0
    ensures area.expReward >= 0 && s.currentExpMultiplier > 0.0 ==> r >= 0.0
  {
    HuntingAreas.BaseExpPerSecond(area) * s.currentExpMultiplier
  }

  /** What shadow `id`, listed under `area`, yields per second: the area's
      base rate times the shadow's multiplier when the shadow is owned and
      deployed, nothing otherwise. */
  function Contribution(owned: map<string, OwnedShadow>, area: HuntingArea, id: string): real
    requires area.huntDuration > 0
  {
    if id in owned && owned[id].shadow.isDeployed
    then ShadowRate(area, owned[id].shadow)
    else 0.0
  }

  function ContributionIn(owned: map<string, OwnedShadow>, area: HuntingArea): string -> real
    requires area.huntDuration > 0
  {
    id => Contribution(owned, area, id)
  }

  lemma ContributionInApply(owned: map<string, OwnedShadow>, area: HuntingArea, id: string)
    requires area.huntDuration > 0
    ensures ContributionIn(owned, area)(id) == Contribution(owned, area, id)
  {
  }

  /** The inner loop of `getShadowExpPerSecond` over one area's list:
      adds each owned and deployed shadow's rate to the running total. */
  method AddAreaRates(total0: real, owned: map<string, OwnedShadow>, area: HuntingArea, ids: seq<string>)
    returns (total: real)
    requires area.huntDuration > 0
    ensures total == total0 + SeqSum(ids, ContributionIn(owned, area))
  {
    ghost var f := ContributionIn(owned, area);
    total := total0;
    var j := 0;
    while j < |ids|
      invariant 0 <= j <= |ids|
      invariant total == total0 + SeqSum(ids[..j], f)
    {
      var id := ids[j];
      ghost var prev := total;
      if id in owned && owned[id].shadow.isDeployed {
        total := total + ShadowRate(area, owned[id].shadow);
      }
      ContributionInApply(owned, area, id);
      assert total == prev + f(id);
      SeqSumStep(ids, f, j);
      j := j + 1;
    }
    assert ids[..|ids|] == ids;
  }

  /** The rate of one area's list; an unknown area yields nothing. */
  function AreaExpPerSecond(areas: HuntingAreas.AreaTable, owned: map<string, OwnedShadow>, deps: map<string, seq<string>>, areaId: string): real
  {
    match HuntingAreas.FindArea(areas, areaId)
    case None => 0.0
    case Some(area) => if areaId in deps then SeqSum(deps[areaId], ContributionIn(owned, area)) else 0.0
  }

  function AreaRate(areas: HuntingAreas.AreaTable, owned: map<string, OwnedShadow>, deps: map<string, seq<string>>): string -> real
  {
    a => AreaExpPerSecond(areas, owned, deps, a)
  }

  /** One step of the outer loop of `getShadowExpPerSecond`: look the area
      up and add up its list. */
  method ComputeAreaRate(areas: HuntingAreas.AreaTable, owned: map<string, OwnedShadow>, deps: map<string, seq<string>>, areaId: string)
    returns (t: real)
    requires areaId in deps
    ensures t == AreaExpPerSecond(areas, owned, deps, areaId)
  {
    t := 0.0;
    var found := HuntingAreas.FindArea(areas, areaId);
    if found.Some? {
      t := AddAreaRates(0.0, owned, found.value, deps[areaId]);
    }
  }

  /** The outer loop of `getShadowExpPerSecond`: every area's list is added
      once. Dictionary order is not modelled: the areas are taken in any
      order. */
  method SumAreaRates(areas: HuntingAreas.AreaTable, owned: map<string, OwnedShadow>, deps: map<string, seq<string>>)
    returns (total: real)
    ensures total == ExpPerSecond(areas, owned, deps)
  {
    ghost var rate := AreaRate(areas, owned, deps);
    total := 0.0;
    var remaining := deps.Keys;
    ghost var done: set<string> := {};
    while remaining != {}
      invariant remaining <= deps.Keys && done == deps.Keys - remaining
      invariant total == SumOver(done, rate)
      decreases |remaining|
    {
      var a :| a in remaining;
      var t := ComputeAreaRate(areas, owned, deps, a);
      SumStep(deps.Keys, done, remaining, rate, a);
      total := total + t;
      done := done + {a};
      remaining := remaining - {a};
    }
    assert done == deps.Keys;
  }

  lemma SumStep(keys: set<string>, done: set<string>, remaining: set<string>, f: string -> real, a: string)
    requires a in remaining && remaining <= keys && done == keys - remaining
    ensures SumOver(done + {a}, f) == SumOver(done, f) + f(a)
    ensures remaining - {a} <= keys && done + {a} == keys - (remaining - {a})
  {
    SumOverAdd(done, f, a);
  }

  /** `getShadowExpPerSecond()`: the sum of every area's rate. */
  ghost function ExpPerSecond(areas: HuntingAreas.AreaTable, owned: map<string, OwnedShadow>, deps: map<string, seq<string>>): (r: real)
    ensures OwnedValid(owned) ==> r >= 0.0
  {
    if OwnedValid(owned) then
      AreaRatesSumNonNegative(areas, owned, deps);
      SumOver(deps.Keys, AreaRate(areas, owned, deps))
    else SumOver(deps.Keys, AreaRate(areas, owned, deps))
  }

  lemma ContributionNonNegative(owned: map<string, OwnedShadow>, area: HuntingArea, id: string)
    requires OwnedValid(owned) && area.huntDuration > 0 && area.expReward >= 0
    ensures Contribution(owned, area, id) >= 0.0
  {
    if id in owned && owned[id].shadow.isDeployed {
      var s := owned[id].shadow;
      assert (s.level - 1) as real * 0.1 >= 0.0;
      assert s.currentExpMultiplier > 0.0;
    }
  }

  lemma AreaExpPerSecondNonNegative(areas: HuntingAreas.AreaTable, owned: map<string, OwnedShadow>, deps: map<string, seq<string>>, a: string)
    requires OwnedValid(owned)
    ensures AreaExpPerSecond(areas, owned, deps, a) >= 0.0
    ensures AreaRate(areas, owned, deps)(a) == AreaExpPerSecond(areas, owned, deps, a)
  {
    var found := HuntingAreas.FindArea(areas, a);
    if found.Some? && a in deps {
      var f := ContributionIn(owned, found.value);
      forall i | 0 <= i < |deps[a]|
        ensures f(deps[a][i]) >= 0.0
      {
        ContributionNonNegative(owned, found.value, deps[a][i]);
      }
      SeqSumNonNegative(deps[a], f);
    }
  }

  /** With well-formed shadows, no area's rate and so not their sum is negative. */
  lemma AreaRatesSumNonNegative(areas: HuntingAreas.AreaTable, owned: map<string, OwnedShadow>, deps: map<string, seq<string>>)
    requires OwnedValid(owned)
    ensures SumOver(deps.Keys, AreaRate(areas, owned, deps)) >= 0.0
  {
    forall a | a in deps.Keys
      ensures AreaRate(areas, owned, deps)(a) >= 0.0
    {
      AreaExpPerSecondNonNegative(areas, owned, deps, a);
    }
    SumOverNonNegative(deps.Keys, AreaRate(areas, owned, deps));
  }

  /** With nothing deployed anywhere, there is no passive income. */
  lemma ExpPerSecondEmpty(areas: HuntingAreas.AreaTable, owned: map<string, OwnedShadow>)
    ensures ExpPerSecond(areas, owned, map[]) == 0.0
  {
    var none: map<string, seq<string>> := map[];
    assert none.Keys == {};
  }

  // ------------------------------------------------------------ the hunt

  /** The area a hunt completes in: hunting, a truthy (non-empty) area id,
      and an area of that id in the catalog. */
  function HuntTarget(areas: HuntingAreas.AreaTable, isHunting: bool, currentHuntingArea: Option<string>): (r: Option<HuntingArea>)
    ensures r.Some? ==> isHunting && currentHuntingArea == Some(r.value.id)
    ensures r.Some? ==> HuntingAreas.FindArea(areas, currentHuntingArea.value) == r
    ensures r.None? <==>
      (!isHunting || currentHuntingArea.None? || HuntingAreas.FindArea(areas, currentHuntingArea.value).None?)
  {
    if !isHunting || currentHuntingArea.None? || currentHuntingArea.value == "" then None
    else HuntingAreas.FindArea(areas, currentHuntingArea.value)
  }

  // ------------------------------------------------------------ the store

  /** The store state and its actions. */
  class Store {
    /** The area and template tables the store reads; the game's own. */
    const areas: HuntingAreas.AreaTable
    const templates: Shadows.TemplateTable
    var player: Player
    var currentHuntingArea: Option<string>
    var huntingStartTime: Option<int>
    var isHunting: bool
    var ownedShadows: map<string, OwnedShadow>
    var shadowDeployments: map<string, seq<string>>
    var gameStartTime: int
    var lastOnlineTime: int

    /** The store invariant: a valid player, the three hunting fields set and
        cleared together, and the shadow invariants. */
    predicate Valid()
      reads this
    {
      && PlayerValid(player)
      && (isHunting <==> currentHuntingArea.Some?)
      && (isHunting <==> huntingStartTime.Some?)
      && ShadowsValid(ownedShadows, shadowDeployments)
    }

    /** The initial state, created at `now`. */
    constructor (now: int)
      ensures Valid()
      ensures player == InitialPlayer(now)
      ensures currentHuntingArea == None && huntingStartTime == None && !isHunting
      ensures ownedShadows == map[] && shadowDeployments == map[]
      ensures gameStartTime == now && lastOnlineTime == now
      ensures areas == HuntingAreas.Areas && templates == Shadows.ShadowTemplates
    {
      HuntingAreas.AreasTableValid();
      Shadows.ShadowTemplatesValid();
      areas := HuntingAreas.Areas;
      templates := Shadows.ShadowTemplates;
      player := InitialPlayer(now);
      currentHuntingArea := None;
      huntingStartTime := None;
      isHunting := false;
      ownedShadows := map[];
      shadowDeployments := map[];
      gameStartTime := now;
      lastOnlineTime := now;
    }

    /** `gainExperience(amount)`: the level-up loop runs on local copies and
        the player is replaced once. */
    method GainExperience(amount: real)
      requires player.level >= 1 && player.expToNext >= 1
      modifies this`player
      ensures player == ApplyExperience(old(player), amount)
      ensures old(Valid()) && amount >= 0.0 ==> Valid()
    {
      ghost var p0 := player;
      var newExp := player.currentExp + amount;
      var newLevel := player.level;
      var newExpToNext := player.expToNext;
      var newStatPoints := player.availableStatPoints;
      var newTotalExp := player.totalExpEarned + amount;
      while newExp >= newExpToNext as real
        invariant newLevel >= player.level && newExpToNext >= 1
        invariant newLevel > player.level ==> newExpToNext == PlayerExpToNext(newLevel)
        invariant SettleLevels(newLevel, newExp, newExpToNext)
               == SettleLevels(player.level, player.currentExp + amount, player.expToNext)
        invariant newStatPoints == player.availableStatPoints + StatPointsPerLevel * (newLevel - player.level)
        decreases if newExp < 0.0 then 0 else newExp.Floor
      {
        newExp := newExp - newExpToNext as real;
        newLevel := newLevel + 1;
        newStatPoints := newStatPoints + StatPointsPerLevel;
        newExpToNext := PlayerExpToNext(newLevel);
      }
      player := player.(level := newLevel, currentExp := newExp, expToNext := newExpToNext,
                        availableStatPoints := newStatPoints, totalExpEarned := newTotalExp);
      if PlayerValid(p0) && amount >= 0.0 {
        ApplyExperiencePreservesValid(p0, amount);
      }
    }

    method AllocateStatPoint(stat: StatName)
      modifies this`player
      ensures player == AllocateStat(old(player), stat)
      ensures old(Valid()) ==> Valid()
    {
      if PlayerValid(player) {
        AllocateStatPreservesValid(player, stat);
      }
      if player.availableStatPoints > 0 {
        player := player.(stats := player.stats.With(stat, player.stats.Get(stat) + 1),
                          availableStatPoints := player.availableStatPoints - 1);
      }
    }

    /** The manual level-up trigger: a zero gain when the experience covers
        the threshold. On a valid player it never fires. */
    method LevelUp()
      requires player.level >= 1 && player.expToNext >= 1
      modifies this`player
      ensures player == if old(player).currentExp >= old(player).expToNext as real
                        then ApplyExperience(old(player), 0.0) else old(player)
      ensures old(Valid()) ==> Valid()
    {
      if player.currentExp >= player.expToNext as real {
        GainExperience(0.0);
      }
    }

    /** Starts hunting `areaId` at `now`; the id is not checked here. */
    method StartHunting(areaId: string, now: int)
      modifies this`currentHuntingArea, this`huntingStartTime, this`isHunting
      ensures currentHuntingArea == Some(areaId) && huntingStartTime == Some(now) && isHunting
      ensures old(Valid()) ==> Valid()
    {
      currentHuntingArea := Some(areaId);
      huntingStartTime := Some(now);
      isHunting := true;
    }

    method StopHunting()
      modifies this`currentHuntingArea, this`huntingStartTime, this`isHunting
      ensures currentHuntingArea == None && huntingStartTime == None && !isHunting
      ensures old(Valid()) ==> Valid()
    {
      currentHuntingArea := None;
      huntingStartTime := None;
      isHunting := false;
    }

    /** `extractShadow(templateId)` at `now`; fails only for an unknown template. */
    method ExtractShadow(templateId: string, now: nat) returns (ok: bool)
      modifies this`ownedShadows
      ensures ok <==> Shadows.InstanceFrom(templates, templateId).Some?
      ensures ownedShadows == Extracted(templates, old(ownedShadows), templateId, now)
      ensures old(Valid()) && KeyFree(old(ownedShadows), ExtractionKey(templateId, now)) ==> Valid()
    {
      if ShadowsValid(ownedShadows, shadowDeployments) && KeyFree(ownedShadows, ExtractionKey(templateId, now)) {
        ExtractPreservesValid(templates, ownedShadows, shadowDeployments, templateId, now);
      }
      var created := Shadows.InstanceFrom(templates, templateId);
      if created.None? {
        return false;
      }
      var key := ExtractionKey(templateId, now);
      ownedShadows := ownedShadows[key := OwnedShadow(key, created.value.(id := key), now)];
      return true;
    }

    /** `completeHunt()` at `now`: the area's reward, one roll per drop-table
        line with an extraction for each roll at or under the line's chance,
        and a new hunt start. Nothing happens unless a hunt is on in a known area. */
    method CompleteHunt(now: nat, roll: nat -> real)
      requires player.level >= 1 && player.expToNext >= 1
      modifies this`player, this`ownedShadows, this`huntingStartTime
      ensures HuntTarget(areas, isHunting, currentHuntingArea).None? ==>
        player == old(player) && ownedShadows == old(ownedShadows) && huntingStartTime == old(huntingStartTime)
      ensures HuntTarget(areas, isHunting, currentHuntingArea).Some? ==>
        var area := HuntTarget(areas, isHunting, currentHuntingArea).value;
        && player == ApplyExperience(old(player), area.expReward as real)
        && ownedShadows == ExtractAll(templates, old(ownedShadows), DroppedTemplates(area.shadowDrops, roll), now)
        && huntingStartTime == Some(now)
      ensures old(Valid()) && IdleKeysAt(old(ownedShadows), now) ==> Valid()
    {
      var target := HuntTarget(areas, isHunting, currentHuntingArea);
      if target.None? {
        return;
      }
      var area := target.value;
      GainExperience(area.expReward as real);
      ExtractDrops(area.shadowDrops, roll, now);
      huntingStartTime := Some(now);
    }

    /** The drop loop of `completeHunt()`: one roll per line, in table order. */
    method ExtractDrops(drops: seq<ShadowDrop>, roll: nat -> real, now: nat)
      modifies this`ownedShadows
      ensures ownedShadows == ExtractAll(templates, old(ownedShadows), DroppedTemplates(drops, roll), now)
      ensures old(ShadowsValid(ownedShadows, shadowDeployments)) && IdleKeysAt(old(ownedShadows), now) ==>
        ShadowsValid(ownedShadows, shadowDeployments)
    {
      if ShadowsValid(ownedShadows, shadowDeployments) && IdleKeysAt(ownedShadows, now) {
        ExtractAllPreservesValid(templates, ownedShadows, shadowDeployments, DroppedTemplates(drops, roll), now);
      }
      var i := 0;
      while i < |drops|
        invariant 0 <= i <= |drops|
        invariant ownedShadows == ExtractAll(templates, old(ownedShadows), DroppedTemplates(drops[..i], roll), now)
      {
        ExtractDroppedStep(templates, old(ownedShadows), drops, roll, now, i);
        if roll(i) <= drops[i].dropChance as real {
          var _ := ExtractShadow(drops[i].shadowId, now);
        }
        i := i + 1;
      }
      assert drops[..|drops|] == drops;
    }

    /** `deployShadow(id, areaId)`; always reports success. */
    method DeployShadow(id: string, areaId: string) returns (ok: bool)
      modifies this`ownedShadows, this`shadowDeployments
      ensures ok
      ensures (ownedShadows, shadowDeployments) == DeployShadows(old(ownedShadows), old(shadowDeployments), id, areaId)
      ensures old(Valid()) ==> Valid()
    {
      if ShadowsValid(ownedShadows, shadowDeployments) {
        DeployPreservesValid(ownedShadows, shadowDeployments, id, areaId);
      }
      if id in ownedShadows && !ownedShadows[id].shadow.isDeployed {
        var list := if areaId in shadowDeployments then shadowDeployments[areaId] else [];
        shadowDeployments := shadowDeployments[areaId := list + [id]];
        ownedShadows := ownedShadows[id := Deployed(ownedShadows[id], areaId)];
      }
      return true;
    }

    /** `recallShadow(id)`; always reports success. */
    method RecallShadow(id: string) returns (ok: bool)
      modifies this`ownedShadows, this`shadowDeployments
      ensures ok
      ensures (ownedShadows, shadowDeployments) == RecallShadows(old(ownedShadows), old(shadowDeployments), id)
      ensures old(Valid()) ==> Valid()
    {
      if ShadowsValid(ownedShadows, shadowDeployments) {
        RecallPreservesValid(ownedShadows, shadowDeployments, id);
      }
      if id in ownedShadows && ownedShadows[id].shadow.isDeployed {
        var area := ownedShadows[id].shadow.deployedArea;
        if area.Some? && area.value != "" && area.value in shadowDeployments {
          shadowDeployments := shadowDeployments[area.value := Without(shadowDeployments[area.value], id)];
        }
        ownedShadows := ownedShadows[id := Recalled(ownedShadows[id])];
      }
      return true;
    }

    /** `gainShadowExp(id, exp)`: the shadow's level-up loop on local copies. */
    method GainShadowExp(id: string, exp: real)
      requires OwnedValid(ownedShadows)
      modifies this`ownedShadows
      ensures ownedShadows == GainShadowExpIn(old(ownedShadows), id, exp)
      ensures old(Valid()) ==> Valid()
    {
      if ShadowsValid(ownedShadows, shadowDeployments) {
        GainShadowExpPreservesValid(ownedShadows, shadowDeployments, id, exp);
      }
      if id !in ownedShadows {
        return;
      }
      var updated := LevelShadow(ownedShadows[id].shadow, exp);
      ownedShadows := ownedShadows[id := ownedShadows[id].(shadow := updated)];
    }

    method UpdateLastOnlineTime(now: int)
      modifies this`lastOnlineTime
      ensures lastOnlineTime == now
      ensures old(Valid()) ==> Valid()
    {
      lastOnlineTime := now;
    }

    /** `canLevelUp()`: false on every valid state. */
    function CanLevelUp(): (r: bool)
      reads this
      ensures r <==> player.currentExp >= player.expToNext as real
      ensures Valid() ==> !r
    {
      player.currentExp >= player.expToNext as real
    }

    /** `getExpPercentage()`: the share of the threshold held, capped at 100. */
    function ExpPercentage(): (r: real)
      reads this
      requires player.expToNext > 0
      ensures r <= 100.0
      ensures r == 100.0 <==> player.currentExp >= player.expToNext as real
      ensures Valid() ==> 0.0 <= r < 100.0
    {
      var pct := player.currentExp / player.expToNext as real * 100.0;
      if pct < 100.0 then pct else 100.0
    }

    /** `getDeployedShadows()`: the deployed shadows (their order is not modelled). */
    function DeployedShadows(): (r: set<Shadow>)
      reads this
      ensures forall s :: s in r <==> exists k :: k in ownedShadows && ownedShadows[k].shadow == s && s.isDeployed
    {
      set k | k in ownedShadows && ownedShadows[k].shadow.isDeployed :: ownedShadows[k].shadow
    }

    /** Under the invariant, the deployed shadows are what the deployment
        index lists: each one is the owned shadow under its own id, an owned
        shadow is among them exactly when its flag is set, and it is among
        them with a (non-empty) area exactly when that area's list holds its id. */
    lemma DeployedShadowsMatchIndex(id: string, a: string)
      requires Valid() && id in ownedShadows && a != ""
      ensures forall s :: s in DeployedShadows() ==> s.id in ownedShadows && ownedShadows[s.id].shadow == s
      ensures ownedShadows[id].shadow in DeployedShadows() <==> ownedShadows[id].shadow.isDeployed
      ensures ownedShadows[id].shadow in DeployedShadows() && ownedShadows[id].shadow.deployedArea == Some(a)
          <==> a in shadowDeployments && id in shadowDeployments[a]
    {
      var s := ownedShadows[id].shadow;
      if s in DeployedShadows() {
        var k :| k in ownedShadows && ownedShadows[k].shadow == s && s.isDeployed;
        assert k == s.id == id;
      }
    }

    /** `getShadowExpPerSecond()`: every area's list, each owned and deployed
        shadow at its area's base rate times its multiplier. Dictionary order
        is not modelled: the areas are taken in any order. */
    method GetShadowExpPerSecond() returns (total: real)
      ensures total == ExpPerSecond(areas, ownedShadows, shadowDeployments)
    {
      total := SumAreaRates(areas, ownedShadows, shadowDeployments);
    }
  }
}
