/** The shadow catalog: per-rarity configuration, the template table,
    instance creation, and the two per-shadow curves (experience needed for
    the next level, and the experience multiplier). */
module Shadows {
  import opened GameTypes

  datatype RarityConfig = RarityConfig(baseExpMultiplier: real, maxLevel: int)

  /** The rarity configuration table. Multipliers are exact decimals here.
      Every rarity allows at least 20 levels and multiplies by at least 0.5. */
  function RarityConfigOf(r: Rarity): (c: RarityConfig)
    ensures 20 <= c.maxLevel <= 100
    ensures 0.5 <= c.baseExpMultiplier <= 5.0
  {
    match r
    case Common => RarityConfig(0.5, 20)
    case Uncommon => RarityConfig(0.8, 30)
    case Rare => RarityConfig(1.2, 50)
    case Epic => RarityConfig(2.0, 75)
    case Legendary => RarityConfig(5.0, 100)
  }

  /** The position of a rarity, from common (0) to legendary (4). */
  function RarityRank(r: Rarity): nat
  {
    match r
    case Common => 0
    case Uncommon => 1
    case Rare => 2
    case Epic => 3
    case Legendary => 4
  }

  /** A rarer shadow has a higher level cap and a larger base multiplier. */
  lemma RarerIsStronger(r1: Rarity, r2: Rarity)
    requires RarityRank(r1) < RarityRank(r2)
    ensures RarityConfigOf(r1).maxLevel < RarityConfigOf(r2).maxLevel
    ensures RarityConfigOf(r1).baseExpMultiplier < RarityConfigOf(r2).baseExpMultiplier
  {
  }

  /** A template: the fields an instance copies when it is created. */
  datatype ShadowTemplate = ShadowTemplate(
    id: string,
    name: string,
    rarity: Rarity,
    maxLevel: int,
    baseExpMultiplier: real,
    extractedFrom: string)

  const ShadowTemplates: map<string, ShadowTemplate> := map[
    "goblin-shadow" := ShadowTemplate("goblin-shadow", "Goblin Shadow", Common,
      RarityConfigOf(Common).maxLevel, RarityConfigOf(Common).baseExpMultiplier, "goblin-cave"),
    "goblin-warrior-shadow" := ShadowTemplate("goblin-warrior-shadow", "Goblin Warrior Shadow", Uncommon,
      RarityConfigOf(Uncommon).maxLevel, RarityConfigOf(Uncommon).baseExpMultiplier, "goblin-cave"),
    "spider-shadow" := ShadowTemplate("spider-shadow", "Spider Shadow", Common,
      RarityConfigOf(Common).maxLevel, RarityConfigOf(Common).baseExpMultiplier, "spider-den"),
    "poison-spider-shadow" := ShadowTemplate("poison-spider-shadow", "Poison Spider Shadow", Rare,
      RarityConfigOf(Rare).maxLevel, RarityConfigOf(Rare).baseExpMultiplier, "spider-den"),
    "orc-warrior-shadow" := ShadowTemplate("orc-warrior-shadow", "Orc Warrior Shadow", Uncommon,
      RarityConfigOf(Uncommon).maxLevel, RarityConfigOf(Uncommon).baseExpMultiplier, "orc-stronghold"),
    "orc-shaman-shadow" := ShadowTemplate("orc-shaman-shadow", "Orc Shaman Shadow", Rare,
      RarityConfigOf(Rare).maxLevel, RarityConfigOf(Rare).baseExpMultiplier, "orc-stronghold"),
    "orc-chieftain-shadow" := ShadowTemplate("orc-chieftain-shadow", "Orc Chieftain Shadow", Epic,
      RarityConfigOf(Epic).maxLevel, RarityConfigOf(Epic).baseExpMultiplier, "orc-stronghold"),
    "skeleton-shadow" := ShadowTemplate("skeleton-shadow", "Skeleton Shadow", Common,
      RarityConfigOf(Common).maxLevel, RarityConfigOf(Common).baseExpMultiplier, "undead-crypt"),
    "wraith-shadow" := ShadowTemplate("wraith-shadow", "Wraith Shadow", Rare,
      RarityConfigOf(Rare).maxLevel, RarityConfigOf(Rare).baseExpMultiplier, "undead-crypt"),
    "lich-shadow" := ShadowTemplate("lich-shadow", "Lich Shadow", Epic,
      RarityConfigOf(Epic).maxLevel, RarityConfigOf(Epic).baseExpMultiplier, "undead-crypt"),
    "dragon-whelp-shadow" := ShadowTemplate("dragon-whelp-shadow", "Dragon Whelp Shadow", Rare,
      RarityConfigOf(Rare).maxLevel, RarityConfigOf(Rare).baseExpMultiplier, "dragon-lair"),
    "drake-shadow" := ShadowTemplate("drake-shadow", "Drake Shadow", Epic,
      RarityConfigOf(Epic).maxLevel, RarityConfigOf(Epic).baseExpMultiplier, "dragon-lair"),
    "ancient-dragon-shadow" := ShadowTemplate("ancient-dragon-shadow", "Ancient Dragon Shadow", Legendary,
      RarityConfigOf(Legendary).maxLevel, RarityConfigOf(Legendary).baseExpMultiplier, "dragon-lair"),
    "shadow-beast-shadow" := ShadowTemplate("shadow-beast-shadow", "Shadow Beast Shadow", Epic,
      RarityConfigOf(Epic).maxLevel, RarityConfigOf(Epic).baseExpMultiplier, "shadow-realm"),
    "void-walker-shadow" := ShadowTemplate("void-walker-shadow", "Void Walker Shadow", Legendary,
      RarityConfigOf(Legendary).maxLevel, RarityConfigOf(Legendary).baseExpMultiplier, "shadow-realm"),
    "lesser-monarch-shadow" := ShadowTemplate("lesser-monarch-shadow", "Lesser Monarch Shadow", Legendary,
      RarityConfigOf(Legendary).maxLevel, RarityConfigOf(Legendary).baseExpMultiplier, "monarch-domain"),
    // the one template whose multiplier is not its rarity's: a 1.5x bonus
    "monarch-shadow" := ShadowTemplate("monarch-shadow", "Monarch Shadow", Legendary,
      RarityConfigOf(Legendary).maxLevel, RarityConfigOf(Legendary).baseExpMultiplier * 1.5, "monarch-domain")
  ]

  /** Every template is stored under its own id. */
  lemma TemplateKeysAreIds()
    ensures forall k :: k in ShadowTemplates ==> ShadowTemplates[k].id == k
  {
  }

  /** Every template takes its level cap and multiplier from its rarity,
      except the monarch shadow, whose multiplier is 1.5 times legendary. */
  lemma TemplatesFollowRarityConfig()
    ensures forall k :: k in ShadowTemplates ==>
      ShadowTemplates[k].maxLevel == RarityConfigOf(ShadowTemplates[k].rarity).maxLevel
    ensures forall k :: k in ShadowTemplates && k != "monarch-shadow" ==>
      ShadowTemplates[k].baseExpMultiplier == RarityConfigOf(ShadowTemplates[k].rarity).baseExpMultiplier
    ensures "monarch-shadow" in ShadowTemplates
    ensures ShadowTemplates["monarch-shadow"].rarity == Legendary
    ensures ShadowTemplates["monarch-shadow"].baseExpMultiplier == RarityConfigOf(Legendary).baseExpMultiplier * 1.5
  {
  }

  /** Consequences used by the store: every template can be levelled and has a positive multiplier. */
  lemma TemplatesWellFormed()
    ensures forall k :: k in ShadowTemplates ==>
      ShadowTemplates[k].maxLevel >= 1 && ShadowTemplates[k].baseExpMultiplier > 0.0
  {
    TemplatesFollowRarityConfig();
  }

  /** The template lookup; `None` is JavaScript's undefined. */
  function GetShadowTemplate(templateId: string): (r: Option<ShadowTemplate>)
    ensures r.Some? <==> templateId in ShadowTemplates
    ensures r.Some? ==> r.value.id == templateId
  {
    TemplateKeysAreIds();
    if templateId in ShadowTemplates then Some(ShadowTemplates[templateId]) else None
  }

  function Pow(b: nat, n: nat): (r: nat)
    ensures b >= 1 ==> r >= 1
  {
    if n == 0 then 1 else b * Pow(b, n - 1)
  }

  /** floor(100 * 1.5^k), computed exactly as floor(100 * 3^k / 2^k). */
  function GrowthFloor(k: nat): nat
  {
    100 * Pow(3, k) / Pow(2, k)
  }

  lemma DivAtLeast(x: int, d: int, y: int)
    requires d > 0 && x >= y * d
    ensures x / d >= y
  {
    var q := x / d;
    assert 0 <= x - q * d < d;
    assert (q - y + 1) * d == q * d - y * d + d;
    PositiveFactor(q - y + 1, d);
  }

  lemma MulAtLeast(x: int, y: int, d: int)
    requires x >= y && d >= 0
    ensures x * d >= y * d
  {
    assert x * d - y * d == (x - y) * d;
  }

  lemma PositiveFactor(a: int, d: int)
    requires d > 0 && a * d > 0
    ensures a > 0
  {
  }

  lemma GrowthFloorStep(k: nat)
    requires GrowthFloor(k) >= 2
    ensures GrowthFloor(k + 1) >= GrowthFloor(k) + 1
  {
    var a, b := 100 * Pow(3, k), Pow(2, k);
    var q := a / b;
    assert a >= q * b by {
      assert a == q * b + a % b;
    }
    assert 100 * Pow(3, k + 1) == 3 * a;
    assert Pow(2, k + 1) == 2 * b;
    assert q * b >= 2 * b by {
      MulAtLeast(q, 2, b);
    }
    assert (q + 1) * (2 * b) == 2 * (q * b) + 2 * b;
    DivAtLeast(3 * a, 2 * b, q + 1);
  }

  lemma {:induction false} GrowthFloorAtLeast100(k: nat)
    ensures GrowthFloor(k) >= 100
  {
    if k > 0 {
      GrowthFloorAtLeast100(k - 1);
      GrowthFloorStep(k - 1);
    }
  }

  /** Experience a shadow needs to pass `level`: floor(100 * 1.5^(level - 1)). */
  function ShadowExpToNext(level: int): (r: int)
    requires level >= 1
    ensures r >= 100
  {
    GrowthFloorAtLeast100(level - 1);
    GrowthFloor(level - 1)
  }

  lemma ShadowExpToNextIncreasing(level: int)
    requires level >= 1
    ensures ShadowExpToNext(level + 1) > ShadowExpToNext(level)
  {
    GrowthFloorAtLeast100(level - 1);
    GrowthFloorStep(level - 1);
  }

  lemma {:induction false} ShadowExpToNextMonotone(l1: int, l2: int)
    requires 1 <= l1 < l2
    ensures ShadowExpToNext(l1) < ShadowExpToNext(l2)
    decreases l2 - l1
  {
    ShadowExpToNextIncreasing(l2 - 1);
    if l1 < l2 - 1 {
      ShadowExpToNextMonotone(l1, l2 - 1);
    }
  }

  /** The first values of the curve: 100, 150, 225. */
  lemma ShadowExpToNextFirstLevels()
    ensures ShadowExpToNext(1) == 100
    ensures ShadowExpToNext(2) == 150
    ensures ShadowExpToNext(3) == 225
  {
    assert Pow(3, 2) == 9 && Pow(2, 2) == 4;
  }

  /** The multiplier: the base plus 10% of the base per level above 1,
      never below the base from level 1 on. */
  function ShadowExpMultiplier(s: Shadow): (r: real)
    ensures s.baseExpMultiplier > 0.0 && s.level >= 1 ==> r >= s.baseExpMultiplier
  {
    s.baseExpMultiplier * (1.0 + (s.level - 1) as real * 0.1)
  }

  lemma MultiplierAtLevelOne(s: Shadow)
    requires s.level == 1
    ensures ShadowExpMultiplier(s) == s.baseExpMultiplier
  {
  }

  /** Each level adds the same tenth of the base: the bonus is additive, not compounding. */
  lemma MultiplierAdditive(s: Shadow)
    ensures ShadowExpMultiplier(s.(level := s.level + 1)) == ShadowExpMultiplier(s) + s.baseExpMultiplier * 0.1
  {
  }

  lemma MultiplierIncreasing(s: Shadow, l1: int, l2: int)
    requires s.baseExpMultiplier > 0.0 && l1 < l2
    ensures ShadowExpMultiplier(s.(level := l1)) < ShadowExpMultiplier(s.(level := l2))
  {
    var d := ShadowExpMultiplier(s.(level := l2)) - ShadowExpMultiplier(s.(level := l1));
    assert d == s.baseExpMultiplier * ((l2 - l1) as real * 0.1);
    assert (l2 - l1) as real * 0.1 > 0.0;
  }

  /** The invariants every owned shadow keeps: level within its cap, the
      curves agree with the level, and the deployment flag agrees with the area. */
  predicate WellFormedShadow(s: Shadow)
  {
    && 1 <= s.level <= s.maxLevel
    && s.expToNext == ShadowExpToNext(s.level)
    && s.baseExpMultiplier > 0.0
    && s.currentExpMultiplier == ShadowExpMultiplier(s)
    && (s.isDeployed <==> s.deployedArea.Some?)
    && (s.level < s.maxLevel ==> s.currentExp < s.expToNext as real)
  }

  /** What the store relies on in a template table: every template is
      stored under its own id, can be levelled, and has a positive multiplier. */
  predicate TemplatesValid(templates: map<string, ShadowTemplate>)
  {
    forall k :: k in templates ==>
      templates[k].id == k && templates[k].maxLevel >= 1 && templates[k].baseExpMultiplier > 0.0
  }

  /** A template table the store can draw instances from. */
  type TemplateTable = templates: map<string, ShadowTemplate> | TemplatesValid(templates) witness map[]

  lemma ShadowTemplatesValid()
    ensures TemplatesValid(ShadowTemplates)
  {
    TemplateKeysAreIds();
    TemplatesWellFormed();
  }

  /** A fresh level-1 instance of template `templateId` of `templates`, or
      `None` where the source throws: it copies the template's identity,
      level cap and base multiplier, starts at level 1 with no experience,
      and is not deployed. */
  function InstanceFrom(templates: TemplateTable, templateId: string): (r: Option<Shadow>)
    ensures r.Some? <==> templateId in templates
    ensures r.Some? ==>
      var t := templates[templateId];
      && r.value.id == templateId && r.value.name == t.name && r.value.rarity == t.rarity
      && r.value.maxLevel == t.maxLevel && r.value.baseExpMultiplier == t.baseExpMultiplier
      && r.value.extractedFrom == t.extractedFrom
      && r.value.level == 1 && r.value.currentExp == 0.0
      && r.value.expToNext == ShadowExpToNext(1)
      && r.value.currentExpMultiplier == t.baseExpMultiplier
      && !r.value.isDeployed && r.value.deployedArea == None
      && WellFormedShadow(r.value)
  {
    if templateId !in templates then None
    else
      ShadowExpToNextFirstLevels();
      var t := templates[templateId];
      Some(Shadow(t.id, t.name, t.rarity, 1, 0.0, 100, t.maxLevel, t.baseExpMultiplier,
                  t.baseExpMultiplier, t.extractedFrom, false, None))
  }

  /** `createShadowInstance(templateId)` on the game's own template table:
      an instance exists exactly for the ids in the table. */
  function CreateShadowInstance(templateId: string): (r: Option<Shadow>)
    ensures r.Some? <==> templateId in ShadowTemplates
    ensures r.Some? ==> r.value.id == templateId && r.value.level == 1 && WellFormedShadow(r.value)
  {
    ShadowTemplatesValid();
    InstanceFrom(ShadowTemplates, templateId)
  }
}
