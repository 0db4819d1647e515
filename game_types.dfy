/** The records the game's state is built from: the player, the hunting
    areas and their drop tables, and shadow instances. Presentation-only
    fields (descriptions, icons, monster lists) are not modelled. */
module GameTypes {

  datatype Option<+T> = None | Some(value: T)

  datatype Rarity = Common | Uncommon | Rare | Epic | Legendary

  /** The five allocatable attributes. */
  datatype StatName = Strength | Agility | Intelligence | Vitality | Sense

  datatype PlayerStats = PlayerStats(strength: int, agility: int, intelligence: int, vitality: int, sense: int)
  {
    function Get(stat: StatName): int
    {
      match stat
      case Strength => strength
      case Agility => agility
      case Intelligence => intelligence
      case Vitality => vitality
      case Sense => sense
    }

    /** This record with one attribute replaced; the others are kept. */
    function With(stat: StatName, v: int): (r: PlayerStats)
      ensures r.Get(stat) == v
      ensures forall other :: other != stat ==> r.Get(other) == Get(other)
    {
      match stat
      case Strength => this.(strength := v)
      case Agility => this.(agility := v)
      case Intelligence => this.(intelligence := v)
      case Vitality => this.(vitality := v)
      case Sense => this.(sense := v)
    }

    function Total(): int
    {
      strength + agility + intelligence + vitality + sense
    }
  }

  /** The player record. `rank` is the hunter rank letter ("E" .. "S", "National"). */
  datatype Player = Player(
    name: string,
    level: int,
    currentExp: real,
    expToNext: int,
    rank: string,
    stats: PlayerStats,
    availableStatPoints: int,
    totalExpEarned: real,
    lastSaved: int)

  /** One owned shadow instance. `deployedArea == None` is JavaScript's null. */
  datatype Shadow = Shadow(
    id: string,
    name: string,
    rarity: Rarity,
    level: int,
    currentExp: real,
    expToNext: int,
    maxLevel: int,
    baseExpMultiplier: real,
    currentExpMultiplier: real,
    extractedFrom: string,
    isDeployed: bool,
    deployedArea: Option<string>)

  /** An entry of the owned-shadow dictionary: the instance id, the instance, and when it was extracted. */
  datatype OwnedShadow = OwnedShadow(shadowId: string, shadow: Shadow, extractedAt: int)

  /** One line of an area's drop table; `dropChance` is a percentage. */
  datatype ShadowDrop = ShadowDrop(shadowId: string, name: string, rarity: Rarity, dropChance: int)

  /** A hunting area; `huntDuration` is in milliseconds. */
  datatype HuntingArea = HuntingArea(
    id: string,
    name: string,
    level: int,
    expReward: int,
    unlockLevel: int,
    huntDuration: int,
    shadowDrops: seq<ShadowDrop>)
}
