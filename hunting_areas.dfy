/** The hunting-area catalog: a constant table in unlock order, and the
    `find`/`filter` lookups over it. */
module HuntingAreas {
  import opened GameTypes
  import Shadows

  const Areas: seq<HuntingArea> := [
    HuntingArea("goblin-cave", "Goblin Cave", 1, 10, 1, 3000, [
      ShadowDrop("goblin-shadow", "Goblin Shadow", Common, 30),
      ShadowDrop("goblin-warrior-shadow", "Goblin Warrior Shadow", Uncommon, 15)]),
    HuntingArea("spider-den", "Spider Den", 5, 25, 5, 4000, [
      ShadowDrop("spider-shadow", "Spider Shadow", Common, 25),
      ShadowDrop("poison-spider-shadow", "Poison Spider Shadow", Rare, 8)]),
    HuntingArea("orc-stronghold", "Orc Stronghold", 10, 50, 10, 5000, [
      ShadowDrop("orc-warrior-shadow", "Orc Warrior Shadow", Uncommon, 20),
      ShadowDrop("orc-shaman-shadow", "Orc Shaman Shadow", Rare, 10),
      ShadowDrop("orc-chieftain-shadow", "Orc Chieftain Shadow", Epic, 3)]),
    HuntingArea("undead-crypt", "Undead Crypt", 15, 100, 15, 6000, [
      ShadowDrop("skeleton-shadow", "Skeleton Shadow", Common, 20),
      ShadowDrop("wraith-shadow", "Wraith Shadow", Rare, 12),
      ShadowDrop("lich-shadow", "Lich Shadow", Epic, 5)]),
    HuntingArea("dragon-lair", "Dragon's Lair", 25, 250, 25, 8000, [
      ShadowDrop("dragon-whelp-shadow", "Dragon Whelp Shadow", Rare, 15),
      ShadowDrop("drake-shadow", "Drake Shadow", Epic, 8),
      ShadowDrop("ancient-dragon-shadow", "Ancient Dragon Shadow", Legendary, 2)]),
    HuntingArea("shadow-realm", "Shadow Realm", 35, 500, 35, 10000, [
      ShadowDrop("shadow-beast-shadow", "Shadow Beast Shadow", Epic, 12),
      ShadowDrop("void-walker-shadow", "Void Walker Shadow", Legendary, 5)]),
    HuntingArea("monarch-domain", "Monarch Domain", 50, 1000, 50, 15000, [
      ShadowDrop("lesser-monarch-shadow", "Lesser Monarch Shadow", Legendary, 8),
      ShadowDrop("monarch-shadow", "Monarch Shadow", Legendary, 3)])
  ]

  predicate UnlockSorted(areas: seq<HuntingArea>)
  {
    forall i, j :: 0 <= i < j < |areas| ==> areas[i].unlockLevel < areas[j].unlockLevel
  }

  predicate DistinctDropIds(drops: seq<ShadowDrop>)
  {
    forall i, j :: 0 <= i < j < |drops| ==> drops[i].shadowId != drops[j].shadowId
  }

  /** The table holds seven areas, starting with the goblin cave at unlock
      level 1, in strictly increasing unlock order (1, 5, 10, 15, 25, 35, 50). */
  lemma AreasSorted()
    ensures |Areas| == 7
    ensures Areas[0].id == "goblin-cave" && Areas[0].unlockLevel == 1
    ensures UnlockSorted(Areas)
  {
  }

  /** No two areas share an id. */
  lemma AreaIdsDistinct()
    ensures forall i, j :: 0 <= i < j < |Areas| ==> Areas[i].id != Areas[j].id
  {
  }

  /** Every area has a non-empty id, a positive duration, a reward that is
      not negative, a recommended level equal to its unlock level, drop
      chances that are percentages, and no template twice in its drop table. */
  lemma AreaFieldsValid()
    ensures forall i :: 0 <= i < |Areas| ==>
      && Areas[i].id != ""
      && Areas[i].huntDuration > 0
      && Areas[i].expReward >= 0
      && Areas[i].level == Areas[i].unlockLevel
      && DistinctDropIds(Areas[i].shadowDrops)
      && forall d :: d in Areas[i].shadowDrops ==> 0 <= d.dropChance <= 100
  {
  }

  /** The index of the first area with id `id`, or `|areas|` when there is none (`Array.find`). */
  function FindIndexById(areas: seq<HuntingArea>, id: string): (i: nat)
    ensures i <= |areas|
    ensures i < |areas| ==> areas[i].id == id
    ensures forall j :: 0 <= j < i ==> areas[j].id != id
  {
    if |areas| == 0 then 0
    else if areas[0].id == id then 0
    else 1 + FindIndexById(areas[1..], id)
  }

  /** What the store relies on in an area table: non-empty ids (so a
      found area is truthy), positive durations, rewards that are not
      negative, and no template twice in a drop table. */
  predicate AreasValid(areas: seq<HuntingArea>)
  {
    forall a :: a in areas ==>
      a.id != "" && a.huntDuration > 0 && a.expReward >= 0 && DistinctDropIds(a.shadowDrops)
  }

  /** An area table the store can hunt in. */
  type AreaTable = areas: seq<HuntingArea> | AreasValid(areas) witness []

  lemma AreasTableValid()
    ensures AreasValid(Areas)
  {
    AreaFieldsValid();
  }

  /** `areas.find(a => a.id === id)`. */
  function FindArea(areas: AreaTable, id: string): (r: Option<HuntingArea>)
    ensures r.Some? ==> r.value in areas && r.value.id == id
    ensures r.None? <==> forall a :: a in areas ==> a.id != id
    ensures r.Some? ==> id != "" && r.value.huntDuration > 0 && r.value.expReward >= 0
    ensures r.Some? ==> DistinctDropIds(r.value.shadowDrops)
  {
    var i := FindIndexById(areas, id);
    if i < |areas| then Some(areas[i]) else None
  }

  /** `getHuntingAreaById(id)` on the game's own area table. */
  function GetHuntingAreaById(id: string): (r: Option<HuntingArea>)
    ensures r.Some? ==> r.value in Areas && r.value.id == id
    ensures r.None? <==> forall a :: a in Areas ==> a.id != id
  {
    AreasTableValid();
    FindArea(Areas, id)
  }

  /** The table lookup finds each area under its own id. */
  lemma {:induction false} LookupFindsEveryArea(i: nat)
    requires i < |Areas|
    ensures GetHuntingAreaById(Areas[i].id) == Some(Areas[i])
  {
    AreaIdsDistinct();
  }

  /** The areas unlocked at `level`, in table order (`Array.filter`). */
  function FilterUnlocked(areas: seq<HuntingArea>, level: int): (r: seq<HuntingArea>)
    ensures |r| <= |areas|
    ensures forall a :: a in r <==> a in areas && a.unlockLevel <= level
  {
    if |areas| == 0 then []
    else if areas[0].unlockLevel <= level then [areas[0]] + FilterUnlocked(areas[1..], level)
    else FilterUnlocked(areas[1..], level)
  }

  /** `getAvailableAreas(level)`: the unlocked areas. Since the table is
      sorted by unlock level, they are a prefix of it: everything before
      its end is unlocked and everything after is still locked. */
  function GetAvailableAreas(level: int): (r: seq<HuntingArea>)
    ensures forall a :: a in r <==> a in Areas && a.unlockLevel <= level
    ensures |r| <= |Areas|
    ensures var n := |r|;
      && r == Areas[..n]
      && (forall i :: 0 <= i < n ==> Areas[i].unlockLevel <= level)
      && (forall i :: n <= i < |Areas| ==> Areas[i].unlockLevel > level)
  {
    AreasSorted();
    FilterSortedIsPrefix(Areas, level);
    FilterUnlocked(Areas, level)
  }

  /** On a table sorted by unlock level, the unlocked areas are a prefix:
      everything before its end is unlocked and the next area is locked. */
  lemma {:induction false} FilterSortedIsPrefix(areas: seq<HuntingArea>, level: int)
    requires UnlockSorted(areas)
    ensures var n := |FilterUnlocked(areas, level)|;
      && FilterUnlocked(areas, level) == areas[..n]
      && (forall i :: 0 <= i < n ==> areas[i].unlockLevel <= level)
      && (forall i :: n <= i < |areas| ==> areas[i].unlockLevel > level)
  {
    if |areas| > 0 {
      var rest := areas[1..];
      assert UnlockSorted(rest);
      FilterSortedIsPrefix(rest, level);
      if areas[0].unlockLevel <= level {
        var m := |FilterUnlocked(rest, level)|;
        assert [areas[0]] + rest[..m] == areas[..m + 1];
      } else {
      }
    }
  }

  lemma {:induction false} FilterLengthMonotone(areas: seq<HuntingArea>, l1: int, l2: int)
    requires l1 <= l2
    ensures |FilterUnlocked(areas, l1)| <= |FilterUnlocked(areas, l2)|
  {
    if |areas| > 0 {
      FilterLengthMonotone(areas[1..], l1, l2);
    }
  }

  /** A higher level unlocks everything a lower one does, in the same order, and possibly more after it. */
  lemma AvailableMonotone(l1: int, l2: int)
    requires l1 <= l2
    ensures var a1, a2 := GetAvailableAreas(l1), GetAvailableAreas(l2);
      |a1| <= |a2| && a1 == a2[..|a1|]
  {
    FilterLengthMonotone(Areas, l1, l2);
    var n1, n2 := |GetAvailableAreas(l1)|, |GetAvailableAreas(l2)|;
    assert Areas[..n2][..n1] == Areas[..n1];
  }

  lemma StartingAreaAlwaysAvailable(level: int)
    requires level >= 1
    ensures |GetAvailableAreas(level)| >= 1
    ensures GetAvailableAreas(level)[0].id == "goblin-cave"
  {
    AreasSorted();
  }

  /** The index of the first area still locked at `level`, or `|areas|`. */
  function FirstLockedIndex(areas: seq<HuntingArea>, level: int): (i: nat)
    ensures i <= |areas|
    ensures i < |areas| ==> areas[i].unlockLevel > level
    ensures forall j :: 0 <= j < i ==> areas[j].unlockLevel <= level
  {
    if |areas| == 0 then 0
    else if areas[0].unlockLevel > level then 0
    else 1 + FirstLockedIndex(areas[1..], level)
  }

  function GetNextAreaToUnlock(level: int): (r: Option<HuntingArea>)
    ensures r.Some? ==> r.value in Areas && r.value.unlockLevel > level
    ensures r.None? <==> forall a :: a in Areas ==> a.unlockLevel <= level
  {
    var i := FirstLockedIndex(Areas, level);
    if i < |Areas| then Some(Areas[i]) else None
  }

  /** On a sorted table, the first locked index is the number of unlocked areas. */
  lemma {:induction false} FirstLockedIsFilterLength(areas: seq<HuntingArea>, level: int)
    requires UnlockSorted(areas)
    ensures FirstLockedIndex(areas, level) == |FilterUnlocked(areas, level)|
  {
    if |areas| > 0 {
      var rest := areas[1..];
      assert UnlockSorted(rest);
      FirstLockedIsFilterLength(rest, level);
      if |rest| > 0 {
        assert rest[0].unlockLevel > areas[0].unlockLevel;
      }
    }
  }

  /** The next area is the one right after the unlocked prefix, and it has
      the least unlock level above `level`. */
  lemma NextAreaFollowsAvailable(level: int)
    ensures var n := |GetAvailableAreas(level)|;
      GetNextAreaToUnlock(level) == if n < |Areas| then Some(Areas[n]) else None
    ensures GetNextAreaToUnlock(level).Some? ==>
      forall a :: a in Areas && a.unlockLevel > level ==>
        GetNextAreaToUnlock(level).value.unlockLevel <= a.unlockLevel
  {
    AreasSorted();
    FirstLockedIsFilterLength(Areas, level);
  }

  /** Experience per second an area yields at multiplier 1: reward / (duration in seconds). */
  function BaseExpPerSecond(area: HuntingArea): (r: real)
    requires area.huntDuration > 0
    ensures area.expReward >= 0 ==> r >= 0.0
  {
    area.expReward as real / (area.huntDuration as real / 1000.0)
  }
}
