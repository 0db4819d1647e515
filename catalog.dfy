/** Consistency of the two catalogs: every drop in an area's table names a
    shadow template with the same name and rarity that records that area as
    where it is extracted from. */
module Catalog {
  import opened GameTypes
  import Shadows
  import HuntingAreas

  /** Every drop names a template of the same name and rarity that records
      this area as its origin, so extracting a catalog drop never fails. */
  predicate DropAgrees(d: ShadowDrop, areaId: string)
  {
    && d.shadowId in Shadows.ShadowTemplates
    && Shadows.ShadowTemplates[d.shadowId].name == d.name
    && Shadows.ShadowTemplates[d.shadowId].rarity == d.rarity
    && Shadows.ShadowTemplates[d.shadowId].extractedFrom == areaId
  }

  predicate DropsAgreeWithTemplates(area: HuntingArea)
  {
    forall j :: 0 <= j < |area.shadowDrops| ==> DropAgrees(area.shadowDrops[j], area.id)
  }

  // One lemma per area keeps each table lookup proof small.
  lemma DropsAgreeGoblinCave() ensures DropsAgreeWithTemplates(HuntingAreas.Areas[0]) {}
  lemma DropsAgreeSpiderDen() ensures DropsAgreeWithTemplates(HuntingAreas.Areas[1]) {}
  lemma DropsAgreeOrcStronghold() ensures DropsAgreeWithTemplates(HuntingAreas.Areas[2]) {}
  lemma DropsAgreeUndeadCrypt() ensures DropsAgreeWithTemplates(HuntingAreas.Areas[3]) {}
  lemma DropsAgreeDragonLair() ensures DropsAgreeWithTemplates(HuntingAreas.Areas[4]) {}
  lemma DropsAgreeShadowRealm() ensures DropsAgreeWithTemplates(HuntingAreas.Areas[5]) {}
  lemma DropsAgreeMonarchDomain() ensures DropsAgreeWithTemplates(HuntingAreas.Areas[6]) {}

  lemma DropsMatchTemplatesAt(i: nat)
    requires i < |HuntingAreas.Areas|
    ensures DropsAgreeWithTemplates(HuntingAreas.Areas[i])
  {
    if i == 0 { DropsAgreeGoblinCave(); }
    else if i == 1 { DropsAgreeSpiderDen(); }
    else if i == 2 { DropsAgreeOrcStronghold(); }
    else if i == 3 { DropsAgreeUndeadCrypt(); }
    else if i == 4 { DropsAgreeDragonLair(); }
    else if i == 5 { DropsAgreeShadowRealm(); }
    else { DropsAgreeMonarchDomain(); }
  }

  lemma DropsMatchTemplates()
    ensures forall i :: 0 <= i < |HuntingAreas.Areas| ==> DropsAgreeWithTemplates(HuntingAreas.Areas[i])
    ensures forall i, d :: 0 <= i < |HuntingAreas.Areas| && d in HuntingAreas.Areas[i].shadowDrops ==>
      Shadows.CreateShadowInstance(d.shadowId).Some?
  {
    forall i | 0 <= i < |HuntingAreas.Areas|
      ensures DropsAgreeWithTemplates(HuntingAreas.Areas[i])
    {
      DropsMatchTemplatesAt(i);
    }
  }
}
