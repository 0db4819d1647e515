/** The bulk assignment dialog for one hunting area: the selection it opens
    with, the click that toggles a shadow in or out of the selection, the
    experience preview of the selection, and the confirm step that recalls
    the area's shadows and then deploys the selected ones. The dialog reads
    the store through the snapshot it was drawn with. */
module ShadowAssignment {
  import opened GameTypes
  import HuntingAreas
  import opened Sums
  import opened GameStore

  /** The ids listed under `areaId`, or none when the area has no list. */
  function ListedIn(deps: map<string, seq<string>>, areaId: string): (r: seq<string>)
    ensures areaId in deps ==> r == deps[areaId]
    ensures areaId !in deps ==> r == []
  {
    if areaId in deps then deps[areaId] else []
  }

  /** The selection the dialog opens with: the ids listed under its area. */
  function InitialSelection(deps: map<string, seq<string>>, areaId: string): (r: set<string>)
    ensures forall id :: id in r <==> id in ListedIn(deps, areaId)
  {
    set id | id in ListedIn(deps, areaId)
  }

  /** With a consistent index, the dialog opens with exactly the shadows
      deployed in its area selected. */
  lemma InitialSelectionIsDeployedHere(owned: map<string, OwnedShadow>, deps: map<string, seq<string>>, areaId: string)
    requires ShadowsValid(owned, deps) && areaId != ""
    ensures forall id :: id in InitialSelection(deps, areaId) <==>
      id in owned && owned[id].shadow.deployedArea == Some(areaId)
  {
  }

  /** `toggleShadowSelection(id)`: the id changes sides, nothing else does. */
  function ToggleShadowSelection(selected: set<string>, id: string): (r: set<string>)
    ensures id in r <==> id !in selected
    ensures forall other :: other != id ==> (other in r <==> other in selected)
  {
    if id in selected then selected - {id} else selected + {id}
  }

  lemma ToggleTwiceRestores(selected: set<string>, id: string)
    ensures ToggleShadowSelection(ToggleShadowSelection(selected, id), id) == selected
  {
  }

  /** A shadow that works in some other area; the dialog will not select it. */
  predicate IsDeployedElsewhere(s: Shadow, areaId: string)
  {
    s.isDeployed && s.deployedArea != Some(areaId)
  }

  /** A click on the row of owned shadow `id`: a toggle, unless the shadow
      is deployed elsewhere, in which case the selection stays as it is. */
  function ClickShadow(owned: map<string, OwnedShadow>, selected: set<string>, areaId: string, id: string): (r: set<string>)
    requires id in owned
    ensures IsDeployedElsewhere(owned[id].shadow, areaId) ==> r == selected
    ensures !IsDeployedElsewhere(owned[id].shadow, areaId) ==> (id in r <==> id !in selected)
    ensures forall other :: other != id ==> (other in r <==> other in selected)
  {
    if IsDeployedElsewhere(owned[id].shadow, areaId) then selected else ToggleShadowSelection(selected, id)
  }

  /** No owned shadow in the selection works in another area. */
  predicate Selectable(owned: map<string, OwnedShadow>, selected: set<string>, areaId: string)
  {
    forall id :: id in selected && id in owned ==> !IsDeployedElsewhere(owned[id].shadow, areaId)
  }

  /** The selection never picks up a shadow deployed elsewhere: it starts
      without one and no click adds one. */
  lemma SelectionStaysSelectable(owned: map<string, OwnedShadow>, deps: map<string, seq<string>>,
                                 selected: set<string>, areaId: string, id: string)
    requires ShadowsValid(owned, deps) && areaId != ""
    ensures Selectable(owned, InitialSelection(deps, areaId), areaId)
    ensures id in owned && Selectable(owned, selected, areaId) ==>
      Selectable(owned, ClickShadow(owned, selected, areaId, id), areaId)
  {
    InitialSelectionIsDeployedHere(owned, deps, areaId);
  }

  // ---------------------------------------------------------------- preview

  /** What a selected id adds to the preview at base rate `rate`: the rate
      times the shadow's multiplier, or nothing for an id that is not owned. */
  function PreviewTerm(owned: map<string, OwnedShadow>, rate: real, id: string): real
  {
    if id in owned then rate * owned[id].shadow.currentExpMultiplier else 0.0
  }

  function PreviewTerms(owned: map<string, OwnedShadow>, rate: real): string -> real
  {
    id => PreviewTerm(owned, rate, id)
  }

  /** The multiplier of an owned shadow. */
  function MultiplierOf(owned: map<string, OwnedShadow>): string -> real
  {
    id => if id in owned then owned[id].shadow.currentExpMultiplier else 0.0
  }

  /** `calculateExpPreview()`: one term per selected id at the area's base
      rate, in the selection's (unspecified) iteration order. */
  method CalculateExpPreview(owned: map<string, OwnedShadow>, area: HuntingArea, selected: set<string>)
    returns (totalExp: real)
    requires area.huntDuration > 0
    ensures totalExp == SumOver(selected, PreviewTerms(owned, HuntingAreas.BaseExpPerSecond(area)))
  {
    var baseExpPerSecond := HuntingAreas.BaseExpPerSecond(area);
    ghost var f := PreviewTerms(owned, baseExpPerSecond);
    totalExp := 0.0;
    var remaining := selected;
    ghost var done: set<string> := {};
    while remaining != {}
      invariant remaining <= selected && done == selected - remaining
      invariant totalExp == SumOver(done, f)
      decreases |remaining|
    {
      var id :| id in remaining;
      var term := 0.0;
      if id in owned {
        term := baseExpPerSecond * owned[id].shadow.currentExpMultiplier;
      }
      PreviewStep(owned, baseExpPerSecond, done, id);
      totalExp := totalExp + term;
      done := done + {id};
      remaining := remaining - {id};
      assert done == selected - remaining;
    }
    assert done == selected;
  }

  lemma PreviewStep(owned: map<string, OwnedShadow>, rate: real, done: set<string>, id: string)
    requires id !in done
    ensures SumOver(done + {id}, PreviewTerms(owned, rate))
         == SumOver(done, PreviewTerms(owned, rate)) + (if id in owned then rate * owned[id].shadow.currentExpMultiplier else 0.0)
  {
    SumOverAdd(done, PreviewTerms(owned, rate), id);
  }

  /** The preview is the base rate times the summed multipliers of the
      selected shadows that are owned; unowned ids add nothing. */
  lemma PreviewIsRateTimesMultipliers(owned: map<string, OwnedShadow>, rate: real, selected: set<string>)
    ensures SumOver(selected, PreviewTerms(owned, rate)) == rate * SumOver(selected * owned.Keys, MultiplierOf(owned))
  {
    PreviewFactorsOutRate(owned, rate, selected);
    UnownedAddNothing(owned, selected);
  }

  lemma PreviewFactorsOutRate(owned: map<string, OwnedShadow>, rate: real, selected: set<string>)
    ensures SumOver(selected, PreviewTerms(owned, rate)) == rate * SumOver(selected, MultiplierOf(owned))
  {
    var f, m := PreviewTerms(owned, rate), MultiplierOf(owned);
    forall x | x in selected
      ensures f(x) == rate * m(x)
    {
    }
    SumOverScale(selected, f, m, rate);
  }

  lemma UnownedAddNothing(owned: map<string, OwnedShadow>, selected: set<string>)
    ensures SumOver(selected, MultiplierOf(owned)) == SumOver(selected * owned.Keys, MultiplierOf(owned))
  {
    SumOverDropZeros(selected, MultiplierOf(owned), owned.Keys);
  }

  // ---------------------------------------------------------------- confirm

  /** The shadow dictionary after confirming, given the snapshot `owned`:
      each deployed shadow listed under the area is recalled, and each id of
      `deployed` that the snapshot shows as idle is deployed to the area. */
  function Reassigned(owned: map<string, OwnedShadow>, listed: seq<string>, deployed: set<string>, areaId: string)
    : (r: map<string, OwnedShadow>)
    ensures r.Keys == owned.Keys
  {
    map id | id in owned ::
      if id in listed && owned[id].shadow.isDeployed then Recalled(owned[id])
      else if id in deployed && !owned[id].shadow.isDeployed then Deployed(owned[id], areaId)
      else owned[id]
  }

  /** Every area list other than `areaId`'s is as it was. */
  predicate OthersUnchanged(deps0: map<string, seq<string>>, deps: map<string, seq<string>>, areaId: string)
  {
    && deps.Keys - {areaId} == deps0.Keys - {areaId}
    && forall a :: a in deps0 && a != areaId ==> a in deps && deps[a] == deps0[a]
  }

  /** A listed id names an owned shadow deployed in that area, listed once. */
  lemma ListedShadowIsDeployed(owned: map<string, OwnedShadow>, deps: map<string, seq<string>>, areaId: string, i: nat)
    requires ShadowsValid(owned, deps) && areaId != "" && areaId in deps && i < |deps[areaId]|
    ensures var id := deps[areaId][i];
      id in owned && owned[id].shadow.deployedArea == Some(areaId) && owned[id].shadow.isDeployed
    ensures deps[areaId][i] !in deps[areaId][..i]
  {
  }

  /** Recalling a shadow deployed in `areaId` only rewrites that area's list. */
  lemma RecallFromArea(deps0: map<string, seq<string>>, areaId: string, id: string,
                       owned: map<string, OwnedShadow>, deps: map<string, seq<string>>)
    requires ShadowsValid(owned, deps) && OthersUnchanged(deps0, deps, areaId) && areaId != ""
    requires id in owned && owned[id].shadow.isDeployed && owned[id].shadow.deployedArea == Some(areaId)
    ensures var r := RecallShadows(owned, deps, id);
      && ShadowsValid(r.0, r.1) && OthersUnchanged(deps0, r.1, areaId) && r.0 == owned[id := Recalled(owned[id])]
  {
    RecallPreservesValid(owned, deps, id);
  }

  lemma ReassignedRecallOne(owned0: map<string, OwnedShadow>, listed: seq<string>, areaId: string, id: string)
    requires id in owned0 && owned0[id].shadow.isDeployed
    ensures Reassigned(owned0, listed + [id], {}, areaId) == Reassigned(owned0, listed, {}, areaId)[id := Recalled(owned0[id])]
  {
    var a, b := Reassigned(owned0, listed + [id], {}, areaId), Reassigned(owned0, listed, {}, areaId)[id := Recalled(owned0[id])];
    forall k | k in a
      ensures a[k] == b[k]
    {
      assert k in listed + [id] <==> k in listed || k == id;
    }
  }

  /** The recall loop, one id further. */
  lemma RecallStep(owned0: map<string, OwnedShadow>, deps0: map<string, seq<string>>, areaId: string, i: nat,
                   owned: map<string, OwnedShadow>, deps: map<string, seq<string>>)
    requires ShadowsValid(owned0, deps0) && areaId != "" && areaId in deps0 && i < |deps0[areaId]|
    requires ShadowsValid(owned, deps) && OthersUnchanged(deps0, deps, areaId)
    requires owned == Reassigned(owned0, deps0[areaId][..i], {}, areaId)
    ensures var r := RecallShadows(owned, deps, deps0[areaId][i]);
      && ShadowsValid(r.0, r.1) && OthersUnchanged(deps0, r.1, areaId)
      && r.0 == Reassigned(owned0, deps0[areaId][..i + 1], {}, areaId)
  {
    var listed := deps0[areaId];
    var id := listed[i];
    ListedShadowIsDeployed(owned0, deps0, areaId, i);
    assert owned[id] == owned0[id];
    RecallFromArea(deps0, areaId, id, owned, deps);
    assert listed[..i + 1] == listed[..i] + [id];
    ReassignedRecallOne(owned0, listed[..i], areaId, id);
  }

  /** Deploying an idle shadow to `areaId` only rewrites that area's list. */
  lemma DeployToArea(deps0: map<string, seq<string>>, areaId: string, id: string,
                     owned: map<string, OwnedShadow>, deps: map<string, seq<string>>)
    requires ShadowsValid(owned, deps) && OthersUnchanged(deps0, deps, areaId)
    requires id in owned && !owned[id].shadow.isDeployed
    ensures var r := DeployShadows(owned, deps, id, areaId);
      && ShadowsValid(r.0, r.1) && OthersUnchanged(deps0, r.1, areaId) && r.0 == owned[id := Deployed(owned[id], areaId)]
  {
    DeployPreservesValid(owned, deps, id, areaId);
  }

  lemma ReassignedDeployOne(owned0: map<string, OwnedShadow>, listed: seq<string>, done: set<string>, areaId: string, id: string)
    ensures id in owned0 && !owned0[id].shadow.isDeployed ==>
      Reassigned(owned0, listed, done + {id}, areaId) == Reassigned(owned0, listed, done, areaId)[id := Deployed(owned0[id], areaId)]
    ensures !(id in owned0 && !owned0[id].shadow.isDeployed) ==>
      Reassigned(owned0, listed, done + {id}, areaId) == Reassigned(owned0, listed, done, areaId)
  {
    var a, b := Reassigned(owned0, listed, done + {id}, areaId), Reassigned(owned0, listed, done, areaId);
    if id in owned0 && !owned0[id].shadow.isDeployed {
      var c := b[id := Deployed(owned0[id], areaId)];
      forall k | k in a
        ensures a[k] == c[k]
      {
      }
    } else {
      forall k | k in a
        ensures a[k] == b[k]
      {
      }
    }
  }

  /** The deploy loop, one selected id further. */
  lemma DeployStep(owned0: map<string, OwnedShadow>, deps0: map<string, seq<string>>, areaId: string,
                   done: set<string>, id: string, owned: map<string, OwnedShadow>, deps: map<string, seq<string>>)
    requires ShadowsValid(owned0, deps0) && areaId != "" && id !in done
    requires ShadowsValid(owned, deps) && OthersUnchanged(deps0, deps, areaId)
    requires owned == Reassigned(owned0, ListedIn(deps0, areaId), done, areaId)
    ensures id in owned0 && !owned0[id].shadow.isDeployed ==>
      var r := DeployShadows(owned, deps, id, areaId);
      && ShadowsValid(r.0, r.1) && OthersUnchanged(deps0, r.1, areaId)
      && r.0 == Reassigned(owned0, ListedIn(deps0, areaId), done + {id}, areaId)
    ensures !(id in owned0 && !owned0[id].shadow.isDeployed) ==>
      owned == Reassigned(owned0, ListedIn(deps0, areaId), done + {id}, areaId)
  {
    ReassignedDeployOne(owned0, ListedIn(deps0, areaId), done, areaId, id);
    if id in owned0 && !owned0[id].shadow.isDeployed {
      assert owned[id] == owned0[id];
      DeployToArea(deps0, areaId, id, owned, deps);
    }
  }

  /** `handleConfirm()` on the store, for the dialog of a known area drawn
      with the store as it is now. First every id listed under the area is
      recalled; then every selected id that the snapshot shows as idle is
      deployed to the area, in any order. A shadow already working here that
      stays selected was not idle in the snapshot, so it ends recalled. */
  method HandleConfirm(g: Store, areaId: string, selected: set<string>)
    requires g.Valid() && HuntingAreas.FindArea(g.areas, areaId).Some?
    modifies g`ownedShadows, g`shadowDeployments
    ensures g.ownedShadows == Reassigned(old(g.ownedShadows), ListedIn(old(g.shadowDeployments), areaId), selected, areaId)
    ensures ShadowsValid(g.ownedShadows, g.shadowDeployments)
    ensures OthersUnchanged(old(g.shadowDeployments), g.shadowDeployments, areaId)
    ensures forall id :: id in ListedIn(g.shadowDeployments, areaId) <==>
      id in selected && id in old(g.ownedShadows) && !old(g.ownedShadows)[id].shadow.isDeployed
    ensures g.Valid()
  {
    // the snapshot the dialog was drawn with
    var ownedShadows, shadowDeployments := g.ownedShadows, g.shadowDeployments;
    var currentlyDeployedInArea := ListedIn(shadowDeployments, areaId);
    RecallArea(g, areaId);
    var remaining := selected;
    ghost var done: set<string> := {};
    while remaining != {}
      invariant remaining <= selected && done == selected - remaining
      invariant ShadowsValid(g.ownedShadows, g.shadowDeployments)
      invariant OthersUnchanged(shadowDeployments, g.shadowDeployments, areaId)
      invariant g.ownedShadows == Reassigned(ownedShadows, currentlyDeployedInArea, done, areaId)
      decreases |remaining|
    {
      var id :| id in remaining;
      DeployStep(ownedShadows, shadowDeployments, areaId, done, id, g.ownedShadows, g.shadowDeployments);
      if id in ownedShadows && !ownedShadows[id].shadow.isDeployed {
        var _ := g.DeployShadow(id, areaId);
      }
      done := done + {id};
      remaining := remaining - {id};
    }
    assert done == selected;
    ConfirmListsSelectedIdle(ownedShadows, shadowDeployments, areaId, selected, g.ownedShadows, g.shadowDeployments);
  }

  /** After the confirm, the area lists exactly the selected shadows that
      were idle in the snapshot. */
  lemma ConfirmListsSelectedIdle(owned0: map<string, OwnedShadow>, deps0: map<string, seq<string>>, areaId: string,
                                 selected: set<string>, owned: map<string, OwnedShadow>, deps: map<string, seq<string>>)
    requires ShadowsValid(owned0, deps0) && areaId != ""
    requires ShadowsValid(owned, deps)
    requires owned == Reassigned(owned0, ListedIn(deps0, areaId), selected, areaId)
    ensures forall id :: id in ListedIn(deps, areaId) <==>
      id in selected && id in owned0 && !owned0[id].shadow.isDeployed
  {
    forall id
      ensures id in ListedIn(deps, areaId) <==> id in selected && id in owned0 && !owned0[id].shadow.isDeployed
    {
      if id in ListedIn(deps, areaId) {
        assert id in owned && owned[id].shadow.deployedArea == Some(areaId);
        if id in ListedIn(deps0, areaId) {
          assert false;
        }
      }
      if id in selected && id in owned0 && !owned0[id].shadow.isDeployed {
        assert owned0[id].shadow.deployedArea == None;
        assert id !in ListedIn(deps0, areaId);
        assert owned[id].shadow.deployedArea == Some(areaId);
      }
    }
  }

  /** The observable result of confirming with a shadow that already works
      here still selected: it is recalled and not deployed again, so it
      ends idle and the area no longer lists it. */
  lemma ConfirmRecallsKeptSelection(owned: map<string, OwnedShadow>, deps: map<string, seq<string>>, areaId: string,
                                    selected: set<string>, id: string)
    requires ShadowsValid(owned, deps) && areaId != ""
    requires id in ListedIn(deps, areaId) && id in selected
    ensures id in owned && owned[id].shadow.isDeployed
    ensures var r := Reassigned(owned, ListedIn(deps, areaId), selected, areaId);
      !r[id].shadow.isDeployed && r[id].shadow.deployedArea == None
  {
  }

  /** Confirming the dialog as it opened (the selection is the area's own
      list) empties the area: every listed shadow is recalled and none is
      deployed again, because the snapshot still shows each as deployed. */
  lemma ConfirmInitialSelectionEmptiesArea(owned0: map<string, OwnedShadow>, deps0: map<string, seq<string>>, areaId: string,
                                           owned: map<string, OwnedShadow>, deps: map<string, seq<string>>)
    requires ShadowsValid(owned0, deps0) && areaId != ""
    requires ShadowsValid(owned, deps)
    requires owned == Reassigned(owned0, ListedIn(deps0, areaId), InitialSelection(deps0, areaId), areaId)
    ensures forall id :: id !in ListedIn(deps, areaId)
  {
    ConfirmListsSelectedIdle(owned0, deps0, areaId, InitialSelection(deps0, areaId), owned, deps);
    InitialSelectionIsDeployedHere(owned0, deps0, areaId);
  }

  // ------------------------------------------- confirm, reading the live store

  /** The shadow dictionary after a confirm whose deploy step reads the store
      as the recalls left it: each listed deployed shadow is recalled, and
      each selected shadow that is idle after the recalls is deployed to the
      area. */
  function ConfirmedFresh(owned: map<string, OwnedShadow>, listed: seq<string>, selected: set<string>, areaId: string)
    : (r: map<string, OwnedShadow>)
    ensures r.Keys == owned.Keys
  {
    map id | id in owned ::
      if id in selected && (id in listed || !owned[id].shadow.isDeployed) then Deployed(owned[id], areaId)
      else if id in listed && owned[id].shadow.isDeployed then Recalled(owned[id])
      else owned[id]
  }

  /** The corrected confirm is the recall pass followed by a deploy pass
      that tests the recalled dictionary. */
  lemma ConfirmedFreshIsTwoPasses(owned0: map<string, OwnedShadow>, listed: seq<string>, selected: set<string>, areaId: string)
    ensures ConfirmedFresh(owned0, listed, selected, areaId)
         == Reassigned(Reassigned(owned0, listed, {}, areaId), [], selected, areaId)
  {
    var a, b := ConfirmedFresh(owned0, listed, selected, areaId), Reassigned(Reassigned(owned0, listed, {}, areaId), [], selected, areaId);
    forall id | id in a
      ensures a[id] == b[id]
    {
      assert Deployed(Recalled(owned0[id]), areaId) == Deployed(owned0[id], areaId);
    }
  }

  /** Once every listed shadow is recalled, the area lists nothing. */
  lemma RecalledAreaIsEmpty(owned0: map<string, OwnedShadow>, deps0: map<string, seq<string>>, areaId: string,
                            owned1: map<string, OwnedShadow>, deps1: map<string, seq<string>>)
    requires ShadowsValid(owned0, deps0) && areaId != ""
    requires ShadowsValid(owned1, deps1)
    requires owned1 == Reassigned(owned0, ListedIn(deps0, areaId), {}, areaId)
    ensures forall x :: x !in ListedIn(deps1, areaId)
  {
    forall x
      ensures x !in ListedIn(deps1, areaId)
    {
      if x in owned0 && owned0[x].shadow.deployedArea == Some(areaId) {
        assert x in ListedIn(deps0, areaId);
      }
    }
  }

  lemma OthersUnchangedTrans(deps0: map<string, seq<string>>, deps1: map<string, seq<string>>, deps2: map<string, seq<string>>, areaId: string)
    requires OthersUnchanged(deps0, deps1, areaId) && OthersUnchanged(deps1, deps2, areaId)
    ensures OthersUnchanged(deps0, deps2, areaId)
  {
  }

  /** After the corrected confirm, the area lists exactly the selected
      shadows that do not work in another area. */
  lemma ConfirmedFreshLists(owned0: map<string, OwnedShadow>, deps0: map<string, seq<string>>, areaId: string,
                            selected: set<string>, owned: map<string, OwnedShadow>, deps: map<string, seq<string>>)
    requires ShadowsValid(owned0, deps0) && areaId != ""
    requires ShadowsValid(owned, deps)
    requires owned == ConfirmedFresh(owned0, ListedIn(deps0, areaId), selected, areaId)
    ensures forall id :: id in ListedIn(deps, areaId) <==>
      id in selected && id in owned0 && !IsDeployedElsewhere(owned0[id].shadow, areaId)
  {
    forall id
      ensures id in ListedIn(deps, areaId) <==>
        id in selected && id in owned0 && !IsDeployedElsewhere(owned0[id].shadow, areaId)
    {
      if id in owned0 {
        var s := owned0[id].shadow;
        assert s.deployedArea == Some(areaId) <==> id in ListedIn(deps0, areaId);
        assert id in ListedIn(deps, areaId) <==> owned[id].shadow.deployedArea == Some(areaId);
      } else {
        assert id !in owned;
      }
    }
  }

  /** The recall pass of the confirm: every id listed under the area, in
      list order, is recalled. */
  method RecallArea(g: Store, areaId: string)
    requires ShadowsValid(g.ownedShadows, g.shadowDeployments) && areaId != ""
    modifies g`ownedShadows, g`shadowDeployments
    ensures g.ownedShadows == Reassigned(old(g.ownedShadows), ListedIn(old(g.shadowDeployments), areaId), {}, areaId)
    ensures ShadowsValid(g.ownedShadows, g.shadowDeployments)
    ensures OthersUnchanged(old(g.shadowDeployments), g.shadowDeployments, areaId)
    ensures forall x :: x !in ListedIn(g.shadowDeployments, areaId)
  {
    var ownedShadows, shadowDeployments := g.ownedShadows, g.shadowDeployments;
    var currentlyDeployedInArea := ListedIn(shadowDeployments, areaId);
    var i := 0;
    while i < |currentlyDeployedInArea|
      invariant 0 <= i <= |currentlyDeployedInArea|
      invariant ShadowsValid(g.ownedShadows, g.shadowDeployments)
      invariant OthersUnchanged(shadowDeployments, g.shadowDeployments, areaId)
      invariant g.ownedShadows == Reassigned(ownedShadows, currentlyDeployedInArea[..i], {}, areaId)
    {
      RecallNext(g, ownedShadows, shadowDeployments, areaId, i);
      i := i + 1;
    }
    assert currentlyDeployedInArea[..i] == currentlyDeployedInArea;
    RecalledAreaIsEmpty(ownedShadows, shadowDeployments, areaId, g.ownedShadows, g.shadowDeployments);
  }

  /** One pass of the recall loop: recalls the `i`-th shadow the snapshot
      `deps0` listed under the area. */
  method RecallNext(g: Store, owned0: map<string, OwnedShadow>, deps0: map<string, seq<string>>, areaId: string, i: nat)
    requires ShadowsValid(owned0, deps0) && areaId != "" && i < |ListedIn(deps0, areaId)|
    requires ShadowsValid(g.ownedShadows, g.shadowDeployments) && OthersUnchanged(deps0, g.shadowDeployments, areaId)
    requires g.ownedShadows == Reassigned(owned0, ListedIn(deps0, areaId)[..i], {}, areaId)
    modifies g`ownedShadows, g`shadowDeployments
    ensures ShadowsValid(g.ownedShadows, g.shadowDeployments) && OthersUnchanged(deps0, g.shadowDeployments, areaId)
    ensures g.ownedShadows == Reassigned(owned0, ListedIn(deps0, areaId)[..i + 1], {}, areaId)
  {
    RecallStep(owned0, deps0, areaId, i, g.ownedShadows, g.shadowDeployments);
    var _ := g.RecallShadow(deps0[areaId][i]);
  }

  /** The corrected deploy pass, run on a store whose area lists nothing:
      each selected shadow that is idle in the store at that moment is
      deployed to the area. */
  method DeployIdle(g: Store, areaId: string, selected: set<string>)
    requires ShadowsValid(g.ownedShadows, g.shadowDeployments) && areaId != ""
    requires forall x :: x !in ListedIn(g.shadowDeployments, areaId)
    modifies g`ownedShadows, g`shadowDeployments
    ensures g.ownedShadows == Reassigned(old(g.ownedShadows), [], selected, areaId)
    ensures ShadowsValid(g.ownedShadows, g.shadowDeployments)
    ensures OthersUnchanged(old(g.shadowDeployments), g.shadowDeployments, areaId)
  {
    var ownedShadows, shadowDeployments := g.ownedShadows, g.shadowDeployments;
    ghost var listed := ListedIn(shadowDeployments, areaId);
    var remaining := selected;
    ghost var done: set<string> := {};
    ReassignedNothing(ownedShadows, listed, areaId);
    while remaining != {}
      invariant remaining <= selected && done == selected - remaining
      invariant ShadowsValid(g.ownedShadows, g.shadowDeployments)
      invariant OthersUnchanged(shadowDeployments, g.shadowDeployments, areaId)
      invariant g.ownedShadows == Reassigned(ownedShadows, listed, done, areaId)
      decreases |remaining|
    {
      var id :| id in remaining;
      ReassignedPending(ownedShadows, listed, done, areaId, id);
      DeployStep(ownedShadows, shadowDeployments, areaId, done, id, g.ownedShadows, g.shadowDeployments);
      if id in g.ownedShadows && !g.ownedShadows[id].shadow.isDeployed {
        var _ := g.DeployShadow(id, areaId);
      }
      done := done + {id};
      remaining := remaining - {id};
    }
    assert done == selected;
    ReassignedUnlisted(ownedShadows, listed, selected, areaId);
  }

  /** With nothing listed, a reassignment that deploys nothing changes nothing. */
  lemma ReassignedNothing(owned: map<string, OwnedShadow>, listed: seq<string>, areaId: string)
    requires forall x :: x !in listed
    ensures Reassigned(owned, listed, {}, areaId) == owned
  {
    var r := Reassigned(owned, listed, {}, areaId);
    forall id | id in owned
      ensures r[id] == owned[id]
    {
      assert id !in listed;
    }
  }

  /** A shadow neither listed nor dealt with yet is as it was. */
  lemma ReassignedPending(owned: map<string, OwnedShadow>, listed: seq<string>, done: set<string>, areaId: string, id: string)
    requires id !in listed && id !in done
    ensures id in owned ==> Reassigned(owned, listed, done, areaId)[id] == owned[id]
  {
  }

  lemma ReassignedUnlisted(owned: map<string, OwnedShadow>, listed: seq<string>, deployed: set<string>, areaId: string)
    requires forall x :: x !in listed
    ensures Reassigned(owned, listed, deployed, areaId) == Reassigned(owned, [], deployed, areaId)
  {
  }

  /** `handleConfirm()` with the deploy step reading the store after the
      recalls instead of the snapshot: the same recall pass, then every
      selected shadow that is idle at that moment is deployed. */
  method HandleConfirmCorrected(g: Store, areaId: string, selected: set<string>)
    requires g.Valid() && HuntingAreas.FindArea(g.areas, areaId).Some?
    modifies g`ownedShadows, g`shadowDeployments
    ensures g.ownedShadows == ConfirmedFresh(old(g.ownedShadows), ListedIn(old(g.shadowDeployments), areaId), selected, areaId)
    ensures ShadowsValid(g.ownedShadows, g.shadowDeployments)
    ensures OthersUnchanged(old(g.shadowDeployments), g.shadowDeployments, areaId)
    ensures forall id :: id in ListedIn(g.shadowDeployments, areaId) <==>
      id in selected && id in old(g.ownedShadows) && !IsDeployedElsewhere(old(g.ownedShadows)[id].shadow, areaId)
    ensures g.Valid()
  {
    var ownedShadows, shadowDeployments := g.ownedShadows, g.shadowDeployments;
    RecallArea(g, areaId);
    var recalledDeployments := g.shadowDeployments;
    DeployIdle(g, areaId, selected);
    OthersUnchangedTrans(shadowDeployments, recalledDeployments, g.shadowDeployments, areaId);
    ConfirmedFreshIsTwoPasses(ownedShadows, ListedIn(shadowDeployments, areaId), selected, areaId);
    ConfirmedFreshLists(ownedShadows, shadowDeployments, areaId, selected, g.ownedShadows, g.shadowDeployments);
  }

  /** With the corrected confirm, confirming the dialog as it opened leaves
      the area's shadows where they were. */
  lemma ConfirmCorrectedKeepsUntouchedArea(owned0: map<string, OwnedShadow>, deps0: map<string, seq<string>>, areaId: string,
                                           owned: map<string, OwnedShadow>, deps: map<string, seq<string>>)
    requires ShadowsValid(owned0, deps0) && areaId != ""
    requires ShadowsValid(owned, deps)
    requires owned == ConfirmedFresh(owned0, ListedIn(deps0, areaId), InitialSelection(deps0, areaId), areaId)
    ensures forall id :: id in ListedIn(deps, areaId) <==> id in ListedIn(deps0, areaId)
  {
    ConfirmedFreshLists(owned0, deps0, areaId, InitialSelection(deps0, areaId), owned, deps);
    InitialSelectionIsDeployedHere(owned0, deps0, areaId);
  }
}
