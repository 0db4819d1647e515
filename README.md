# Solo-leveling idle game: a Dafny model of the game core

This project models the core of a browser idle game. The player hunts in
areas to earn experience. Experience raises levels, and each level grants
five stat points. Hunts can drop "shadows", collectible allies that the
player deploys to areas. A deployed shadow earns experience for the player
every second and levels up itself.

The model covers:

- the store that holds this state and its actions (`GameStore`, class `Store`);
- the shadow and hunting-area catalogs (`Shadows`, `HuntingAreas`, and `Catalog` for how the two agree);
- the hunting and shadow timers and the progress readouts (`GameLoop`);
- the offline catch-up run when the game loads (`OfflineProgress`);
- the bulk shadow-assignment dialog (`ShadowAssignment`);
- the formatting helpers (`Formatters`);
- the shared record types (`GameTypes`);
- decimal rendering of integers for ids and durations (`Decimal`);
- sums over sets and sequences of reals (`Sums`).

Experience and multipliers are exact reals. The level curve is the exact
integer `floor(100 * 1.5^(level-1))`, computed as `100 * 3^k / 2^k` with
`k = level - 1`. The store's in-place updates are methods of the `Store`
class, each proved against a pure function of the old state. For example:

- `GainExperience` is proved against `ApplyExperience`, whose level-up loop is `SettleLevels`;
- the shadow timer is proved against `ExpPerSecond` and `TickedShadows`;
- the dialog's confirm is proved against `Reassigned`.

Lemmas then state what the game promises about those functions:

- experience is conserved;
- gaining in chunks equals gaining at once;
- the player and shadow invariants are preserved;
- the deployment index stays consistent;
- the offline credit equals the hunts it stands for;
- formatted durations parse back to their seconds.

The clock (`Date.now()`) and the random drop rolls (`Math.random()`) are
parameters: `now` and `roll(i)`. JavaScript truthiness is kept: an empty
area id and a start time of 0 count as absent.

Where the code and its documentation differ, the model follows the code:

- A shadow at its level cap keeps banking experience that it never spends.
- `deployShadow` and `recallShadow` report success even when they do nothing.
- A drop happens when the roll is at or under the chance (`<=`).
- The offline catch-up credits manual hunting only; deployed shadows earn nothing while the game is closed.
- `recallShadow` leaves the index alone for the empty area id, so the index invariant exempts `""`.

## Model

| member | source | states |
|---|---|---|
| GameStore.PlayerExpToNext | src/stores/gameStore.ts:107 | the player's threshold after a level-up is at least 100 and is the same curve the shadows use |
| GameStore.SettleLevels | src/stores/gameStore.ts:103-108 | the level-up loop never lowers the level and ends with the experience below the threshold; the level rises exactly when the experience reached the threshold; a new threshold follows the curve; experience that is not negative stays not negative |
| GameStore.SettleConserves | src/stores/gameStore.ts:103-108 | the thresholds passed plus the experience left equal the cumulative experience before the loop, so no experience is lost or created |
| GameStore.SettleChunk | src/stores/gameStore.ts:103-108 | settling `a` and then adding `b >= 0` and settling again ends where settling `a + b` once ends |
| GameStore.ApplyExperience | src/stores/gameStore.ts:94-122 | a gain never lowers the level and leaves the experience below the threshold; it grants 5 stat points per level gained; it adds exactly the amount to the lifetime total; it leaves name, rank, stats and save time alone |
| GameStore.ApplyExperienceChunk | src/stores/gameStore.ts:94-122 | two gains in a row, the second not negative, equal one gain of their sum |
| GameStore.ApplyExperienceZero | src/stores/gameStore.ts:94-122 | gaining 0 changes nothing for a player below the threshold |
| GameStore.InitialPlayer | src/stores/gameStore.ts:20-30 | the starting player is at level 1 with 0/100 experience, rank E, every stat at 10, no points, and satisfies the player invariant |
| GameStore.ApplyExperiencePreservesValid | src/stores/gameStore.ts:94-122 | a gain that is not negative keeps the player invariant: the threshold follows the curve, points plus stats equal 50 + 5·(level-1), and the lifetime total equals the cumulative experience plus what is held |
| GameStore.ValidPlayerCannotLevelUp | src/stores/gameStore.ts:145-150 | a valid player never holds enough experience for the manual level-up to fire, and gaining 0 is a no-op |
| GameStore.GainFromInitialPlayer | src/stores/gameStore.ts:94-122 | from a fresh player, 250 experience reaches level 3 with 0/225 and 10 stat points |
| GameStore.GainRaisesLevel | src/stores/gameStore.ts:103 | a gain raises the level exactly when the held experience plus the gain reaches the threshold |
| GameStore.AllocateStat | src/stores/gameStore.ts:125-142 | with points available, one point moves into the chosen stat and the other stats are unchanged; with none, the player is unchanged |
| GameStore.AllocateStatPreservesValid | src/stores/gameStore.ts:125-142 | allocating keeps the player invariant and keeps points plus stats constant |
| GameStore.SettleShadowLevels | src/stores/gameStore.ts:299-303 | the shadow loop never passes the level cap; the level rises exactly when the experience covers the threshold below the cap; below the cap the experience ends under the threshold |
| GameStore.ApplyShadowExperience | src/stores/gameStore.ts:288-328 | a shadow's gain never lowers its level, recomputes the multiplier for the new level, and leaves identity, rarity, cap and deployment alone |
| GameStore.ShadowExperiencePreservesWellFormed | src/stores/gameStore.ts:288-328 | a gain keeps a shadow well formed (level within cap, curves agreeing with the level) and never exceeds the cap |
| GameStore.ShadowSettleConserves | src/stores/gameStore.ts:299-303 | the shadow loop conserves cumulative experience, as the player's does |
| GameStore.ShadowAtCapBanksExperience | src/stores/gameStore.ts:299 | at the cap, experience is added to the stored amount and level, threshold and multiplier stay put |
| GameStore.ShadowExperienceConserves | src/stores/gameStore.ts:288-328 | a shadow's lifetime experience grows by exactly the amount gained |
| GameStore.LevelShadow | src/stores/gameStore.ts:294-309 | the level-up loop on local copies ends with the shadow `ApplyShadowExperience` describes |
| GameStore.ExtractionKeySameTime | src/stores/gameStore.ts:200 | two templates extracted in the same millisecond get different keys |
| GameStore.ExtractionKeySameTemplate | src/stores/gameStore.ts:200 | one template extracted at two different times gets two keys |
| GameStore.ExtractionKey | src/stores/gameStore.ts:200 | the key is the template id, a dash, and a decimal numeral that reads back as the extraction time |
| GameStore.Extracted | src/stores/gameStore.ts:197-218 | an extraction adds exactly one entry, under the key `template-time`, holding a fresh instance renamed to that key, and keeps every other entry; an unknown template leaves the collection unchanged |
| GameStore.DroppedTemplates | src/stores/gameStore.ts:182-187 | the drop pass yields at most one template per drop-table line |
| GameStore.DroppedTemplatesMembers | src/stores/gameStore.ts:182-187 | a template drops exactly when some line for it rolled at or under its chance |
| GameStore.CertainDropAlwaysDrops | src/stores/gameStore.ts:183-184 | a line with a 100% chance always drops, since every roll is below 100 |
| GameStore.ExtractDroppedStep | src/stores/gameStore.ts:182-187 | one more line of the drop loop extracts its template when the roll is at or under the chance and changes nothing otherwise |
| GameStore.ExtractAll | src/stores/gameStore.ts:182-187 | extracting a list of templates at one moment keeps every existing key, adds the key of that moment for each known template in the list, fills every new key with an idle shadow named after the key and extracted now, and leaves every key no extraction of that moment could use as it was |
| GameStore.Without | src/stores/gameStore.ts:263-265 | filtering an id out of a list keeps exactly the other ids |
| GameStore.WithoutKeepsNoDup | src/stores/gameStore.ts:263-265 | filtering keeps a list free of duplicates |
| GameStore.DeployShadows | src/stores/gameStore.ts:221-251 | deploying an owned idle shadow marks it deployed in the area and appends it to the area's list (creating the list if missing); otherwise nothing changes |
| GameStore.RecallShadows | src/stores/gameStore.ts:254-285 | recalling an owned deployed shadow marks it idle and filters it out of its area's list when the area id is truthy and listed; otherwise nothing changes |
| GameStore.DeployPreservesValid | src/stores/gameStore.ts:221-251 | deploying keeps the index consistent: listed ids are deployed there, lists have no duplicates, and every deployed shadow is listed under its area |
| GameStore.RecallPreservesValid | src/stores/gameStore.ts:254-285 | recalling keeps the index consistent |
| GameStore.RecallUnlists | src/stores/gameStore.ts:262-266 | after a recall the shadow is idle and no longer listed under its former area |
| GameStore.DeployThenRecall | src/stores/gameStore.ts:221-285 | deploying an idle shadow and then recalling it restores the collection; the index gets back every list it had, and an area that had no list keeps the empty one the deploy created |
| GameStore.GainShadowExpIn | src/stores/gameStore.ts:288-328 | the shadow gain rewrites only the named entry, with the settled shadow; an unknown id leaves the collection unchanged |
| GameStore.GainShadowExpPreservesValid | src/stores/gameStore.ts:288-328 | a shadow gain keeps the collection and index consistent |
| GameStore.ExtractPreservesValid | src/stores/gameStore.ts:197-218 | an extraction keeps the collection and index consistent when its key is free: unused, or holding an idle shadow that no list names |
| GameStore.ExtractAllPreservesValid | src/stores/gameStore.ts:182-187 | extracting a hunt's drops one after another at one moment keeps the collection and index consistent, and keeps every key of that moment free, since each extraction writes an idle shadow |
| GameStore.ShadowRate | src/stores/gameStore.ts:377-384 | a deployed shadow's rate (area reward per second times its multiplier) is not negative |
| GameStore.AddAreaRates | src/stores/gameStore.ts:379-387 | the inner loop adds the rates of the listed ids that are owned and deployed, and nothing for the others |
| GameStore.SumAreaRates | src/stores/gameStore.ts:374-388 | the outer loop over the deployment index returns `ExpPerSecond`, each area added exactly once |
| GameStore.ComputeAreaRate | src/stores/gameStore.ts:372-388 | one area's share is its list's sum when the area is known and 0 otherwise |
| GameStore.ExpPerSecond | src/stores/gameStore.ts:368-391 | the total rate over all areas is not negative for a well-formed collection |
| GameStore.ExpPerSecondEmpty | src/stores/gameStore.ts:368-391 | with no deployments the rate is 0 |
| GameStore.HuntTarget | src/stores/gameStore.ts:171-176 | a hunt target exists exactly when hunting is on and the current area id is truthy and found in the table |
| GameStore.Store.constructor | src/stores/gameStore.ts:32-57 | the initial state: the initial player, no hunt, no shadows, no deployments, both clocks at `now`, and the store invariant |
| GameStore.Store.GainExperience | src/stores/gameStore.ts:94-122 | the player becomes `ApplyExperience(old player, amount)`, and a gain that is not negative keeps the store invariant |
| GameStore.Store.AllocateStatPoint | src/stores/gameStore.ts:125-142 | the player becomes `AllocateStat(old player, stat)`, and the store invariant is kept |
| GameStore.Store.LevelUp | src/stores/gameStore.ts:145-150 | gains 0 when the experience reaches the threshold, does nothing otherwise, and keeps the store invariant |
| GameStore.Store.StartHunting | src/stores/gameStore.ts:153-160 | sets the area, the start time `now` and the hunting flag, whatever the previous hunt, and keeps the store invariant |
| GameStore.Store.StopHunting | src/stores/gameStore.ts:162-169 | clears the area, the start time and the hunting flag, and keeps the store invariant |
| GameStore.Store.ExtractShadow | src/stores/gameStore.ts:197-218 | reports success exactly for a known template; the collection becomes `Extracted(...)`, and the store invariant is kept when the key is free |
| GameStore.Store.CompleteHunt | src/stores/gameStore.ts:171-194 | without a target nothing changes; with one, the player gains the area reward, each dropped template is extracted in table order, and the start time becomes `now`; the store invariant is kept when the keys of that moment are free |
| GameStore.Store.ExtractDrops | src/stores/gameStore.ts:182-187 | the drop loop ends with exactly the dropped templates extracted, in order |
| GameStore.Store.DeployShadow | src/stores/gameStore.ts:221-251 | always reports success; the dictionaries become `DeployShadows(...)`, and the store invariant is kept |
| GameStore.Store.RecallShadow | src/stores/gameStore.ts:254-285 | always reports success; the dictionaries become `RecallShadows(...)`, and the store invariant is kept |
| GameStore.Store.GainShadowExp | src/stores/gameStore.ts:288-328 | the collection becomes `GainShadowExpIn(...)`, and the store invariant is kept |
| GameStore.Store.UpdateLastOnlineTime | src/stores/gameStore.ts:331-336 | the checkpoint becomes `now`, and the store invariant is kept |
| GameStore.Store.CanLevelUp | src/stores/gameStore.ts:347-350 | true exactly when the experience reaches the threshold, and never for a valid store |
| GameStore.Store.ExpPercentage | src/stores/gameStore.ts:352-355 | at most 100, and 100 exactly when the experience reaches the threshold; in [0, 100) for a valid store |
| GameStore.Store.DeployedShadows | src/stores/gameStore.ts:361-366 | exactly the owned shadows whose deployed flag is set |
| GameStore.Store.DeployedShadowsMatchIndex | src/stores/gameStore.ts:361-366 | in a valid store, each deployed shadow is the owned shadow under its own id; an owned shadow is among them exactly when its flag is set; and it is among them with an area exactly when that area's list holds its id |
| GameStore.Store.GetShadowExpPerSecond | src/stores/gameStore.ts:368-391 | the loops return the sum over areas of each known area's list sum |
| Shadows.TemplateKeysAreIds | src/data/shadows.ts:50-220 | every template is stored under its own id |
| Shadows.RarityConfigOf | src/data/shadows.ts:6-37 | every rarity allows 20 to 100 levels and a base multiplier from 0.5 to 5 |
| Shadows.RarerIsStronger | src/data/shadows.ts:6-37 | a rarer shadow has both a higher level cap and a larger base multiplier |
| Shadows.TemplatesFollowRarityConfig | src/data/shadows.ts:6-220 | every template's cap and multiplier come from its rarity, except the monarch shadow's multiplier, which is 1.5 times legendary |
| Shadows.TemplatesWellFormed | src/data/shadows.ts:6-220 | every template has a cap of at least 1 and a positive multiplier |
| Shadows.GetShadowTemplate | src/data/shadows.ts:240-242 | the lookup finds a template exactly for the ids in the table, under its own id |
| Shadows.ShadowExpToNext | src/data/shadows.ts:244-246 | the shadow threshold is at least 100 |
| Shadows.ShadowExpToNextIncreasing | src/data/shadows.ts:244-246 | each level's threshold is above the previous one |
| Shadows.ShadowExpToNextMonotone | src/data/shadows.ts:244-246 | the threshold is strictly increasing in the level |
| Shadows.ShadowExpToNextFirstLevels | src/data/shadows.ts:244-246 | the first three thresholds are 100, 150 and 225 |
| Shadows.ShadowExpMultiplier | src/data/shadows.ts:248-252 | from level 1 on, with a positive base, the multiplier is never below the base |
| Shadows.MultiplierAtLevelOne | src/data/shadows.ts:248-252 | at level 1 the multiplier is the base multiplier |
| Shadows.MultiplierAdditive | src/data/shadows.ts:248-252 | each level adds 10% of the base multiplier |
| Shadows.MultiplierIncreasing | src/data/shadows.ts:248-252 | with a positive base, the multiplier grows strictly with the level |
| Shadows.ShadowTemplatesValid | src/data/shadows.ts:40-221 | the template table is one the store can instantiate from |
| Shadows.InstanceFrom | src/data/shadows.ts:223-238 | an instance exists exactly for a known template: a copy of its identity, cap and base multiplier at level 1, with 0/100 experience, multiplier equal to the base, idle and well formed |
| Shadows.CreateShadowInstance | src/data/shadows.ts:223-238 | on the game's table, an instance exists exactly for the listed ids and is a well-formed level-1 shadow under that id |
| HuntingAreas.AreasSorted | src/data/huntingAreas.ts:3-207 | seven areas, the goblin cave first at unlock level 1, in strictly increasing unlock order |
| HuntingAreas.AreaIdsDistinct | src/data/huntingAreas.ts:3-207 | no two areas share an id |
| HuntingAreas.AreaFieldsValid | src/data/huntingAreas.ts:3-207 | every area has a truthy id, a positive duration, a reward that is not negative, its level equal to its unlock level, drop chances in [0, 100] and no template twice |
| HuntingAreas.FindIndexById | src/data/huntingAreas.ts:210 | the search returns the first index whose id matches, or the length when none does |
| HuntingAreas.FindArea | src/data/huntingAreas.ts:209-211 | an area is found exactly when one has the id, and a found area has that id and usable fields |
| HuntingAreas.GetHuntingAreaById | src/data/huntingAreas.ts:209-211 | the lookup on the game's table finds an area exactly when one has the id |
| HuntingAreas.LookupFindsEveryArea | src/data/huntingAreas.ts:209-211 | every area is found under its own id |
| HuntingAreas.FilterUnlocked | src/data/huntingAreas.ts:214 | the filter keeps exactly the areas whose unlock level is at most the player's |
| HuntingAreas.GetAvailableAreas | src/data/huntingAreas.ts:213-215 | the available areas are exactly the unlocked ones, and they form a prefix of the table: every area before its end is unlocked and every area after it is still locked |
| HuntingAreas.AvailableMonotone | src/data/huntingAreas.ts:213-215 | a higher level unlocks everything a lower one does, in the same order |
| HuntingAreas.StartingAreaAlwaysAvailable | src/data/huntingAreas.ts:213-215 | at level 1 or above the goblin cave is available, listed first |
| HuntingAreas.FirstLockedIndex | src/data/huntingAreas.ts:220 | the search returns the first index still locked at the level |
| HuntingAreas.GetNextAreaToUnlock | src/data/huntingAreas.ts:217-221 | the next area is a locked one, and there is none exactly when every area is unlocked |
| HuntingAreas.NextAreaFollowsAvailable | src/data/huntingAreas.ts:213-221 | the next area to unlock is the one right after the available prefix |
| HuntingAreas.BaseExpPerSecond | src/stores/gameStore.ts:377 | an area's experience per second at multiplier 1 is not negative |
| Catalog.DropsMatchTemplates | src/data/huntingAreas.ts:3-207 | every drop-table line names a template with the same name and rarity whose origin is that area, so catalog drops always extract |
| GameLoop.HuntingStep | src/hooks/useGameLoop.ts:23-40 | one firing is idle exactly when a hunting field is falsy, stops exactly for an unknown area, and completes exactly when the duration has passed in a known area |
| GameLoop.HuntingTick | src/hooks/useGameLoop.ts:23-40 | idle and waiting firings change nothing; an unknown area stops hunting; a completed hunt pays the reward, extracts the drops and restarts the clock at `now` |
| GameLoop.ProgressScale | src/hooks/useGameLoop.ts:114 | the scaled progress is under 100 exactly when the elapsed time is under the duration |
| GameLoop.HuntingProgress | src/hooks/useGameLoop.ts:106-117 | the progress is at most 100; it is 0 when not hunting, and not negative once a hunt in a known area has started |
| GameLoop.RemainingTime | src/hooks/useGameLoop.ts:119-130 | the remaining time is not negative; it is 0 when not hunting, and at most the duration once a hunt in a known area has started |
| GameLoop.ProgressFullIffNoTimeLeft | src/hooks/useGameLoop.ts:106-130 | progress reaches 100 exactly when no time remains, exactly when the hunting timer completes the hunt |
| GameLoop.TickedShadow | src/hooks/useGameLoop.ts:72-81 | a ticked shadow stays well formed with the same id and deployment, and a shadow that earns nothing is unchanged |
| GameLoop.TickedShadows | src/hooks/useGameLoop.ts:61-84 | a full tick keeps the collection consistent with the same keys, and leaves every shadow that earns nothing unchanged |
| GameLoop.TickShadow | src/hooks/useGameLoop.ts:67-82 | one listed deployed shadow pays its rate to the player and a tenth to itself |
| GameLoop.TickAreaList | src/hooks/useGameLoop.ts:67-82 | an area's list pays the player its list sum and ticks exactly its deployed owned ids |
| GameLoop.TickArea | src/hooks/useGameLoop.ts:63-83 | one area pays the player its share, and ticks its earners when the area is known and its list is not empty |
| GameLoop.TickAllAreas | src/hooks/useGameLoop.ts:61-84 | the whole tick pays the player `ExpPerSecond` in total and leaves the collection as `TickedShadows` |
| GameLoop.ShadowTick | src/hooks/useGameLoop.ts:61-84 | one firing of the shadow timer on a valid store: the player gains the store's experience per second, every earning shadow gains a tenth of its share, and the store stays valid |
| GameLoop.ShadowTickKeepsValid | src/hooks/useGameLoop.ts:61-84 | a shadow tick keeps the player invariant and the collection and index consistent |
| GameLoop.TickedShadowsKeepIndex | src/hooks/useGameLoop.ts:61-84 | ticking never moves a shadow, so the index stays consistent |
| OfflineProgress.CalculateOfflineProgress | src/hooks/useOfflineProgress.ts:16-47 | a report exists exactly when the absence is at least a minute, a manual hunt is on in a known area, and one whole hunt fits; it counts the whole hunts that fit (floor of absence over duration) and pays each the area reward |
| OfflineProgress.RepeatedGains | src/hooks/useOfflineProgress.ts:33-34 | `n` gains of `amount` add `n * amount` to the lifetime total |
| OfflineProgress.OneGainEqualsRepeatedGains | src/hooks/useOfflineProgress.ts:51-53 | one gain of `n` rewards settles exactly where `n` separate gains do |
| OfflineProgress.OfflineCreditEqualsCompletedHunts | src/hooks/useOfflineProgress.ts:31-53 | the credited experience is what the completed hunts would have paid one by one, drops aside |
| OfflineProgress.RewardTimesHunts | src/hooks/useOfflineProgress.ts:34 | `n` rewards credited at once are `n` rewards credited one by one |
| OfflineProgress.ApplyOfflineProgress | src/hooks/useOfflineProgress.ts:49-61 | with a report the player gains its experience once; the checkpoint then moves to `now` in every case, and a valid store stays valid |
| OfflineProgress.ApplyOfflineProgressAsWritten | src/hooks/useOfflineProgress.ts:49-61 | as written: the call to the missing `gainGold` throws exactly when there is a report; the player has then gained the experience and the checkpoint keeps its old value; without a report the checkpoint moves to `now` |
| OfflineProgress.StaleCheckpointRecredits | src/hooks/useOfflineProgress.ts:16-47 | from an unmoved checkpoint, any later catch-up credits at least the hunts already credited; this matters only if such a catch-up runs again from the same checkpoint |
| OfflineProgress.RefreshedCheckpointCreditsNothing | src/hooks/useOfflineProgress.ts:22 | from a refreshed checkpoint, nothing is credited for the next minute |
| OfflineProgress.OfflineKeepsPlayerValid | src/hooks/useOfflineProgress.ts:51-53 | the catch-up gain keeps the player invariant |
| ShadowAssignment.InitialSelection | src/components/game/ShadowAssignmentModal.tsx:93-100 | the dialog opens with exactly the ids listed under the area selected, and with nothing selected when the area has no list |
| ShadowAssignment.InitialSelectionIsDeployedHere | src/components/game/ShadowAssignmentModal.tsx:93-100 | with a consistent index, the opening selection is exactly the shadows deployed in the area |
| ShadowAssignment.ToggleShadowSelection | src/components/game/ShadowAssignmentModal.tsx:104-112 | the id changes sides and no other id does |
| ShadowAssignment.ToggleTwiceRestores | src/components/game/ShadowAssignmentModal.tsx:104-112 | toggling twice restores the selection |
| ShadowAssignment.ClickShadow | src/components/game/ShadowAssignmentModal.tsx:262-280 | a click toggles the shadow unless it is deployed in another area, when the selection is unchanged |
| ShadowAssignment.SelectionStaysSelectable | src/components/game/ShadowAssignmentModal.tsx:262-280 | the selection never contains a shadow deployed elsewhere: it opens without one and no click adds one |
| ShadowAssignment.CalculateExpPreview | src/components/game/ShadowAssignmentModal.tsx:114-126 | the loop returns the sum over the selection of the area's base rate times each owned shadow's multiplier |
| ShadowAssignment.PreviewIsRateTimesMultipliers | src/components/game/ShadowAssignmentModal.tsx:114-126 | the preview is the base rate times the sum of the multipliers of the selected owned shadows |
| ShadowAssignment.RecallArea | src/components/game/ShadowAssignmentModal.tsx:129-132 | the recall pass recalls each listed shadow, touches no other area, keeps the index consistent, and leaves the area listing nothing |
| ShadowAssignment.HandleConfirm | src/components/game/ShadowAssignmentModal.tsx:128-143 | confirm recalls the area's shadows, then deploys each selected shadow the dialog's snapshot shows as idle; other areas are untouched, the index stays consistent, the store stays valid, and the area ends listing exactly those shadows |
| ShadowAssignment.ConfirmListsSelectedIdle | src/components/game/ShadowAssignmentModal.tsx:134-140 | after confirm the area lists exactly the selected shadows that were idle in the snapshot |
| ShadowAssignment.ConfirmRecallsKeptSelection | src/components/game/ShadowAssignmentModal.tsx:128-143 | a shadow already in the area that stays selected ends recalled and idle |
| ShadowAssignment.ConfirmInitialSelectionEmptiesArea | src/components/game/ShadowAssignmentModal.tsx:128-143 | confirming the dialog as it opened leaves the area listing nothing |
| ShadowAssignment.DeployIdle | src/components/game/ShadowAssignmentModal.tsx:134-140 | the corrected deploy pass deploys each selected shadow idle in the live store, touches no other area and keeps the index consistent |
| ShadowAssignment.HandleConfirmCorrected | src/components/game/ShadowAssignmentModal.tsx:128-143 | the corrected confirm leaves the area listing exactly the selected shadows not deployed in another area, touches no other area, keeps the index consistent and keeps the store valid |
| ShadowAssignment.ConfirmedFreshLists | src/components/game/ShadowAssignmentModal.tsx:128-143 | after the corrected confirm the area lists exactly the selected owned shadows not deployed elsewhere |
| ShadowAssignment.ConfirmCorrectedKeepsUntouchedArea | src/components/game/ShadowAssignmentModal.tsx:128-143 | with the corrected confirm, confirming the dialog as it opened leaves the area's list membership unchanged |
| Formatters.FormatNumberForm | src/utils/formatters.ts:3-9 | numbers below 1000 print plainly; others get a K, M, B or T suffix whose scale times the mantissa is the number, with the mantissa in [1, 1000) except for T |
| Formatters.SuffixMonotone | src/utils/formatters.ts:3-9 | a larger number never gets a smaller suffix |
| Formatters.FloorSeconds | src/utils/formatters.ts:12 | the whole seconds in `ms`, rounded down |
| Formatters.CeilSeconds | src/utils/formatters.ts:26 | the whole seconds in `ms`, rounded up |
| Formatters.FormatTime | src/utils/formatters.ts:11-23 | the text ends in `s`, shows an `h` group exactly from one hour up, and an `m` group exactly from one minute up |
| Formatters.FormatTimeRoundTrip | src/utils/formatters.ts:11-23 | for `ms >= 0`, reading the `h`/`m`/`s` groups of the output back gives exactly the whole seconds in `ms` |
| Formatters.FormatTimeInjective | src/utils/formatters.ts:11-23 | two durations print the same exactly when they have the same whole seconds |
| Formatters.TwoDigits | src/utils/formatters.ts:30 | two characters that read back as the number |
| Formatters.PadStart2 | src/utils/formatters.ts:30-32 | the text is padded to two characters when shorter, and the original text is kept at its end |
| Formatters.PadNumeralIsTwoDigits | src/utils/formatters.ts:30-32 | padding a numeral under 100 to two places gives its two-digit form |
| Formatters.FormatTimeShort | src/utils/formatters.ts:25-34 | for `ms > -1000`, both branches print minutes, a colon, and the zero-padded seconds of the rounded-up seconds |
| Formatters.FormatTimeShortExamples | src/utils/formatters.ts:25-34 | 0 ms prints `0:00` and 3000 ms prints `0:03` |
| Formatters.GetRankColor | src/utils/formatters.ts:36-47 | the text class is the 400 shade of the rank's hue, gray for any unknown rank |
| Formatters.GetRankGlow | src/utils/formatters.ts:49-60 | the glow class is the translucent 500 shade of the same hue, so text colour and glow never disagree |
| Formatters.NamedRanksHaveDistinctColors | src/utils/formatters.ts:36-47 | the seven named ranks have seven different colors |
| Formatters.Clamp | src/utils/formatters.ts:62-64 | with `lo <= hi` the result is in [lo, hi] and equals the value when already in range; below it is `lo`, above it is `hi`; with `hi < lo` it is `hi` |
| Formatters.ClampIdempotent | src/utils/formatters.ts:62-64 | clamping twice is clamping once |
| Formatters.Lerp | src/utils/formatters.ts:66-68 | `t = 0` gives `a`, `t = 1` gives `b`, and `t` in [0, 1] stays between `a` and `b` |
| Decimal.ParseNatToString | src/utils/formatters.ts:17-21 | a rendered natural number reads back as itself, which the duration round trip and the extraction keys rely on |
| Decimal.NatToStringInjective | src/stores/gameStore.ts:200 | different numbers render differently |

## Left out

- Timers and React plumbing (`setInterval`, `clearInterval`, `useEffect`, refs, the 30-second online checkpoint timer) are left out; each method here is one firing of a timer body, and `UpdateLastOnlineTime` is the checkpoint body.
- `Date.now()` and `Math.random()` are parameters (`now`, `roll`); the model does not say how they are produced.
- Floating point is left out: experience and multipliers are exact reals, and the level curve is the exact integer `100 * 3^k / 2^k`. This matches `Math.floor(100 * Math.pow(1.5, k))` only where the double result is exact or rounds the same way.
- GameStore.ExtractPreservesValid: requires the extraction key to be free (unused, or holding an idle shadow). When two extractions of one template fall in the same millisecond, the source overwrites the entry; overwriting a deployed shadow would leave its id listed under an area, which the model does not cover.
- GameStore.Store.DeployShadow: does not model that the source pushes into the old area array in place, which the previous state shares.
- `Object.entries` and `Set` iteration order is not modelled. The rate and preview sums are over sets, which is exact for the reals used here but not for doubles.
- Formatters.FormatNumberForm: only the suffix and the scaled value are modelled, not the `toString`/`toFixed(1)` text of floating-point numbers.
- Gold and currencies are left out. `goldReward` and `gainGold` are referenced but defined neither in the area table nor in the store; only the effect of the missing `gainGold` on the catch-up is modelled, in `ApplyOfflineProgressAsWritten`.
- `resetGame`, `getTotalShadows` and `getShadowsInArea` (src/stores/gameStore.ts:338-400) are not modelled; they copy or read state without rules of their own.
- Persistence (`persist` and `partialize`, src/stores/gameStore.ts:402-413) is not modelled. It saves neither the checkpoint nor the hunting fields. After a reload the checkpoint is the load time (src/stores/gameStore.ts:48) and hunting is off (src/stores/gameStore.ts:36), so the catch-up then finds no report.
- The equipment, achievement, settings and notification types are not modelled; no core operation uses them.
- `formatExpPerSecond` is imported by the assignment dialog but is not defined in src/utils/formatters.ts, so it is not part of this model.
- The presentation components, styling and hover handlers are not modelled; the dialog's click guard is the one rule taken from them.

## Findings

| source | as written | input that shows it | evidently intended | confidence | as-written member | corrected member |
|---|---|---|---|---|---|---|
| src/components/game/ShadowAssignmentModal.tsx:135-140 | the deploy pass tests `isDeployed` on the `ownedShadows` snapshot taken before the recalls, so shadows recalled just before are skipped | open the dialog for an area with one deployed shadow and confirm without changes: the shadow is recalled and not deployed again, and the area ends empty | a shadow that stays selected stays deployed in the area, so an untouched confirm changes nothing | not executed | ShadowAssignment.ConfirmInitialSelectionEmptiesArea | ShadowAssignment.ConfirmCorrectedKeepsUntouchedArea |
| src/hooks/useOfflineProgress.ts:54 | `gainGold` is called after the experience gain but is not an action of the store, so with a report the call throws and the checkpoint update on line 61 is never reached. As wired this is latent: the hook runs once, on mount (src/App.tsx:81, src/hooks/useOfflineProgress.ts:62), and neither the checkpoint nor the hunting fields are saved (src/stores/gameStore.ts:36, 48, 405-412), so at that point hunting is off and no report arises | a catch-up that does produce a report, say a checkpoint an hour old while hunting in a known area (reachable only if those fields were restored): the experience is credited, the effect throws, and `lastOnlineTime` keeps its old value, so a catch-up from that checkpoint would credit the same hunts again | the checkpoint moves to the current time after every catch-up | not executed | OfflineProgress.ApplyOfflineProgressAsWritten | OfflineProgress.ApplyOfflineProgress |
