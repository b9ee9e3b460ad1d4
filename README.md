# Bundeswiega — a verified model of the scoring core and the game flow

Bundeswiega is a party game played with a kitchen scale. Each round the group agrees
on a target weight. Every player drinks from their glass and puts it on the scale, and
the weights are entered. Each player who lands in a scoring category drinks a Schnaps:

- the player or players furthest from the target;
- a player who hits the target to the gram;
- a player whose weight is one of the "Schnapszahlen" (33, 44, …, 99, 111, …, 444);
- every player who shares a weight with someone else.

Once a weight drops below 75 g, a final round follows. In it each player declares an own
target, and only the furthest and exact-hit categories count. The result screen ranks
the players by their average distance from target plus their Schnaps count.

This project models that core in Dafny:

- `types.dfy` (module `Types`) holds the records: `Player`, `Round` and the screens
  of the flow (`GameState`). A parsed text field is an `Option<int>`.
- `utils.dfy` (module `Utils`) holds the scoring engine.
  - `GetRoundSummary` is a loop over the roster (`ScanRoster`, whose body is
    `TrackTarget` and `TrackWeight`), followed by the furthest and duplicate awards.
    It is proved against `Summarizes`. That predicate defines each category
    independently of the loop, as a set over roster indices: `FurthestIds`,
    `ExactHitIds`, `SpecialHitIds`, `DuplicateIds` and their union `PointsToAward`.
  - `GetTargetRange` computes the band the next shared target must lie in.
  - `Distances` collects a player's per-round distances, which the final ranking averages.
- `app.dfy` (module `App`) holds `class Game`. Its fields are the component's state
  variables, and it has one method per event handler.
  - Each handler requires the screen that shows its button, and preserves the invariant
    `Valid()`. Among other things, `Valid()` says that player ids are distinct, that the
    current round exists, and that the previous round recorded a result for every player.
  - `Valid()` also says that no player has more Schnaepse than rounds already scored:
    a round gives each player at most one Schnaps, whatever categories apply.
  - A handler that would show an alert returns `false` and leaves every field unchanged.

## Model

| member | source | states |
|---|---|---|
| Utils.GetRoundSummary | utils.ts:21-103 | the summary names exactly the furthest players, exact hits, special-number hits (with their weights) and duplicate groups of the round, and the award set is their union (`Summarizes`) |
| Utils.ScanRoster | utils.ts:37-74 | after the pass over the whole roster, each running variable equals its scan function over the roster: maximum distance, furthest list, exact hits, special hits, weight groups, points |
| Utils.TrackTarget | utils.ts:41-56 | a weighed entry with a target raises the maximum and restarts the furthest list, or joins the list on a tie; an exact hit is recorded and earns a point; an entry without a target changes nothing |
| Utils.TrackWeight | utils.ts:59-73 | in a normal round a special number is recorded with its weight and earns a point, and the entry is appended to the group of its weight |
| Utils.AwardFurthest | utils.ts:77 | the award set gains exactly the ids on the furthest list |
| Utils.SummaryFromScan | utils.ts:76-102 | the scan's results, the furthest award and (in normal rounds) the duplicate award together form a correct summary |
| Utils.ScanMeetsCategories | utils.ts:37-64 | the scan's furthest, exact and special lists contain exactly the roster entries of those categories |
| Utils.MaxDistanceIsMaximum | utils.ts:29-50 | the running maximum is never below -1, bounds every measured distance, and is attained whenever it is not -1 |
| Utils.FurthestScanMembers | utils.ts:45-50 | the furthest list holds exactly the ids at the maximum distance, despite the resets to a single id |
| Utils.FurthestByMaximum | utils.ts:45-50 | the ids at the maximum distance are exactly the ids no other measured entry is further from its target than |
| Utils.FurthestExists | utils.ts:45-50 | when any entry is measured, somebody is furthest, so every such round awards at least one Schnaps |
| Utils.ExactScanMembers | utils.ts:53-56 | the exact-hit list holds exactly the ids whose weight equals their target |
| Utils.SpecialScanValues | utils.ts:61-64 | every special hit carries the player's own weight, and that weight is a Schnapszahl |
| Utils.SpecialScanMembers | utils.ts:59-64 | the special hits name exactly the normal-round entries whose weight is a Schnapszahl |
| Utils.ScanPointsSplit | utils.ts:53-64 | the points added during the pass are exactly the exact-hit ids plus the special-hit ids |
| Utils.GroupingIsWeightGroups | utils.ts:66-72 | the weight-to-ids dictionary holds, for every weight, exactly the roster-order ids that weighed it |
| Utils.GroupingMeetsDuplicates | utils.ts:80-93 | the groups of two or more are exactly the shared weights; their members are exactly the duplicate ids; a final round has none |
| Utils.DuplicateIdInGroups | utils.ts:80-93 | an id shares a weight with another entry exactly when some group of two or more lists it |
| Utils.DuplicatesByGroups | utils.ts:66-86 | sharing a weight with another roster entry is the same as sitting in a weight group of size two or more |
| Utils.WeightGroupMembers | utils.ts:66-72 | a weight's group lists exactly the normal-round entries with that weight |
| Utils.WeightGroupPair | utils.ts:66-72 | two entries with the same weight make that weight's group at least two long |
| Utils.WeightGroupPartner | utils.ts:80-85 | every member of a group of two or more has a different roster entry with the same weight |
| Utils.GroupMembersShareWeight | utils.ts:88-93 | every id listed under a duplicate weight weighed exactly that weight |
| Utils.SummaryOfFinalRound | utils.ts:52-86 | a final round has no special hits and no duplicates, and awards exactly the furthest and exact-hit players |
| Utils.ExactHitIsZeroDistance | utils.ts:42-56 | a measured entry hits its target exactly when its distance is zero |
| Utils.ResultlessRoundAwardsNothing | utils.ts:38-39 | entries without a result are skipped, so a round with no results awards nobody |
| Utils.HitPlayersEmpty | utils.ts:62 | the special hits name no player exactly when there are none |
| Utils.Lowest | utils.ts:107 | the minimum is one of the weights and is at most each of them |
| Utils.Highest | utils.ts:108 | the maximum is one of the weights and is at least each of them |
| Utils.GetTargetRange | utils.ts:105-114 | both bounds are non-negative, and an empty weight list gives the band 0–0 |
| Utils.TargetRangeAdmits | utils.ts:110-113 | a target is admitted exactly when it is non-negative, at most 100 g below every weight, and at least 10 g below every weight unless it is 0 |
| Utils.TargetRangeNonEmpty | utils.ts:110-113 | some target is admitted exactly when the heaviest weight is at most 100 g or all weights lie within 90 g of each other |
| Utils.Distances | utils.ts:9-15 | no more distances than rounds |
| Utils.DistancesMembers | utils.ts:9-15 | a distance is collected exactly when some round has both a result and a target for the player at that distance |
| Utils.DistancesEmpty | utils.ts:9-17 | the list is empty (and the average falls back to 0) exactly when no round measures the player |
| Utils.DistancesAppend | utils.ts:9-15 | the distances of a longer history are those of the earlier rounds followed by those of the later ones |
| App.NatToString | App.tsx:60 | a rendered number is never the empty string |
| App.ParseNatToString | App.tsx:60 | reading the decimal numeral of a number gives the number back |
| App.NatToStringInjective | App.tsx:60 | different numbers render differently |
| App.PlayerIdInjective | App.tsx:60 | the ids `p0`, `p1`, … of different positions differ |
| App.InitialPlayers | App.tsx:59-64 | the new roster has the chosen size, ids `p<i>`, names `Spieler <i+1>`, start weight 0, no Schnaps, and no two equal ids |
| App.RecordInputs | App.tsx:113-115 | writing each player's parsed input into the map gives the overlay of the inputs on the old map |
| App.OverlayRecords | App.tsx:113-115 | after the writes a roster id maps to its parsed input; any other key keeps its old value; no key is lost or invented |
| App.OverlayCovers | App.tsx:155-157 | every roster id has its parsed value in the written map |
| App.AwardPoints | App.tsx:118-123 | the roster keeps order, ids, names and start weights; a player gains one Schnaps if awarded and none otherwise |
| App.AwardPointsTotal | App.tsx:118-123 | with distinct ids, the total number of Schnaepse rises by exactly the number of roster players in the award set |
| App.AwardKeepsRoster | App.tsx:118-123 | awarding keeps ids distinct, keeps the round's results and targets covering every player, and raises each count by at most one |
| App.TriggeredByInputs | App.tsx:126-127 | the final round is announced exactly when some entered weight is below 75 g |
| App.PreviousWeights | App.tsx:83-85 | the band is checked against one weight per player |
| App.ScoreRound | App.tsx:112-123 | the scored round carries every player's entered weight, its summary is correct, and each awarded player gains one Schnaps |
| App.FinalRoundMeasuresEveryone | App.tsx:155-157 | in the final round every player is compared against an own declared target, never the shared one |
| App.Game.constructor | App.tsx:7-19 | the game opens on the start screen with two players preselected and nothing entered |
| App.Game.StartGame | App.tsx:50-56 | a new game clears roster, rounds, the final trigger and the last summary, and asks for the player count |
| App.Game.SelectPlayerCount | App.tsx:244-245 | the count is one of 2 to 10 |
| App.Game.HandlePlayerCountConfirm | App.tsx:58-67 | the roster becomes the initial roster for the chosen count, and the names screen opens |
| App.Game.EditName | App.tsx:258-262 | only the edited player's name changes |
| App.Game.HandlePlayerNamesConfirm | App.tsx:69-73 | each player takes the entered name unless it is empty or missing; nothing else changes |
| App.Game.EditStartWeight | App.tsx:278-282 | the edited player's start weight becomes the parsed number, or 0 when the field does not parse |
| App.Game.HandleStartWeightsConfirm | App.tsx:75-79 | every player takes the entered start weight, and the first target is asked for |
| App.Game.EnterNextTarget | App.tsx:325 | the target field holds the parsed input |
| App.Game.HandleTargetWeightConfirm | App.tsx:81-102 | a target is accepted exactly when it parses and lies in the band of the previous weights. It opens a round with that shared target and no results, clears the inputs and moves to gameplay. A rejected target changes nothing |
| App.Game.EnterResult | App.tsx:433 | only that player's result field changes |
| App.Game.HandleNextRound | App.tsx:104-133 | with every result entered: the last round gets the entered weights, the summary of that round is stored, every awarded player drinks one Schnaps, the final trigger is set exactly when a weight is below 75 g, and the summary shows. With a result missing nothing changes |
| App.Game.ProceedFromSummary | App.tsx:191-200 | after the final round the result screen follows; otherwise the final-round announcement if it was triggered, else the next target |
| App.Game.StartLastRound | App.tsx:135-140 | the announcement closes, the trigger and the target inputs are cleared, and the own targets are asked for |
| App.Game.EnterFinalTarget | App.tsx:349 | only that player's target field changes |
| App.Game.HandleFinalTargetsConfirm | App.tsx:142-162 | with every own target entered, a final round opens with shared target 0 and each player's parsed target. With a target missing nothing changes |
| App.Game.HandleFinalResultsConfirm | App.tsx:164-189 | with every result entered, the final round gets the weights, its summary is stored, every awarded player drinks one Schnaps, and the summary shows. With a result missing nothing changes |
| App.Game.BackToStart | App.tsx:527 | the result screen returns to the start screen; roster and rounds stay until a new game starts |

## Left out

- Rendering, styling, dark mode, the "coming soon" dialog and the `beforeunload` guard
  are user interface with no effect on the game state.
- `alert` calls are not modelled as output. Each handler that would alert instead returns
  `false` and leaves the state unchanged.
- `parseInt` on a text field is modelled by its outcome: `Some(n)` for a number, `None`
  for an empty or non-numeric field. Numbers are whole grams, with no floating point.
- The summary is keyed by player id. The source turns ids into display names for
  `exactHits`, `specialHits`, `furthestPlayers` and the duplicate groups. It does this with
  a parallel `weightGroups` dictionary filled in the same loop; names do not affect scoring.
- Utils.GetRoundSummary: `pointsToAward` and `furthest` are sets, and `duplicates` is a
  map from weight to ids. The order of the arrays the source builds from its Set and from
  `Object.entries` is not modelled.
- `calculateAverageDistance` (utils.ts:6-19) is modelled up to the list of distances
  (`Distances`). The sum, the division, the ranking sort and `toFixed` work on floating
  point and are left out.
- Each handler requires the screen that shows its button. Handlers behind an overlay
  (the summary, the final-round announcement) require the overlay to be closed, because
  it covers the whole screen.
- Inputs are modelled as `Option<int>` rather than as the typed text. So the truthiness
  test `currentRoundResults[p.id] && …` and `parseInt` are the same check here.
- The source writes the results into the round object that `rounds` already holds (an
  in-place mutation through a shallow copy). The model replaces the last round with its
  updated value, which has the same effect on the state.
- Some rules are described for the game but are absent from this version of the code:
  eliminating players beyond a tolerance, an automatic target when the band is empty,
  a final-round trigger tied to the vessel size, and one Schnaps per category rather
  than one per round. The model follows the code: the award is a set, so a player gains at
  most one Schnaps per round, and when the band is empty no target can be entered
  (`TargetRangeNonEmpty`).
