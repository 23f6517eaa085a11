# Ranking Royale Pro — a Dafny model of the tournament administration core

Ranking Royale Pro is a React front end for running Call of Duty Mobile
battle-royale championships. This project models the logic inside its
components as pure Dafny functions over immutable datatypes. Each React state
update becomes a function from the old state to the new one. The properties the
components rely on are proved about those functions.

| module | component | what it covers |
|---|---|---|
| `ScoringTable` | `CreateTournament.tsx` | scoring rules: add, remove, edit, stable re-sort by position, suggested next position |
| `TournamentForm` | `CreateTournament.tsx` | field updates, automatic teams-per-group ceiling, map rotation editor |
| `UploadReview` | `UploadResults.tsx` | screenshot lifecycle (processing → completed), remove, reprocess, result correction, export |
| `TeamRegistration` | `team-create-modal.tsx` | the create-team form, its ordered validation and the record it builds |
| `TeamDirectory` | `Teams.tsx` | case-insensitive team search, experience tiers, counters, card labels |
| `TournamentDetails` | `tournament-modal.tsx` | status badge, free slots, the action button for each status |
| `TournamentView` | `ViewTournament.tsx` | leaderboard positions and highlights, status label, 50/30/20 prize split |
| `RankingBoard` | `Rankings.tsx` | championship filter, podium, position icons and badges |
| `TeamProfile` | `team-profile-modal.tsx` | rank and win-rate tiers, achievement badges, roster roles |

Three helper modules carry the JavaScript library behaviour the components
use:

- `Sequences` models `filter` (order-preserving), subsequences and `reduce` sums.
- `AsciiText` models `trim`, `toLowerCase`, `toUpperCase`, `startsWith` and `includes` on ASCII text.
- `Optional` models absent values.

Identifiers from `Date.now()`/`Math.random()`, the random progress increments,
the signed-in user and the profile lookup are all passed in as parameters.

The code accepts two rules at the same position: nothing in it enforces unique
positions. `ScoringTable.AddGoesAfterEqualPositions` proves a duplicate is
accepted, and that it lands after the rules already at that position.

A rule position is a JavaScript number. The model's `ScoringTable.Position` holds
an integer or -Infinity, the value `Math.max()` of no positions yields. The sort
compares two -Infinity positions as equal, since their difference is NaN. No other
non-integer value can arise: both position inputs store `parseInt(...) || 1`.
Positions, team counts and group counts are unbounded integers in the model.
A JavaScript number holds integers exactly only up to 2^53 in magnitude, so the
model agrees with the code for positions and counts in that range.

## Model

| member | source | states |
|---|---|---|
| `ScoringTable.SortByPosition` | src/components/admin/CreateTournament.tsx:121 | the result is a rearrangement of the input (same multiset, same length) ordered by non-decreasing position |
| `ScoringTable.SortIsStable` | src/components/admin/CreateTournament.tsx:121 | the sort is stable: rules sharing a position keep their relative order |
| `ScoringTable.SortedUnchanged` | src/components/admin/CreateTournament.tsx:144 | re-sorting a table that is already ordered changes nothing |
| `ScoringTable.MaxPosition` | src/components/admin/CreateTournament.tsx:125 | `Math.max` of the positions: -Infinity for the empty table; otherwise a position some rule holds and no rule exceeds |
| `ScoringTable.Succ` | src/components/admin/CreateTournament.tsx:125 | `+ 1` keeps -Infinity and moves a finite position strictly up |
| `ScoringTable.SuggestedPositionAsWritten` | src/components/admin/CreateTournament.tsx:124-128 | the suggestion as coded, from the table before the add: -Infinity exactly when no rule has a finite position, else above every finite position and one past a held one |
| `ScoringTable.SuggestedPosition` | src/components/admin/CreateTournament.tsx:124-128 | the corrected suggestion, from the table after the add: finite, above every position in it, and one past a position it holds |
| `ScoringTable.PositionInput` | src/components/admin/CreateTournament.tsx:422 | `parseInt(text) \|\| 1`, as both position inputs store it: the parsed position, 1 for NaN and 0; never -Infinity |
| `ScoringTable.AddScoringRule` | src/components/admin/CreateTournament.tsx:110-130 | a blank description changes nothing; otherwise the table gains exactly the new rule and stays ordered, and the draft resets to 2 points, an empty description and one past the largest position held BEFORE the add (-Infinity for an empty table) |
| `ScoringTable.AddScoringRuleCorrected` | src/components/admin/CreateTournament.tsx:110-130 | the corrected add: the same table, and a finite draft position above every rule of the new table |
| `ScoringTable.AddGoesAfterEqualPositions` | src/components/admin/CreateTournament.tsx:110-122 | a rule at an occupied position is accepted and placed after the rules already there |
| `ScoringTable.StaleSuggestionRepeatsPosition` | src/components/admin/CreateTournament.tsx:124-128 | when the draft holds the pre-add suggestion, the draft position after the add is one the table already holds |
| `ScoringTable.InitialDraftHoldsStaleSuggestion` | src/components/admin/CreateTournament.tsx:69-79 | the initial form (rules at 1..5, draft at 6) is in exactly that situation |
| `ScoringTable.InitialFormSuggestions` | src/components/admin/CreateTournament.tsx:124-128 | adding the initial draft leaves 6 in the draft as coded, and 7 when corrected |
| `ScoringTable.EmptyTableSuggestsMinusInfinity` | src/components/admin/CreateTournament.tsx:125 | adding a rule to an empty table leaves -Infinity in the draft |
| `ScoringTable.RemoveScoringRule` | src/components/admin/CreateTournament.tsx:132-137 | exactly the rules with that id disappear, every other rule keeps its count and order, and an ordered table stays ordered |
| `ScoringTable.UpdateScoringRule` | src/components/admin/CreateTournament.tsx:139-146 | same length, ordered; rules with other ids untouched; each rule with the id is an input rule with the edit applied |
| `ScoringTable.UpdatePointsKeepsOrder` | src/components/admin/CreateTournament.tsx:139-146 | changing a rule's points never moves any rule in an ordered table |
| `ScoringTable.TableStaysSorted` | src/components/admin/CreateTournament.tsx:110-146 | adding (as coded or corrected), removing and editing all keep an ordered table ordered |
| `ScoringTable.DefaultsConsistent` | src/components/admin/CreateTournament.tsx:69-79 | the default table is ordered and the default draft position 6 is the corrected suggestion for it |
| `TournamentForm.CeilDiv` | src/components/admin/CreateTournament.tsx:88 | `Math.ceil(a / b)`: the least multiple-count bound for positive `b`, the mirrored bound for negative `b` |
| `TournamentForm.CeilDivLeast` | src/components/admin/CreateTournament.tsx:88 | the ceiling is the smallest group size that seats every team |
| `TournamentForm.HandleInputChange` | src/components/admin/CreateTournament.tsx:81-91 | the changed field alone takes the typed value, apart from teams per group; a team maximum or group count change recomputes teams per group as the ceiling (for either sign of the group count); every other change leaves teams per group as it was |
| `TournamentForm.GroupsStayConsistent` | src/components/admin/CreateTournament.tsx:81-91 | "teams per group = ceil(max teams / groups)" is preserved by every field change |
| `TournamentForm.DefaultFormConsistent` | src/components/admin/CreateTournament.tsx:52-76 | the default form (25 teams, 1 group, 25 per group) satisfies that relation |
| `TournamentForm.GroupCountInput` | src/components/admin/CreateTournament.tsx:250 | the group-count input never passes 0: NaN and 0 become 1 |
| `TournamentForm.MaxTeamsInput` | src/components/admin/CreateTournament.tsx:240 | the team-maximum input passes the parsed number, 0 for NaN |
| `TournamentForm.AddMap` | src/components/admin/CreateTournament.tsx:93-101 | a blank name changes nothing; otherwise the trimmed name is appended and the input cleared |
| `TournamentForm.RemoveMap` | src/components/admin/CreateTournament.tsx:103-108 | the entry at the index is dropped with the rest in order; an index outside the list changes nothing |
| `TournamentForm.AddThenRemoveMap` | src/components/admin/CreateTournament.tsx:93-108 | removing the map just added restores the rotation |
| `UploadReview.DropFilter` | src/components/admin/UploadResults.tsx:104-106 | only files whose MIME type starts with "image/" are kept |
| `UploadReview.DropFilterExact` | src/components/admin/UploadResults.tsx:104-106 | a file is kept exactly when it is an image, as many times as it was dropped, and the kept files keep their order |
| `UploadReview.HandleFiles` | src/components/admin/UploadResults.tsx:118-137 | one image per file appended in order, each processing at progress 0, no results, game number = earlier count + 1 |
| `UploadReview.BatchSharesGameNumber` | src/components/admin/UploadResults.tsx:119-130 | every image of one batch carries the same game number |
| `UploadReview.HandleFilesKeepsWellFormed` | src/components/admin/UploadResults.tsx:118-137 | adding files keeps every image in a consistent status/progress/results state |
| `UploadReview.HandleDropAsWritten` | src/components/admin/UploadResults.tsx:100-109 | as coded, the memoised drop handler numbers every dropped image game 1 |
| `UploadReview.DropRepeatsFirstGameNumber` | src/components/admin/UploadResults.tsx:100-130 | an image dropped onto a list of one is numbered 1, where the file picker numbers it 2 |
| `UploadReview.HandleDrop` | src/components/admin/UploadResults.tsx:100-109 | corrected drop: the image files are appended in order, each with its id and file, processing at progress 0, no results, and the game number the list length plus one — as the file picker adds them |
| `UploadReview.DropAgreesOnlyOnEmptyList` | src/components/admin/UploadResults.tsx:100-109 | the coded and corrected drop agree exactly when the list was empty |
| `UploadReview.OcrTick` | src/components/admin/UploadResults.tsx:68-87 | at accumulated progress ≥ 100 the image completes with progress exactly 100 and the results; below that only its progress moves; other images untouched |
| `UploadReview.OcrTickKeepsWellFormed` | src/components/admin/UploadResults.tsx:68-87 | a tick on a processing image with a non-negative step keeps every image consistent |
| `UploadReview.RemoveImage` | src/components/admin/UploadResults.tsx:139-153 | exactly the images with that id disappear, every other image keeps its count and order; the selection clears exactly when it was that image |
| `UploadReview.RemoveImageKeepsWellFormed` | src/components/admin/UploadResults.tsx:139-148 | removal keeps every remaining image consistent |
| `UploadReview.ReprocessImage` | src/components/admin/UploadResults.tsx:155-163 | only the images with that id go back to processing at 0 with no results; all others unchanged; consistency kept |
| `UploadReview.UpdateResult` | src/components/admin/UploadResults.tsx:165-178 | images keep id, file, status, progress and game number; only results with that id inside images with that id change, and each becomes exactly the old result with the one field set and marked edited; an image without results is untouched |
| `UploadReview.EditedFromDeterminesResult` | src/components/admin/UploadResults.tsx:170-174 | the description of an edited result holds of exactly one result: the old one with the field set and `isEdited` true |
| `UploadReview.UpdateResultKeepsWellFormed` | src/components/admin/UploadResults.tsx:165-178 | correcting a result keeps every image consistent |
| `UploadReview.EditFromInput` | src/components/admin/UploadResults.tsx:474-492 | `parseInt(text) \|\| fallback`: placement never becomes 0 (falls back to 1), kills and points fall back to 0 |
| `UploadReview.StatusLabel` | src/components/admin/UploadResults.tsx:339-341 | each status has its own label |
| `UploadReview.Export` | src/components/admin/UploadResults.tsx:200-206 | the export has as many rows as all result lists together; `ExportSingle` and `ExportConcat` fix which rows and in what order |
| `UploadReview.ExportMembers` | src/components/admin/UploadResults.tsx:200-206 | a row is exported exactly when its result belongs to an image with results and carries that image's game number |
| `UploadReview.ExportSingle` | src/components/admin/UploadResults.tsx:200-206 | one image exports its results in their order, each tagged with its game number, or nothing without results; with `ExportConcat` this fixes every export |
| `UploadReview.ExportConcat` | src/components/admin/UploadResults.tsx:200-206 | exporting two lists of images in turn equals exporting them joined, so image order is kept |
| `UploadReview.VisibleExportsRows` | src/components/admin/UploadResults.tsx:200-228 | an image with a non-empty result list shows the button and gives a non-empty export |
| `UploadReview.VisibleWithEmptyResults` | src/components/admin/UploadResults.tsx:200-228 | the button tests for a result list, so an image with an empty list shows it with nothing to export |
| `UploadReview.NothingToExport` | src/components/admin/UploadResults.tsx:228 | when the export button is hidden (no image has results) the export is empty |
| `UploadReview.UpdateKeepsExportSize` | src/components/admin/UploadResults.tsx:165-206 | correcting a result never changes the number of exported rows |
| `TeamRegistration.SetName` | src/components/ui/team-create-modal.tsx:28-33 | the name field stores what is typed and nothing else changes |
| `TeamRegistration.SetTag` | src/components/ui/team-create-modal.tsx:193 | the tag field holds the typed text upper-cased: same length, same letters ignoring case |
| `TeamRegistration.SetPlayer` | src/components/ui/team-create-modal.tsx:35-40 | only the slot at the index changes; an index outside the slots changes nothing |
| `TeamRegistration.ActivePlayers` | src/components/ui/team-create-modal.tsx:72 | no more players than slots, and none of them blank |
| `TeamRegistration.ActivePlayersExact` | src/components/ui/team-create-modal.tsx:72 | the active players are exactly the non-blank slots, each as often as it was typed, in slot order |
| `TeamRegistration.Submit` | src/components/ui/team-create-modal.tsx:45-104 | each refusal happens exactly when its check is the first to fail (login, name, tag, three players); a missing profile exactly when all pass; a created record holds the trimmed name, the trimmed upper-cased tag, the profile as captain and the active players |
| `TeamRegistration.CreatedRecordNormalised` | src/components/ui/team-create-modal.tsx:99-104 | a created record's name and tag carry no surrounding blanks, the tag is upper case, and the players are the non-blank slots with their multiplicities, in slot order |
| `TeamRegistration.TagCaseOnInputAndSubmit` | src/components/ui/team-create-modal.tsx:101 | upper-casing while typing and again on submit stores the same tag as upper-casing the raw text once |
| `TeamRegistration.ThreePlayersSuffice` | src/components/ui/team-create-modal.tsx:72-80 | a name, a tag and three or more filled slots followed by blank ones create a team with exactly the filled players |
| `TeamRegistration.AfterSubmit` | src/components/ui/team-create-modal.tsx:117-138 | success resets the form and closes the dialog; any failure keeps the form; loading always ends |
| `TeamRegistration.HandleClose` | src/components/ui/team-create-modal.tsx:141-150 | closing is ignored while loading; otherwise the form resets and the dialog closes |
| `TeamRegistration.EmptyFormRefused` | src/components/ui/team-create-modal.tsx:22-26 | the reset form has five slots and a signed-in submit of it is refused for the missing name |
| `TeamDirectory.TierOf` | src/pages/Teams.tsx:209-219 | fewer than 2 tournaments: rookie; 2 to 4: regular; 5 or more: veteran |
| `TeamDirectory.TeamBadgeVariant` | src/pages/Teams.tsx:209-213 | the filled badge from 5 tournaments, the secondary one from 2, the outline one below |
| `TeamDirectory.TeamStatus` | src/pages/Teams.tsx:215-219 | "VETERANO" from 5 tournaments, "ATIVO" from 2, "NOVATO" below |
| `TeamDirectory.BadgeMatchesStatus` | src/pages/Teams.tsx:209-219 | the badge colour and the status text always name the same tier, and tiers only rise with more tournaments |
| `TeamDirectory.Matches` | src/pages/Teams.tsx:39-42 | a team matches when its name, its tag or its captain's username contains the term, both lower-cased |
| `TeamDirectory.Search` | src/pages/Teams.tsx:38-44 | every listed team matches the term on name, tag or captain username |
| `TeamDirectory.SearchExact` | src/pages/Teams.tsx:38-44 | a team is listed exactly when it matches, as often as it appears, in directory order |
| `TeamDirectory.EmptySearchListsAll` | src/pages/Teams.tsx:38-44 | an empty search lists every team |
| `TeamDirectory.SearchIgnoresCase` | src/pages/Teams.tsx:39-42 | upper- or lower-casing the term does not change the result |
| `TeamDirectory.LongerTermNarrows` | src/pages/Teams.tsx:38-44 | a term containing the previous one lists a subsequence of the previous result |
| `TeamDirectory.ActiveCount` | src/pages/Teams.tsx:289 | the "active teams" counter is at most the team count; it equals it exactly when every team has 2 or more tournaments, and is 0 exactly when none has |
| `TeamDirectory.ActiveCountMatchesStatus` | src/pages/Teams.tsx:289 | the "active teams" counter counts exactly the cards not labelled NOVATO |
| `TeamDirectory.PlayerCount` | src/pages/Teams.tsx:300 | a missing player list counts as zero players |
| `TeamDirectory.PlayerTotal` | src/pages/Teams.tsx:300 | the "total players" counter is never negative and is 0 for no teams |
| `TeamDirectory.PlayerTotalBounds` | src/pages/Teams.tsx:300 | the total player counter is never negative and is at least each team's count |
| `TeamDirectory.PlayerTotalAppend` | src/pages/Teams.tsx:300 | one more team adds exactly its players to the total |
| `TeamDirectory.CardTitle` | src/pages/Teams.tsx:330 | `[TAG] name` when the tag is non-empty, the name alone otherwise |
| `TeamDirectory.CaptainLabel` | src/pages/Teams.tsx:335 | the username when it is non-empty, else the full name when that is non-empty, else "Capitão"; never empty |
| `TeamDirectory.EmptyHeading` | src/pages/Teams.tsx:309-319 | a heading appears exactly when nothing is listed: "Nenhum time encontrado" for a non-empty term, "Nenhum time cadastrado" for an empty one |
| `TeamDirectory.NoTeamsHeading` | src/pages/Teams.tsx:309-313 | with no term, the "no teams registered" heading appears exactly when the directory is empty |
| `TournamentDetails.StatusText` | src/components/ui/tournament-modal.tsx:48-56 | "active" → "AO VIVO", "registration" → "INSCRIÇÕES", "upcoming" → "EM BREVE", "finished" → "FINALIZADO", any other status upper-cased |
| `TournamentDetails.StatusTextIsUpper` | src/components/ui/tournament-modal.tsx:48-56 | every badge text is free of lower-case letters |
| `TournamentDetails.StatusVariant` | src/components/ui/tournament-modal.tsx:58-66 | each known status its style; "upcoming" and every unknown status share the secondary style |
| `TournamentDetails.TotalSlots` | src/components/ui/tournament-modal.tsx:95 | no slots exactly when a group holds no team or there are no groups; with both positive, at least one group's worth and at least one slot per group |
| `TournamentDetails.AvailableSlots` | src/components/ui/tournament-modal.tsx:95-96 | free slots plus registered teams equal groups × teams per group |
| `TournamentDetails.SlotsHint` | src/components/ui/tournament-modal.tsx:134-136 | the remaining-slots line shows exactly while registration is open |
| `TournamentDetails.DescriptionText` | src/components/ui/tournament-modal.tsx:113 | the description when it is non-empty, otherwise "Torneio profissional de Call of Duty Mobile" |
| `TournamentDetails.OrganizerLabel` | src/components/ui/tournament-modal.tsx:166 | the full name when it is non-empty, else the username when that is non-empty, else "RankingRoyale"; never empty |
| `TournamentDetails.TotalSlotsPerGroup` | src/components/ui/tournament-modal.tsx:95 | no groups offer no slot and each further group adds one group's worth, so the slots are teams per group times groups |
| `TournamentDetails.ActionFor` | src/components/ui/tournament-modal.tsx:172-208 | one button per known status, none otherwise: "Assistir Ao Vivo" for a live one, a disabled "Em Breve" for an upcoming one, "Ver Resultados" for a finished one; the register button is enabled and says "Inscrever Meu Time" exactly when a slot is free |
| `TournamentDetails.FullChampionshipRefuses` | src/components/ui/tournament-modal.tsx:184-193 | a championship whose teams fill every slot shows a disabled "Torneio Lotado" button |
| `TournamentDetails.RegisterTeam` | src/components/ui/tournament-modal.tsx:68-85 | a visitor is asked to log in and the dialog stays open; a user gets a confirmation naming the championship and the dialog closes |
| `TournamentView.StatusLabel` | src/components/admin/ViewTournament.tsx:296-297 | live → "AO VIVO", upcoming → "EM BREVE", anything else → "FINALIZADO" |
| `TournamentView.PositionIcon` | src/components/admin/ViewTournament.tsx:145-152 | crown, medal, award for positions 1–3, the number itself otherwise |
| `TournamentView.Leaderboard` | src/components/admin/ViewTournament.tsx:303-305 | rows in input order, position = index + 1, highlighted exactly for the first three |
| `TournamentView.HighlightMatchesIcon` | src/components/admin/ViewTournament.tsx:303-320 | a highlighted row always shows a medal icon, an ordinary row its number |
| `TournamentView.HighlightedRows` | src/components/admin/ViewTournament.tsx:303-305 | the highlighted rows are exactly the first min(3, n) rows |
| `TournamentView.PrizeSplit` | src/components/admin/ViewTournament.tsx:478-496 | 50/30/20 shares sum to the pool, are non-increasing and non-negative for a non-negative pool, first = second + third, and second : third = 3 : 2 |
| `TournamentView.PrizeSplitScales` | src/components/admin/ViewTournament.tsx:483-495 | scaling the pool scales every share by the same factor |
| `RankingBoard.FilterRankings` | src/pages/Rankings.tsx:162-166 | "all" keeps the list unchanged; any other selection keeps only that championship's entries |
| `RankingBoard.FilterRankingsExact` | src/pages/Rankings.tsx:164-166 | a specific selection keeps exactly that championship's entries, each as often as listed, in order |
| `RankingBoard.FilterRankingsIdempotent` | src/pages/Rankings.tsx:162-166 | filtering twice by the same selection equals filtering once |
| `RankingBoard.FilterRankingsOneChampionship` | src/pages/Rankings.tsx:141-166 | when every entry already belongs to the selection (as in the page's data) nothing is removed |
| `RankingBoard.PositionIcon` | src/pages/Rankings.tsx:189-196 | crown, medal, award for positions 1–3, a trophy otherwise |
| `RankingBoard.PositionBadge` | src/pages/Rankings.tsx:198-202 | ≤ 3 default, 4–10 secondary, above 10 outline |
| `RankingBoard.RowMarker` | src/pages/Rankings.tsx:340-344 | an icon for positions up to 3, "#n" otherwise |
| `RankingBoard.MarkerMatchesBadge` | src/pages/Rankings.tsx:340-344 | a row shows an icon exactly when its badge is the top-three one |
| `RankingBoard.RenderPage` | src/pages/Rankings.tsx:253-372 | empty state exactly for an empty list; the championship column only for "all"; a podium of the first three exactly when there are three |
| `TeamProfile.RankColor` | src/components/ui/team-profile-modal.tsx:25-29 | ≤ 3 yellow, 4–10 blue, above 10 gray |
| `TeamProfile.RankIconOf` | src/components/ui/team-profile-modal.tsx:31-36 | crown for rank 1, trophy for 2–3, award for 4–10, star above |
| `TeamProfile.IconTiersMatchColor` | src/components/ui/team-profile-modal.tsx:25-36 | the icon tiers split ranks exactly where the colour tiers do |
| `TeamProfile.ColorTiersMatchRankingBadge` | src/components/ui/team-profile-modal.tsx:25-29 | the profile's rank colours and the rankings table's position badges use the same three tiers |
| `TeamProfile.WinRateColor` | src/components/ui/team-profile-modal.tsx:38-42 | ≥ 70 green, 50–70 yellow, below 50 red |
| `TeamProfile.Achievements` | src/components/ui/team-profile-modal.tsx:180-206 | every shown badge's condition holds |
| `TeamProfile.AchievementsExact` | src/components/ui/team-profile-modal.tsx:180-206 | Top 3 iff rank ≤ 3, Alta Performance iff win rate ≥ 70, Veterano iff ≥ 10 matches, Vencedor iff ≥ 5 wins, in layout order |
| `TeamProfile.TopThreeBadgeIsYellow` | src/components/ui/team-profile-modal.tsx:180-185 | the Top 3 badge appears exactly when the rank colour is yellow |
| `TeamProfile.PlayerCount` | src/components/ui/team-profile-modal.tsx:140 | the list length, 0 when the list is missing |
| `TeamProfile.Roster` | src/components/ui/team-profile-modal.tsx:144-168 | one line per player in order; the first is captain, every other one player |
| `TeamProfile.OneCaptain` | src/components/ui/team-profile-modal.tsx:149-159 | a non-empty roster has exactly one captain |

## Left out

- Timers and randomness in `simulateOCR` (`setInterval`, `setTimeout`, `Math.random() * 20`): one timer tick is `UploadReview.OcrTick`, with the accumulated progress and the random step as parameters.
- Generated identifiers (`Date.now()`, `Math.random().toString(36)`): passed in as parameters.
- Browser objects: `File` is reduced to its name and MIME type; `URL.createObjectURL`/`revokeObjectURL` previews, drag-over highlighting, toasts and dialog open/close wiring are not modelled.
- The selected image is modelled by its id only; the stale object snapshot `selectedImage` shows after an edit is not modelled.
- Network and authentication: the Supabase profile lookup is a parameter (`profileId`), the signed-in user a boolean. Insert failures and the loading spinner's timing are not modelled.
- Data fetching (`fetchTeams`, `fetchRankings`, `fetchChampionships`): their mock data and delays are not modelled; only the filtering applied to the result is.
- `FinalRanking.tsx`: every standing and prize there is a literal, with no computation to model.
- Floating point: win rates, fees, pools and progress are `real`. `TournamentView.PrizeSplit`: the shares are exact in the model, but `pool * 0.3` in IEEE doubles need not sum exactly to the pool. Number formatting (`toFixed`, `toLocaleString`) is not modelled.
- `ScoringTable.Succ`: integers are unbounded in the model. JavaScript numbers are exact only for |n| ≤ 2^53, and beyond that `max + 1` rounds (2^53 + 1 evaluates to 2^53), so "strictly above" holds only within that range.
- `TournamentForm.CeilDiv`: integers are unbounded in the model. JavaScript numbers are exact only for |n| ≤ 2^53, and beyond that `a / b` rounds before `Math.ceil` (2^60 / 3 yields 384307168202282304, not 384307168202282326), so the ceiling and `TournamentForm.CeilDivLeast` hold only within that range.
- Unicode: trimming and case mapping are ASCII-only. JavaScript also trims non-breaking and other Unicode spaces and maps non-ASCII letters.
- `maxLength` limits on the inputs (50, 6, 30 characters): enforced by the browser, not by the handlers.
- Date formatting, progress-bar widths, colour class strings (`getStatusColor`, `getTrendIcon`), the live-stream toast and the logging-only registration dialog of the tournament view: presentation only.
- `TournamentView.StatusLabel`: takes the three statuses the component's type allows, so "anything else" is the finished status.

## Findings

| source | as written | input that shows it | evidently intended | confidence | as-written member | corrected member |
|---|---|---|---|---|---|---|
| src/components/admin/CreateTournament.tsx:124-128 | the next suggested position is the maximum of the table before the add, plus one; with no rules `Math.max()` is -Infinity | the initial form: rules at 1..5, draft at 6; adding it suggests 6 again. After deleting every rule the suggestion is -Infinity | one past the largest position of the table after the add | high (not executed) | `ScoringTable.StaleSuggestionRepeatsPosition` | `ScoringTable.AddScoringRuleCorrected` |
| src/components/admin/UploadResults.tsx:100-109 | `handleDrop` is memoised with no dependencies, so it calls the first render's `handleFiles`, whose image list is empty: every dropped image gets game number 1 | one image already uploaded, then one image file dropped: it is numbered game 1, while the file picker would number it 2 | dropped files numbered like picked files, by the current count + 1 | medium (not executed) | `UploadReview.DropRepeatsFirstGameNumber` | `UploadReview.HandleDrop` |
