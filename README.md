# BanjoBotAssets core, modelled in Dafny

BanjoBotAssets exports Fortnite "Save the World" game data to a JSON
artifact. This project models three parts of it and proves properties of
the model:

- **Item-rating tables** (`ItemRating`, `item_rating.dfy`).
  `EvaluateItemRatingCurve` walks the fixed rarity table (C 2, UC 3, R 4,
  VR 5, SR 5, UR 5 tiers) and the fixed tier-level table. It looks up the
  curve-table row `{prefix}_{rarity}_T{tier:00}`, samples the row's curve at
  every level of the tier's range, and files the ratings under
  `{rarity}_T{tier:00}`. A missing row, or a row without a curve, leaves its
  key out. `skipUR` leaves out the UR rarity. The exporter builds the default
  table from `BaseItemRating` ("Default" rows), and the survivor and
  lead-survivor tables from `SurvivorItemRating` ("Default" rows; "Manager"
  rows with `skipUR`).
  - The loops are imperative methods (`EvaluateItemRatingCurve`,
    `EvaluateRarity`, `EvaluateTier`, `SampleCurve`).
  - They are proved equal to a specification function, `Expected`: the table
    that filing the visited slots one after the other gives.
  - The lemmas say which keys appear, what each entry holds, and what a
    curve table with every looked-up row gives.
  - `Dictionary.Add` throws on a duplicate key. The proof shows the key is
    always fresh when it is added, so the exporter never throws there.
- **Survivor exporter** (`SurvivorNames`, `SurvivorNameFacts`,
  `SurvivorExport`; `survivor_names.dfy` and `survivor_exporter.dfy`).
  - The asset-name regular expression
    `.*/([^/]+)_(C|UC|R|VR|SR|UR)_([a-z]+_)?T(\d+)(?:\..*)?$` becomes a matcher
    that makes the backtracking engine's choices: the last slash first, then
    the longest base. It is proved to find a match exactly when one exists,
    and to return the one the engine prefers (see "## Left out" for
    how `.` and `$` treat line breaks).
  - A well-formed path parses back to its parts.
  - The model also covers the lead-survivor job lookup, with its three
    failures (two thrown explicitly, one from `First()`); the one-step rarity promotion of leads; the display name;
    the personality; and the asset filter.
- **Exported artifact** (`Artifacts`, `exported_assets.dfy`). `ExportedAssets`
  is a class with the artifact's fields. Its `Merge` method is proved to
  produce `Merged(old state, other)`: the other artifact's timestamp, a
  last-write-wins union of each dictionary, and the other artifact's rating
  tables where they are present. `Merge` leaves `other` unchanged, even when
  `other` is the artifact itself. Lemmas show that merging in an artifact
  with the same dictionaries and tables changes only the timestamp, and that
  merging is idempotent and associative.

Shared modules:
- `Text` (`text.dfy`): ASCII case folding, substring and suffix tests,
  the value of a digit string, and zero padding.
- `Rarities` (`rarities.dfy`): the rarity enumeration and its codes.
- `Wrappers` (`wrappers.dfy`): `Option` for C# `null`, and `Result` for a
  thrown exception.

### The tables' constants

- `rarityTiers` gives 2 + 3 + 4 + 5 + 5 + 5 = 24 keys, and 19 with `skipUR`
  (`VisitedCounts`, `CompleteTable`, `CompleteTableWithoutUR`).
- `tierLevels` gives tier 1 levels 1..10, tier 2 levels 10..20, and so on up
  to tier 5 at levels 40..60: 10, 11, 11, 11 and 21 ratings. Adjacent tiers
  share their boundary level (`TierLevelFacts`).

## Model

| member | source | states |
|---|---|---|
| ItemRating.EvaluateItemRatingCurve | BanjoBotAssets/Exporters/ItemRatingExporter.cs:89-133 | the returned table is `Expected(ct, prefix, skipUR)`: each rarity, and each of its tiers up to its maximum, filed in order, with UR skipped under `skipUR` |
| ItemRating.EvaluateRarity | BanjoBotAssets/Exporters/ItemRatingExporter.cs:98-129 | the inner loop files tiers 1 up to the rarity's maximum tier and stops at the first tier above it; it needs none of those keys to be filed yet |
| ItemRating.EvaluateTier | BanjoBotAssets/Exporters/ItemRatingExporter.cs:103-128 | a row missing by exact name, or without a curve, leaves the table as it was; otherwise the tier's key gets its first level and samples; the key must be new, because `Add` throws on a duplicate |
| ItemRating.SampleCurve | BanjoBotAssets/Exporters/ItemRatingExporter.cs:120-125 | the loop yields the curve's value at every level from minLevel to maxLevel inclusive, in ascending order |
| ItemRating.SamplesAt | BanjoBotAssets/Exporters/ItemRatingExporter.cs:120-125 | the i-th sample is the curve at level minLevel + i |
| ItemRating.WalkIsBuild | BanjoBotAssets/Exporters/ItemRatingExporter.cs:98-129 | filing one rarity's tiers in ascending order extends the run of filed slots by exactly those tiers |
| ItemRating.FiledIsBuild | BanjoBotAssets/Exporters/ItemRatingExporter.cs:93-130 | after the first i rarities, the table is the result of filing exactly their visited slots in order |
| ItemRating.SkippedStep | BanjoBotAssets/Exporters/ItemRatingExporter.cs:95-96 | skipping UR under skipUR adds no slots to the run and no entries to the table |
| ItemRating.WalkedStep | BanjoBotAssets/Exporters/ItemRatingExporter.cs:93-130 | walking one more rarity files exactly the slots the builder appends for it |
| ItemRating.FiledNext | BanjoBotAssets/Exporters/ItemRatingExporter.cs:93-99 | each rarity is either skipped, leaving the table as it was, or has its tiers walked on top of the earlier rarities' table |
| ItemRating.RarityStep | BanjoBotAssets/Exporters/ItemRatingExporter.cs:93-98 | row i of the rarity table is the i-th rarity; with skipUR, UR leaves the table as it was; any other rarity starts its walk with none of its keys filed |
| ItemRating.FiledIsExpected | BanjoBotAssets/Exporters/ItemRatingExporter.cs:89-133 | walking every rarity gives the specification table `Expected` |
| ItemRating.StepKeepsFresh | BanjoBotAssets/Exporters/ItemRatingExporter.cs:127-128 | while a rarity's tiers are filed in ascending order, the key of each later tier is still free |
| ItemRating.FiledFresh | BanjoBotAssets/Exporters/ItemRatingExporter.cs:93-128 | when a rarity's walk starts, none of its keys is in the table, so `Add` never meets a duplicate |
| ItemRating.OrderFacts | BanjoBotAssets/Exporters/ItemRatingExporter.cs:93-101 | a slot is visited iff its tier is 1..maxTier, and its rarity is not UR when skipUR |
| ItemRating.OrderDistinct | BanjoBotAssets/Exporters/ItemRatingExporter.cs:93-101 | the loops visit no rarity/tier twice |
| ItemRating.ExpectedKeys | BanjoBotAssets/Exporters/ItemRatingExporter.cs:93-128 | a slot's key is in the table iff the loops visit it and its row has a curve; its entry is that curve sampled over the tier's level range |
| ItemRating.ExpectedKeyOrigin | BanjoBotAssets/Exporters/ItemRatingExporter.cs:127-128 | every key of the table is the key of a visited slot whose row has a curve |
| ItemRating.NoTierAboveMax | BanjoBotAssets/Exporters/ItemRatingExporter.cs:100-101 | no key names a tier above its rarity's maximum |
| ItemRating.SkipURHasNoURKeys | BanjoBotAssets/Exporters/ItemRatingExporter.cs:95-96 | with skipUR, no key starts with "UR_" |
| ItemRating.URKeyPrefix | BanjoBotAssets/Exporters/ItemRatingExporter.cs:127 | only a UR slot's key starts with "UR_" |
| ItemRating.EntryShape | BanjoBotAssets/Exporters/ItemRatingExporter.cs:120-128 | each entry starts at the lowest level of some tier, holds one rating per level of that tier's range, and its i-th rating is row "{prefix}_{key}" at level firstLevel + i |
| ItemRating.AbsentRowOmitsOnlyItsKey | BanjoBotAssets/Exporters/ItemRatingExporter.cs:104-118 | a missing row, or a row without a curve, removes exactly its own key and changes nothing else |
| ItemRating.AdjacentTiersShareLevel | BanjoBotAssets/Exporters/ItemRatingExporter.cs:80-87 | the last level sampled for tier t is the first level sampled for tier t + 1 |
| ItemRating.TierLevelFacts | BanjoBotAssets/Exporters/ItemRatingExporter.cs:80-87 | the tiers start at levels 1, 10, 20, 30, 40; they hold 10, 11, 11, 11, 21 levels; adjacent ranges share their boundary |
| ItemRating.MaxTiers | BanjoBotAssets/Exporters/ItemRatingExporter.cs:71-79 | the maximum tiers of C, UC, R, VR, SR, UR are 2, 3, 4, 5, 5, 5 |
| ItemRating.MaxTierBound | BanjoBotAssets/Exporters/ItemRatingExporter.cs:71-87 | no rarity has more tiers than the tier-level table |
| ItemRating.RarityRow | BanjoBotAssets/Exporters/ItemRatingExporter.cs:71-79 | row i of the rarity table names the i-th rarity in enumeration order, with that rarity's maximum tier, which the tier-level table covers |
| ItemRating.TierRow | BanjoBotAssets/Exporters/ItemRatingExporter.cs:80-87 | row j of the tier-level table is tier j + 1, with a non-empty level range |
| ItemRating.VisitedCounts | BanjoBotAssets/Exporters/ItemRatingExporter.cs:71-101 | the loops visit 24 slots, or 19 with skipUR |
| ItemRating.BuildSize | BanjoBotAssets/Exporters/ItemRatingExporter.cs:127-128 | filing distinct slots whose rows all have curves adds one key per slot |
| ItemRating.ExpectedSize | BanjoBotAssets/Exporters/ItemRatingExporter.cs:93-128 | when every row the builder looks up has a curve, the table has one key per visited slot |
| ItemRating.CompleteTable | BanjoBotAssets/Exporters/ItemRatingExporter.cs:89-133 | when every row the builder looks up has a curve, the keys are exactly T01 up to each rarity's maximum tier, 24 in all |
| ItemRating.CompleteTableWithoutUR | BanjoBotAssets/Exporters/ItemRatingExporter.cs:89-133 | with skipUR, when every row looked up (none of them UR) has a curve, the keys are the same without UR_T01..UR_T05, 19 in all; a lead table with no UR rows qualifies |
| ItemRating.RowNameExamples | BanjoBotAssets/Exporters/ItemRatingExporter.cs:103-127 | row "Default_C_T01" gives key "C_T01"; row "Manager_SR_T03" gives key "SR_T03"; UR tier 5 is "UR_T05" |
| ItemRating.KeyInjective | BanjoBotAssets/Exporters/ItemRatingExporter.cs:127 | distinct rarity/tier pairs get distinct keys |
| ItemRating.RowNameInjective | BanjoBotAssets/Exporters/ItemRatingExporter.cs:103 | for a fixed prefix, distinct rarity/tier pairs get distinct row names |
| ItemRating.KeysAreFolded | BanjoBotAssets/Exporters/ItemRatingExporter.cs:91 | every key is already case-folded, so the case-insensitive dictionary acts as a plain map |
| ItemRating.InterestedInAsset | BanjoBotAssets/Exporters/ItemRatingExporter.cs:7 | a name qualifies iff it has at least 17 characters and its last 17 fold to "ITEMRATING.UASSET" (`EndsWith` under `OrdinalIgnoreCase`) |
| ItemRating.InterestedInAssetFacts | BanjoBotAssets/Exporters/ItemRatingExporter.cs:7 | "ItemRating.uasset" and "ITEMRATING.uasset" qualify after any directory; "BaseItemRating.uexp" does not |
| ItemRating.FindCurve | BanjoBotAssets/Exporters/ItemRatingExporter.cs:104-118 | a curve is found iff a row of exactly that name exists and has a curve, and the curve found is that row's |
| ItemRating.RowName | BanjoBotAssets/Exporters/ItemRatingExporter.cs:103 | the row name is the prefix, "_", and the slot's key |
| ItemRating.KeyShape | BanjoBotAssets/Exporters/ItemRatingExporter.cs:127 | a key is the rarity's code, then "_T", then two digits whose decimal value is the tier |
| ItemRating.Samples | BanjoBotAssets/Exporters/ItemRatingExporter.cs:120-125 | one rating per level from the first level to the last, both included |
| ItemRating.ExportItemRatings | BanjoBotAssets/Exporters/ItemRatingExporter.cs:22-69 | the default table is BaseItemRating's "Default" rows; the survivor table is SurvivorItemRating's "Default" rows; the lead-survivor table is its "Manager" rows with skipUR; a curve table that is not found or not loaded gives no table |
| Rarities.Code | BanjoBotAssets/Exporters/ItemRatingExporter.cs:71-79 | each rarity code is one or two upper-case letters |
| Rarities.CodeInjective | BanjoBotAssets/Exporters/ItemRatingExporter.cs:71-79 | distinct rarities have distinct codes |
| Rarities.Ordinal | BanjoBotAssets/Exporters/Groups/SurvivorExporter.cs:62-63 | a rarity's ordinal is its position in the enumeration order C, UC, R, VR, SR, UR, so `result + 1` is the next rarity |
| Text.Pad2 | BanjoBotAssets/Exporters/ItemRatingExporter.cs:103 | `{tier:00}` gives two decimal digits that denote the tier |
| Text.Pad2Injective | BanjoBotAssets/Exporters/ItemRatingExporter.cs:127 | distinct tiers pad to distinct strings |
| Text.Fold | BanjoBotAssets/Artifacts/ExportedAssets.cs:9 | folding keeps the length and maps each character to its ASCII upper-case form |
| Text.FoldChar | BanjoBotAssets/Artifacts/ExportedAssets.cs:9 | a folded character is never a lower-case ASCII letter; it is the character itself or its upper-case form |
| Text.FoldIdempotent | BanjoBotAssets/Artifacts/ExportedAssets.cs:9 | folding a folded key changes nothing |
| Text.EndsWithIgnoreCase | BanjoBotAssets/Exporters/ItemRatingExporter.cs:7 | a text ends with a suffix, ignoring case, iff the suffix is no longer and each of its characters folds like the matching character at the end of the text |
| Text.DecimalValue | BanjoBotAssets/Exporters/Groups/SurvivorExporter.cs:38 | `int.Parse` of n digits gives a value below 10^n |
| Text.Contains | BanjoBotAssets/Exporters/Groups/SurvivorExporter.cs:17 | `Contains` holds iff the text occurs at some index |
| SurvivorNames.ParseAssetName | BanjoBotAssets/Exporters/Groups/SurvivorExporter.cs:24-39 | a name parses iff the regular expression matches somewhere; the result is the split the engine prefers (last slash, then longest base); the base is group 1 plus group 3 |
| SurvivorNames.PreferredUnique | BanjoBotAssets/Exporters/Groups/SurvivorExporter.cs:24 | the engine's preferred match is unique, so parsing is deterministic |
| SurvivorNames.RarityTokenUnique | BanjoBotAssets/Exporters/Groups/SurvivorExporter.cs:24 | at most one rarity code followed by "_" starts at a position |
| SurvivorNames.MatchRarityFinds | BanjoBotAssets/Exporters/Groups/SurvivorExporter.cs:24 | the rarity alternation finds the code that is present |
| SurvivorNames.MatchRarity | BanjoBotAssets/Exporters/Groups/SurvivorExporter.cs:24 | the rarity alternatives C, UC, R, VR, SR, UR, each followed by "_", tried in order: a code found is followed by "_"; when none is found, no later alternative would be |
| SurvivorNames.LowerRun | BanjoBotAssets/Exporters/Groups/SurvivorExporter.cs:24 | `[a-z]+` consumes the longest run of lower-case letters |
| SurvivorNames.DigitRun | BanjoBotAssets/Exporters/Groups/SurvivorExporter.cs:24 | `\d+` consumes the longest run of digits |
| SurvivorNames.MatchTier | BanjoBotAssets/Exporters/Groups/SurvivorExporter.cs:24 | `T(\d+)(?:\..*)?$` gives one or more digits after "T", followed by nothing or by "." and anything |
| SurvivorNames.MatchQualified | BanjoBotAssets/Exporters/Groups/SurvivorExporter.cs:24 | `([a-z]+_)?T(\d+)(?:\..*)?$` gives a valid qualifier and the digits, followed by nothing or by "." and anything |
| SurvivorNames.MatchHead | BanjoBotAssets/Exporters/Groups/SurvivorExporter.cs:24 | "_", a rarity code and "_" give the rarity whose code it spells |
| SurvivorNames.RunEnd | BanjoBotAssets/Exporters/Groups/SurvivorExporter.cs:24 | `[^/]+` from a position reaches the next '/' or the end of the name |
| SurvivorNames.SearchEnd | BanjoBotAssets/Exporters/Groups/SurvivorExporter.cs:24 | trying group 1's end from the longest down finds a matching split, with no longer one, or shows there is none |
| SurvivorNames.SearchSlash | BanjoBotAssets/Exporters/Groups/SurvivorExporter.cs:24 | trying slashes from the last one back finds a matching split with no later slash that matches, or shows no slash matches |
| SurvivorNames.MatchTail | BanjoBotAssets/Exporters/Groups/SurvivorExporter.cs:24 | a tail found after the base is a rarity code, a qualifier (none, or lower-case letters and "_"), "T" and one or more digits, followed by nothing or by "." and anything |
| SurvivorNames.Groups | BanjoBotAssets/Exporters/Groups/SurvivorExporter.cs:38 | the base name starts with group 1, the text between the slash and the rarity, and the rarity read is the code that follows it |
| SurvivorNames.SearchNoneMeansNoMatch | BanjoBotAssets/Exporters/Groups/SurvivorExporter.cs:24-36 | when the search finds nothing, no slash/base split matches |
| SurvivorNames.SearchSomeIsPreferred | BanjoBotAssets/Exporters/Groups/SurvivorExporter.cs:24-38 | the split the search returns is the one the engine prefers |
| SurvivorNameFacts.ParseAssetPath | BanjoBotAssets/Exporters/Groups/SurvivorExporter.cs:24-38 | a path built as dir/base_RAR_[qual_]T<digits>[.ext] parses to (base + qual, RAR, the digits' value) |
| SurvivorNameFacts.ParsePaddedTier | BanjoBotAssets/Exporters/Groups/SurvivorExporter.cs:19-38 | a name whose tier is spelled with two digits, as in T01, is read back with that tier, its rarity and its base plus qualifier |
| SurvivorNameFacts.ParseAssetNameSound | BanjoBotAssets/Exporters/Groups/SurvivorExporter.cs:24-38 | every parsed name comes from such a path, and its parts are the parse's result |
| SurvivorNameFacts.NoSlashNoMatch | BanjoBotAssets/Exporters/Groups/SurvivorExporter.cs:30-36 | a name without '/' is rejected |
| SurvivorNameFacts.ParsedBaseName | BanjoBotAssets/Exporters/Groups/SurvivorExporter.cs:24-38 | a parsed base name is non-empty and has no '/' |
| SurvivorNameFacts.ExampleWorker | BanjoBotAssets/Exporters/Groups/SurvivorExporter.cs:20-24 | ".../Worker_Leprechaun_VR_T01.uasset" parses to (Worker_Leprechaun, VR, 1) |
| SurvivorNameFacts.ExampleManager | BanjoBotAssets/Exporters/Groups/SurvivorExporter.cs:23-38 | ".../ManagerMartialArtist_SR_samurai_T03.uasset" parses to (ManagerMartialArtistsamurai_, SR, 3) |
| SurvivorExport.GetManagerJob | BanjoBotAssets/Exporters/Groups/SurvivorExporter.cs:66-79 | an empty tag list fails first; a non-manager fails as "not a manager"; a manager's first tag names its job iff it is one of the eight tags; any other tag fails and carries that tag |
| SurvivorExport.SynergyTag | BanjoBotAssets/Exporters/Groups/SurvivorExporter.cs:70-77 | every job's tag is "Homebase.Manager.Is" followed by a non-empty job name |
| SurvivorExport.JobOfTag | BanjoBotAssets/Exporters/Groups/SurvivorExporter.cs:70-77 | a recognised tag is the tag of the job it gives |
| SurvivorExport.JobOfSynergyTag | BanjoBotAssets/Exporters/Groups/SurvivorExporter.cs:70-77 | every job's tag is recognised as that job |
| SurvivorExport.JobOfTagClosed | BanjoBotAssets/Exporters/Groups/SurvivorExporter.cs:70-78 | a tag is recognised iff it is one of the eight job tags |
| SurvivorExport.SynergyTagInjective | BanjoBotAssets/Exporters/Groups/SurvivorExporter.cs:70-77 | distinct jobs have distinct tags |
| SurvivorExport.SoldierIsMarksman | BanjoBotAssets/Exporters/Groups/SurvivorExporter.cs:76 | the soldier tag names the marksman job |
| SurvivorExport.OnlyFirstSynergyTagMatters | BanjoBotAssets/Exporters/Groups/SurvivorExporter.cs:67 | only the first synergy tag is read |
| SurvivorExport.GetRarity | BanjoBotAssets/Exporters/Groups/SurvivorExporter.cs:58-64 | a lead is shown exactly one rarity above its name's rarity; any other survivor keeps it |
| SurvivorExport.LeadRarityShift | BanjoBotAssets/Exporters/Groups/SurvivorExporter.cs:60-63 | a lead named with rarity r below UR is shown as the next rarity |
| SurvivorExport.MythicLeadIsNamedSR | BanjoBotAssets/Exporters/Groups/SurvivorExporter.cs:60-61 | a lead named SR is shown as mythic (UR) |
| SurvivorExport.MakeSurvivorDisplayName | BanjoBotAssets/Exporters/Groups/SurvivorExporter.cs:81-82 | a non-manager gets the default name; a manager gets the lead-name format with its job, or fails as the job lookup does |
| SurvivorExport.LastSegment | BanjoBotAssets/Exporters/Groups/SurvivorExporter.cs:47 | the result is a suffix of the tag, contains no '.', and is the whole tag or follows a '.' |
| SurvivorExport.LastSegmentOf | BanjoBotAssets/Exporters/Groups/SurvivorExporter.cs:47 | `prefix.p` gives back p when p has no '.' |
| SurvivorExport.Personality | BanjoBotAssets/Exporters/Groups/SurvivorExporter.cs:46-48 | present iff there is exactly one personality tag; then it is the part of that tag after its last '.', or the whole tag when it has none |
| SurvivorExport.PersonalityOfOneTag | BanjoBotAssets/Exporters/Groups/SurvivorExporter.cs:46-48 | the single tag `prefix.p` gives personality p |
| SurvivorExport.ExtractCommonFields | BanjoBotAssets/Exporters/Groups/SurvivorExporter.cs:41-50 | fails iff the asset is a manager whose job lookup fails; otherwise the description is kept, the sub-type is the job exactly for managers, the display name is the asset's own text or the made-up name, and the personality is as above |
| SurvivorExport.InterestedInAsset | BanjoBotAssets/Exporters/Groups/SurvivorExporter.cs:16-17 | a name qualifies iff "Workers/Worker" or "Managers/Manager" occurs in it |
| SurvivorExport.InterestedInSurvivorFolders | BanjoBotAssets/Exporters/Groups/SurvivorExporter.cs:16-17 | any path containing "Workers/Worker" or "Managers/Manager" qualifies |
| SurvivorExport.ExportAsset | BanjoBotAssets/Exporters/Groups/SurvivorExporter.cs:52-56 | the item's personality becomes the fields' personality, and export always succeeds |
| Artifacts.KeyOf | BanjoBotAssets/Artifacts/ExportedAssets.cs:9-17 | an ordinal dictionary stores a key as given; a case-insensitive one stores it folded |
| Artifacts.Put | BanjoBotAssets/Artifacts/ExportedAssets.cs:31 | the indexer write adds or replaces the one entry for that key and keeps all others |
| Artifacts.PutKeepsNormalized | BanjoBotAssets/Artifacts/ExportedAssets.cs:9 | writes keep a case-insensitive dictionary's keys folded |
| Artifacts.UnionKeepsNormalized | BanjoBotAssets/Artifacts/ExportedAssets.cs:27-33 | copying one case-folded dictionary into another keeps the keys folded |
| Artifacts.CaseOfKeys | BanjoBotAssets/Artifacts/ExportedAssets.cs:9-15 | "abc" then "ABC" is one entry (the later one) when case is ignored and two entries otherwise |
| Artifacts.PutAll | BanjoBotAssets/Artifacts/ExportedAssets.cs:29-32 | copying every entry of the source gives the union of the two maps, with the source's entries winning |
| Artifacts.Union | BanjoBotAssets/Artifacts/ExportedAssets.cs:27-33 | the keys of both maps, each with the incoming value where the incoming map has one |
| Artifacts.UnionAssociative | BanjoBotAssets/Artifacts/ExportedAssets.cs:27-33 | the order of last-write-wins unions can be regrouped |
| Artifacts.UnionAbsorbs | BanjoBotAssets/Artifacts/ExportedAssets.cs:27-33 | copying the same entries twice is copying them once |
| Artifacts.Override | BanjoBotAssets/Artifacts/ExportedAssets.cs:37-44 | a present table replaces the current one; an absent one leaves it |
| Artifacts.ItemRatingTables.Take | BanjoBotAssets/Artifacts/ExportedAssets.cs:35-45 | each present incoming table replaces its counterpart; the others stay |
| Artifacts.Merged | BanjoBotAssets/Artifacts/ExportedAssets.cs:23-70 | the timestamp is the incoming one; each rating table is overridden only by a present one |
| Artifacts.MergeEmpty | BanjoBotAssets/Artifacts/ExportedAssets.cs:23-70 | merging in an empty artifact changes only the timestamp |
| Artifacts.MergeSameContents | BanjoBotAssets/Artifacts/ExportedAssets.cs:23-70 | merging in an artifact whose dictionaries and tables equal this one's changes only the timestamp, to the incoming one, whatever its value |
| Artifacts.MergeSelf | BanjoBotAssets/Artifacts/ExportedAssets.cs:23-70 | merging an artifact into itself changes nothing |
| Artifacts.MergeTwice | BanjoBotAssets/Artifacts/ExportedAssets.cs:23-70 | merging the same artifact twice is merging it once |
| Artifacts.MergeAssociative | BanjoBotAssets/Artifacts/ExportedAssets.cs:23-70 | merging b, then c, is merging in b with c already merged into it |
| Artifacts.ExportedAssets.constructor | BanjoBotAssets/Artifacts/ExportedAssets.cs:7-17 | a new artifact is stamped with the given time and is empty |
| Artifacts.ExportedAssets.SetNamedItem | BanjoBotAssets/Artifacts/ExportedAssets.cs:9 | a named-item write goes to the folded key and changes no other field |
| Artifacts.ExportedAssets.SetMainQuestLine | BanjoBotAssets/Artifacts/ExportedAssets.cs:15 | a main-quest-line write goes to the exact key and changes no other field |
| Artifacts.ExportedAssets.Merge | BanjoBotAssets/Artifacts/ExportedAssets.cs:23-70 | the new state is `Merged(old state, other)`; case-insensitive keys stay folded; `other` is left unchanged, even when it is this artifact |
| Artifacts.ExportedAssets.OtherUnchanged | BanjoBotAssets/Artifacts/ExportedAssets.cs:23-70 | merging an artifact into itself leaves it as it was |

## Left out

- Asynchronous loading, the asset provider, progress reports, the
  assets-loaded counter and console or logger warnings: these are I/O
  around the logic. A curve table that was not found or not loaded is an
  `Option` parameter of `ExportItemRatings`.
- Curves are opaque functions from a level to a rating of a type parameter.
  Curve interpolation and single-precision floats are not modelled. The
  exporter does no arithmetic on ratings.
- `ExportedAt = DateTime.Now` becomes an integer timestamp passed to the
  constructor.
- JSON serialisation of the artifact is not modelled.
- The localised resource strings (job labels, the lead-name format, the
  default name, error messages) are symbolic labels.
- The generic group exporter base class is not part of this model. Its
  grouping, its `ExtractCommonFieldsAsync` and its `GetRarity` become
  parameters: the inherited fields, and the rarity's ordinal parsed from the
  name.
- ItemRating.EvaluateItemRatingCurve: the tier loop is the helper method
  `EvaluateRarity`, and one tier's body is the helper method `EvaluateTier`.
  The control flow (`continue` and `break`) is the source's.
- ItemRating.EvaluateItemRatingCurve: the result dictionary compares keys
  ignoring case. It is modelled as a plain map, which is equivalent because
  every key is already folded (`KeysAreFolded`).
- SurvivorNames.ParseAssetName: `.` in the regular expression is taken to
  match every character, including a line break. .NET's `.` does not match
  `'\n'`.
- SurvivorNames.ParseAssetName: without the multiline option, .NET's `$`
  also matches just before a final `'\n'`, so "x/A_C_T1\n" parses with tier
  1 in the program. The model accepts only the end of the name, or a `.` and
  any rest, after the tier digits, and so rejects that name.
- SurvivorNames.ParseAssetName: `\d` is taken to be the ASCII digits only.
  .NET also accepts other Unicode decimal digits.
- SurvivorNames.ParseAssetName: `int.Parse` is unbounded here. The tier's
  overflow exception beyond 2^31 - 1 is not modelled.
- Case-insensitive comparison folds only ASCII letters. Non-ASCII case
  folding is not modelled.
- Artifacts.ExportedAssets.Merge: the `null` checks on `other`'s
  collections are not modelled. `other`'s dictionaries are never null,
  because they are get-only and initialised.
- Artifacts.ExportedAssets.Merge: the program copies references, so after
  a merge both artifacts share the same item objects, quest-line arrays and
  rating-table objects, and a later change to one shows in the other. The
  model copies values and does not capture that sharing.
- Artifacts.ExportedAssets: a .NET case-insensitive dictionary keeps the
  casing of the first key it saw. The model keeps the folded key.
- The slot predicate `Contributes` also requires a tier within the tier-level
  table. The exporter never visits a slot outside it, so this condition
  never decides anything.
