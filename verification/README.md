# Barotrauma medical clinic: pending heals and the heal transaction

This project is a Dafny model of the medical clinic in Barotrauma's campaign
mode (`Barotrauma/BarotraumaShared/SharedSource/GameSession/MedicalClinic.cs`). The clinic keeps a ledger of pending heals. Each ledger entry is
a crew member's stable identifier together with priced affliction records. The
clinic builds those records from a character's live afflictions, inserts,
prunes and clears entries, totals their cost, and heals everything in one
transaction. The transaction checks funds first, then whether the outpost is
in combat, and only then commits.

Modules, one file each:

- `Options` (options.dfy): the optional value that stands for the source's `null`.
- `Sequences` (sequences.dfy): removal of one element by index, which is what `List.Remove` does here.
- `Identifiers` (identifiers.dfy): case-insensitive identifier comparison.
- `Afflictions` (afflictions.dfy): affliction definitions (prefabs), live afflictions and the
  `NetAffliction` record. Covers severity, prefab resolution and the `Prefab` and
  `Affliction` setters, identifier matching and `IsHealable`.
- `AfflictionScan` (scan.dfy): `GetAllAfflictions`, `GetAdjustedPrice` and the heal price.
- `Ledger` (ledger.dfy): `NetCrewMember`, `FindCharacterInfo`, `CharacterEquals`,
  `InsertPendingCrewMember`, `RemovePendingAffliction`, `ClearPendingHeals` and `GetTotalCost`.
- `Clinic` (clinic.dfy): `GetMoney`, `HealAllPending` and the requests that act on the ledger.

The model is functional. The clinic state is a value: the pending heals plus
the campaign's money, which is `None` without a campaign. `HealAllPending`
returns the result, the new state and the log of `ReduceAffliction` calls it
issues. These are inputs to the model:

- the crew roster: stable identifiers, each flagged with whether the character
  has a health component;
- whether the outpost is in combat;
- the table of affliction prefabs;
- the location's heal-cost adjustment.

Three behaviours of the code worth knowing:

- A successful heal reduces each recorded affliction by the prefab's
  `MaxStrength` when the identifier resolves to a prefab, and by the
  recorded `Strength` otherwise (line 224).
- `RemovePendingAffliction` walks a snapshot of the list. At every step the
  current entry is at the front, so `List.Remove` takes exactly that entry.
  Surviving entries therefore keep their relative order
  (`Ledger.RemoveKeepsOrder`). Entries of other members that were already
  empty are dropped too (line 263).
- `InsertPendingCrewMember` removes only the member's *first* entry before
  appending, and it has no guard against an entry without afflictions: such
  an entry is kept (`Clinic.EmptyAddKeepsEmptyEntry`). The ledger invariant
  (one entry per member, none empty) therefore holds for non-empty insertions
  (`Clinic.RequestsKeepWellFormed`).

## Model

| member | source | states |
|---|---|---|
| Identifiers.Fold | Barotrauma/BarotraumaShared/SharedSource/GameSession/MedicalClinic.cs:119 | The comparison key of an identifier has the same length and folds each character's case. |
| Identifiers.IdEqualsCharwise | Barotrauma/BarotraumaShared/SharedSource/GameSession/MedicalClinic.cs:137-145 | Two identifiers match exactly when they have equal length and agree character by character, ignoring case. |
| Afflictions.FindPrefab | Barotrauma/BarotraumaShared/SharedSource/GameSession/MedicalClinic.cs:115-126 | Prefab lookup returns the first table entry whose identifier matches, ignoring case. It returns none exactly when no entry matches. |
| Afflictions.ResolvePrefab | Barotrauma/BarotraumaShared/SharedSource/GameSession/MedicalClinic.cs:111-127 | The `Prefab` getter returns the cached prefab when there is one. Otherwise it returns the first table prefab whose identifier matches the record, ignoring case, or none when no prefab matches. |
| Afflictions.MatchesPrefab | Barotrauma/BarotraumaShared/SharedSource/GameSession/MedicalClinic.cs:137-140 | `AfflictionEquals(AfflictionPrefab)`: the record names the prefab iff the identifiers have equal length and agree character by character up to case. |
| Afflictions.SameAffliction | Barotrauma/BarotraumaShared/SharedSource/GameSession/MedicalClinic.cs:142-145 | `AfflictionEquals(NetAffliction)`: two records name the same affliction iff their identifiers have equal length and agree character by character up to case. |
| Afflictions.SetPrefab | Barotrauma/BarotraumaShared/SharedSource/GameSession/MedicalClinic.cs:128-134 | Setting a prefab zeroes strength and price and sets the identifier to exactly the prefab's identifier, or the empty string for none. Afterwards the getter returns that prefab, or, when none is set, the lookup of the empty identifier. |
| Afflictions.SeverityOf | Barotrauma/BarotraumaShared/SharedSource/GameSession/MedicalClinic.cs:74-97 | With no prefab the severity is Low. Otherwise it is Low iff 10·strength ≤ max, Medium iff max < 10·strength and 2·strength < max, and High iff max ≤ 2·strength. |
| Afflictions.SeverityOfRecord | Barotrauma/BarotraumaShared/SharedSource/GameSession/MedicalClinic.cs:74-78 | A record whose prefab does not resolve is Low. |
| Afflictions.SeverityMonotone | Barotrauma/BarotraumaShared/SharedSource/GameSession/MedicalClinic.cs:80-95 | Severity never decreases as strength grows. |
| Afflictions.SeverityByRatio | Barotrauma/BarotraumaShared/SharedSource/GameSession/MedicalClinic.cs:80-95 | With r = strength / max strength: Low iff r ≤ 0.1, Medium iff 0.1 < r < 0.5, High iff r ≥ 0.5. |
| Afflictions.SeverityAsWritten | Barotrauma/BarotraumaShared/SharedSource/GameSession/MedicalClinic.cs:80-95 | The severity the source computes from the single-precision quotient q: Low iff q ≤ the double 0.1, Medium iff 0.1f < q < 0.5, High iff q lies in (double 0.1, 0.1f] or q ≥ 0.5. |
| Afflictions.SingleTenthIsNearest | Barotrauma/BarotraumaShared/SharedSource/GameSession/MedicalClinic.cs:80 | 0.1f is the single-precision value nearest to one tenth, so the quotient 10f/100f is 0.1f. |
| Afflictions.TenthIsHighAsWritten | Barotrauma/BarotraumaShared/SharedSource/GameSession/MedicalClinic.cs:80-95 | At strength 10 of 100 the intended severity is Low, but the code returns High. |
| Afflictions.Ceil | Barotrauma/BarotraumaShared/SharedSource/GameSession/MedicalClinic.cs:104 | The rounded-up strength is the least whole number at or above the live strength. |
| Afflictions.Truncate | Barotrauma/BarotraumaShared/SharedSource/GameSession/MedicalClinic.cs:297 | Truncation of a non-negative value, as the integer casts at lines 297 and 312 do: the greatest whole number at or below it. |
| Afflictions.SetAffliction | Barotrauma/BarotraumaShared/SharedSource/GameSession/MedicalClinic.cs:99-107 | The `Affliction` setter copies the identifier and rounds the strength up. The price is the truncated base cost plus rounded strength times the multiplier. The cached prefab is kept. |
| Afflictions.ShowThreshold | Barotrauma/BarotraumaShared/SharedSource/GameSession/MedicalClinic.cs:282 | The show threshold is max(0, min(icon, scanner)): never negative, at most both display thresholds unless it is 0, and at least one of them. |
| Afflictions.IsHealable | Barotrauma/BarotraumaShared/SharedSource/GameSession/MedicalClinic.cs:279-283 | An affliction is healable iff it is flagged for the clinic, its strength is positive, and its strength exceeds at least one display threshold. So every healable affliction has positive strength. |
| AfflictionScan.AdjustedPrice | Barotrauma/BarotraumaShared/SharedSource/GameSession/MedicalClinic.cs:317 | Without an outpost the price is `int.MaxValue`. |
| AfflictionScan.HealPrice | Barotrauma/BarotraumaShared/SharedSource/GameSession/MedicalClinic.cs:312 | The heal price is base cost plus multiplier times live strength, truncated. |
| AfflictionScan.FindRecord | Barotrauma/BarotraumaShared/SharedSource/GameSession/MedicalClinic.cs:294 | The index found is the first record matching the prefab, ignoring case. None means no record matches. |
| AfflictionScan.MergeAffliction | Barotrauma/BarotraumaShared/SharedSource/GameSession/MedicalClinic.cs:291-308 | When a record of the same kind exists, it is taken out and moved to the end, keeping its identifier and cached prefab, with strength grown by the truncated live strength and price grown by the adjusted heal price. Otherwise a new record with the prefab's identifier, the rounded-up strength, the adjusted price and no cached prefab is appended. |
| AfflictionScan.MergeKeepsInvariant | Barotrauma/BarotraumaShared/SharedSource/GameSession/MedicalClinic.cs:291-308 | One merge keeps record kinds distinct, adds exactly the affliction's kind and keeps every strength positive. |
| AfflictionScan.MergeAll | Barotrauma/BarotraumaShared/SharedSource/GameSession/MedicalClinic.cs:287-310 | Folding the merge over a list gives distinct kinds. The set of kinds is the earlier kinds plus exactly the healable kinds, every strength is positive, and there is at most one record per input. |
| AfflictionScan.GetAllAfflictions | Barotrauma/BarotraumaShared/SharedSource/GameSession/MedicalClinic.cs:285-313 | The result has exactly the healable kinds of the character, at most one record per identifier ignoring case, positive strengths, and no more records than afflictions. |
| AfflictionScan.NoOutpostPricesUnpayable | Barotrauma/BarotraumaShared/SharedSource/GameSession/MedicalClinic.cs:298-304 | With prices unbounded, every record scanned without an outpost is priced at `int.MaxValue` or more (the source's 16-bit cast lowers this; see Left out). |
| Ledger.FindCharacterInfo | Barotrauma/BarotraumaShared/SharedSource/GameSession/MedicalClinic.cs:161-172 | Finds the first roster member with the entry's identifier. None means no roster member has that identifier. |
| Ledger.CharacterEquals | Barotrauma/BarotraumaShared/SharedSource/GameSession/MedicalClinic.cs:174-177 | Two entries refer to the same crew member iff one's identifier is the other's, i.e. the other holds exactly one entry of that member. |
| Ledger.FirstEntry | Barotrauma/BarotraumaShared/SharedSource/GameSession/MedicalClinic.cs:271 | Finds the index of the member's first ledger entry, or none when the member has no entry. |
| Ledger.InsertPendingCrewMember | Barotrauma/BarotraumaShared/SharedSource/GameSession/MedicalClinic.cs:269-277 | The inserted entry is last. Other members' entries are unchanged and in order. A member with no entry gets one, and one with entries keeps the same count. So at most one entry before means exactly one after. |
| Ledger.InsertKeepsWellFormed | Barotrauma/BarotraumaShared/SharedSource/GameSession/MedicalClinic.cs:269-277 | Inserting a non-empty entry keeps one entry per member and no empty entry. |
| Ledger.InsertIdempotent | Barotrauma/BarotraumaShared/SharedSource/GameSession/MedicalClinic.cs:269-277 | With one entry per member, inserting the same entry twice equals inserting it once. |
| Ledger.InsertCost | Barotrauma/BarotraumaShared/SharedSource/GameSession/MedicalClinic.cs:269-277 | Insertion replaces the cost of the member's first entry, if any, by the cost of the new entry. |
| Ledger.Without | Barotrauma/BarotraumaShared/SharedSource/GameSession/MedicalClinic.cs:252-258 | The kept afflictions are exactly those of another kind. |
| Ledger.WithoutAppend | Barotrauma/BarotraumaShared/SharedSource/GameSession/MedicalClinic.cs:252-258 | Filtering distributes over concatenation, so the kept afflictions keep their order. |
| Ledger.RemovePendingAffliction | Barotrauma/BarotraumaShared/SharedSource/GameSession/MedicalClinic.cs:243-267 | Afterwards no entry is empty and no entry of the member holds the removed kind. No member is added, and one entry per member is preserved. |
| Ledger.RemoveKeepsOrder | Barotrauma/BarotraumaShared/SharedSource/GameSession/MedicalClinic.cs:245-266 | The result is the ledger with every entry pruned in place and the empty entries dropped, so all surviving entries keep their relative order. |
| Ledger.RemoveKeepsOthers | Barotrauma/BarotraumaShared/SharedSource/GameSession/MedicalClinic.cs:245-266 | Other members' entries come out unchanged and in order; only those that were already empty are dropped. |
| Ledger.RemoveMemberEntries | Barotrauma/BarotraumaShared/SharedSource/GameSession/MedicalClinic.cs:250-261 | The member's entries come out pruned of the kind and in order, and those left empty are dropped. |
| Ledger.RemoveLastAffliction | Barotrauma/BarotraumaShared/SharedSource/GameSession/MedicalClinic.cs:260-263 | Removing the member's only affliction kind removes the member's entry. |
| Ledger.RemoveCost | Barotrauma/BarotraumaShared/SharedSource/GameSession/MedicalClinic.cs:243-267 | The total cost falls by exactly the prices of the removed records. |
| Ledger.ClearPendingHeals | Barotrauma/BarotraumaShared/SharedSource/GameSession/MedicalClinic.cs:238-241 | Clearing leaves the ledger empty. |
| Ledger.ClearCostsNothing | Barotrauma/BarotraumaShared/SharedSource/GameSession/MedicalClinic.cs:238-241 | After clearing, the total cost is 0. |
| Ledger.GetTotalCost | Barotrauma/BarotraumaShared/SharedSource/GameSession/MedicalClinic.cs:315 | The left-to-right aggregate of all prices equals the entry-by-entry sum of prices. It is non-negative, and 0 for an empty ledger. |
| Clinic.GetMoney | Barotrauma/BarotraumaShared/SharedSource/GameSession/MedicalClinic.cs:319 | Money is the campaign's money, or 0 without a campaign. |
| Clinic.HealAmount | Barotrauma/BarotraumaShared/SharedSource/GameSession/MedicalClinic.cs:224 | The reduction is the prefab's maximum strength (positive) when the prefab resolves, else the recorded strength. |
| Clinic.HealsForEntry | Barotrauma/BarotraumaShared/SharedSource/GameSession/MedicalClinic.cs:222-225 | Each recorded affliction gets one reduction call, in order, with the member, the identifier and the heal amount. |
| Clinic.Treatable | Barotrauma/BarotraumaShared/SharedSource/GameSession/MedicalClinic.cs:219-220 | An entry's member is treated iff the first roster member with its identifier exists and has a health component. |
| Clinic.HealAllPending | Barotrauma/BarotraumaShared/SharedSource/GameSession/MedicalClinic.cs:206-236 | The result is never Unknown. The call succeeds iff forced, or affordable and not in combat. Unaffordable gives InsufficientFunds, checked before combat; in combat gives Refused; either failure changes nothing and heals nothing. Success empties the ledger, deducts exactly the total cost when a campaign exists, and issues the reductions. |
| Clinic.OneHealPerAffliction | Barotrauma/BarotraumaShared/SharedSource/GameSession/MedicalClinic.cs:216-226 | The commit loop (`IssuedHeals`) issues one reduction per recorded affliction of each member found with a health component, so never more than the ledger records. With every member found, the count equals all recorded afflictions. |
| Clinic.IssuedHealsAppend | Barotrauma/BarotraumaShared/SharedSource/GameSession/MedicalClinic.cs:217-226 | The reductions for a ledger split in two are those of the first part followed by those of the second, so the log follows ledger order. |
| Clinic.IssuedHealsAreRecorded | Barotrauma/BarotraumaShared/SharedSource/GameSession/MedicalClinic.cs:217-226 | Every reduction names a found ledger member, one of that member's recorded kinds, and that record's heal amount. |
| Clinic.UntreatableMemberSkipped | Barotrauma/BarotraumaShared/SharedSource/GameSession/MedicalClinic.cs:219-220 | A member missing from the roster receives no reduction. |
| Clinic.FundsCheckedBeforeCombat | Barotrauma/BarotraumaShared/SharedSource/GameSession/MedicalClinic.cs:209-214 | An unaffordable request is InsufficientFunds even during combat, and the state is unchanged. |
| Clinic.ForcedHealOverdraws | Barotrauma/BarotraumaShared/SharedSource/GameSession/MedicalClinic.cs:228-231 | A forced heal succeeds even when unaffordable, leaving the campaign's money below zero. |
| Clinic.HealAfterSuccessIsNoop | Barotrauma/BarotraumaShared/SharedSource/GameSession/MedicalClinic.cs:228-235 | After a successful heal, another successful heal changes nothing and issues no reduction. |
| Clinic.WorkedExample | Barotrauma/BarotraumaShared/SharedSource/GameSession/MedicalClinic.cs:206-236 | With burn (10, price 10) and lacerations (20, price 10), 20 in the bank and no combat, the heal succeeds. The bank ends at 0, the ledger is empty, and the reductions are 10 and 20 when no prefab resolves. |
| Clinic.RequestsKeepWellFormed | Barotrauma/BarotraumaShared/SharedSource/GameSession/MedicalClinic.cs:238-277 | Any sequence of add, remove, clear and heal requests with non-empty additions keeps one entry per member and no empty entry. |
| Clinic.EmptyAddKeepsEmptyEntry | Barotrauma/BarotraumaShared/SharedSource/GameSession/MedicalClinic.cs:269-277 | Adding an entry without afflictions leaves an empty entry in the ledger. |

## Left out

- The AI objective classes (`AIObjectiveOperateItem`, `AIObjectiveRepairItem`, `AIObjectiveFindDivingGear`) are not part of this model. Their bodies are calls into inventory, pathfinding and speech services, and their priorities are float formulas over world positions.
- `IsOutpostInCombat` (lines 191-204) reads the global character list and AI controllers. It is a boolean input.
- `GetCrewCharacters` (lines 321-331) reads the global character list. The roster is an input: a sequence of stable identifiers, each flagged with whether the character has a health component.
- `CharacterHealth.ReduceAffliction` is not part of this model. Its calls are returned as a log of (member, identifier, amount) instead of being applied.
- `Location.GetAdjustedHealCost` is not part of this model. It is a function parameter of `AfflictionScan.PriceEnv`.
- The network layer is not modelled: `NetworkHeader`, `MessageFlag`, `NetHealRequest`, `NetRemovedAffliction`, `NetPendingCrew`, serialization attributes and the `ArrayMaxSize` bound. The `OnUpdate` callback and the debug-only test data are also out.
- The `CharacterInfo` setter of `NetCrewMember` (line 158) only copies an identifier and is not modelled.
- `ushort` width is not modelled. Strengths and prices are unbounded naturals, so the wrap-around of `ushort` addition and of `(ushort)int.MaxValue` (lines 297, 298, 304) is absent.
- AfflictionScan.NoOutpostPricesUnpayable: promises the `int.MaxValue` price floor only for unbounded prices. In the source, `(ushort)GetAdjustedPrice(...)` (lines 298, 304) turns `int.MaxValue` into 65535, and a merged record's price wraps (65535 + 65535 gives 65534). So the "unpayable without an outpost" sentinel is defeated by the cast, and a campaign with enough money can pay.
- Ledger.GetTotalCost: the total is unbounded here. In the source it is a 32-bit `int` (lines 208 and 315), and so is the money it is compared with and subtracted from (lines 211, 230). Summing enough `ushort` prices wraps that total negative: for example, 32769 records at price 65535 sum to 2,147,516,415, which wraps to -2,147,450,881. `ensures r >= 0` therefore holds only for unbounded integers. Clinic.HealAllPending's "succeeds iff affordable and not in combat" also assumes no wrap. In the source, a wrapped total passes the funds check, and `Money -= totalCost` raises the money.
- Clinic.ForcedHealOverdraws: relies on campaign money being a plain integer. `CampaignMode.Money` is not part of this model, and its setter is taken to store the assigned value unchanged. The overdraft after a forced heal and the exact deduction in `Clinic.HealAllPending` (line 230) both depend on this assumption.
- Floating point is not modelled except for the severity finding below. Live strengths and maximum strengths are exact reals, and severity uses the exact ratio.
- A prefab's `MaxStrength` is positive by type (`PosReal`). The source divides by it, and a zero maximum would give an infinite or NaN quotient.
- Base heal cost and heal-cost multiplier are taken as non-negative, so a price is always a natural.
- Case-insensitive comparison folds ASCII letters only. `StringComparison.OrdinalIgnoreCase` also folds other Unicode letters.
- The `Prefab` getter stores the looked-up prefab in `cachedPrefab` (line 121). At the core's call sites this has no observable effect while the table is fixed, because a later lookup finds the same prefab. Only the cache set by the `Prefab` setter is modelled.
- A live affliction's identifier is taken to be its prefab's identifier.
- AfflictionScan.GetAllAfflictions: states which kinds are present, that they are distinct, and that strengths are positive. It does not sum the accumulated strengths and prices over the whole list; those are stated one step at a time by `AfflictionScan.MergeAffliction`.

## Findings

| source | as written | input that shows it | evidently intended | confidence | as-written member | corrected member |
|---|---|---|---|---|---|---|
| Barotrauma/BarotraumaShared/SharedSource/GameSession/MedicalClinic.cs:80-95 | The quotient is a single-precision float. Low is tested against the double 0.1, but Medium is tested against the float 0.1f. 0.1f lies above the double 0.1, so a quotient equal to 0.1f is neither Low nor Medium and falls through to High. | Strength 10 with MaxStrength 100: 10f/100f rounds to 0.1f, so the result is High. | A ratio of exactly one tenth is Low (the `<= 0.1` test and its comment). | not executed; high (IEEE single rounding of 1/10 is 0.1f) | Afflictions.SeverityAsWritten, Afflictions.TenthIsHighAsWritten | Afflictions.SeverityOf |
