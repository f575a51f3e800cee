# Merging PsychonautWiki and TripSit substance data

`scrape.py` builds one list of substance records out of two sources. The
first is the PsychonautWiki substances, one record per wiki page. The second
is the TripSit factsheets.

This project models the part of the script that decides what ends up in that
list:

- how a name is matched against a record;
- how a record is looked up and taken out of its list;
- how the "Common names" cell of a wiki page becomes a list of aliases;
- which wiki pages are skipped;
- the merge loop that pairs records by name and builds each output record.

The merge loop covers:

- the url;
- the display name;
- the aliases and `aliasesStr`;
- the summary and test kits;
- the interaction list built from the TripSit combos;
- the routes that have a duration.

The model also states what the loop guarantees as a whole:

- no record is used twice;
- a hit matches its name;
- a name that found nothing leaves no matching record behind;
- every output record is well formed;
- the output has at most one record per PsychonautWiki record.

Modules:

- `Wrappers`: `Option` and `Result`.
- `Text`: ASCII `lower`, Python's `isspace` and `strip`, `str.split` and `str.join`. `Join(Split(s, sep), sep) == s` is proved. The converse is proved for a one-character separator and a non-empty list whose items do not hold it.
- `Order`: `sorted(set(...))` as `SortedDistinct`, and `sorted(..., key=...)` as `SortBy`.
- `Seqs`: `map` and `filter`.
- `Records`: the records of both sources, the output record, and the three exceptions the loop can raise.
- `Resolver`: `substance_name_match`, `find_substance_in_data`, `list.remove`, and `roa_matches_name`.
- `CommonNames`: `pw_clean_common_name`, the alias assembly of the page scraper, and `pw_should_skip`.
- `Fields`: the merge loop's body for one pair of records.
- `Reconcile`: the merge loop.
- `ReconcileProps`: the properties of the whole loop.

The loop is the method `Reconcile.Reconcile`. Its specification is the function
`Reconcile.Reconciled`, which works in three steps:

1. `AllSubstanceNames` gives the sorted set of lower-cased names.
2. `MatchAll` looks every name up in what is left of both lists.
3. `Assemble` merges each hit and keeps the records that have a route.

The loop body is `MergeName`, which calls `MergeFound`. `MergeFound` is proved equal to
`Fields.MergeRecords`. The two inner loops are `BuildInteractions` and
`FilterTimedRoutes`. Each is proved against its own function.

The script can end the run with an exception. Each one is a `Failure`:

- `MissingTripSitName` is the `KeyError` on `ts_substance['name']`. It is raised when there is no PsychonautWiki url and no TripSit name.
- `NoDisplayName` is the `ValueError` of `min([])`.
- `UnknownComboKey` is the `KeyError` on `ts_combo_transformations[key]`.

A failure ends the whole run. The failures are checked in the order the
source checks them.

## Model

| member | source | states |
|---|---|---|
| Resolver.SubstanceNameMatch | scrape.py:40-50 | a name matches a record exactly when, ignoring case, it equals the record's `name`, its `pretty_name` or one of its aliases; a missing key takes no part |
| Resolver.AnyAliasMatches | scrape.py:49 | true exactly when some alias lower-cases to the lower-cased name |
| Resolver.NoKeysMatchNothing | scrape.py:43-49 | a record with no name, no pretty name and no aliases matches no name |
| Resolver.FirstMatch | scrape.py:53-54 | None exactly when no record matches; otherwise the index of a matching record with no match before it |
| Resolver.FindSubstance | scrape.py:53-54 | None exactly when no record of the list matches the name; otherwise the value is the first matching record |
| Resolver.IndexOfValue | scrape.py:348 | the first position holding the value, as `list.remove` finds it |
| Resolver.RemoveFirst | scrape.py:348 | removing a present value drops exactly its first occurrence: the result is the list without the element at the first position holding the value, one shorter, with the same other elements |
| Resolver.RemoveFirstMatch | scrape.py:345-348 | the element `remove` takes out is the very record `find_substance_in_data` found, at the position it found it |
| Resolver.Take | scrape.py:345-358 | on a miss the list is unchanged and nothing in it matches; on a hit the first match is returned and removed from exactly its position, and nothing else is lost |
| Resolver.RouteSynonymsArePairs | scrape.py:57-66 | the synonym table relates exactly the four unordered pairs iv/intravenous, im/intramuscular, insufflated/snorted, vaporized/vapourized |
| Resolver.RoaMatchesNameIff | scrape.py:69-71 | a route matches a name exactly when the two are equal ignoring case or form one of those pairs |
| Resolver.RoaMatchesNameSymmetric | scrape.py:57-71 | swapping the route name and the name gives the same answer |
| Resolver.RouteSynonyms | scrape.py:57-66 | the synonym table `roa_name_aliases` looked up with an empty default; what it relates is stated by `RouteSynonymsArePairs` |
| Resolver.RoaMatchesName | scrape.py:69-71 | a route matches a name when their lower-case forms are equal or the route's is a synonym of the name's; `RoaMatchesNameIff` states it as equality or one of the four pairs |
| Resolver.IntravenousExample | scrape.py:57-71 | "IV" matches the route "Intravenous" and "intravenous" matches the route "IV"; "IV" does not match "Oral" |
| CommonNames.TrailingDigits | scrape.py:122 | the length of the run of digits that ends the string, with a non-digit or the start in front of it |
| CommonNames.CitationStart | scrape.py:122 | where the match of `"?\[\d*\]$` begins, when there is one, inside the string; `CitationStartLeftmost` states which position that is |
| CommonNames.CitationStartLeftmost | scrape.py:122 | the position found is one where `"?\[\d*\]` matches through the end of the text, and no match starts before it; None exactly when no position matches |
| CommonNames.CleanCommonName | scrape.py:119-125 | the cleaned name neither starts nor ends with whitespace |
| CommonNames.CleanPlain | scrape.py:119-125 | a name without quotes, brackets, final dot or surrounding space comes out unchanged, also when followed by a final newline |
| CommonNames.CleanCitation | scrape.py:122 | a trailing citation such as "[12]" (any run of digits, also "[]") is removed |
| CommonNames.CleanQuotedCitation | scrape.py:120-122 | a quoted name with a citation after its closing quote loses both quotes and the citation |
| CommonNames.CleanMoreNames | scrape.py:123 | a trailing "More names." is removed together with the whitespace in front of it |
| CommonNames.CleanFinalDot | scrape.py:124-125 | one final full stop is removed |
| CommonNames.ShouldSkip | scrape.py:128-133 | a page is skipped when its title is missing or empty, starts with "Experience:", or the page has no routes section; the consequence for kept pages is `KeptPagesHaveTitles` |
| CommonNames.KeptPagesHaveTitles | scrape.py:128-133 | a page that is not skipped has a non-empty title that does not start with "Experience:" and has a routes section |
| CommonNames.CellNames | scrape.py:188-199 | a name comes from the "Common names" cell exactly when it is the cleaning of one of the cell's ", "-separated pieces; no cell gives no names |
| CommonNames.PwCommonNames | scrape.py:188-202 | the aliases of a page are sorted without repeats, never contain the page title, and are exactly the cleaned pieces of the "Common names" cell plus the API name, minus the title |
| Fields.SourceUrl | scrape.py:366-367 | fails exactly when there is no non-empty PsychonautWiki url and no TripSit name; otherwise the PsychonautWiki url if non-empty, else the TripSit prefix followed by the factsheet name |
| Fields.DisplayName | scrape.py:372-380 | fails exactly when every candidate is empty; otherwise a non-empty candidate no longer than any other non-empty one, the PsychonautWiki name winning a tie |
| Fields.Aliases | scrape.py:382-396 | sorted without repeats; an alias is present exactly when it is the lower-case form of some non-empty name, pretty name or alias of either record and is not the lower-cased display name; each is non-empty and lower case |
| Fields.TrimmedOrNone | scrape.py:398-404 | a present value is a property that was there, with no whitespace at either end |
| Fields.TrimmedOrNoneIsStrip | scrape.py:398-404 | None exactly when the property is missing or all whitespace; otherwise the property with its surrounding whitespace cut off |
| Fields.InteractionsOf | scrape.py:433-440 | fails exactly when some combo key is neither ignored nor in the table, with the first such key as the error; otherwise every interaction carries a display name from the table |
| Fields.InteractionsOfIsFilterMap | scrape.py:435-440 | without unknown keys the interactions are the non-ignored combos, in order, each renamed from the table |
| Fields.ComboDisplayName | scrape.py:78-108 | the display-name table `ts_combo_transformations`, None for a key it lacks; the ignored key `benzos` is not in it |
| Fields.Interactions | scrape.py:431-441 | no interactions (None) exactly when combos are missing or empty, so any non-empty combos give a list, possibly empty; fails exactly when `InteractionsOf` fails; otherwise a permutation of `InteractionsOf` sorted by name |
| Fields.BuildInteractions | scrape.py:431-441 | the loop over `combos.items()` and the sort compute `Interactions` |
| Fields.TimedRoutes | scrape.py:443-450 | no longer than the input; a route is kept exactly when it is in the input and has a duration |
| Fields.FilterTimedRoutes | scrape.py:443-450 | the loop computes `TimedRoutes`, keeping the order of the routes |
| Fields.MergeRecords | scrape.py:364-480 | fails exactly when the url, the display name or the combos fail, with the error of the first of them to fail; a merged record is well formed (`Settled`); its url, name, aliases, experiences link, summary, test kits and interactions are `SourceUrl`, `DisplayName`, `Aliases`, the stripped properties and `Interactions`; its class, toxicity, addiction, tolerance and cross-tolerance fields are the PsychonautWiki data, null without a PsychonautWiki record; its routes are the timed PsychonautWiki routes; without a factsheet it has no TripSit fields |
| Fields.MergeFound | scrape.py:364-450 | the body of the loop for one pair computes `MergeRecords` |
| Fields.AliasesStrSplits | scrape.py:468-469 | when no alias holds a comma, `aliasesStr` splits back into `aliases` |
| Reconcile.AllSubstanceNames | scrape.py:335-340 | sorted without repeats, lower case, and holding exactly the lower-cased names of the records of both lists |
| Reconcile.TakeBoth | scrape.py:345-358 | one name's two lookups: the hit holds what `Take` finds in each list, and the lists become what `Take` leaves |
| Reconcile.MatchAll | scrape.py:343-358 | one hit per name, in the order of the names |
| Reconcile.Assemble | scrape.py:360-480 | fails exactly when merging some hit with a record fails, with the error of the first such hit (`Complete`); otherwise the output holds the merged record of every hit that has a route, is no longer than the hits, and every record in it has a route and is what the merge makes of one of the hits |
| Reconcile.AssembleOne | scrape.py:452-480 | one hit adds nothing when neither list had a record or the merged record has no route, adds the merged record otherwise, and a failing merge fails |
| Reconcile.AssembleCons | scrape.py:343-480 | the output of a run of names is the first name's contribution followed by the rest, unless the first fails |
| Reconcile.Reconciled | scrape.py:335-480 | the output of the merge loop: the names, their lookups, and the assembly of the hits with `MergeRecords`; its properties are the `ReconcileProps` lemmas |
| Reconcile.MergeName | scrape.py:343-462 | one iteration leaves the lists as the lookup of the name leaves them and appends that name's contribution |
| Reconcile.Reconcile | scrape.py:335-480 | the merge loop computes `Reconciled` |
| ReconcileProps.MatchAllConservesPw | scrape.py:343-350 | the PsychonautWiki records taken plus those left over are exactly the input list, so no record is merged twice |
| ReconcileProps.MatchAllConservesTs | scrape.py:352-358 | the TripSit factsheets taken plus those left over are exactly the input list |
| ReconcileProps.MatchAllHitsMatch | scrape.py:343-358 | every record a name took matches that name |
| ReconcileProps.LeftIsPart | scrape.py:343-358 | the lists left over are part of the input lists |
| ReconcileProps.MatchAllMissesArePw | scrape.py:345-350 | a name that found no PsychonautWiki record leaves none behind that matches it |
| ReconcileProps.MatchAllMissesAreTs | scrape.py:353-358 | a name that found no factsheet leaves none behind that matches it |
| ReconcileProps.ReconciledEmittable | scrape.py:452-480 | every output record is well formed and has at least one route |
| ReconcileProps.AssembleBound | scrape.py:360-454 | if a merge without a PsychonautWiki record never has routes, the output has at most one record per PsychonautWiki record taken |
| ReconcileProps.TripSitOnlyIsDropped | scrape.py:424-454 | a factsheet merged without a PsychonautWiki record has no route, so it is never emitted |
| ReconcileProps.OutputBounded | scrape.py:335-480 | the output is never longer than the PsychonautWiki list |
| ReconcileProps.DisplayNamesCanRepeat | scrape.py:372-380 | the pages "Alpha" and "Z" and a factsheet "alpha" with pretty name "Z" give an output with two different records both named "Z" |
| Order.SortedDistinct | scrape.py:335-340 | `sorted(set(xs))` is strictly ascending and holds exactly the elements of `xs` |
| Order.StrictlySortedUnique | scrape.py:202 | two strictly sorted lists with the same elements are equal, so `sorted(set(...))` does not depend on the input order |
| Order.SortBy | scrape.py:441 | sorted by the key, and a permutation of the input |
| Text.Strip | scrape.py:398 | empty exactly when the input is all whitespace; otherwise no whitespace at either end, and a slice of the input |
| Text.JoinSplit | scrape.py:194 | joining the pieces of `s.split(sep)` with `sep` gives back `s` |
| Text.SplitJoin | scrape.py:469 | joining a non-empty list of items with a separator character none of them holds, then splitting, gives back the items |

## Left out

- Fetching is not modelled: the HTTP and GraphQL requests, the HTML parsing, the reading of the route table and `get_data_starting_at_row` (scrape.py:206-295). The records of both sources are inputs.
- `try_three_times` (scrape.py:136-145) is left out. It is retry logic around I/O.
- The cache file, the command line, the progress printing and the output file (scrape.py:148-152, 482-490) are left out. They are I/O.
- The bioavailability parse (scrape.py:406-414) is left out. It is a regular expression whose result is never stored in the output.
- `ts_dose_order` and the request headers are left out. Nothing in the merge uses them.
- Case mapping is ASCII only. `str.lower` and `\d` also map or match non-ASCII characters, and full Unicode tables are not modelled.
- `Fields.InteractionsOf`: the source writes the display name into the factsheet's own combo dictionary (scrape.py:439). The model builds a new `Interaction` value, so the aliasing is not captured.
- `Reconcile.Reconciled`: the lists left over after the loop are not part of the output. The loop only mutates them.
- JSON `null` in a name, pretty name or alias is treated as a missing key. In the source it would raise `AttributeError` or `TypeError`. The same holds for a null `properties.summary` or `properties.test-kits` (scrape.py:398, 402), where `.strip()` raises `AttributeError`, for a null `roas` (scrape.py:427-429), where `extend` raises `TypeError`, and for a route without a `duration` key, where the source raises `KeyError`.
- Combos are an ordered list of pairs. A dictionary cannot repeat a key, and the model does not rule that out.
- The display name of an output record is not unique. Two records can end up with the same name, as `ReconcileProps.DisplayNamesCanRepeat` shows, and the source does not prevent it either.
- `Fields.TrimmedOrNone` states its full characterisation (None exactly when the value is missing or all whitespace, and otherwise the stripped slice) in `Fields.TrimmedOrNoneIsStrip`, not in its own ensures.
- `CommonNames.CleanFinalDot` requires that the name does not end in "More names". With that ending, the step before removes the whole "More names." instead.
- `Reconcile.Assemble` takes the merge function as a parameter. Its contract is about any merge, and `Reconciled` passes `Fields.MergeRecords`.
- `Order.SortBy` does not state that the sort is stable. Interactions with equal names come only from repeated combo keys, which a dictionary cannot have.
- `CommonNames.ShouldSkip` takes the presence of a "Routes of Administration" text in the page as a boolean `hasRouteSection`. The HTML search is not modelled.
