# BMW India showroom: the catalogue view, the filter panel and the bell

This project models the logic at the centre of a single-page showroom for BMW
cars and motorcycles:

- The **catalogue view** (`filteredCars` in `App.tsx`) starts from a copy of the
  fixed catalogue and narrows it in four stages:
  - a case-insensitive search on name or series;
  - an inclusive price ceiling;
  - a series selection;
  - a category selection.

  It then sorts the survivors in place with a comparator chosen by the sort
  key.
- The **filter panel** (`components/Filters.tsx`) edits the criteria:
  - single-field updates;
  - category and series toggles;
  - the price slider;
  - the reset button.
- The **notification bell** (`components/Navbar.tsx`) counts unread
  notifications and draws a badge. `markNotificationRead` in `App.tsx`
  acknowledges one notification.
- The **seed data** (`constants.tsx`): five models, two notifications and the
  series list.

The modules follow the program:

| module | file | contents |
|---|---|---|
| `Types` | `types.dfy` | the records of `types.ts` |
| `Seqs` | `seqs.dfy` | `Array.prototype.filter` and the facts about it |
| `Text` | `text.dfy` | ASCII lower-casing and `includes` |
| `Catalog` | `catalog.dfy` | the seed data of `constants.tsx` |
| `Navbar` | `navbar.dfy` | the bell |
| `FilterPanel` | `filter_panel.dfy` | the sidebar |
| `Showroom` | `showroom.dfy` | the view and the notification acknowledgement of `App.tsx` |
| `Scenarios` | `scenarios.dfy` | the view and the bell computed on the seed data |

`filteredCars` works by reassigning a local list and sorting it in place.
`FilteredCars` models it as a method:

- It reassigns `result` through the four stages.
- `SortList` lays the list out in an array.
- `SortInPlace` sorts that array with a stable insertion sort. `InsertNext` and
  `ShiftLeft` are its inner pass and its swap loop.

`FilteredCars` is proved to return `CatalogView`, the specification: the
passing records (`Select`) in the order of the functional stable insertion
sort `SortBy`. `StableSortUnique` shows that every stable sort with this
comparator gives that same list. So the result does not depend on which
algorithm the JavaScript engine uses, only on the stability that ECMAScript
requires of `Array.prototype.sort` (ECMA-262, 2019 edition and later).

Stability is stated by the class `Class(s, key, r)`: the records of `s` that
rank `r` under `key`, in their order in `s`. A sort is stable when every class
is the same before and after.

Units and representation:

- `rating` (for example 4.9) and the 0–100 km/h time are held as integer
  tenths.
- Every ordering key is read through `Rank`. `Rank` is ascending, so the
  descending keys are negated.
- The comparator `Compare` is proved to equal the difference of the two ranks.

## Model

| member | source | states |
|---|---|---|
| Showroom.FilteredCars | App.tsx:25-56 | the staged filters followed by the in-place sort return exactly the view `CatalogView`: the records that pass every stage, sorted on the active key |
| Showroom.SortList | App.tsx:45-53 | copying the list into an array, sorting it in place and reading it back gives `SortBy` of the list |
| Showroom.SortInPlace | App.tsx:45-53 | after the in-place sort, the array holds `SortBy` of its old contents |
| Showroom.InsertNext | App.tsx:45-53 | one insertion pass places `a[i]` into the sorted prefix exactly as `Insert` does and leaves the rest of the array alone |
| Showroom.ShiftLeft | App.tsx:45-53 | the swap loop moves `a[i]` left to the first position whose left neighbour does not compare greater; the other entries keep their order |
| Showroom.Select | App.tsx:26-43 | the four stages keep exactly the catalogue records that pass every active stage, in catalogue order, each as often as it occurs in the catalogue |
| Showroom.ViewMembers | App.tsx:26-43 | a record is in the view if and only if it is in the catalogue and passes query, ceiling, series and category |
| Showroom.ViewPermutation | App.tsx:26-53 | the view is a permutation of the passing records: no record is missing, duplicated or added |
| Showroom.ViewOrdered | App.tsx:45-53 | ordering of the view: `price-asc` non-decreasing price; `price-desc`, `rating`, `speed` and `popularity` non-increasing on their field |
| Showroom.ViewStable | App.tsx:45-53 | records that tie on the active key keep their catalogue order |
| Showroom.ViewIsTheStableSort | App.tsx:45-53 | any sorted list that keeps every tie class of the passing records in their order is the view |
| Showroom.ViewIgnoresSpeedAndYears | App.tsx:25-56 | the view does not depend on `minSpeed` or `years` |
| Showroom.QueryIgnoresCase | App.tsx:28-33 | two queries that lower-case alike give the same view |
| Showroom.EmptyStagesKeepAll | App.tsx:28-43 | an empty query, an empty series list and an empty category list keep every record within the ceiling, in catalogue order |
| Showroom.BothTypesIsNoTypes | App.tsx:41-43 | selecting both categories gives the same view as selecting none |
| Showroom.LowerCeilingNarrows | App.tsx:35 | lowering the price ceiling only removes records and keeps the order of the rest |
| Showroom.InitialView | App.tsx:15-56 | with the initial criteria, a catalogue within the ceiling is shown whole, sorted by popularity |
| Showroom.Compare | App.tsx:45-53 | the comparator is the difference of the two ranks, negative exactly when the first ranks lower; the default branch is popularity descending |
| Showroom.SortedMeaning | App.tsx:46-52 | a list sorted on a key's rank is ordered on that key's record field, in the key's direction |
| Showroom.InsertMultiset | App.tsx:45 | inserting adds exactly the inserted element |
| Showroom.SortByMultiset | App.tsx:45 | the sort is a permutation of its input |
| Showroom.InsertSorted | App.tsx:45 | inserting into a sorted list keeps it sorted |
| Showroom.SortBySorted | App.tsx:45-53 | the sort's output is sorted on the key's rank |
| Showroom.InsertClass | App.tsx:45 | insertion puts the element last in its tie class and changes no other class |
| Showroom.SortByClass | App.tsx:45 | the sort keeps every tie class as it was in the input |
| Showroom.StableSortUnique | App.tsx:45 | two sorted lists with the same tie classes are equal |
| Showroom.InsertAt | App.tsx:45 | `Insert` puts the element at the point where the entries that compare greater begin |
| Showroom.InsertPosition | App.tsx:45 | in a sorted list, the point the swap loop stops at is where `Insert` puts the element |
| Showroom.InitialFilters | App.tsx:15-23 | the initial criteria are the ones the panel's reset writes |
| Showroom.ShowroomReset | App.tsx:118-126 | the empty view's "Reset Showroom" button restores the initial criteria |
| Showroom.MarkNotificationRead | App.tsx:58-60 | the result has the same length and order; entries carrying the id become read and are otherwise unchanged; every other entry is unchanged; an absent id changes nothing |
| Showroom.MarkNotificationReadIdempotent | App.tsx:59 | marking the same id twice is the same as marking it once |
| Showroom.MarkReadNeverRaises | App.tsx:59 | marking never raises the unread count |
| Showroom.MarkUniqueUnreadLowersByOne | App.tsx:59 | for an id that exactly one notification carries, and that one unread, marking lowers the unread count by exactly one |
| Showroom.MarkReadTail | App.tsx:59 | marking works entry by entry: it commutes with dropping the head |
| Seqs.Filter | App.tsx:29 | `filter` keeps no more elements than its input has |
| Seqs.FilterMembers | App.tsx:29-42 | the filter holds exactly the input elements that pass, and every element it holds passes |
| Seqs.FilterMultiset | App.tsx:29-42 | the filter keeps every occurrence of a passing element and drops every occurrence of a failing one |
| Seqs.FilterSubseq | App.tsx:29-42 | the filter is a subsequence of its input |
| Seqs.FilterFilter | App.tsx:35-42 | two successive filters are one filter by the conjunction |
| Seqs.FilterAppend | components/Navbar.tsx:12 | filtering a concatenation concatenates the filtered parts |
| Seqs.FilterNoDup | components/Filters.tsx:19 | filtering keeps a duplicate-free list duplicate-free |
| Seqs.Without | components/Filters.tsx:19 | `filter(item => item !== t)` removes every occurrence of `t`, keeps the rest in order, and changes nothing when `t` is absent |
| Text.Lower | App.tsx:30-31 | lower-casing keeps the length and maps each character through ASCII lower-casing |
| Text.LowerIdempotent | App.tsx:30-31 | lower-casing twice is lower-casing once |
| Text.ContainsIff | App.tsx:30-31 | `includes` holds exactly when the needle occurs at some index; the empty needle occurs everywhere |
| Text.MissingCharNotContained | App.tsx:30-31 | a needle with a character the text lacks is not included in it |
| Navbar.UnreadCount | components/Navbar.tsx:12 | the count is at most the list's length; it is 0 exactly when every notification is read, and equals the length exactly when none is |
| Navbar.UnreadCountCons | components/Navbar.tsx:12 | the count is the head's contribution plus the tail's count |
| Navbar.UnreadCountAppend | components/Navbar.tsx:12 | the count of a concatenation is the sum of the counts |
| Navbar.ShowsBadge | components/Navbar.tsx:52 | the badge is drawn exactly when some notification is unread |
| FilterPanel.UpdateFilter | components/Filters.tsx:12-14 | `updateFilter(k, v)` sets field `k` to `v` and leaves every other field unchanged |
| FilterPanel.FieldsDetermineState | types.ts:30-38 | two criteria records that agree on every field are equal, so the seven fields are the whole state |
| FilterPanel.UpdateFilterCurrentValue | components/Filters.tsx:12-14 | writing a field's current value back changes nothing |
| FilterPanel.UpdateFilterIdempotent | components/Filters.tsx:12-14 | repeating an update changes nothing more |
| FilterPanel.Toggle | components/Filters.tsx:16-32 | the toggle flips membership of the value and of no other; an absent value is appended at the end; a present value loses every occurrence and nothing else changes; no duplicates are introduced |
| FilterPanel.ToggleTwiceRestores | components/Filters.tsx:16-32 | toggling an absent value twice restores the list |
| FilterPanel.ToggleType | components/Filters.tsx:16-23 | `toggleType` writes the toggled category list, so membership of that category flips, the others keep theirs, no duplicates are introduced and no other field changes |
| FilterPanel.ToggleSeries | components/Filters.tsx:25-32 | `toggleSeries` writes the toggled series list, so membership of that series flips, the others keep theirs, no duplicates are introduced and no other field changes |
| FilterPanel.PriceSliderSteps | components/Filters.tsx:77-81 | the slider's step grid runs from 1,000,000 exactly to 30,000,000 |
| FilterPanel.SliderPrice | components/Filters.tsx:77-84 | every slider position gives a price in [1,000,000, 30,000,000] of the form 1,000,000 + k·500,000 |
| FilterPanel.SliderPosition | components/Filters.tsx:77-84 | every price on the grid comes from exactly one slider position |
| FilterPanel.SlideMaxPrice | components/Filters.tsx:84 | moving the slider writes exactly the price at the chosen position, which lies on the grid, and changes no other field |
| FilterPanel.ResetCeilingOnSlider | components/Filters.tsx:113-121 | the reset ceiling is the slider's right end |
| Catalog.CatalogIdsDistinct | constants.tsx:4-122 | the five model ids are distinct |
| Catalog.CatalogScoresInRange | constants.tsx:4-122 | every popularity is in 1..100 and every rating in 1.0..5.0 |
| Catalog.CatalogWithinDefaultCeiling | constants.tsx:4-122 | every base price is at most 30,000,000 |
| Catalog.CatalogSeriesListed | constants.tsx:141 | every model's series is in the series list |
| Catalog.SeedUnreadIsOne | constants.tsx:124-139 | the seed notification ids are distinct; the first, id "1", is unread, every later one is read, and being unread is the same as carrying id "1" |
| Scenarios.WholeCatalogSelected | App.tsx:15-43 | the initial criteria select all five models, in catalogue order, whatever the sort key |
| Scenarios.DefaultView | App.tsx:15-56 | the initial view is M 1000 RR, M3, S 1000 RR, R 1300 GS, i7 |
| Scenarios.NoCategoriesShowsAll | App.tsx:41-43 | deselecting both categories shows the same five models in the same order |
| Scenarios.SelectM3 | App.tsx:28-33 | the search "m3" selects the M3 Competition Sedan and nothing else |
| Scenarios.SearchM3 | App.tsx:28-33 | the search "m3" shows the M3 Competition Sedan only |
| Scenarios.M3MatchesM3 | App.tsx:30 | the lower-cased name "M3 Competition Sedan" includes "m3" |
| Scenarios.MissesQuery | App.tsx:30-31 | a query needing a character that neither the name nor the series holds, in either case, rejects the model |
| Scenarios.CeilingThreeMillion | App.tsx:35 | a ceiling of 3,000,000 shows S 1000 RR and R 1300 GS, in popularity order |
| Scenarios.PriceAscendingView | App.tsx:47 | ascending price shows S 1000 RR, R 1300 GS, M 1000 RR, M3, i7 |
| Scenarios.PriceDescendingView | App.tsx:48 | descending price shows i7, M3, M 1000 RR, R 1300 GS, S 1000 RR |
| Scenarios.RatingView | App.tsx:49 | descending rating shows M 1000 RR, then the tied M3 and S 1000 RR in catalogue order, then i7 and R 1300 GS |
| Scenarios.SpeedView | App.tsx:50 | descending top speed shows M 1000 RR, S 1000 RR, M3, i7, R 1300 GS |
| Scenarios.SeedBell | components/Navbar.tsx:12-56 | the seed list shows a badge with count 1; marking notification "1" read brings the count to 0 and hides the badge |

## Left out

- The 360° viewer (`components/Viewer360.tsx`) is left out. It is floating-point rotation, zoom and pan driven by mouse events.
- The detail view (`components/CarDetails.tsx`) is left out. That covers its asynchronous insight request, `formatINR` (a wrapper around `Intl.NumberFormat`) and the text service in `services/geminiService.ts`, which is a call into an external SDK. The code keeps no guard against a late response for an earlier selection, so no such property is stated.
- The card grid (`components/CarCard.tsx`) and the notification drawer (`components/NotificationsPanel.tsx`) are rendering only. The drawer's "Mark all as read" button has no handler, so it has no behaviour to model.
- The selected-car slot and the drawer's open/closed flag are left out. They are single-slot UI toggles with no logic.
- The items below are display-only and are not modelled on `Model`:
  - the colour names, the engine text, the two image references and the description;
  - `Catalog.Displays` lists them, keyed by model id.

  No stage of the view reads them. Equality of records in the model therefore ignores them.
- Text.Lower: lower-cases ASCII letters only, not the full Unicode mapping of `toLowerCase`.
- FilterPanel.SlideMaxPrice: takes the slider position as an integer. The conversion of the input's string value by `parseInt` is not modelled.
- Showroom.SortInPlace: models the engine's `Array.prototype.sort` by a stable insertion sort. `Showroom.ViewIsTheStableSort` shows that any stable sort gives the same result.
- Showroom.Compare: the sort key is a closed datatype, so only `popularity` reaches the `default` branch. A key that is not one of the five literals cannot be expressed.
- FilterPanel.ToggleType: computed from the criteria passed in, as the source reads the rendered `filters`. React's batching of two toggles issued in one event is not modelled.
- FilterPanel.ToggleSeries: computed from the criteria passed in, as the source reads the rendered `filters.series`. React's batching of two toggles issued in one event is not modelled.
- Showroom.FilteredCars: the catalogue is a parameter. `Scenarios` instantiates it with the seed data.
- Showroom.FilteredCars: the `useMemo` cache is not modelled.
- React rendering, state hooks and event wiring are not modelled. Only the values they compute are.
