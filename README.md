# Infra-track marker reconciliation in Dafny

Infra-track shows civic infrastructure projects for Charleston on a map and in
a side list. The user narrows the view with a city select and two checkbox
groups, one for status and one for category. Every change to a control re-runs
`render()`. That function does four things:

- It upserts a map marker for every project that passes the filter, and
  collects the passing ids into `keep`.
- It removes every indexed marker whose id is not in `keep`.
- It rebuilds the list from the passing projects.
- It fits the viewport to the markers when `keep` is non-empty.

`flyTo(id)` centres the map on one indexed marker and opens its popup.

The model has four modules.

- `Projects` (`projects.dfy`) holds the project record and the filter value.
  - The filter predicate `passes` is `Passes`.
  - The list derivation at line 169 is `Filtered`.
  - Lemmas cover membership, order, duplicates and the empty-selection rule.
- `Colors` (`colors.dfy`) holds the category-to-colour table.
  - `MarkerColor` is the table with its "gray" fallback.
  - `MarkerColorAsWritten` is the JavaScript lookup taken literally (see Findings).
- `MarkerSync` (`markers.dfy`) holds the stateful part.
  - A `Marker` class stands for a map marker handle. Its position, colour and
    popup are overwritten in place, so handle identity can be observed.
  - A `Synchronizer` class owns `index: map<string, Marker>`, the model of
    `markerIndex`. Its methods are `AddOrUpdateMarker`, `RemoveMarker`,
    `Render`, with the upsert loop and the removal loop over a key snapshot,
    the fit guard and `FlyTo`.
  - A ghost `display` map records what each indexed marker shows. `Valid()`
    ties it to the heap and also implies that no two ids share a handle.
  - The methods are specified against the function `Expected(projects, f)`.
    `Expected` folds the passing projects in dataset order, and the last
    passing record with a given id wins. The lemmas about `Expected` and the
    predicate `Reconciled` carry the reconciliation properties:
    - the index keys equal the passing ids;
    - rendering twice is idempotent;
    - handles survive a change of filter.

    `Render` ensures `Reconciled(old(index), index, keep)` with
    `keep == VisibleIds(projects, f)`, and `display == Expected(projects, f)`, so for two consecutive calls on
    one `Synchronizer` these lemmas, and the `Charleston` statements built on
    them, are statements about its index and what its markers show.
- `Charleston` (`charleston.dfy`) holds the six demo records as a concrete
  witness. It states what is listed and shown with every box checked, and
  after narrowing the status group to "active".

Ids need not be unique for the key-set and handle properties. Uniqueness
(`UniqueIds`) is required only where a per-project statement needs it: which
record a marker shows, the fit positions, and the absence of duplicates in the
list.

## Model

| member | source | states |
|---|---|---|
| Projects.IncludesIsMembership | script.js:152-153 | `includes` on a checkbox value list answers exactly whether the value is in the list |
| Projects.PassesExactly | script.js:150-155 | a project passes iff (no city is chosen or its city equals the chosen one exactly) and its status is checked and its category is checked |
| Projects.EmptySelectionHidesAll | script.js:152-154 | with no status checked or no category checked, whatever the city, the list is empty and no id gets a marker |
| Projects.Filtered | script.js:169 | the list is never longer than the dataset |
| Projects.FilteredMembers | script.js:169 | a record is listed iff it is in the dataset and passes the filter |
| Projects.FilteredKeepsOrder | script.js:169 | the list is the passing records taken at strictly increasing dataset positions, and every passing position is among them (dataset order, nothing skipped) |
| Projects.FilteredHasNoDuplicates | script.js:169 | when dataset ids are unique, no id appears twice in the list |
| Projects.AllPassingListed | script.js:169 | when every record passes, the list is the whole dataset |
| Projects.ListedIdsAreVisibleIds | script.js:162-169 | the ids of the listed items are exactly the ids the markers are kept for |
| Colors.MarkerColor | script.js:89-92 | the colour is "gray" exactly when the category is none of transit, road, park, building, resilience |
| Colors.KnownCategoriesAreDistinguished | script.js:90 | the five listed categories get five different colours, each one of blue, red, green, purple, orange |
| Colors.AsWrittenAgreesOffPrototype | script.js:91 | for a category that is not an inherited member name, looking up `colors[category]` with its "gray" fallback taken literally gives the table's colour |
| Colors.AsWrittenMissesFallback | script.js:91 | the category "toString" is outside the table, yet the literal lookup yields the inherited method instead of "gray" |
| MarkerSync.Marker.constructor | script.js:126-127 | a new marker shows the project's position, its category colour and its popup |
| MarkerSync.Marker.Refresh | script.js:121-123 | `setLatLng`/`setIcon`/`bindPopup` make the same handle show the new project |
| MarkerSync.ExpectedKeys | script.js:162-164 | the ids the upsert pass touches are exactly the passing ids |
| MarkerSync.ExpectedShowsEach | script.js:162-164 | with unique ids, each passing project's marker shows that project's position, colour and popup |
| MarkerSync.ExpectedPositions | script.js:185-187 | with unique ids, the points the viewport is fitted to are exactly the positions of the passing projects |
| MarkerSync.ReconcileIdempotent | script.js:162-166 | a second render with the same filter leaves the same keys and the same handle for every key |
| MarkerSync.HandleSurvivesRefilter | script.js:119-124 | a project that passes two consecutive filters keeps its handle across both renders |
| MarkerSync.Synchronizer.constructor | script.js:87 | the index starts empty |
| MarkerSync.Synchronizer.AddOrUpdateMarker | script.js:118-130 | `p.id` ends up indexed and showing `p`; the key set gains `p.id` only if it was absent; every entry present before keeps its handle; a new id gets a fresh handle; no other display changes and no marker indexed under another id is modified |
| MarkerSync.Synchronizer.RefreshIndexed | script.js:119-124 | for an indexed id the index is unchanged, only that handle's display changes, and no handle indexed under another id is modified |
| MarkerSync.Synchronizer.IndexNew | script.js:126-129 | for an absent id exactly one entry, with a fresh handle, is added |
| MarkerSync.Synchronizer.RemoveMarker | script.js:132-135 | exactly `id` is removed from the index when present; nothing changes when absent |
| MarkerSync.Synchronizer.UpsertPassing | script.js:162-164 | after the loop, `keep` is the set of passing ids; the display is the old display overwritten by `Expected`; old entries keep their handles; new entries have fresh handles |
| MarkerSync.Synchronizer.Visit | script.js:163 | the loop body: a passing project is upserted and its id added to `keep`; every id indexed before the call keeps its handle; a failing project leaves `keep`, the index and the display as they were; a handle indexed at the start of the pass under an id not yet upserted still shows what it showed then |
| MarkerSync.Synchronizer.RemoveHidden | script.js:166 | the loop over the key snapshot removes exactly the indexed ids outside `keep` and touches no handle |
| MarkerSync.Synchronizer.Render | script.js:157-188 | afterwards `keep` and the index keys both equal the passing ids; every marker shows `Expected`; surviving ids keep their handles; a removed marker is left showing what it showed before; the list is `Filtered`; a fit is requested iff `keep` is non-empty, and it covers the passing positions |
| MarkerSync.Synchronizer.FitToVisible | script.js:185-188 | a fit is requested iff `keep` is non-empty, over the positions of all indexed markers |
| MarkerSync.Synchronizer.FlyTo | script.js:191-194 | an unknown id yields no request; a known id yields its marker's position and popup |
| Charleston.DatasetIdsUnique | script.js:2-77 | the six demo ids are pairwise distinct |
| Charleston.DatasetIds | script.js:2-77 | the demo ids are CHS-001 to CHS-006 |
| Charleston.EverythingPassesAll | script.js:150-155 | with both statuses and all five categories checked, every demo project passes |
| Charleston.EverythingListsAll | script.js:169 | with every box checked, the list is the whole dataset in order |
| Charleston.EverythingShowsAll | script.js:162-166 | with every box checked, all six ids get a marker |
| Charleston.ActiveOnlyListsThree | script.js:169 | narrowed to "active", the list is the seawall, the bridge and the airport, in that order |
| Charleston.ActiveOnlyShowsThree | script.js:162-166 | narrowed to "active", exactly CHS-001, CHS-004 and CHS-005 keep a marker |
| Charleston.ActiveOnlyListedIds | script.js:169 | narrowed to "active", the listed ids are CHS-001, CHS-004, CHS-005 in that order |
| Charleston.SeawallKeepsItsHandle | script.js:119-124 | across the render with every box checked and the narrowing, the seawall marker is the same handle |
| Charleston.BridgeMarkerAfterNarrowing | script.js:118-130 | after the narrowing the bridge marker is blue, at the bridge, with the bridge's popup |
| Charleston.PlannedHiddenAfterNarrowing | script.js:191-194 | after the narrowing the planned I-526 project has no marker, so flying to it does nothing |

## Left out

- The Leaflet map, tile layer and layer group (script.js:80-86) are not modelled. Attaching a marker to the layer and detaching it are modelled only as membership in the index.
- `makeDivIcon` and its DOM styling (script.js:93-102) are not modelled. A marker's icon is represented by its colour.
- The popup HTML and list-card HTML, including `toLocaleString` money formatting (script.js:104-116, 170-182), are not modelled. A popup is represented by the record it was rendered from, and the list by the sequence of listed records.
- Name, budget, dates, links and description are left out of the project record, because only those templates use them.
- `getFilters` (script.js:143-148) reads the DOM. The filter is a parameter of `Render`. The options the page's controls offer are defined in the HTML page, which is not part of this model.
- The `fitBounds` geometry, its 0.2 padding and its animation flag (script.js:186-187) are not modelled. A fit is represented by the set of marker positions it must cover.
- The flyTo zoom level, the animation duration and `openPopup` (script.js:193) are not modelled. A fly-to request is a value holding the centre and the popup.
- The event wiring and the initial `render()` call (script.js:197, 200) are UI plumbing and are not modelled.
- Coordinates are exact reals and are only compared and collected. No floating-point arithmetic happens on them.
- MarkerSync.Synchronizer.RemoveHidden: the source walks the key snapshot in insertion order, while the model removes the snapshot's ids in an unspecified order. The postcondition holds for every order, so the result does not depend on it.
- MarkerSync.Synchronizer.Render: the statement that the fit covers the passing positions is made only when ids are unique. With a repeated id, the single marker for that id shows the last passing record, and the fit covers that record's position.

## Findings

| source | as written | input that shows it | evidently intended | confidence | as-written member | corrected member |
|---|---|---|---|---|---|---|
| script.js:91 | the property lookup `colors[category]` before the "gray" fallback also finds the members every object inherits from `Object.prototype`, so such a category gets a function (or the prototype object) instead of a colour string | a project with category "toString" (likewise "constructor", "valueOf", "__proto__") | every category outside the five listed ones is drawn "gray" | not executed | Colors.MarkerColorAsWritten | Colors.MarkerColor |

`Colors.AsWrittenMissesFallback` exhibits the case. `Colors.AsWrittenAgreesOffPrototype` shows that the two lookups agree on every other category. The markers use `Colors.MarkerColor`.
