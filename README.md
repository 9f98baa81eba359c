# karma UI: filter history and alert-row bookkeeping, in Dafny

This project models the data bookkeeping of three files of karma's web UI,
the dashboard for Prometheus Alertmanager alerts:

- **Filter history** (`ui/src/Components/NavBar/FilterInput/History.tsx`).
  Each time the applied filters change, the applied, valid filters that have
  a value are reduced to `{raw, name, matcher, value}` records. If any
  remain, that set is put at the head of a most-recent-first history. Every
  older copy of the set is removed and the list is cut at eight entries. The
  store is written only when the list actually changed. The menu lists the
  first four (mobile) or eight entries. Choosing one hands its raw filter
  texts back to the filter input. "Clear history" empties the list.
  (`History.dfy`: the class `HistoryStorage` with its `filters` field, plus
  the pure functions `Candidate` and `NewHistory` and lemmas about them.)
- **Alert row** (`ui/src/Components/Grid/AlertGrid/AlertGroup/Alert/index.tsx`).
  A loop over the alert's alertmanagers collects three things. The first is
  the distinct clusters. The second is the distinct inhibiting fingerprints,
  both in order of first appearance. The third is, per cluster, the silences
  of the first alertmanager of that cluster, without repeats and without the
  silences the whole group shares. Around the loop are the border class and
  the filters that decide which annotations and cluster labels are shown.
  (`AlertView.dfy`: the method `CollectAlertmanagers` with nested loops,
  proved against the functions `Clusters`, `InhibitedBy` and `SilenceMap`.)
- **Alert menu** (`ui/src/Components/Grid/AlertGrid/AlertGroup/Alert/AlertMenu.tsx`).
  The menu lists the alert's action links, then the group's shared action
  links. It also has a "Silence this alert" item. That item is disabled when
  no alertmanager cluster is writable. Otherwise it opens the silence form
  with the writable clusters that the alert belongs to.
  (`AlertMenu.dfy`.)

`Seqs.dfy` holds the JavaScript array idioms these files use, with their
lemmas:
- `filter` is `Keep`, and `KeepPositions` shows it selects exactly the
  satisfying positions, in order.
- `map` is `MapSeq`, and `slice(0, n)` is `Take`.
- The push-if-not-included loop and `Array.from(new Set(xs))` are both
  `Dedup`. `DedupFirstAppearance` shows it keeps first-appearance order.

`ApiTypes.dfy` holds the API payload fields the view reads. `Wrappers.dfy`
holds `Option`.

Two filter records, or two filter sets, count as the same history entry when
their `JSON.stringify` strings are equal. The records have fixed keys in a
fixed order and string values. `name` may be absent for fuzzy filters, and
an absent name is serialised differently from an empty one. So
serialisation is injective here, and the model compares values directly.
`name` is an `Option<string>`.

Three facts of the code shape the model:
- Recording removes only the copies of the set being recorded. So "no
  repeats" is proved as an invariant that recording preserves
  (`RecordPreservesWellFormed`). It is not proved for arbitrary stored data.
- `name` may be absent for fuzzy filters.
- The alert row keeps its per-cluster silences in a plain object and tests
  `!silences[cluster]` before adding an entry. That lookup also finds the
  properties every object inherits (`constructor`, `toString`, `__proto__`
  and the like), which are truthy. So a cluster with one of those names
  never gets an entry, and its silences are not rendered. The model lists
  those names in `AlertView.InheritedNames` and skips them the same way.

## Model

| member | source | states |
|---|---|---|
| `History.ReduceFilterKeepsStoredFields` | ui/src/Components/NavBar/FilterInput/History.tsx:42-49 | the reduced record has `raw`, `name`, `matcher` and `value` of the filter unchanged; two filters reduce alike exactly when they agree on those four fields, whatever their applied/valid flags |
| `History.CandidateExact` | ui/src/Components/NavBar/FilterInput/History.tsx:222-224 | the candidate is the reductions of exactly the filters that are applied, valid and have a non-empty value, in their original order (an increasing index list covering exactly those positions) |
| `History.CandidateEmpty` | ui/src/Components/NavBar/FilterInput/History.tsx:222-227 | the candidate is empty exactly when no filter is applied, valid and non-empty, the case in which nothing is recorded |
| `History.NewHistory` | ui/src/Components/NavBar/FilterInput/History.tsx:233-238 | the new history has between 1 and 8 entries, the candidate first and nowhere else, and every other entry comes from the old history |
| `History.MoveToFront` | ui/src/Components/NavBar/FilterInput/History.tsx:233-238 | when the candidate is at position k of a repeat-free history, the result is the candidate followed by the history without position k, cut at 8 |
| `History.InsertFresh` | ui/src/Components/NavBar/FilterInput/History.tsx:233-238 | a candidate not in the history is pushed on top, and with 8 entries already the oldest one is dropped |
| `History.Survivors` | ui/src/Components/NavBar/FilterInput/History.tsx:235-238 | for any old history, the entries after the head are old entries different from the candidate in their old relative order; an old entry different from the candidate is missing only when the result is full and the entry comes after all survivors |
| `History.RecordPreservesWellFormed` | ui/src/Components/NavBar/FilterInput/History.tsx:233-238 | recording a non-empty candidate into a history of at most 8 distinct non-empty sets gives again at most 8 distinct non-empty sets |
| `History.RecordAtHead` | ui/src/Components/NavBar/FilterInput/History.tsx:233-243 | recording the set that already heads the history (with no other copy, at most 8 entries) computes the same history, so the store is not written |
| `History.RecordIdempotent` | ui/src/Components/NavBar/FilterInput/History.tsx:233-238 | recording the same candidate twice in a row gives the same history as recording it once |
| `History.ScenarioReuse` | ui/src/Components/NavBar/FilterInput/History.tsx:233-238 | applying a=1, then b=2, then a=1 leaves the history [[a=1], [b=2]] |
| `History.HistoryStorage.constructor` | ui/src/Components/NavBar/FilterInput/History.tsx:172-181 | a new store holds the empty history |
| `History.HistoryStorage.SetFilters` | ui/src/Components/NavBar/FilterInput/History.tsx:183-185 | the stored list becomes exactly the given list |
| `History.HistoryStorage.Record` | ui/src/Components/NavBar/FilterInput/History.tsx:217-243 | an empty candidate leaves the store unchanged; otherwise the store holds the new history with the candidate first and at most 8 entries; it is written exactly when the list changes; a well-formed history stays well-formed |
| `History.HistoryStorage.Clear` | ui/src/Components/NavBar/FilterInput/History.tsx:275-277 | the store holds the empty history, whatever it held before |
| `History.HistoryStorage.Displayed` | ui/src/Components/NavBar/FilterInput/History.tsx:93-113 | the menu lists a prefix of the history of at most 4 (mobile) or 8 entries, all of it when shorter, and nothing exactly when the history is empty |
| `History.HistoryStorage.Reapply` | ui/src/Components/NavBar/FilterInput/History.tsx:113-119 | choosing listed entry `index` hands back the raw texts of that set's filters, one per filter, in order |
| `AlertView.BorderClass` | ui/src/Components/Grid/AlertGrid/AlertGroup/Alert/index.tsx:49 | the border class is the mapped class for the alert state when the map gives a non-empty one, else `border-default`; never empty |
| `AlertView.CollectAlertmanagers` | ui/src/Components/Grid/AlertGrid/AlertGroup/Alert/index.tsx:52-85 | the loop's three results are exactly `Clusters`, `InhibitedBy` and `SilenceMap` of the alert's alertmanagers, where the silence object's lookup also finds inherited property names |
| `AlertView.ClustersExact` | ui/src/Components/Grid/AlertGrid/AlertGroup/Alert/index.tsx:58-63 | `clusters` names every alertmanager's cluster, exactly once, in order of first appearance |
| `AlertView.FingerprintsMembers` | ui/src/Components/Grid/AlertGrid/AlertGroup/Alert/index.tsx:64-68 | a fingerprint is met by the inner loop exactly when some alertmanager lists it |
| `AlertView.InhibitedByExact` | ui/src/Components/Grid/AlertGrid/AlertGroup/Alert/index.tsx:59-68 | `inhibitedBy` holds every alertmanager's inhibiting fingerprints, each once, in order of first appearance |
| `AlertView.OwnSilencesExact` | ui/src/Components/Grid/AlertGrid/AlertGroup/Alert/index.tsx:72-82 | a cluster's silence list has no repeats, holds exactly the alertmanager's silences that the group does not share in that cluster, and lists them in order of first appearance among those silences |
| `AlertView.SilenceMapKeys` | ui/src/Components/Grid/AlertGrid/AlertGroup/Alert/index.tsx:69-84 | the silence map has a key for every alertmanager's cluster whose name is not inherited from `Object.prototype`, and no other |
| `AlertView.SilenceMapFirstWins` | ui/src/Components/Grid/AlertGrid/AlertGroup/Alert/index.tsx:69-84 | a cluster's entry is built from the first alertmanager of that cluster; a cluster named like an inherited property has no entry |
| `AlertView.SilenceMapStable` | ui/src/Components/Grid/AlertGrid/AlertGroup/Alert/index.tsx:69-84 | alertmanagers met later never change an entry that is already there |
| `AlertView.NonLinkAnnotationsExact` | ui/src/Components/Grid/AlertGrid/AlertGroup/Alert/index.tsx:90-92 | the non-link annotations shown are exactly those that are not links and are visible or not restricted to expanded ones, in original order |
| `AlertView.ClusterLabels` | ui/src/Components/Grid/AlertGrid/AlertGroup/Alert/index.tsx:123-125 | cluster labels appear only with more than one upstream cluster, and then exactly for the alert's clusters the group does not share, without repeats |
| `AlertView.LinkAnnotationsExact` | ui/src/Components/Grid/AlertGrid/AlertGroup/Alert/index.tsx:142-144 | the rendered link annotations are exactly the links that are not actions, in original order |
| `AlertMenu.Actions` | ui/src/Components/Grid/AlertGrid/AlertGroup/Alert/AlertMenu.tsx:81-88 | every action is a link and an action, and an annotation is listed exactly when it is an action link of the alert or of the group |
| `AlertMenu.ActionsExact` | ui/src/Components/Grid/AlertGrid/AlertGroup/Alert/AlertMenu.tsx:81-88 | the list splits into the alert's action links in their order followed by the group's action links in their order |
| `AlertMenu.SilenceFormClusters` | ui/src/Components/Grid/AlertGrid/AlertGroup/Alert/AlertMenu.tsx:40-47 | the form's cluster map has exactly the writable clusters that some alertmanager of the alert belongs to, each with its member list unchanged |
| `AlertMenu.SilenceItemDisabled` | ui/src/Components/Grid/AlertGrid/AlertGroup/Alert/AlertMenu.tsx:138-143 | the silence item is disabled exactly when there is no writable cluster |
| `AlertMenu.ClickSilenceItem` | ui/src/Components/Grid/AlertGrid/AlertGroup/Alert/AlertMenu.tsx:144-149 | clicking does nothing exactly when the item is disabled; otherwise it opens the form with the alert's writable clusters and their members |

## Left out

- Rendering is not modelled: JSX, CSS classes other than the border fallback, icons, dropdown animation, click-outside handling, and menu open/close state.
- Floating-UI placement (`useFloating`, `shift`, `flip`, `offset`, `size`) and `maxHeight` are not modelled. They are geometry done by a foreign library.
- MobX reactivity is not modelled. `HistoryStorage.Record` is called directly where the source's `autorun` would run it.
- `localStored` persistence is not modelled: the 100 ms debounced write, the load at start-up, and the fallback to empty on malformed data. The store is an in-memory field that starts empty.
- `IsMobile()` becomes a boolean parameter, and `BorderClassMap` a map parameter.
- The number of upstream clusters is the map `upstreamClusters`. Its keys are what `Object.keys(...).length` counts.
- The silence form calls are not modelled (`resetProgress`, `fillMatchersFromGroup`, `AlertmanagerClustersToOption`, `setTab`, `show`). They are foreign code. `ClickSilenceItem` returns the cluster map it would hand over.
- The saved-filter buttons are not modelled (`savedFilters.save` and `clear`). They are foreign code.
- "Copy to clipboard" and `alertToJSON` are not modelled. They are foreign code.
- `AlertView.SilenceMap` does not model the order of the silence object's keys. It is a Dafny map, which has no order. That order only decides the order in which silences are rendered.
- `History.HistoryStorage.Reapply` stops at the raw texts. Parsing them again in the filter store is foreign code.
- The "Alert source links" list, alert labels and the receiver label are not modelled. They render fields one by one with no rule attached.
