# Submission-state reconciliation of the code-golf hole editor

This project models the client-side state engine of the code-golf hole
editor (`js/hole-ng.tsx`). It keeps three sources of code in agreement:

- the server's best solutions, one dictionary per metric (Bytes and Chars)
  from language to code;
- the per-device autosave drafts in `localStorage`, keyed
  `code_${hole}_${lang}_${metric}`;
- the editor buffer.

It acts under a small session state: the active language, the active
metric (`solution`), `savedInDB` (true on a non-experimental hole until
a submission's reply reports whether the golfer is logged in) and the number of the latest submission.

Modules:

- `Wrappers` (`wrappers.dfy`) holds `Option` and JavaScript truthiness of a
  `string | null`.
- `Metrics` (`metrics.dfy`) holds the two metrics, `getOtherScoring`, the
  stroke counts and the reading of the remembered metric at page load.
- `LocalStorage` (`local_storage.dfy`) models `localStorage` as a whole
  string-to-string map, including the global `lang` and `solution` keys. It
  also builds the draft key exactly as the source does, and proves that key
  injective within one hole.
- `Reconcile` (`reconcile.dfy`) holds every rule as a function on values:
  language resolution, metric auto-correction, the display priority, the
  autosave rule, the picker condition, the restore link, and the two loops
  of the submission merge as folds over the metrics. Lemmas state what each
  rule promises.
- `Sessions` (`session.dfy`) holds the class `Session`. Its fields are the
  module-level variables of the source, the `solutions` dictionaries, the
  store and the editor buffer. Each handler is a method whose postcondition
  ties the new state to the `Reconcile` functions. The two loops of `submit`
  are `for` loops with invariants, as in the source.
- `Layout` (`layout.dfy`) holds `rowCount` and `mutateDeep` over a small
  layout-item datatype. JavaScript's `Math.max()` of nothing (`-Infinity`) and
  `reduce` on an empty array (a `TypeError`) are written out.

Modelling choices:

- A submission takes two steps. `BeginSubmit` numbers the request and
  captures its code and language. `OnResponse` handles the reply: the HTTP
  status, the verdict and `LoggedIn`.
- CodeMirror's `editor.dispatch()` inside `setState` runs the editor's
  `dispatch` handler. Loading code therefore runs the autosave rule on it.
  `Session.Dispatch` models both a user edit and that load.
- The editor is taken to exist from page load. The first `onhashchange`, which
  runs before the editor exists, and the `setCodeForLangAndSolution` call
  made when it is created are folded into the constructor.
- `byteLen` and `charLen` come from `./_util`, which is not part of this
  model. They are defined here as the UTF-8 length of the code and the number
  of Unicode scalar values in it.

Behaviour of the source worth noting, which the model keeps:

- A reply that has been superseded still sets `savedInDB` from its `LoggedIn`
  field before the staleness check (js/hole-ng.tsx:348-351). It is not
  discarded entirely.
- An anonymous session's drafts are rewritten after a submission. Each
  metric's draft gets that metric's server solution, which is not always the
  submitted code. The Chars draft is dropped when the two server solutions
  are equal, whatever the old Chars draft held.
- With `savedInDB`, a draft is removed after a submission when it equals
  either server solution, whichever metric it belongs to.
- With `savedInDB`, restoring the server code clears a now-redundant draft
  at once, through the `dispatch` run by `setState`, not on the next edit.
  Anonymously, the same `dispatch` makes the server code the draft, unless it
  is the example.
- `savedInDB` starts as `!experimental` for every golfer. While no server
  code exists this makes no difference to autosaving (js/hole-ng.tsx:71-78).
- Nothing handles a full store: a `setItem` that fails is not caught.

## Model

| member | source | states |
|---|---|---|
| `Metrics.Other` | js/hole-ng.tsx:137-139 | the other metric is never the input, and its index is one minus the input's |
| `Metrics.OtherInvolution` | js/hole-ng.tsx:137-139 | applying `getOtherScoring` twice gives back the input |
| `Metrics.Name` | js/hole-ng.tsx:295 | `scorings[i]`: the two names, `Bytes` exactly for the Bytes metric |
| `Metrics.Score` | js/hole-ng.tsx:141-143 | `getScoring`: the Chars score is the character count, and a score is 0 exactly for empty code |
| `Metrics.IndexOfStored` | js/hole-ng.tsx:33 | as written: the index is -1 exactly when a stored name other than `Bytes` or `Chars` is present |
| `Metrics.IndexOfStoredOutOfRange` | js/hole-ng.tsx:33 | a stored `"bytes"` gives index -1, which is not a metric |
| `Metrics.StoredMetric` | js/hole-ng.tsx:33 | corrected reading: `Chars` only for a stored `"Chars"`, otherwise Bytes; agrees with `indexOf` whenever that finds the name |
| `Metrics.StoredMetricRoundTrip` | js/hole-ng.tsx:291-296 | the name `setSolution` stores reads back as the same metric at the next page load |
| `Metrics.ByteLenBounds` | js/hole-ng.tsx:141-143 | a code's byte score lies between its char score and four times it |
| `Metrics.ByteLenIsCharLenIffAscii` | js/hole-ng.tsx:141-143 | the Bytes and Chars scores tie exactly when the code is ASCII |
| `Metrics.ByteLenAppend` | js/hole-ng.tsx:141-143 | the byte score of a concatenation is the sum of the byte scores |
| `LocalStorage.GetItem` | js/hole-ng.tsx:179-180 | `getItem` answers `null` exactly for an absent key, else the stored value |
| `LocalStorage.SetItem` | js/hole-ng.tsx:528-529 | after `setItem` the key reads back the value and no other key changes |
| `LocalStorage.RemoveItem` | js/hole-ng.tsx:530-531 | after `removeItem` the key reads `null` and no other key changes |
| `LocalStorage.RemoveItemIdempotent` | js/hole-ng.tsx:530-531 | removing a key twice is removing it once |
| `LocalStorage.SameReads` | js/hole-ng.tsx:528-531 | two stores that answer every read alike are equal |
| `LocalStorage.AutoSaveKey` | js/hole-ng.tsx:133-135 | `code_${hole}_${lang}_${digit}`: its length is the parts' lengths plus eight, and it starts with `c` |
| `LocalStorage.AutoSaveKeyInjective` | js/hole-ng.tsx:133-135 | within one hole, equal draft keys mean the same language and metric |
| `LocalStorage.AutoSaveKeyNotGlobal` | js/hole-ng.tsx:133-135 | a draft key is never the global `lang` or `solution` key |
| `LocalStorage.MetricKeysDistinct` | js/hole-ng.tsx:133-135 | the Bytes and Chars draft keys of a language differ |
| `Reconcile.SolutionCode` | js/hole-ng.tsx:145-147 | `''` when the language has no solution for the metric; the stored solution when it has one |
| `Reconcile.Solutions.With` | js/hole-ng.tsx:357 | assigning `solutions[m][lang]` changes that dictionary at that language only and leaves the other metric's alone |
| `Reconcile.ResolveLang` | js/hole-ng.tsx:84-87 | a known fragment wins; an unknown fragment falls back to python; an empty fragment uses a known remembered language, else python; when python is registered, the result is always in the registry |
| `Reconcile.CorrectedMetric` | js/hole-ng.tsx:269-274 | the metric changes only from Chars to Bytes, and exactly when the two server codes are equal and only the Bytes draft is non-empty |
| `Reconcile.DisplayedCode` | js/hole-ng.tsx:276-277 | the shown code is one of the three sources, and is empty only when all three are |
| `Reconcile.DisplayPriority` | js/hole-ng.tsx:276-277 | the shown code is the first non-empty of draft, server code, example (the example when all are empty); a non-empty draft always wins |
| `Reconcile.WorthSaving` | js/hole-ng.tsx:528 | the edited code is non-empty, differs from the server code or is not saved in the database, and differs from the example (a predicate; `AutoSaveOutcome` states its effect) |
| `Reconcile.AutoSaved` | js/hole-ng.tsx:525-531 | the autosave run touches only the active draft key |
| `Reconcile.AutoSaveOutcome` | js/hole-ng.tsx:523-531 | after an edit the draft key holds the code iff it is non-empty, differs from the server code or is not saved in the database, and differs from the example; otherwise the key is absent |
| `Reconcile.AutoSavedDraftIsUseful` | js/hole-ng.tsx:523-531 | a surviving draft is the code, non-empty, not the example, and not the server code while saved in the database |
| `Reconcile.AutoSaveIgnoresSavedInDBWithoutServerCode` | js/hole-ng.tsx:71-78 | with no server code, the autosave rule gives the same store whether `savedInDB` holds or not, as line 528 implies |
| `Reconcile.AutoSaveIdempotent` | js/hole-ng.tsx:523-531 | running the autosave rule twice on the same edit equals running it once |
| `Reconcile.ShowPicker` | js/hole-ng.tsx:182-185 | the four conflict conditions of `refreshScores` with JavaScript truthiness (a predicate; the four lemmas below state what it means) |
| `Reconcile.PickerSymmetric` | js/hole-ng.tsx:182-185 | swapping each Bytes source with its Chars source and the active metric leaves the picker decision unchanged |
| `Reconcile.PickerOnServerConflict` | js/hole-ng.tsx:182 | two different non-empty server solutions always show the picker |
| `Reconcile.PickerHiddenWhenAllAgree` | js/hole-ng.tsx:182-185 | when all non-empty sources hold the same code the picker is hidden |
| `Reconcile.PickerMeansTwoCodes` | js/hole-ng.tsx:182-185 | a shown picker has at least two different non-empty codes among the four sources |
| `Reconcile.DeleteHidden` | js/hole-ng.tsx:211 | the delete button shows exactly on a non-experimental hole with a server solution for some metric |
| `Reconcile.PickerEntry` | js/hole-ng.tsx:186-203 | an option shows its metric's server score exactly when that solution exists, and is clickable exactly when it is not the active metric |
| `Reconcile.RestoreLinkVisible` | js/hole-ng.tsx:446-447 | the link shows unless the server has no code or the buffer holds it (a predicate; `RestoreHidesLink` states its use) |
| `Reconcile.RestoreHidesLink` | js/hole-ng.tsx:444-448 | loading the server code hides the restore link; with `savedInDB` the autosave run then removes the draft, and without it a non-empty server code other than the example becomes the draft |
| `Reconcile.PassStep` | js/hole-ng.tsx:354-365 | one metric of the merge: nothing changes unless the code is no worse; if so, that metric's solution becomes the code and that metric's draft is removed exactly when `savedInDB` holds and the draft is the code; no other key changes |
| `Reconcile.PassLoop` | js/hole-ng.tsx:353-366 | the first `n` iterations of the loop over `[0, 1]`, one `PassStep` per metric in order (no contract of its own; `MergePerMetric` and `EvictedRule` state what it yields) |
| `Reconcile.Merged` | js/hole-ng.tsx:353-366 | the solutions after the first loop (no contract of its own; see `MergePerMetric`) |
| `Reconcile.Evicted` | js/hole-ng.tsx:353-366 | the drafts after the first loop (no contract of its own; see `EvictedRule`) |
| `Reconcile.EvictedRule` | js/hole-ng.tsx:353-366 | per metric, the first loop removes the draft exactly when `savedInDB` holds, the code replaced that metric's solution and the draft is the code; no key outside the language's two drafts changes |
| `Reconcile.AnonymousMergeKeepsDrafts` | js/hole-ng.tsx:362-363 | without `savedInDB` the first loop leaves the store exactly as it was |
| `Reconcile.Improves` | js/hole-ng.tsx:356 | the code replaces a missing solution or one it scores no worse than (a predicate; `MergeReplaces` and `MergeNeverWorsens` state its effect) |
| `Reconcile.MergePerMetric` | js/hole-ng.tsx:353-366 | each metric's dictionary gets the code at the submitted language iff there was no solution or the code scores no worse; every other entry is unchanged |
| `Reconcile.MergeReplaces` | js/hole-ng.tsx:356-357 | a code that scores no worse, ties included, becomes that metric's solution |
| `Reconcile.MergeNeverWorsens` | js/hole-ng.tsx:356-357 | an existing solution's score never increases through a merge |
| `Reconcile.CacheStep` | js/hole-ng.tsx:369-388 | the draft clean-up for one metric touches only that metric's draft key |
| `Reconcile.CacheLoop` | js/hole-ng.tsx:368-389 | the first `n` iterations of the second loop, one `CacheStep` per metric in order (no contract of its own; see `CleanedUpRule`) |
| `Reconcile.CleanedUp` | js/hole-ng.tsx:368-389 | the drafts after the second loop (no contract of its own; see `CleanedUpRule`) |
| `Reconcile.CacheRule` | js/hole-ng.tsx:370-388 | the per-key outcome of the second loop as a reference definition: with `savedInDB`, drop a draft equal to either solution; otherwise write the metric's solution unless it is the Chars copy of the Bytes solution or the example, which drop the draft; no solution leaves the draft alone |
| `Reconcile.CleanedUpRule` | js/hole-ng.tsx:368-389 | per metric: with `savedInDB`, a draft equal to either solution is removed and others stay; otherwise an existing solution is written as the draft unless it is the Chars copy of the Bytes solution or the example, which remove the draft; with no solution the draft is left alone; no other key changes |
| `Reconcile.LoggedInDropsRedundantDrafts` | js/hole-ng.tsx:370-378 | with `savedInDB`, every draft left differs from both solutions and is the draft from before |
| `Reconcile.AnonymousNoSpuriousPicker` | js/hole-ng.tsx:379-388 | anonymously, with both solutions present, the rewritten drafts show the picker exactly when the two solutions differ |
| `Reconcile.EvictionSubsumed` | js/hole-ng.tsx:359-363 | the draft removal inside the first loop does not change the final drafts, because the second loop removes them too |
| `Reconcile.AutoSwitch` | js/hole-ng.tsx:394-396 | the metric changes only to the other metric, and exactly on a pass where the active metric's solution is not the code and the other metric's is |
| `Reconcile.AutoSwitchLands` | js/hole-ng.tsx:391-396 | when the code became either metric's solution, the active metric afterwards is one whose solution it is |
| `Sessions.Session.constructor` | js/hole-ng.tsx:31-101 | page load: the remembered metric read with the corrected `Metrics.StoredMetric` (so the as-written throw for an unknown stored name is not part of the session model), `savedInDB = !experimental`, submission number 0, the snapshot of solutions, then the language selection, the picker and delete flags from the stored drafts, the displayed code, the `lang` and `solution` keys, and the autosaved draft; no other key changes |
| `Sessions.Session.SetSolution` | js/hole-ng.tsx:291-296 | the metric becomes `m` and its name is stored under the `solution` key |
| `Sessions.Session.Dispatch` | js/hole-ng.tsx:501-536 | the buffer becomes the code, the store is the autosave rule applied to the old store, and the restore link is recomputed |
| `Sessions.Session.UpdateRestoreLinkVisibility` | js/hole-ng.tsx:444-448 | the link shows exactly when a server code exists and the buffer differs from it |
| `Sessions.Session.RefreshScores` | js/hole-ng.tsx:168-212 | the picker flag is the four-way conflict condition on the current sources; the delete-button flag follows the same sources |
| `Sessions.Session.SetCodeForLangAndSolution` | js/hole-ng.tsx:268-289 | the metric is auto-corrected, the buffer gets the code the display priority picks, and the store is the autosave rule applied after the `solution` write |
| `Sessions.Session.PickSolution` | js/hole-ng.tsx:193-199 | a picker click selects the metric, and the display then runs as above |
| `Sessions.Session.Restore` | js/hole-ng.tsx:567-570 | the buffer becomes the server code, the link hides, and with `savedInDB` the draft is gone |
| `Sessions.Session.SelectLanguage` | js/hole-ng.tsx:83-99 | the resolved language is selected, assembly forces Bytes, the language is remembered, and the picker is refreshed |
| `Sessions.Session.OnHashChange` | js/hole-ng.tsx:83-101 | language resolution, Bytes for assembly, and picker and display computed from the old drafts; only the `lang`, `solution` and active draft keys change |
| `Sessions.Session.BeginSubmit` | js/hole-ng.tsx:322-339 | the submission number grows by one and the request carries it with the buffer and the language |
| `Sessions.Session.MergePass` | js/hole-ng.tsx:353-366 | the first loop yields exactly the merge fold over both metrics |
| `Sessions.Session.CleanUpDrafts` | js/hole-ng.tsx:368-389 | the second loop, with its inner loop over both solutions, yields exactly the clean-up fold |
| `Sessions.Session.ApplyCurrentReply` | js/hole-ng.tsx:353-399 | for the latest request: merge a pass, clean up the drafts, switch the metric and write its name if it switched, then recompute the restore link, picker and delete flags |
| `Sessions.Session.OnResponse` | js/hole-ng.tsx:341-400 | non-200: alert, nothing changes; 200: `savedInDB` follows the reply; stale: nothing else changes; current: merge, draft clean-up, metric auto-switch, restore link and picker recomputed |
| `Sessions.SupersededReplyIsDiscarded` | js/hole-ng.tsx:330-351 | the reply to an earlier submission, arriving after a later one was sent, leaves solutions, drafts and metric alone |
| `Layout.RowCount` | js/hole-ng.tsx:914-920 | a row is its tallest child, a column its children summed, anything else one row; a throwing child throws (no contract of its own; the lemmas below state its properties) |
| `Layout.RootRowCount` | js/hole-ng.tsx:912-913 | an undefined root counts 0 rows |
| `Layout.EmptyContainers` | js/hole-ng.tsx:914-917 | an empty row counts `-Infinity` and an empty column throws |
| `Layout.RowCountWellFormed` | js/hole-ng.tsx:912-920 | when every row and column has a child, the count is a whole number of at least one |
| `Layout.MobileRowCountIsPanels` | js/hole-ng.tsx:912-920 | after the mobile rewrite of a well-formed layout, the row count is the number of panels |
| `Layout.MutateDeep` | js/hole-ng.tsx:840-848 | an item's type becomes column for a mobile row and stays otherwise; `reorderEnabled` becomes `!isMobile`; the child count is kept |
| `Layout.MutateDeepSetsReorder` | js/hole-ng.tsx:844-847 | every item in the rewritten tree has `reorderEnabled == !isMobile` |
| `Layout.MutateDeepMobileHasNoRows` | js/hole-ng.tsx:841-843 | the mobile rewrite leaves no row anywhere |
| `Layout.MutateDeepDesktopKeepsKinds` | js/hole-ng.tsx:840-848 | the desktop rewrite keeps the tree's shape and every item's type |
| `Layout.MutateDeepIdempotent` | js/hole-ng.tsx:840-848 | rewriting twice for one mode equals rewriting once |

## Left out

- Golden Layout panel management (pool items, drag sources, mobile toggling, touch-handler patching): library plumbing. Only the two pure tree functions are modelled.
- DOM rendering and event wiring: this covers the language-picker markup and its stroke text, alerts, the delete dialog, the read-only output panels, achievement popups, the Hexagony link, the julia-set images and the stroke counter. `tooltip` is left out too, since it only renders rankings rows and uses `comma` (`toLocaleString`). The model keeps the flags for the picker, the delete button and the restore link, and each picker option's score and clickability (`Reconcile.PickerEntry`).
- Network I/O: the `fetch` of `submit` is the split into `BeginSubmit` and `OnResponse`. Only the status, `Pass` and `LoggedIn` fields of the reply are modelled; `Out`, `Exp`, `Err`, `Argv` and `Cheevos` only feed the display. The rankings fetch of `populateScores` is not modelled.
- The rankings metric `scoring` (lines 34, 219-265 and 279): it selects the rankings table only.
- CodeMirror state construction in `setState` and the assembly stroke count: the editor is a plain string buffer.
- `history.replaceState` and the keyboard shortcut: URL and key wiring.
- Asynchrony: each handler is one atomic step.
- Storage exhaustion: the source has no handling for a full store, so none is modelled.
- A registry without `python`: when the language cannot be resolved and `python` is not registered, `langs[lang].name` throws at line 89. Every member that selects a language requires `python` to be registered, so this throw is not modelled.
- `Metrics.ByteLenBounds`, `Metrics.ByteLenIsCharLenIffAscii` and `Metrics.ByteLenAppend` describe the assumed definitions of `byteLen` and `charLen`, not code of `js/hole-ng.tsx`. Code is a sequence of Unicode scalar values, so JavaScript strings holding lone surrogates cannot be represented.
- JavaScript prototype properties: `lang in solutions[m]` and `langs[hashLang]` are modelled as own-key lookups. Names such as `constructor` are therefore treated as absent.
- routes/hole.go and js/_inject.js: server-side HTML generation and DOM helpers.
- `Layout.MutateDeep`: modelled on values. The source rewrites the configuration object in place, but that object comes fresh from `saveLayout` and is passed straight to `loadLayout`, so no aliasing is lost.
- `Sessions.Session.OnHashChange`: the picker flag it states is computed before the display step. The picker is not refreshed after the metric correction or the autosave that follow, as in the source.

## Findings

| source | as written | input that shows it | evidently intended | confidence | as-written member | corrected member |
|---|---|---|---|---|---|---|
| js/hole-ng.tsx:33 | the remembered metric is read with `scorings.indexOf(...)`, which gives -1 for a stored value other than `Bytes` or `Chars`; the next `getSolutionCode` then reads `solutions[-1]` and throws (line 34 reads `scoring` the same way) | `localStorage.solution = "bytes"` | an unknown stored name falls back to Bytes, as a missing one does | not executed; medium | `Metrics.IndexOfStoredOutOfRange` | `Metrics.StoredMetric` |
