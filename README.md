# Course add-on and PhoneLab helpers, modelled in Dafny

This project models the client-side state engine of the course's lecture pages
(`course-addon.js`) and the small storage and display helpers of the PhoneLab
pages (`apps/phonelab/assets/app.js`), and proves properties of that model.

The course add-on keeps a student's work in the browser's `localStorage`. It
does this in six steps:

- it takes a snapshot (`DEFAULTS`) of every code editor's authored text before
  anything is restored;
- it restores stored drafts, anti-cheat counters and form fields;
- it autosaves edits through one shared 400 ms debouncer;
- it adds Save and Reset buttons to exercise editors;
- it builds a navigator sidebar from the page's `Figure X.Y: Title` labels and
  exercise cards;
- it copies `DEFAULTS` into the host page's `originalExerciseCode`.

Every key it writes lives under `cs_<PAGE_ID>_`.

Modules, leaf to root:

- `Wrappers` holds `Option`. `Json` models JSON text as an abstract codec, a
  pair of `stringify`/`parse` functions.
- `Text` models the JavaScript string operations the code relies on: the `\s`
  class, `trim`, ASCII `toLowerCase`, `includes`, `startsWith`, and decimal
  numerals.
- `WebStorage` models the origin's `localStorage` as a class. When storage is
  disabled, every call throws.
- `Namespace` derives `PAGE_ID` and `LS_PREFIX` and lays out the keys.
- `Persistence` states the snapshot, restore, counter merge, reset and
  patch steps as functions of values, with lemmas about them.
- `CourseAddon` holds the class `Page`: the running page, with the store
  helpers, boot, the explicit timers, Save, Reset and `patchOriginals`. Each
  method is proved against the `Persistence` functions.
- `Scenarios` holds whole visits: boot, type, let time pass, and reload over
  the same store.
- `Labels` holds the hand-written matcher for the figure-label regular
  expression and the exercise-title rule.
- `NavIndex` collects the figures, groups them by section and renders the list
  of entries. It also pairs scroll targets with nav items.
- `Sidebar` holds the class `Navigator`: search filtering, group-label
  hiding, the single active item, and the open/closed toggle.
- `PhoneLab` holds the week keys, the draft and status store operations,
  `indentPython` and the status chip.

Timers are explicit. `Page.now` is the clock, and each `setTimeout` is a due
time. `Page.Advance(dt)` moves the clock forward and fires every timer that is
due. `confirm` is a boolean parameter of `ResetClicked`.

Behaviours of the code that are easy to miss, and that the model keeps:

- **One shared autosave timer.** The code has a single `debouncedSave` for
  every editor (course-addon.js:246, 256), so an edit in editor B cancels a
  pending save of editor A. `Scenarios.SecondEditorCancelsFirstSave` proves
  that only B's draft is written. Each form field does have its own
  debouncer (course-addon.js:264).
- **Reset writes the default back.** Reset dispatches an `input` event
  (course-addon.js:309) after the autosave listener is attached. About 400 ms
  after the draft key is removed, the key is written again with the default
  text. `Scenarios.ResetAndWait` and `Scenarios.ResetStoresTheDefaultAgain`
  prove the re-save. They also prove that the next visit still shows the
  default, because restore skips a draft equal to `DEFAULTS`.
- **Positional pairing of nav items.** Scroll targets pair the i-th figure
  with the i-th nav item (course-addon.js:499), but the list is rendered
  group by group. `NavIndex.ContiguousPairsCorrectly` proves that the pairing
  is right when each section's figures stand together on the page.
  `NavIndex.InterleavedPairsWrongly` exhibits figures 2.1, 3.1, 2.2, where
  figure 3.1 scrolling into view highlights the item of figure 2.2.
- **Restoring form fields.** Restore sets every field element that exists
  and has a stored value (course-addon.js:215-219), whatever its kind.

## Model

| member | source | states |
|---|---|---|
| Namespace.LastSegment | course-addon.js:33 | `pathname.split("/").pop()`: the suffix of the path after its last `/`, containing no `/` |
| Namespace.StripHtmlExtension | course-addon.js:33 | a segment ending in `.html` (any ASCII case) loses exactly those 5 characters; otherwise one ending in `.htm` loses those 4; otherwise it is unchanged; the result is always a prefix of the segment |
| Namespace.Sanitize | course-addon.js:36 | the result holds only letters, digits and non-adjacent underscores, starts with the title's first character when that is a letter or digit, and is non-empty for a non-empty title |
| Namespace.PageIdShape | course-addon.js:31-37 | PAGE_ID is the path identifier when that is non-empty; otherwise it is the sanitised title cut to its first 40 characters (so at most 40, sanitised, non-empty for a non-empty title); it never contains `/` |
| Namespace.KeysOfOnePageAreDistinct | course-addon.js:39-46 | within one page, the keys `ta_<id>`, `form_<fid>`, `keystrokeCounts` and `pasteAttempts` never collide, and distinct ids give distinct prefixed keys |
| Namespace.PagesCanShareAKey | course-addon.js:39 | across pages the prefix does not separate keys: page `Week` with editor `ta_x` and page `Week_ta` with editor `x` use the same stored key |
| Namespace.SanitizeKeepsAlnum | course-addon.js:36 | a title of letters and digits only is kept unchanged |
| Namespace.SanitizeCollapsesRun | course-addon.js:36 | letters and digits followed by a maximal run of other characters and then the rest: the run becomes exactly one `_` and the rest is sanitised on its own |
| Namespace.DropNonAlnumOfRun | course-addon.js:36 | stripping a run of characters outside `[a-zA-Z0-9]` stops exactly at the first letter or digit after it |
| Namespace.PageIdFromPath | course-addon.js:33-34 | `/w/W1.HTML` gives PAGE_ID `W1` (case-insensitive extension) |
| Namespace.PageIdFromTitle | course-addon.js:36 | a path ending in `/` falls back to the title: `A B` gives `A_B` |
| CourseAddon.Page.Stored | course-addon.js:42 | what `lsGet` sees: the value under `cs_<PAGE_ID>_<key>`, or nothing when storage is unavailable or the key is missing |
| CourseAddon.Page.LsGet | course-addon.js:42 | reads the prefixed key; a throwing store reads as `null` |
| CourseAddon.Page.LsSet | course-addon.js:43 | writes the prefixed key; when the store throws, nothing changes and nothing is raised |
| CourseAddon.Page.LsRemove | course-addon.js:44 | removes the prefixed key; when the store throws, nothing changes |
| CourseAddon.Page.LsGetJSON | course-addon.js:45 | returns `def` when the key is absent or its text does not parse, and the parsed value otherwise |
| CourseAddon.Page.LsSetJSON | course-addon.js:46 | writes the serialised object under the prefixed key, or nothing when the store fails |
| CourseAddon.Page.SaveTextarea | course-addon.js:236-239 | writes `ta_<id>` with the editor's text; an editor without an id leaves the store unchanged |
| CourseAddon.Page.SaveAntiCheat | course-addon.js:241-244 | serialises each counter object the host defines under its key, and no other key changes |
| CourseAddon.Page.CountersWrittenTwice | course-addon.js:241-244 | writing the counters is idempotent: twice is the same as once |
| CourseAddon.RecordDefaults | course-addon.js:181-186 | the `forEach` of the snapshot adds exactly `Snapshot(editors)` to DEFAULTS and the indices of the editors with ids to ALL_EDITORS |
| CourseAddon.Page.SnapshotDefaults | course-addon.js:180-187 | DEFAULTS gains one entry per editor with a non-empty id (its authored text); ALL_EDITORS gains `IdIndices` of them: exactly those editors, in document order by `Persistence.IdIndicesInDocumentOrder` |
| Persistence.Snapshot | course-addon.js:180-187 | the keys of DEFAULTS are exactly the non-empty editor ids |
| Persistence.SnapshotOfUniqueIds | course-addon.js:180-187 | with unique ids, DEFAULTS[id] is that editor's own authored text |
| Persistence.IdIndices | course-addon.js:181-185 | ALL_EDITORS holds every editor with an id, and only those |
| Persistence.IdIndicesInDocumentOrder | course-addon.js:181-185 | ALL_EDITORS is in document order: its editor positions strictly increase |
| Persistence.Restored | course-addon.js:196-201 | an editor takes its stored draft only when one exists and differs from DEFAULTS[id]; otherwise it is unchanged; the id is never changed |
| Persistence.RestoreFromNothing | course-addon.js:196-197 | with an empty store, restore leaves an editor equal to its authored text |
| Persistence.RestoreAfterSave | course-addon.js:196-198 | save then reload: a stored draft `s` is what the editor shows, whether or not `s` equals the default |
| Persistence.RestoreOfDefaultsIsIdentity | course-addon.js:197 | a stored draft equal to the default leaves the authored editor as it is |
| CourseAddon.Page.RestoreEditors | course-addon.js:195-202 | every editor in ALL_EDITORS gets `Restored(...)` of its stored draft; no other editor changes; DEFAULTS is not written |
| CourseAddon.Page.RestoreEditor | course-addon.js:197-201 | one editor takes its stored draft when there is one and it differs from DEFAULTS; every other editor is unchanged |
| Persistence.MergeCounters | course-addon.js:205-212 | merged counters keep exactly the live key set; persisted values overwrite only keys the live object defines, and other live values are kept |
| Persistence.MergeOfSelf | course-addon.js:207 | merging a counter object with itself changes nothing |
| Persistence.MergeExample | course-addon.js:205-208 | persisting `{"ex1": 42}` restores 42 into live counters that define `ex1`, and leaves live counters without `ex1` unchanged |
| CourseAddon.MergeInto | course-addon.js:207 | the `Object.keys(...).forEach` merge loop computes `MergeCounters` |
| CourseAddon.Page.RestoreCounters | course-addon.js:204-212 | each counter object the host defines is merged with its persisted value (or `{}` when that is missing or unparsable); an absent object stays absent |
| CourseAddon.Page.RestoreFieldsOf | course-addon.js:215-219 | a listed field that exists takes its stored value when one is stored; no field is added or removed |
| CourseAddon.Page.RestoreForms | course-addon.js:214-219 | every existing form field with a stored `form_<fid>` value takes that value; the others keep their values |
| CourseAddon.Page.RestoreState | course-addon.js:193-220 | restore of editors, counters and form fields together, as the three relations above |
| CourseAddon.Page.LoadState | course-addon.js:542-543 | snapshot then restore: DEFAULTS is built from the authored text, never from a restored draft |
| CourseAddon.Page.Boot | course-addon.js:541-546 | boot loads state, attaches the autosave listeners, and adds buttons exactly to the exercise editors in a headed figure |
| CourseAddon.Page.AttachControls | course-addon.js:544-545 | after loading, the listeners are attached and the buttons go exactly to the headed exercise editors; the loaded state is kept |
| CourseAddon.Page.WireAutoSave | course-addon.js:254-266 | after wiring, edits, keydowns and form input schedule timers |
| CourseAddon.Page.AddExerciseButtons | course-addon.js:272-275 | Save/Reset go exactly to editors whose id starts with `ex` and whose figure has a header |
| CourseAddon.Page.DispatchInput | course-addon.js:256 | an `input` event on a wired editor with an id replaces the single pending save with one for this editor, 400 ms from now |
| CourseAddon.Page.Input | course-addon.js:256 | an edit changes only that editor's text and restarts the shared debouncer for it |
| CourseAddon.Page.KeyDown | course-addon.js:258 | a keydown adds a counter flush 50 ms later; flushes are never cancelled |
| CourseAddon.Page.FormInput | course-addon.js:262-265 | typing into a form field restarts only that field's own 300 ms timer |
| CourseAddon.Page.Advance | course-addon.js:48 | letting `dt` pass fires exactly the due timers: the shared autosave writes the last caller's draft and the counters, due flushes write the counters, and due form timers write their fields |
| CourseAddon.Page.FireSaves | course-addon.js:246-256 | the due shared autosave writes first, then any due keydown flush writes the counters; the flushes not yet due keep waiting |
| CourseAddon.Page.FireAutosave | course-addon.js:246-252 | the due debounced save writes `ta_<id>` of the editor it was last called for, then the counters, and clears the timer |
| CourseAddon.Page.FireCounterFlushes | course-addon.js:258 | every due keydown flush writes the counters; the flushes not yet due stay pending, in order |
| CourseAddon.Page.FireTimersOf | course-addon.js:264 | each due form-field timer writes that field's current value and is dropped; timers not yet due stay |
| CourseAddon.Page.FireFormTimers | course-addon.js:264 | the form-field timers of all four field ids, as above |
| CourseAddon.Page.SaveClicked | course-addon.js:290-293 | Save writes the draft and the counters at once, without the debouncer |
| CourseAddon.Page.ResetClicked | course-addon.js:305-316 | declined: nothing changes; confirmed: the text becomes `DEFAULTS[id]`, or `""` when that is missing, a save of it is scheduled, `ta_<id>` is removed, counters are zeroed only where defined, both are re-persisted, and DEFAULTS is untouched |
| CourseAddon.Page.ForgetDraft | course-addon.js:310-314 | the store side of a confirmed reset: `ta_<id>` is removed, the counters of `id` are zeroed where defined, and both are written |
| CourseAddon.Page.ZeroCounters | course-addon.js:312-313 | reset zeroes `id` in each counter object only where that object already defines it |
| Persistence.ZeroIfDefined | course-addon.js:312-313 | zeroing keeps the key set; the entry is 0 when defined, and every other entry is unchanged |
| Persistence.PatchedOriginals | course-addon.js:528-535 | every DEFAULTS entry whose id starts with `ex` is copied in; all other entries of `originalExerciseCode` are unchanged |
| CourseAddon.PatchInto | course-addon.js:530-534 | the `forEach` over `Object.keys(DEFAULTS)` computes `PatchedOriginals` |
| CourseAddon.Page.PatchOriginals | course-addon.js:528-535 | a missing `originalExerciseCode` stays missing; otherwise it becomes `PatchedOriginals` of it and DEFAULTS |
| Scenarios.Visit | course-addon.js:541-546 | a visit boots over the shared store: DEFAULTS from the authored editors, editors restored, buttons on every headed exercise editor |
| Scenarios.Wait | course-addon.js:48 | waiting fires the pending autosave only once its 400 ms have passed; before that, the store is unchanged |
| Scenarios.TypeAndWait | course-addon.js:246-256 | on a page whose host defines neither `keystrokeCounts` nor `pasteAttempts`, typing then waiting 400 ms writes that editor's new text under its key, and nothing else (with counter objects, the save also writes them, as `FireAutosave` states) |
| Scenarios.ReloadShowsAutosavedDraft | course-addon.js:193-256 | type, wait, reload: the second visit shows the typed text |
| Scenarios.SecondEditorCancelsFirstSave | course-addon.js:246-256 | typing in A then in B within 400 ms writes only B; the next visit shows B's text and A's authored text |
| Scenarios.TypeIntoTwo | course-addon.js:246-256 | input in editor A and then in editor B, followed by a wait, writes only B's draft |
| Scenarios.TwoEditsThenWait | course-addon.js:48 | two edits less than 400 ms apart: nothing is written 399 ms after the second, and the last text is written 1 ms later |
| Scenarios.EditsWithinTheDelayCoalesce | course-addon.js:48 | the same on a freshly booted page: one write, carrying the last text |
| Scenarios.ResetAndWait | course-addon.js:305-310 | right after a confirmed reset the draft key is gone; 400 ms later it holds the default text again |
| Scenarios.EditThenReset | course-addon.js:305-310 | after edit, wait, reset and wait, the store holds the authored text under the editor's key |
| Scenarios.TypeThenReset | course-addon.js:305-310 | typing, waiting, resetting and waiting leaves DEFAULTS' text stored under the editor's key |
| Scenarios.ResetStoresTheDefaultAgain | course-addon.js:305-310 | after reset and a reload, the editor shows its authored text |
| Labels.MatchTitle | course-addon.js:335 | `\s*(.+)$` then `trim`: matches exactly when the rest after white space has no line terminator; on a string ending in non-space it yields that rest, trimmed and non-empty |
| Labels.MatchLabel | course-addon.js:335-338 | a match requires `Figure` (any ASCII case) followed by white space, and yields a non-empty trimmed one-line title when the text ends in non-space |
| Labels.MatchLabelOfShape | course-addon.js:335-338 | every spelling the pattern accepts (any case of `Figure`, any white-space runs, leading zeros, white space around the colon) with a good title matches, with the two numerals' values and that title |
| Labels.MatchLabelHasShape | course-addon.js:335-338 | conversely, a match means the text is `Figure` in some case, white space, digits, `.`, digits, optional white space, `:`, optional white space and a one-line rest, with section and sub-number the numerals' values and the title the trimmed rest |
| Labels.ParseLabel | course-addon.js:333-341 | a parsed label always carries a non-empty, trimmed, one-line title |
| Labels.ParseLabelShape | course-addon.js:333-341 | a label is indexed exactly when its trimmed text has that shape with a good title, and then it holds the numerals' values and that title |
| Labels.ParseLabelText | course-addon.js:333-341 | `Figure S.U: T` parses back to section S, sub-number U and title T, for every good title |
| Labels.ParseIgnoresSurroundingSpace | course-addon.js:333 | white space around the label text never changes the parse |
| Labels.DropLeadingNumber | course-addon.js:351 | `/^\d+\s*/` removal: a suffix of the input; unchanged when there is no leading digit; otherwise what is removed is the maximal run of digits followed by white space only, and the result does not start with white space |
| Labels.DropNumberThenSpace | course-addon.js:351 | for all digits, any white-space run and a rest that does not continue either run, the removal leaves exactly the rest |
| Labels.ExerciseOf | course-addon.js:347-352 | a card is indexed iff it has a number element; the number is trimmed; a missing title element gives `Exercise <num>` |
| Labels.ExerciseTitleOf | course-addon.js:347-352 | a title element reading digits, white space and a rest shows that rest, trimmed |
| Labels.UnnumberedExerciseTitle | course-addon.js:347-352 | a title element not starting with a digit is only trimmed |
| Labels.NumberedTitle | course-addon.js:351 | a title element reading `<n> <title>` shows `<title>`, for every trimmed title |
| Text.NatToStringRoundTrip | course-addon.js:337-341 | `parseInt` of the numeral that `${section}` prints gives the number back |
| NavIndex.FilterMapSkips | course-addon.js:336 | a label that does not match contributes nothing, wherever it stands |
| NavIndex.FilterMapKeeps | course-addon.js:341 | a matching label contributes exactly its figure, in document order |
| NavIndex.CollectFigures | course-addon.js:331-342 | the collecting loop gives exactly the figures of the parsing labels, in document order |
| NavIndex.CollectExercises | course-addon.js:345-353 | the collecting loop gives exactly the exercises of the cards with a number, in document order |
| NavIndex.GroupBySection | course-addon.js:386-390 | `sectionMap` keys are the sections in first-seen order, and each maps to its figures in document order |
| NavIndex.SectionsDistinct | course-addon.js:386-390 | no section appears twice among the groups |
| NavIndex.SectionListed | course-addon.js:388 | every figure's section gets a group |
| NavIndex.GroupingIsPermutation | course-addon.js:386-421 | the rendered figure order is a permutation of the collected figures |
| NavIndex.ContiguousGroupingKeepsOrder | course-addon.js:386-421 | when each section's figures stand together, group-by-group order equals page order |
| NavIndex.InterleavedSectionsAreReordered | course-addon.js:400-421 | figures 2.1, 3.1, 2.2 are listed 2.1, 2.2, 3.1 |
| NavIndex.GroupTitleShape | course-addon.js:403 | a group title starts with `§` exactly when `sections[N-1]` is a non-empty label, and its numeral reads back as N |
| NavIndex.GroupTitlesDistinct | course-addon.js:403 | two different section numbers never get the same group title |
| NavIndex.RenderFigureGroups | course-addon.js:400-421 | the render loop gives, per section in order, its label followed by its items |
| NavIndex.RenderList | course-addon.js:386-448 | the list is the figure groups, then, when exercises exist, a separator, the `Practice Exercises` label and the exercise items |
| NavIndex.ItemsOfRendered | course-addon.js:498 | the nav items of the list are the grouped figures followed by the exercises |
| NavIndex.Targets | course-addon.js:498-505 | figure i is paired with nav item i; exercise i with item `figCount + i` only when that item exists |
| NavIndex.ContiguousPairsCorrectly | course-addon.js:498-505 | with contiguous sections every target's nav item scrolls to that target's own element |
| NavIndex.PairedByPosition | course-addon.js:498-505 | when the nav items are the figures and then the exercises in page order, each target is paired with its own item |
| NavIndex.InterleavedPairsWrongly | course-addon.js:498-505 | with figures 2.1, 3.1, 2.2, the target of 3.1 is paired with the item of 2.2 |
| Sidebar.CollectTargets | course-addon.js:498-505 | the `allTargets` loops compute `Targets` |
| Sidebar.RenderedItemCount | course-addon.js:498-505 | the list has exactly one nav item per figure and per exercise |
| Sidebar.SearchShown | course-addon.js:479-495 | after a search, every entry keeps its display slot: items by their match, group labels by whether an item in their run matches |
| Sidebar.MatchAheadWitness | course-addon.js:486-493 | a group label stays shown only if a visible item lies in its run before the next label or separator |
| Sidebar.MatchAheadOf | course-addon.js:486-493 | conversely, a visible item in a label's run keeps the label shown |
| Sidebar.RenderedLabelsLeadItems | course-addon.js:400-448 | in the rendered list every group label is directly followed by an item |
| Sidebar.ClearingTheSearchShowsAll | course-addon.js:480-482 | an empty query shows every item and every group label |
| Sidebar.NumberFindsFigure | course-addon.js:482 | searching a figure's number `X.Y` finds that figure |
| Sidebar.ExFindsEveryExercise | course-addon.js:438 | searching `ex` finds every exercise through its `Ex<num>` label |
| Sidebar.Highlighted | course-addon.js:454-457 | after `highlightActive(x)` item i is active iff it is x, so at most one item is active |
| Sidebar.FindTarget | course-addon.js:510 | `allTargets.find` returns the first target watching the element, or none when no target watches it |
| Sidebar.LastHighlight | course-addon.js:507-513 | the callback highlights nothing iff no intersecting entry is a target; otherwise an item of some target |
| Sidebar.ContiguousScrollHighlightsOwnItem | course-addon.js:507-513 | with contiguous sections an element scrolling into view highlights the nav item that scrolls to it |
| Sidebar.OpenAfter | course-addon.js:459-476 | only the toggle opens the sidebar; only the toggle or a click outside that reaches the document closes it; the toggle always flips it; a click on a nav item, inside the sidebar or on a Save/Reset button (whose handler calls `stopPropagation`, course-addon.js lines 291 and 306) leaves it |
| Sidebar.TogglesAlternate | course-addon.js:461-462 | without outside clicks the sidebar is open iff it was toggled an odd number of times from its start state |
| Sidebar.ClosedUntilToggled | course-addon.js:469-476 | after an outside click the sidebar stays closed until the toggle is clicked |
| Sidebar.Navigator.constructor | course-addon.js:450-460 | a new sidebar is closed, shows every entry, and has no active item |
| Sidebar.Navigator.HighlightActive | course-addon.js:454-457 | the loop clears every `active` class, then sets it on `x` only |
| Sidebar.Navigator.Search | course-addon.js:479-495 | the two passes of the input handler give `SearchShown` of the lower-cased, trimmed query |
| Sidebar.Navigator.ShowMatchingItems | course-addon.js:481-484 | every item is shown exactly when it matches the query; other entries keep their display |
| Sidebar.Navigator.ShowLiveGroupLabels | course-addon.js:486-494 | once items are filtered, every group label is shown exactly when an item of its run is shown |
| Sidebar.Navigator.AnyShownAfter | course-addon.js:487-493 | the sibling walk reports whether a visible item lies before the next label or separator |
| Sidebar.Navigator.Click | course-addon.js:411-476 | a click updates `navOpen` by `OpenAfter`, and a click on a nav item makes that item the only active one |
| Sidebar.Navigator.Observe | course-addon.js:507-513 | the observer callback leaves the last found target's item as the only active one, or changes nothing |
| Sidebar.BuildNav | course-addon.js:329-355 | no navigator iff there are no figures and no exercises; otherwise the rendered list, one target per indexed element, closed, all shown, none active |
| PhoneLab.KeysAreDistinct | apps/phonelab/assets/app.js:13-14 | `storageKey` and `statusKey` are injective in the week, and a draft key is never a status key |
| PhoneLab.KeysMissCourseKeys | apps/phonelab/assets/app.js:13-14 | PhoneLab keys never collide with the course add-on's `cs_` keys |
| PhoneLab.DraftIn | apps/phonelab/assets/app.js:70-74 | a missing or empty draft reads as `null` |
| PhoneLab.StatusIn | apps/phonelab/assets/app.js:80-82 | the status is never empty: the stored non-empty value, else `none` |
| PhoneLab.SaveDraft | apps/phonelab/assets/app.js:65-68 | on an available store the draft and the `draft` status are written and no other key changes; a disabled store throws and nothing changes |
| PhoneLab.LoadDraft | apps/phonelab/assets/app.js:70-74 | returns `null` for a missing, empty or unparsable value and the parsed value otherwise; a disabled store throws |
| PhoneLab.SetStatus | apps/phonelab/assets/app.js:76-78 | writes exactly the week's status key |
| PhoneLab.GetStatus | apps/phonelab/assets/app.js:80-82 | returns the stored status, or `none` when it is missing or empty |
| PhoneLab.SaveThenLoad | apps/phonelab/assets/app.js:65-74 | saving then loading returns the object, and the status reads `draft`, whenever serialisation round-trips |
| PhoneLab.SaveDraftThenLoad | apps/phonelab/assets/app.js:65-74 | the same on the store object: `loadDraft` after `saveDraft` returns the object |
| PhoneLab.SaveLeavesOtherWeeks | apps/phonelab/assets/app.js:65-68 | saving one week's draft leaves every other week's draft and status unchanged |
| PhoneLab.SetThenGetStatus | apps/phonelab/assets/app.js:76-82 | `getStatus` after `setStatus(s)` gives s, or `none` for empty s; other weeks and drafts are unchanged |
| PhoneLab.JoinSplit | apps/phonelab/assets/app.js:40 | joining the pieces of `split("\n")` gives the text back |
| PhoneLab.SplitJoin | apps/phonelab/assets/app.js:40 | splitting lines without line feeds after joining gives the lines back |
| PhoneLab.IndentPythonLines | apps/phonelab/assets/app.js:39-41 | `indentPython` keeps the line count, puts exactly four spaces before each line, and removing them recovers the code |
| PhoneLab.IndentEmpty | apps/phonelab/assets/app.js:39-41 | empty code becomes four spaces |
| PhoneLab.Chip.UpdateChip | apps/phonelab/assets/app.js:84-95 | `submitted` shows `Submitted` with `ok`, `draft` shows `Draft saved` with `warn`, anything else shows `Not started` with neither; other classes are unchanged |
| PhoneLab.ChipAfterSave | apps/phonelab/assets/app.js:65-95 | after `saveDraft`, that week's chip reads `Draft saved` |
| PhoneLab.UntouchedWeek | apps/phonelab/assets/app.js:80-95 | a week never written reads `none` and shows `Not started` |

## Left out

- CSS injection, element creation, styling and `innerHTML` (course-addon.js:53-171, 277-321, 358-451) are presentation only. The model keeps what they add to the list (labels, items, separator) as `Entry` values.
- The toast, the saved-dot, the Save button's label and the outline timers (course-addon.js:226-234, 251, 283, 297, 412-416, 440-443) are cosmetic.
- `scrollIntoView` and the IntersectionObserver band geometry (course-addon.js:412, 507-516) are browser geometry. The observer is modelled as batches of `(element, isIntersecting)` reports, so only the "one active item" rule is kept.
- The 200 ms delay before `patchOriginals` (course-addon.js:550) races the host page's own init. `PatchOriginals` is a plain step that the caller runs when it chooses.
- The `input` event that restore dispatches (course-addon.js:200) fires before the autosave listener exists and only drives the host's auto-size mirrors, so it is not modelled. The host page's own listeners, including its keystroke counting, are not part of this model.
- JSON text (RFC 8259) is an abstract `Codec`. `Json.Faithful` assumes that parsing what was written gives the value back and that stringify never yields `""`; the round-trip lemmas take it as a precondition.
- `DigitsValue`, `NatToString`: `parseInt` and `` `${section}` `` work on IEEE-754 doubles, while the model reads section and sub-numbers as exact naturals. A numeral above 2^53 loses precision in the code, and a value of 1e21 or more prints in exponent form, so for such labels the `X.Y` text and its search text differ from the model's.
- Persisted counter values are integers in this model. Stored JSON that parses to `null`, an array, a string or a number is not modelled. In the code, `Object.keys(null)` would throw out of `restoreState`, and a string would contribute keys `"0"`, `"1"`, and so on. A live key holding `undefined` is not modelled either. Nor are inherited property names: `window.keystrokeCounts[k] !== undefined` and its `pasteAttempts` twin (course-addon.js:206, 210) also holds for `constructor`, `toString` or `valueOf`, so a stored entry under such a name is added as a new own key, and a stored `__proto__` holding an object replaces the counter object's prototype; the model's map only sees own keys, so `Persistence.MergeCounters`'s "exactly the live key set" holds only for stored keys that are not inherited names.
- `localStorage` is either available for the whole run or throws on every call. A quota error on a single `setItem` is not modelled.
- `toLowerCase` and the regular expression's `i` flag are modelled on ASCII letters only, the only letters the literal parts of the patterns contain. Lower-casing of non-ASCII titles and queries is not modelled.
- Save and Reset buttons are added to `.code-editor` elements, which the code does not restrict to `textarea`. The model's editors are the `textarea.code-editor` elements only.
- The Pyodide loader and Python execution (apps/phonelab/assets/app.js:16-37, 43-63) are foreign asynchronous runtime calls. `IndentPython` is modelled, but not the wrapper text around it.
- `submitPayload` (apps/phonelab/assets/app.js:104-116) is network I/O. `updateHubChips` (apps/phonelab/assets/app.js:97-102) is a DOM query loop; `UpdateChip`, `GetStatus` and `UntouchedWeek` cover what it does per chip.
