/**
 * Whole visits to a lecture page, end to end: a page boots over the origin's
 * store, the student edits, time passes, and a second visit boots over the
 * same store. Each scenario states what the second visit shows.
 */
module Scenarios {
  import opened Wrappers
  import opened Json
  import opened WebStorage
  import opened Namespace
  import opened Persistence
  import opened CourseAddon

  /**
   * A visit: the page at `pathname` with the editors `authored` (and no
   * counters or form fields) is loaded over `storage` and boots.
   */
  method Visit(storage: LocalStorage, codec: Codec<Counters>, pathname: string, title: string, authored: seq<Editor>)
    returns (page: Page)
    ensures fresh(page) && page.storage == storage && page.codec == codec
    ensures page.prefix == Prefix(PageId(pathname, title))
    ensures page.Valid() && page.wired && page.now == 0
    ensures page.pendingSave == None && page.counterFlushes == [] && page.formPending == map[]
    ensures page.keystrokeCounts == None && page.pasteAttempts == None && page.forms == map[]
    ensures page.defaults == Snapshot(authored) && page.allEditors == IdIndices(authored)
    ensures page.EditorsRestoredFrom(authored)
    ensures forall i :: 0 <= i < |authored| && IsExerciseId(authored[i].id) && authored[i].inHeaderedFigure ==> i in page.buttons
  {
    page := new Page(pathname, title, storage, codec, authored, None, None, map[], None);
    BootOver(page, authored);
  }

  /** `boot()` on a page that holds the editors `authored` and no counters or form fields. */
  method BootOver(page: Page, authored: seq<Editor>)
    requires page.Valid() && page.BeforeBoot()
    requires page.editors == authored && page.keystrokeCounts == None && page.pasteAttempts == None && page.forms == map[]
    modifies page`defaults, page`allEditors, page`editors, page`keystrokeCounts, page`pasteAttempts,
             page`forms, page`wired, page`buttons
    ensures page.Valid() && page.wired
    ensures page.keystrokeCounts == None && page.pasteAttempts == None && page.forms == map[]
    ensures page.defaults == Snapshot(authored) && page.allEditors == IdIndices(authored)
    ensures page.EditorsRestoredFrom(authored)
    ensures forall i :: 0 <= i < |authored| && IsExerciseId(authored[i].id) && authored[i].inHeaderedFigure ==> i in page.buttons
  {
    page.Boot();
    forall i | 0 <= i < |authored| && IsExerciseId(authored[i].id) && authored[i].inHeaderedFigure
      ensures i in page.buttons
    {
      assert page.editors[i].id == authored[i].id && page.editors[i].inHeaderedFigure;
    }
  }

  /**
   * `dt` ms pass on a page without counters or form timers: the pending
   * autosave, if it falls due, writes the draft of the editor it was called
   * for; otherwise nothing is written.
   */
  method Wait(page: Page, dt: nat)
    requires page.Valid()
    requires page.counterFlushes == [] && page.formPending == map[]
    requires page.keystrokeCounts == None && page.pasteAttempts == None
    modifies page`pendingSave, page`now, page`counterFlushes, page`formPending, page.storage`items
    ensures page.Valid() && page.now == old(page.now) + dt
    ensures page.counterFlushes == [] && page.formPending == map[]
    ensures old(page.pendingSave).Some? && old(page.pendingSave).value.due <= page.now ==>
      && page.pendingSave == None
      && page.storage.items == page.DraftWritten(old(page.storage.items), page.editors[old(page.pendingSave).value.editor])
    ensures !(old(page.pendingSave).Some? && old(page.pendingSave).value.due <= page.now) ==>
      page.pendingSave == old(page.pendingSave) && page.storage.items == old(page.storage.items)
  {
    var p := page.pendingSave;
    var t := page.now + dt;
    if p.Some? && p.value.due <= t {
      page.FormsFiredIdle(page.DraftWritten(page.storage.items, page.editors[p.value.editor]), t, FORM_FIELDS);
    } else {
      page.FormsFiredIdle(page.storage.items, t, FORM_FIELDS);
    }
    page.Advance(dt);
  }

  /** The student types into editor `i` and waits: the text is written, and nothing else is. */
  method TypeAndWait(page: Page, i: nat, typed: string)
    requires page.Valid() && page.wired && i in page.allEditors
    requires page.counterFlushes == [] && page.formPending == map[]
    requires page.keystrokeCounts == None && page.pasteAttempts == None
    modifies page`editors, page`pendingSave, page`now, page`counterFlushes, page`formPending, page.storage`items
    ensures page.Valid() && page.pendingSave == None && page.allEditors == old(page.allEditors)
    ensures page.editors == old(page.editors)[i := old(page.editors[i]).(value := typed)]
    ensures page.counterFlushes == [] && page.formPending == map[]
    ensures page.storage.items == page.Put(old(page.storage.items), DraftKey(old(page.editors[i]).id), typed)
  {
    page.Input(i, typed);
    Wait(page, AUTOSAVE_MS);
  }

  /**
   * Save, then reload: text typed into an editor with an id is written 400 ms
   * later, and the next visit to the page shows it, whatever the store held before.
   */
  method ReloadShowsAutosavedDraft(items: map<string, string>, codec: Codec<Counters>, pathname: string, title: string,
                                   authored: seq<Editor>, i: nat, typed: string)
    returns (shown: string)
    requires UniqueIds(authored)
    requires i < |authored| && authored[i].id != ""
    ensures shown == typed
  {
    var storage := new LocalStorage(items, true);
    var first := Visit(storage, codec, pathname, title, authored);
    TypeAndWait(first, i, typed);
    var second := Visit(storage, codec, pathname, title, authored);
    RestoreAfterSave(authored, i, typed);
    shown := second.editors[i].value;
  }

  /**
   * One autosave timer for the whole page: typing into editor `a` and then,
   * before 400 ms have passed, into editor `b` writes only `b`'s draft. The
   * next visit shows `b`'s new text and `a`'s authored text.
   */
  method SecondEditorCancelsFirstSave(items: map<string, string>, codec: Codec<Counters>, pathname: string, title: string,
                                      authored: seq<Editor>, a: nat, b: nat, x: string, y: string)
    returns (shownA: string, shownB: string)
    requires UniqueIds(authored)
    requires a < |authored| && b < |authored| && a != b
    requires authored[a].id != "" && authored[b].id != ""
    requires Prefix(PageId(pathname, title)) + DraftKey(authored[a].id) !in items
    ensures shownA == authored[a].value
    ensures shownB == y
  {
    var storage := new LocalStorage(items, true);
    var first := Visit(storage, codec, pathname, title, authored);
    assert first.editors[b].id == authored[b].id;
    TypeIntoTwo(first, a, b, x, y);
    KeysOfOnePageAreDistinct(PageId(pathname, title), authored[a].id, authored[b].id, "", "");
    assert authored[a].id != authored[b].id;
    assert first.prefix + DraftKey(authored[a].id) !in storage.items;
    var second := Visit(storage, codec, pathname, title, authored);
    assert second.Stored(DraftKey(authored[a].id)) == None;
    RestoreAfterSave(authored, b, y);
    shownA := second.editors[a].value;
    shownB := second.editors[b].value;
  }

  /** Typing into editor `a` and at once into editor `b`, then waiting: only `b`'s draft is written. */
  method TypeIntoTwo(page: Page, a: nat, b: nat, x: string, y: string)
    requires page.Valid() && page.wired && a < |page.editors| && b in page.allEditors
    requires page.counterFlushes == [] && page.formPending == map[]
    requires page.keystrokeCounts == None && page.pasteAttempts == None
    modifies page`editors, page`pendingSave, page`now, page`counterFlushes, page`formPending, page.storage`items
    ensures page.storage.items == page.Put(old(page.storage.items), DraftKey(old(page.editors[b]).id), y)
  {
    page.Input(a, x);
    TypeAndWait(page, b, y);
  }

  /**
   * Two edits of editor `i`, `gap` ms apart, then 399 ms and 1 ms more: at
   * the first mark nothing has been written; at the second the last text is.
   */
  method TwoEditsThenWait(page: Page, i: nat, v1: string, v2: string, gap: nat) returns (midway: map<string, string>)
    requires page.Valid() && page.wired && i in page.allEditors
    requires page.counterFlushes == [] && page.formPending == map[]
    requires page.keystrokeCounts == None && page.pasteAttempts == None
    requires gap < AUTOSAVE_MS
    modifies page`editors, page`pendingSave, page`now, page`counterFlushes, page`formPending, page.storage`items
    ensures midway == old(page.storage.items)
    ensures page.storage.items == page.Put(old(page.storage.items), DraftKey(old(page.editors[i]).id), v2)
  {
    page.Input(i, v1);
    Wait(page, gap);
    page.Input(i, v2);
    Wait(page, AUTOSAVE_MS - 1);
    midway := page.storage.items;
    Wait(page, 1);
  }

  /**
   * Edits closer together than 400 ms are written once: 399 ms after the last
   * one nothing has been written; 1 ms later the last text is.
   */
  method EditsWithinTheDelayCoalesce(items: map<string, string>, codec: Codec<Counters>, pathname: string, title: string,
                                     authored: seq<Editor>, i: nat, v1: string, v2: string, gap: nat)
    returns (midway: map<string, string>, written: Option<string>)
    requires i < |authored| && authored[i].id != ""
    requires gap < AUTOSAVE_MS
    ensures midway == items
    ensures written == Some(v2)
  {
    var storage := new LocalStorage(items, true);
    var page := Visit(storage, codec, pathname, title, authored);
    assert page.editors[i].id == authored[i].id;
    midway := TwoEditsThenWait(page, i, v1, v2, gap);
    written := page.Stored(DraftKey(authored[i].id));
  }

  /**
   * A confirmed Reset of editor `i` on a quiet page, then 400 ms: right after
   * the click the draft is gone; after the delay the authored text is stored
   * under the editor's key again.
   */
  method ResetAndWait(page: Page, i: nat) returns (atReset: Option<string>, afterDelay: Option<string>)
    requires page.Valid() && page.wired && i in page.buttons && i in page.allEditors
    requires page.counterFlushes == [] && page.formPending == map[]
    requires page.keystrokeCounts == None && page.pasteAttempts == None
    requires page.storage.available
    modifies page`editors, page`pendingSave, page`keystrokeCounts, page`pasteAttempts
    modifies page`now, page`counterFlushes, page`formPending, page.storage`items
    ensures atReset == None
    ensures afterDelay == Some(DefaultText(page.defaults, old(page.editors[i]).id))
    ensures page.Valid() && page.pendingSave == None
    ensures page.counterFlushes == [] && page.formPending == map[]
    ensures page.keystrokeCounts == None && page.pasteAttempts == None
    ensures page.storage.items == old(page.storage.items)[page.prefix + DraftKey(old(page.editors[i]).id) := DefaultText(page.defaults, old(page.editors[i]).id)]
  {
    var id := page.editors[i].id;
    var text := DefaultText(page.defaults, id);
    ghost var before := page.storage.items;
    page.ResetClicked(i, true);
    assert page.storage.items == before - {page.prefix + DraftKey(id)};
    assert page.pendingSave == Some(PendingSave(i, page.now + AUTOSAVE_MS));
    assert page.editors[i] == Editor(id, text, page.editors[i].inHeaderedFigure);
    atReset := page.Stored(DraftKey(id));
    Wait(page, AUTOSAVE_MS);
    assert page.storage.items == (before - {page.prefix + DraftKey(id)})[page.prefix + DraftKey(id) := text];
    afterDelay := page.Stored(DraftKey(id));
  }

  /**
   * A first visit in which the student edits exercise `i`, waits, then resets
   * it and waits again: the store ends up holding the authored text under the
   * editor's key.
   */
  method EditThenReset(storage: LocalStorage, codec: Codec<Counters>, pathname: string, title: string,
                       authored: seq<Editor>, i: nat, typed: string)
    returns (atReset: Option<string>, afterDelay: Option<string>)
    requires storage.available && UniqueIds(authored)
    requires i < |authored| && IsExerciseId(authored[i].id) && authored[i].inHeaderedFigure
    modifies storage`items
    ensures atReset == None
    ensures afterDelay == Some(authored[i].value)
    ensures Prefix(PageId(pathname, title)) + DraftKey(authored[i].id) in storage.items
    ensures storage.items[Prefix(PageId(pathname, title)) + DraftKey(authored[i].id)] == authored[i].value
  {
    var first := Visit(storage, codec, pathname, title, authored);
    var id := authored[i].id;
    assert id != "" by {
      assert |id| >= 2;
    }
    SnapshotOfUniqueIds(authored, i);
    assert i in first.allEditors && first.editors[i].id == id;
    assert DefaultText(first.defaults, id) == authored[i].value;
    atReset, afterDelay := TypeThenReset(first, i, typed);
  }

  /** Typing into exercise `i` and waiting, then resetting it and waiting: the authored text is stored again. */
  method TypeThenReset(page: Page, i: nat, typed: string) returns (atReset: Option<string>, afterDelay: Option<string>)
    requires page.Valid() && page.wired && i in page.buttons && i in page.allEditors
    requires page.counterFlushes == [] && page.formPending == map[]
    requires page.keystrokeCounts == None && page.pasteAttempts == None
    requires page.storage.available
    modifies page`editors, page`pendingSave, page`keystrokeCounts, page`pasteAttempts
    modifies page`now, page`counterFlushes, page`formPending, page.storage`items
    ensures atReset == None
    ensures afterDelay == Some(DefaultText(page.defaults, old(page.editors[i]).id))
    ensures page.prefix + DraftKey(old(page.editors[i]).id) in page.storage.items
    ensures page.storage.items[page.prefix + DraftKey(old(page.editors[i]).id)] == DefaultText(page.defaults, old(page.editors[i]).id)
  {
    TypeAndWait(page, i, typed);
    atReset, afterDelay := ResetAndWait(page, i);
  }

  /**
   * Reset clears the draft and, through the `input` event it dispatches,
   * writes the authored text back 400 ms later; the next visit shows the
   * authored text.
   */
  method ResetStoresTheDefaultAgain(items: map<string, string>, codec: Codec<Counters>, pathname: string, title: string,
                                    authored: seq<Editor>, i: nat, typed: string)
    returns (atReset: Option<string>, afterDelay: Option<string>, shown: string)
    requires UniqueIds(authored)
    requires i < |authored| && IsExerciseId(authored[i].id) && authored[i].inHeaderedFigure
    ensures atReset == None
    ensures afterDelay == Some(authored[i].value)
    ensures shown == authored[i].value
  {
    var storage := new LocalStorage(items, true);
    atReset, afterDelay := EditThenReset(storage, codec, pathname, title, authored, i, typed);
    var second := Visit(storage, codec, pathname, title, authored);
    assert second.Stored(DraftKey(authored[i].id)) == Some(authored[i].value);
    RestoreOfDefaultsIsIdentity(authored, i);
    shown := second.editors[i].value;
  }
}
