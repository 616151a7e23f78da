/**
 * The persistence engine of a lecture page: the namespaced store helpers,
 * the DEFAULTS snapshot, restore, the debounced autosave, the Save and Reset
 * buttons and `patchOriginals`. A `Page` holds what the script and the host
 * page share at run time: the editors, DEFAULTS and ALL_EDITORS, the host's
 * counter objects and form fields, the timers the script has set, and the
 * origin's `localStorage`.
 *
 * Timers are explicit: `now` is the page clock, every `setTimeout` is a due
 * time, and `Advance` lets time pass and runs the callbacks that fall due.
 */
module CourseAddon {
  import opened Wrappers
  import opened Text
  import opened Json
  import opened WebStorage
  import opened Namespace
  import opened Persistence

  /** Delay of the shared `debouncedSave`. */
  const AUTOSAVE_MS: nat := 400
  /** Delay of each form field's own debouncer. */
  const FORM_SAVE_MS: nat := 300
  /** Delay of the counter flush set on every keydown. */
  const COUNTER_FLUSH_MS: nat := 50

  /** The ids of the form fields whose values the page keeps. */
  const FORM_FIELDS: seq<string> := ["studentId", "studentName", "studentEmail", "classCode"]

  /** One of the form fields the page keeps. */
  predicate IsFormField(f: string) {
    f in FORM_FIELDS
  }

  /** The pending call of `debouncedSave`: the editor it was called for, and when it fires. */
  datatype PendingSave = PendingSave(editor: nat, due: nat)

  /** The form field ids are distinct. */
  lemma FormFieldsDistinct()
    ensures forall a, b :: 0 <= a < b < |FORM_FIELDS| ==> FORM_FIELDS[a] != FORM_FIELDS[b]
  {
    assert FORM_FIELDS[0][7] == 'I' && FORM_FIELDS[1][7] == 'N' && FORM_FIELDS[2][7] == 'E';
    assert FORM_FIELDS[3][0] == 'c';
  }

  /** Updating a union at `k` is the union with the right operand updated at `k`. */
  lemma UpdateOfUnion(a: map<string, string>, b: map<string, string>, k: string, v: string)
    ensures (a + b)[k := v] == a + b[k := v]
  {
    assert ((a + b)[k := v]).Keys == (a + b[k := v]).Keys;
  }

  /** The editors that get Save and Reset buttons: an id starting with "ex", in a figure with a header. */
  function ExerciseEditors(es: seq<Editor>): set<nat> {
    set i | 0 <= i < |es| && IsExerciseId(es[i].id) && es[i].inHeaderedFigure
  }

  /** `DEFAULTS[id] || ""`. */
  function DefaultText(defaults: map<string, string>, id: string): string {
    if id in defaults then defaults[id] else ""
  }

  /** The due times in `timers` that are still in the future at `t`, in order. */
  function NotDue(timers: seq<nat>, t: nat): (r: seq<nat>)
    ensures forall k :: 0 <= k < |r| ==> r[k] > t
  {
    if timers == [] then []
    else NotDue(timers[..|timers| - 1], t) + (if timers[|timers| - 1] > t then [timers[|timers| - 1]] else [])
  }

  predicate AnyDue(timers: seq<nat>, t: nat) {
    exists k :: 0 <= k < |timers| && timers[k] <= t
  }

  /** One more timer looked at: it is due, or it keeps waiting after the earlier ones that do. */
  lemma DueStep(timers: seq<nat>, k: nat, t: nat)
    requires k < |timers|
    ensures AnyDue(timers[..k + 1], t) == (AnyDue(timers[..k], t) || timers[k] <= t)
    ensures NotDue(timers[..k + 1], t) == NotDue(timers[..k], t) + (if timers[k] > t then [timers[k]] else [])
  {
    var longer := timers[..k + 1];
    assert longer[..k] == timers[..k] && longer[k] == timers[k];
    if AnyDue(longer, t) && timers[k] > t {
      var j :| 0 <= j < |longer| && longer[j] <= t;
      assert timers[..k][j] == longer[j];
    }
    if AnyDue(timers[..k], t) {
      var j :| 0 <= j < k && timers[..k][j] <= t;
      assert longer[j] == timers[..k][j];
    }
  }

  /**
   * `Object.keys(persisted).forEach(k => { if (live[k] !== undefined) live[k] = persisted[k]; })`:
   * the restore loop for one counter object.
   */
  method MergeInto(live: Counters, persisted: Counters) returns (merged: Counters)
    ensures merged == MergeCounters(live, persisted)
  {
    merged := live;
    var keys := persisted.Keys;
    while keys != {}
      invariant keys <= persisted.Keys
      invariant merged.Keys == live.Keys
      invariant forall k :: k in merged ==> merged[k] == if k in persisted && k !in keys then persisted[k] else live[k]
      decreases |keys|
    {
      var k :| k in keys;
      if k in merged {
        merged := merged[k := persisted[k]];
      }
      keys := keys - {k};
    }
  }

  /**
   * `patched` is `original` with the exercise entries of `defaults` copied
   * in, except those whose ids are still in `pending`.
   */
  ghost predicate PatchedExcept(patched: map<string, string>, original: map<string, string>,
                                defaults: map<string, string>, pending: set<string>)
  {
    && (forall id :: id in patched <==> id in original || (id in defaults && id !in pending && IsExerciseId(id)))
    && (forall id :: id in patched ==>
          patched[id] == if id in defaults && id !in pending && IsExerciseId(id) then defaults[id] else original[id])
  }

  lemma PatchedExceptNone(patched: map<string, string>, original: map<string, string>, defaults: map<string, string>)
    requires PatchedExcept(patched, original, defaults, {})
    ensures patched == PatchedOriginals(original, defaults)
  {
    var expected := PatchedOriginals(original, defaults);
    assert patched.Keys == expected.Keys;
  }

  /** The loop of `patchOriginals` over `Object.keys(DEFAULTS)`. */
  method PatchInto(original: map<string, string>, defaults: map<string, string>) returns (patched: map<string, string>)
    ensures patched == PatchedOriginals(original, defaults)
  {
    patched := original;
    var ids := defaults.Keys;
    while ids != {}
      invariant ids <= defaults.Keys
      invariant PatchedExcept(patched, original, defaults, ids)
      decreases |ids|
    {
      var id :| id in ids;
      if StartsWith(id, "ex") {
        patched := patched[id := defaults[id]];
      }
      ids := ids - {id};
    }
    PatchedExceptNone(patched, original, defaults);
  }

  /** The loop of `snapshotDefaults` over the editors in document order, on values. */
  method RecordDefaults(d0: map<string, string>, all0: seq<nat>, es: seq<Editor>) returns (d: map<string, string>, all: seq<nat>)
    ensures d == d0 + Snapshot(es)
    ensures all == all0 + IdIndices(es)
  {
    d, all := d0, all0;
    var i := 0;
    while i < |es|
      invariant 0 <= i <= |es|
      invariant d == d0 + Snapshot(es[..i])
      invariant all == all0 + IdIndices(es[..i])
    {
      var ta := es[i];
      assert es[..i + 1][..i] == es[..i];
      if ta.id != "" {
        UpdateOfUnion(d0, Snapshot(es[..i]), ta.id, ta.value);
        d := d[ta.id := ta.value];
        all := all + [i];
      }
      i := i + 1;
    }
    assert es[..i] == es;
  }

  class Page {
    /** LS_PREFIX, `cs_<PAGE_ID>_`. */
    const prefix: string
    /** The origin's `localStorage`, shared with every other page. */
    const storage: LocalStorage
    /** `JSON.stringify` / `JSON.parse` for counter objects. */
    const codec: Codec<Counters>

    /** Every `textarea.code-editor`, in document order; only their text changes. */
    var editors: seq<Editor>
    /** DEFAULTS: id to authored text. */
    var defaults: map<string, string>
    /** ALL_EDITORS, as indices into `editors`. */
    var allEditors: seq<nat>
    /** `window.keystrokeCounts` and `window.pasteAttempts`; `None` when the host defines none. */
    var keystrokeCounts: Option<Counters>
    var pasteAttempts: Option<Counters>
    /** The form fields present on the page: field id to current value. */
    var forms: map<string, string>
    /** `window.originalExerciseCode`, the host's record of starter code. */
    var originalExerciseCode: Option<map<string, string>>
    /** Whether `wireAutoSave` has attached the listeners. */
    var wired: bool
    /** The editors that carry Save and Reset buttons. */
    var buttons: set<nat>

    /** The page clock, in milliseconds. */
    var now: nat
    /** The one timer of `debouncedSave`, shared by all editors. */
    var pendingSave: Option<PendingSave>
    /** The `setTimeout(saveAntiCheat, 50)` timers set on keydown; never cancelled. */
    var counterFlushes: seq<nat>
    /** The timer of each form field's own debouncer. */
    var formPending: map<string, nat>

    ghost predicate Valid()
      reads this`allEditors, this`editors, this`buttons, this`pendingSave, this`forms, this`formPending
    {
      && (forall k :: 0 <= k < |allEditors| ==> allEditors[k] < |editors| && editors[allEditors[k]].id != "")
      && (forall b :: b in buttons ==> b < |editors| && IsExerciseId(editors[b].id))
      && (pendingSave.Some? ==> pendingSave.value.editor < |editors|)
      && (forall f :: f in forms ==> IsFormField(f))
      && formPending.Keys <= forms.Keys
    }

    /** The page as the browser hands it to the script, before `boot`. */
    ghost predicate BeforeBoot()
      reads this
    {
      && defaults == map[] && allEditors == [] && !wired && buttons == {}
      && pendingSave == None && counterFlushes == [] && formPending == map[]
    }

    constructor (pathname: string, title: string, storage: LocalStorage, codec: Codec<Counters>,
                 editors: seq<Editor>, keystrokeCounts: Option<Counters>, pasteAttempts: Option<Counters>,
                 forms: map<string, string>, originalExerciseCode: Option<map<string, string>>)
      requires forall f :: f in forms ==> IsFormField(f)
      ensures Valid() && BeforeBoot()
      ensures this.prefix == Prefix(PageId(pathname, title))
      ensures this.storage == storage && this.codec == codec && this.editors == editors
      ensures this.keystrokeCounts == keystrokeCounts && this.pasteAttempts == pasteAttempts
      ensures this.forms == forms && this.originalExerciseCode == originalExerciseCode
      ensures now == 0
    {
      this.prefix := Prefix(PageId(pathname, title));
      this.storage := storage;
      this.codec := codec;
      this.editors := editors;
      this.keystrokeCounts := keystrokeCounts;
      this.pasteAttempts := pasteAttempts;
      this.forms := forms;
      this.originalExerciseCode := originalExerciseCode;
      this.defaults := map[];
      this.allEditors := [];
      this.wired := false;
      this.buttons := {};
      this.now := 0;
      this.pendingSave := None;
      this.counterFlushes := [];
      this.formPending := map[];
    }

    // ----- the namespaced store -----

    /** What `lsGet(key)` sees: the value under `cs_<PAGE_ID>_<key>`, or nothing when storage fails. */
    function Stored(key: string): (r: Option<string>)
      reads storage
      ensures r.Some? <==> storage.available && prefix + key in storage.items
      ensures r.Some? ==> r.value == storage.items[prefix + key]
    {
      if storage.available then storage.Peek(prefix + key) else None
    }

    /** `items` after `lsSet(key, val)`: written under the prefixed key, or unchanged when storage fails. */
    function Put(items: map<string, string>, key: string, val: string): map<string, string>
      reads storage`available
    {
      if storage.available then items[prefix + key := val] else items
    }

    /** What `lsGetJSON(key, {})` gives for a counter object. */
    function StoredCounters(key: string): Counters
      reads storage
    {
      match Stored(key)
      case None => map[]
      case Some(text) => codec.parse(text).GetOr(map[])
    }

    /** `items` after `saveTextarea(editor)`. */
    function DraftWritten(items: map<string, string>, e: Editor): map<string, string>
      reads storage`available
    {
      if e.id != "" then Put(items, DraftKey(e.id), e.value) else items
    }

    /** `items` after `saveAntiCheat()`: both counter objects the host defines, serialised. */
    function CountersWritten(items: map<string, string>): map<string, string>
      reads this`keystrokeCounts, this`pasteAttempts, storage`available
    {
      var a := if keystrokeCounts.Some? then Put(items, KEYSTROKES, codec.stringify(keystrokeCounts.value)) else items;
      if pasteAttempts.Some? then Put(a, PASTES, codec.stringify(pasteAttempts.value)) else a
    }

    /** Writing the counters twice leaves what writing them once does. */
    lemma CountersWrittenTwice(items: map<string, string>)
      ensures CountersWritten(CountersWritten(items)) == CountersWritten(items)
    {
      if storage.available {
        var ks := prefix + KEYSTROKES;
        var pa := prefix + PASTES;
        assert ks != pa by {
          assert ks[|prefix|] == 'k' && pa[|prefix|] == 'p';
        }
      }
    }

    /** `lsGet(key)`: a failing store reads as `null`. */
    method LsGet(key: string) returns (v: Option<string>)
      ensures v.Some? <==> storage.available && prefix + key in storage.items
      ensures v.Some? ==> v.value == storage.items[prefix + key]
    {
      var r := storage.GetItem(prefix + key);
      v := if r.Returned? then r.value else None;
    }

    /** `lsSet(key, val)`: a failing store is ignored. */
    method LsSet(key: string, val: string)
      modifies storage`items
      ensures storage.items == if storage.available then old(storage.items)[prefix + key := val] else old(storage.items)
    {
      var _ := storage.SetItem(prefix + key, val);
    }

    /** `lsRemove(key)`: a failing store is ignored. */
    method LsRemove(key: string)
      modifies storage`items
      ensures storage.items == if storage.available then old(storage.items) - {prefix + key} else old(storage.items)
    {
      var _ := storage.RemoveItem(prefix + key);
    }

    /** `lsGetJSON(key, def)`: `def` when nothing is stored or the text does not parse. */
    method LsGetJSON(key: string, def: Counters) returns (r: Counters)
      ensures Stored(key).None? ==> r == def
      ensures Stored(key).Some? && codec.parse(Stored(key).value).None? ==> r == def
      ensures Stored(key).Some? && codec.parse(Stored(key).value).Some? ==> r == codec.parse(Stored(key).value).value
    {
      var v := LsGet(key);
      if v.None? {
        return def;
      }
      var parsed := codec.parse(v.value);
      r := parsed.GetOr(def);
    }

    /** `lsSetJSON(key, obj)`. */
    method LsSetJSON(key: string, obj: Counters)
      modifies storage`items
      ensures storage.items == Put(old(storage.items), key, codec.stringify(obj))
    {
      LsSet(key, codec.stringify(obj));
    }

    /** `saveTextarea(ta)`: an editor without an id is not saved. */
    method SaveTextarea(i: nat)
      requires i < |editors|
      modifies storage`items
      ensures storage.items == DraftWritten(old(storage.items), editors[i])
      ensures editors[i].id == "" ==> storage.items == old(storage.items)
    {
      if editors[i].id == "" {
        return;
      }
      LsSet(DraftKey(editors[i].id), editors[i].value);
    }

    /** `saveAntiCheat()`. */
    method SaveAntiCheat()
      modifies storage`items
      ensures storage.items == CountersWritten(old(storage.items))
    {
      if keystrokeCounts.Some? {
        LsSetJSON(KEYSTROKES, keystrokeCounts.value);
      }
      if pasteAttempts.Some? {
        LsSetJSON(PASTES, pasteAttempts.value);
      }
    }

    // ----- boot -----

    /** `snapshotDefaults()`: record every editor that has an id, in document order. */
    method SnapshotDefaults()
      requires Valid()
      modifies this`defaults, this`allEditors
      ensures Valid()
      ensures defaults == old(defaults) + Snapshot(editors)
      ensures allEditors == old(allEditors) + IdIndices(editors)
    {
      var d, all := RecordDefaults(defaults, allEditors, editors);
      defaults := d;
      allEditors := all;
    }

    /**
     * Restore's effect on the editors, from their text `before`: each editor in
     * ALL_EDITORS holds its stored draft when there is one that differs from
     * DEFAULTS; every other editor is as it was.
     */
    ghost predicate EditorsRestoredFrom(before: seq<Editor>)
      reads this`editors, this`allEditors, this`defaults, storage
    {
      && |editors| == |before|
      && forall i :: 0 <= i < |editors| ==>
           editors[i] == if i in allEditors then Restored(before[i], defaults, Stored(DraftKey(before[i].id))) else before[i]
    }

    /** Restore's effect on the form fields, from their values `before`: a field with a stored value takes it. */
    ghost predicate FormsRestoredFrom(before: map<string, string>)
      reads this`forms, storage
    {
      && forms.Keys == before.Keys
      && forall f :: f in forms ==>
           forms[f] == if Stored(FormKey(f)).Some? then Stored(FormKey(f)).value else before[f]
    }

    /**
     * Restore's effect on the counter objects, from `ks` and `pa`: each one the
     * host defines has the persisted values merged in.
     */
    ghost predicate CountersRestoredFrom(ks: Option<Counters>, pa: Option<Counters>)
      reads this`keystrokeCounts, this`pasteAttempts, storage
    {
      && keystrokeCounts == (if ks.Some? then Some(MergeCounters(ks.value, StoredCounters(KEYSTROKES))) else None)
      && pasteAttempts == (if pa.Some? then Some(MergeCounters(pa.value, StoredCounters(PASTES))) else None)
    }

    /** Part 3a of `restoreState()`: stored drafts that differ from DEFAULTS replace the text. */
    method RestoreEditors()
      requires Valid()
      modifies this`editors
      ensures Valid()
      ensures EditorsRestoredFrom(old(editors))
    {
      var k := 0;
      while k < |allEditors|
        invariant 0 <= k <= |allEditors|
        invariant |editors| == |old(editors)|
        invariant forall i :: 0 <= i < |editors| ==>
          editors[i] == if i in allEditors[..k] then Restored(old(editors[i]), defaults, Stored(DraftKey(old(editors[i]).id)))
                        else old(editors[i])
        invariant Valid()
      {
        var i := allEditors[k];
        assert allEditors[..k + 1] == allEditors[..k] + [i];
        RestoreEditor(i);
        k := k + 1;
      }
      assert allEditors[..k] == allEditors;
    }

    /** The loop body of part 3a for editor `i`: its stored draft, when it differs from DEFAULTS, becomes its text. */
    method RestoreEditor(i: nat)
      requires i < |editors|
      modifies this`editors
      ensures editors == old(editors)[i := Restored(old(editors[i]), defaults, Stored(DraftKey(old(editors[i]).id)))]
    {
      var ta := editors[i];
      var saved := LsGet(DraftKey(ta.id));
      if saved.Some? && (ta.id !in defaults || saved.value != defaults[ta.id]) {
        editors := editors[i := ta.(value := saved.value)];
      }
    }

    /** Part 3b of `restoreState()`: persisted counters merged into the host's objects, key by existing key. */
    method RestoreCounters()
      modifies this`keystrokeCounts, this`pasteAttempts
      ensures CountersRestoredFrom(old(keystrokeCounts), old(pasteAttempts))
    {
      if keystrokeCounts.Some? {
        var ks := LsGetJSON(KEYSTROKES, map[]);
        var merged := MergeInto(keystrokeCounts.value, ks);
        keystrokeCounts := Some(merged);
      }
      if pasteAttempts.Some? {
        var pa := LsGetJSON(PASTES, map[]);
        var merged := MergeInto(pasteAttempts.value, pa);
        pasteAttempts := Some(merged);
      }
    }

    /** Part 3c of `restoreState()`: a field present on the page takes its stored value, if any. */
    method RestoreForms()
      requires Valid()
      modifies this`forms
      ensures Valid()
      ensures FormsRestoredFrom(old(forms))
    {
      RestoreFieldsOf(FORM_FIELDS);
    }

    /** The loop of restore over the form field ids `fids`. */
    method RestoreFieldsOf(fids: seq<string>)
      modifies this`forms
      ensures forms.Keys == old(forms).Keys
      ensures forall f :: f in forms ==>
        forms[f] == if f in fids && Stored(FormKey(f)).Some? then Stored(FormKey(f)).value else old(forms)[f]
    {
      var k := 0;
      while k < |fids|
        invariant 0 <= k <= |fids|
        invariant forms.Keys == old(forms).Keys
        invariant forall f :: f in forms ==>
          forms[f] == if f in fids[..k] && Stored(FormKey(f)).Some? then Stored(FormKey(f)).value else old(forms)[f]
      {
        var fid := fids[k];
        assert fids[..k + 1] == fids[..k] + [fid];
        var saved := LsGet(FormKey(fid));
        if fid in forms && saved.Some? {
          forms := forms[fid := saved.value];
        }
        k := k + 1;
      }
      assert fids[..k] == fids;
    }

    /** `restoreState()`. */
    method RestoreState()
      requires Valid()
      modifies this`editors, this`keystrokeCounts, this`pasteAttempts, this`forms
      ensures Valid()
      ensures EditorsRestoredFrom(old(editors))
      ensures CountersRestoredFrom(old(keystrokeCounts), old(pasteAttempts))
      ensures FormsRestoredFrom(old(forms))
    {
      RestoreEditors();
      RestoreCounters();
      RestoreForms();
    }

    /** `wireAutoSave()`: from now on edits, keydowns and form input set timers. */
    method WireAutoSave()
      modifies this`wired
      ensures wired
    {
      wired := true;
    }

    /** `addExerciseButtons()`: Save and Reset for every editor whose id starts with "ex" and whose figure has a header. */
    method AddExerciseButtons()
      requires Valid()
      modifies this`buttons
      ensures Valid()
      ensures buttons == old(buttons) + ExerciseEditors(editors)
    {
      var i := 0;
      while i < |editors|
        invariant 0 <= i <= |editors|
        invariant buttons == old(buttons) + ExerciseEditors(editors[..i])
        invariant Valid()
      {
        assert editors[..i + 1] == editors[..i] + [editors[i]];
        if StartsWith(editors[i].id, "ex") && editors[i].inHeaderedFigure {
          buttons := buttons + {i};
        }
        i := i + 1;
      }
    }

    /**
     * `boot()` up to the navigator: DEFAULTS is taken from the authored text
     * before anything is restored, so it never holds a restored draft.
     */
    method Boot()
      requires Valid() && BeforeBoot()
      modifies this`defaults, this`allEditors, this`editors, this`keystrokeCounts, this`pasteAttempts,
               this`forms, this`wired, this`buttons
      ensures Valid()
      ensures Loaded(old(editors), old(keystrokeCounts), old(pasteAttempts), old(forms))
      ensures wired
      ensures buttons == old(buttons) + ExerciseEditors(editors)
    {
      LoadState();
      AttachControls(old(editors), old(keystrokeCounts), old(pasteAttempts), old(forms));
    }

    /** `wireAutoSave()` then `addExerciseButtons()`: the listeners and buttons that boot attaches once state is loaded. */
    method AttachControls(ghost editors0: seq<Editor>, ghost ks: Option<Counters>, ghost pa: Option<Counters>, ghost forms0: map<string, string>)
      requires Valid()
      modifies this`wired, this`buttons
      ensures Valid()
      ensures old(Loaded(editors0, ks, pa, forms0)) ==> Loaded(editors0, ks, pa, forms0)
      ensures wired
      ensures buttons == old(buttons) + ExerciseEditors(editors)
    {
      WireAutoSave();
      AddExerciseButtons();
    }

    /**
     * What boot leaves in place of the authored page (`editors`, the host's
     * counters `ks` and `pa`, the form fields `forms`): DEFAULTS and ALL_EDITORS
     * taken from the authored editors, then the editors, counters and fields
     * restored from the store.
     */
    ghost predicate Loaded(editors0: seq<Editor>, ks: Option<Counters>, pa: Option<Counters>, forms0: map<string, string>)
      reads this`defaults, this`allEditors, this`editors, this`keystrokeCounts, this`pasteAttempts, this`forms, storage
    {
      && defaults == Snapshot(editors0)
      && allEditors == IdIndices(editors0)
      && EditorsRestoredFrom(editors0)
      && CountersRestoredFrom(ks, pa)
      && FormsRestoredFrom(forms0)
    }

    /** `snapshotDefaults()` then `restoreState()`, on the page as the browser hands it over. */
    method LoadState()
      requires Valid() && defaults == map[] && allEditors == []
      modifies this`defaults, this`allEditors, this`editors, this`keystrokeCounts, this`pasteAttempts, this`forms
      ensures Valid()
      ensures Loaded(old(editors), old(keystrokeCounts), old(pasteAttempts), old(forms))
    {
      SnapshotDefaults();
      assert defaults == Snapshot(editors);
      assert allEditors == IdIndices(editors);
      RestoreState();
    }

    // ----- events after boot -----

    /** The `input` event on editor `i`: the shared debouncer restarts, for this editor only. */
    method DispatchInput(i: nat)
      requires Valid() && i < |editors|
      modifies this`pendingSave
      ensures Valid()
      ensures pendingSave == if wired && i in allEditors then Some(PendingSave(i, now + AUTOSAVE_MS)) else old(pendingSave)
    {
      if wired && i in allEditors {
        pendingSave := Some(PendingSave(i, now + AUTOSAVE_MS));
      }
    }

    /** The student edits editor `i`: its text becomes `value` and an `input` event follows. */
    method Input(i: nat, value: string)
      requires Valid() && i < |editors|
      modifies this`editors, this`pendingSave
      ensures Valid()
      ensures editors == old(editors)[i := old(editors[i]).(value := value)]
      ensures pendingSave == if wired && i in allEditors then Some(PendingSave(i, now + AUTOSAVE_MS)) else old(pendingSave)
    {
      editors := editors[i := editors[i].(value := value)];
      DispatchInput(i);
    }

    /** A keydown in editor `i`: a counter flush 50 ms later. */
    method KeyDown(i: nat)
      requires Valid() && i < |editors|
      modifies this`counterFlushes
      ensures Valid()
      ensures counterFlushes == if wired && i in allEditors then old(counterFlushes) + [now + COUNTER_FLUSH_MS] else old(counterFlushes)
    {
      if wired && i in allEditors {
        counterFlushes := counterFlushes + [now + COUNTER_FLUSH_MS];
      }
    }

    /** The student types into form field `fid`: that field's own debouncer restarts. */
    method FormInput(fid: string, value: string)
      requires Valid() && fid in forms
      modifies this`forms, this`formPending
      ensures Valid()
      ensures forms == old(forms)[fid := value]
      ensures formPending == if wired then old(formPending)[fid := now + FORM_SAVE_MS] else old(formPending)
    {
      forms := forms[fid := value];
      if wired {
        formPending := formPending[fid := now + FORM_SAVE_MS];
      }
    }

    /** `items` after the pending `debouncedSave`, if it is due at `t`. */
    function SaveFired(items: map<string, string>, p: Option<PendingSave>, t: nat): map<string, string>
      requires p.Some? ==> p.value.editor < |editors|
      reads this`editors, this`keystrokeCounts, this`pasteAttempts, storage`available
    {
      if p.Some? && p.value.due <= t then CountersWritten(DraftWritten(items, editors[p.value.editor])) else items
    }

    /** `items` after the form timers of `fids` that are due at `t`. */
    function FormsFired(items: map<string, string>, pending: map<string, nat>, t: nat, fids: seq<string>): map<string, string>
      reads this`forms, storage`available
    {
      if fids == [] then items
      else
        var before := FormsFired(items, pending, t, fids[..|fids| - 1]);
        var f := fids[|fids| - 1];
        if f in pending && pending[f] <= t && f in forms then Put(before, FormKey(f), forms[f]) else before
    }

    /** With no form timer pending, no form field is written. */
    lemma {:induction false} FormsFiredIdle(items: map<string, string>, t: nat, fids: seq<string>)
      ensures FormsFired(items, map[], t, fids) == items
    {
      if fids != [] {
        FormsFiredIdle(items, t, fids[..|fids| - 1]);
      }
    }

    /**
     * Time passes by `dt` ms and every timer due by then fires: the shared
     * autosave (the draft of the editor it was last called for, at its
     * current text, and the counters), the keydown counter flushes, and the
     * form fields' saves.
     */
    method Advance(dt: nat)
      requires Valid()
      modifies this`now, this`pendingSave, this`counterFlushes, this`formPending, storage`items
      ensures Valid()
      ensures now == old(now) + dt
      ensures pendingSave == if old(pendingSave).Some? && old(pendingSave).value.due <= now then None else old(pendingSave)
      ensures counterFlushes == NotDue(old(counterFlushes), now)
      ensures formPending == map f | f in old(formPending) && old(formPending)[f] > now :: old(formPending)[f]
      ensures storage.items == FormsFired(
        if AnyDue(old(counterFlushes), now)
        then CountersWritten(SaveFired(old(storage.items), old(pendingSave), now))
        else SaveFired(old(storage.items), old(pendingSave), now),
        old(formPending), now, FORM_FIELDS)
    {
      now := now + dt;
      FireSaves();
      FireFormTimers();
    }

    /** The editor timers due by `now`: the shared autosave first, then the keydown counter flushes. */
    method FireSaves()
      requires Valid()
      modifies this`pendingSave, this`counterFlushes, storage`items
      ensures Valid()
      ensures pendingSave == if old(pendingSave).Some? && old(pendingSave).value.due <= now then None else old(pendingSave)
      ensures counterFlushes == NotDue(old(counterFlushes), now)
      ensures storage.items ==
        if AnyDue(old(counterFlushes), now)
        then CountersWritten(SaveFired(old(storage.items), old(pendingSave), now))
        else SaveFired(old(storage.items), old(pendingSave), now)
    {
      FireAutosave();
      FireCounterFlushes();
    }

    /** The shared `debouncedSave` timer, if due: the draft of the editor it was last called for, then the counters. */
    method FireAutosave()
      requires Valid()
      modifies this`pendingSave, storage`items
      ensures Valid()
      ensures pendingSave == if old(pendingSave).Some? && old(pendingSave).value.due <= now then None else old(pendingSave)
      ensures storage.items == SaveFired(old(storage.items), old(pendingSave), now)
    {
      if pendingSave.Some? && pendingSave.value.due <= now {
        var e := pendingSave.value.editor;
        pendingSave := None;
        SaveTextarea(e);
        SaveAntiCheat();
      }
    }

    /** The keydown timers due by `now`: each writes the counters; the others keep waiting. */
    method FireCounterFlushes()
      modifies this`counterFlushes, storage`items
      ensures counterFlushes == NotDue(old(counterFlushes), now)
      ensures storage.items == if AnyDue(old(counterFlushes), now) then CountersWritten(old(storage.items)) else old(storage.items)
    {
      var waiting: seq<nat> := [];
      var k := 0;
      while k < |counterFlushes|
        invariant 0 <= k <= |counterFlushes|
        invariant waiting == NotDue(counterFlushes[..k], now)
        invariant storage.items == if AnyDue(counterFlushes[..k], now) then CountersWritten(old(storage.items)) else old(storage.items)
        modifies storage`items
      {
        DueStep(counterFlushes, k, now);
        if counterFlushes[k] <= now {
          CountersWrittenTwice(old(storage.items));
          SaveAntiCheat();
        } else {
          waiting := waiting + [counterFlushes[k]];
        }
        k := k + 1;
      }
      assert counterFlushes[..k] == counterFlushes;
      counterFlushes := waiting;
    }

    /** The form fields' timers due by `now`: each writes its field's current value. */
    method FireFormTimers()
      requires Valid()
      modifies this`formPending, storage`items
      ensures Valid()
      ensures formPending == map f | f in old(formPending) && old(formPending)[f] > now :: old(formPending)[f]
      ensures storage.items == FormsFired(old(storage.items), old(formPending), now, FORM_FIELDS)
    {
      FormFieldsDistinct();
      FireTimersOf(FORM_FIELDS);
      assert formPending.Keys == (map f | f in old(formPending) && old(formPending)[f] > now :: old(formPending)[f]).Keys;
    }

    /** The timers of the distinct form fields `fids` that are due by `now`. */
    method FireTimersOf(fids: seq<string>)
      requires forall a, b :: 0 <= a < b < |fids| ==> fids[a] != fids[b]
      requires formPending.Keys <= forms.Keys
      modifies this`formPending, storage`items
      ensures formPending.Keys <= forms.Keys
      ensures forall f :: f in formPending <==> f in old(formPending) && (f !in fids || old(formPending)[f] > now)
      ensures forall f :: f in formPending ==> formPending[f] == old(formPending)[f]
      ensures storage.items == FormsFired(old(storage.items), old(formPending), now, fids)
    {
      var j := 0;
      while j < |fids|
        invariant 0 <= j <= |fids|
        invariant storage.items == FormsFired(old(storage.items), old(formPending), now, fids[..j])
        invariant forall f :: f in formPending <==> f in old(formPending) && (f !in fids[..j] || old(formPending)[f] > now)
        invariant forall f :: f in formPending ==> formPending[f] == old(formPending)[f]
        invariant formPending.Keys <= forms.Keys
      {
        var fid := fids[j];
        assert fids[..j + 1] == fids[..j] + [fid];
        assert fid !in fids[..j];
        if fid in formPending && formPending[fid] <= now {
          formPending := formPending - {fid};
          LsSet(FormKey(fid), forms[fid]);
        }
        j := j + 1;
      }
      assert fids[..j] == fids;
    }

    /** The Save button of editor `i`: draft and counters written at once; the autosave timer is left alone. */
    method SaveClicked(i: nat)
      requires Valid() && i in buttons
      modifies storage`items
      ensures storage.items == CountersWritten(DraftWritten(old(storage.items), editors[i]))
    {
      SaveTextarea(i);
      SaveAntiCheat();
    }

    /**
     * The Reset button of editor `i`, after `confirm` answered `confirmed`.
     * Declined: nothing changes. Confirmed: the text becomes `DEFAULTS[id] || ""`,
     * the `input` event restarts the shared autosave for this editor, the
     * draft key is removed, this editor's counters are zeroed where the host
     * defines them, and both counter objects are written. DEFAULTS is not touched.
     */
    method ResetClicked(i: nat, confirmed: bool)
      requires Valid() && i in buttons
      modifies this`editors, this`pendingSave, this`keystrokeCounts, this`pasteAttempts, storage`items
      ensures Valid()
      ensures !confirmed ==>
        && editors == old(editors) && pendingSave == old(pendingSave)
        && keystrokeCounts == old(keystrokeCounts) && pasteAttempts == old(pasteAttempts)
        && storage.items == old(storage.items)
      ensures confirmed ==>
        var id := old(editors[i]).id;
        && editors == old(editors)[i := old(editors[i]).(value := DefaultText(defaults, id))]
        && pendingSave == (if wired && i in allEditors then Some(PendingSave(i, now + AUTOSAVE_MS)) else old(pendingSave))
        && keystrokeCounts == (if old(keystrokeCounts).Some? then Some(ZeroIfDefined(old(keystrokeCounts).value, id)) else None)
        && pasteAttempts == (if old(pasteAttempts).Some? then Some(ZeroIfDefined(old(pasteAttempts).value, id)) else None)
        && storage.items == CountersWritten(if storage.available then old(storage.items) - {prefix + DraftKey(id)} else old(storage.items))
    {
      if confirmed {
        var id := editors[i].id;
        Input(i, DefaultText(defaults, id));
        ForgetDraft(id);
      }
    }

    /** The store side of a confirmed Reset: the draft key removed, the counters of `id` zeroed and written. */
    method ForgetDraft(id: string)
      modifies this`keystrokeCounts, this`pasteAttempts, storage`items
      ensures keystrokeCounts == if old(keystrokeCounts).Some? then Some(ZeroIfDefined(old(keystrokeCounts).value, id)) else None
      ensures pasteAttempts == if old(pasteAttempts).Some? then Some(ZeroIfDefined(old(pasteAttempts).value, id)) else None
      ensures storage.items == CountersWritten(if storage.available then old(storage.items) - {prefix + DraftKey(id)} else old(storage.items))
    {
      LsRemove(DraftKey(id));
      ghost var removed := storage.items;
      ZeroCounters(id);
      assert storage.items == removed;
      SaveAntiCheat();
    }

    /** Reset's counter step: both counter objects zero `id` where they define it. */
    method ZeroCounters(id: string)
      modifies this`keystrokeCounts, this`pasteAttempts
      ensures keystrokeCounts == if old(keystrokeCounts).Some? then Some(ZeroIfDefined(old(keystrokeCounts).value, id)) else None
      ensures pasteAttempts == if old(pasteAttempts).Some? then Some(ZeroIfDefined(old(pasteAttempts).value, id)) else None
    {
      if keystrokeCounts.Some? && id in keystrokeCounts.value {
        keystrokeCounts := Some(keystrokeCounts.value[id := 0]);
      }
      if pasteAttempts.Some? && id in pasteAttempts.value {
        pasteAttempts := Some(pasteAttempts.value[id := 0]);
      }
    }

    /** `patchOriginals()`: DEFAULTS of the "ex" editors into the host's record, when the host has one. */
    method PatchOriginals()
      modifies this`originalExerciseCode
      ensures originalExerciseCode == if old(originalExerciseCode).Some?
        then Some(PatchedOriginals(old(originalExerciseCode).value, defaults)) else None
    {
      if originalExerciseCode.None? {
        return;
      }
      var patched := PatchInto(originalExerciseCode.value, defaults);
      originalExerciseCode := Some(patched);
    }
  }
}
