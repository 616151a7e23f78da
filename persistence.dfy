/**
 * What the course add-on does with an editor's text, the anti-cheat
 * counters and the host's record of original exercise code, stated as
 * functions of values. The page in CourseAddon performs these steps in
 * place and is proved to match them.
 */
module Persistence {
  import opened Wrappers
  import opened Text

  /** A `textarea.code-editor`: its id (possibly empty), its text, and whether it sits in a figure with a header. */
  datatype Editor = Editor(id: string, value: string, inHeaderedFigure: bool)

  /** `window.keystrokeCounts` / `window.pasteAttempts`: editor id to count. */
  type Counters = map<string, int>

  /** The ids of all editors that have one. */
  function Ids(editors: seq<Editor>): set<string> {
    set i | 0 <= i < |editors| && editors[i].id != "" :: editors[i].id
  }

  /** No two editors share a non-empty id (what HTML asks of ids). */
  predicate UniqueIds(editors: seq<Editor>) {
    forall i, j :: 0 <= i < j < |editors| && editors[i].id != "" ==> editors[i].id != editors[j].id
  }

  /**
   * DEFAULTS after `snapshotDefaults` walks `editors` in document order:
   * every editor with an id records its text; a later editor with the same
   * id overwrites an earlier one.
   */
  function Snapshot(editors: seq<Editor>): (d: map<string, string>)
    ensures d.Keys == Ids(editors)
  {
    if editors == [] then map[]
    else
      var e := editors[|editors| - 1];
      var d := Snapshot(editors[..|editors| - 1]);
      assert editors == editors[..|editors| - 1] + [e];
      if e.id != "" then d[e.id := e.value] else d
  }

  /** With unique ids, DEFAULTS holds exactly each editor's own authored text. */
  lemma {:induction false} SnapshotOfUniqueIds(editors: seq<Editor>, i: nat)
    requires UniqueIds(editors)
    requires i < |editors| && editors[i].id != ""
    ensures editors[i].id in Snapshot(editors)
    ensures Snapshot(editors)[editors[i].id] == editors[i].value
  {
    var n := |editors| - 1;
    var pre := editors[..n];
    var e := editors[n];
    assert Snapshot(editors) == if e.id != "" then Snapshot(pre)[e.id := e.value] else Snapshot(pre);
    if i < n {
      assert UniqueIds(pre) by {
        forall a, b | 0 <= a < b < |pre| && pre[a].id != "" ensures pre[a].id != pre[b].id {
          assert pre[a] == editors[a] && pre[b] == editors[b];
        }
      }
      SnapshotOfUniqueIds(pre, i);
      assert pre[i] == editors[i];
      assert e.id != editors[i].id;
    }
  }

  /** The indices of ALL_EDITORS: the editors that have an id, in document order. */
  function IdIndices(editors: seq<Editor>): (r: seq<nat>)
    ensures forall k :: 0 <= k < |r| ==> r[k] < |editors| && editors[r[k]].id != ""
    ensures forall i :: 0 <= i < |editors| && editors[i].id != "" ==> i in r
  {
    if editors == [] then []
    else
      var n := |editors| - 1;
      IdIndices(editors[..n]) + (if editors[n].id != "" then [n] else [])
  }

  predicate StrictlyIncreasing(s: seq<nat>) {
    forall a, b :: 0 <= a < b < |s| ==> s[a] < s[b]
  }

  /** ALL_EDITORS lists the editors in document order: its indices strictly increase. */
  lemma {:induction false} IdIndicesInDocumentOrder(editors: seq<Editor>)
    ensures StrictlyIncreasing(IdIndices(editors))
  {
    if editors != [] {
      var n := |editors| - 1;
      var p := IdIndices(editors[..n]);
      IdIndicesInDocumentOrder(editors[..n]);
      assert forall k :: 0 <= k < |p| ==> p[k] < n;
      var r := IdIndices(editors);
      assert r == p + (if editors[n].id != "" then [n] else []);
      forall a, b | 0 <= a < b < |r| ensures r[a] < r[b] {
        if b >= |p| {
          assert r[b] == n && r[a] == p[a];
        } else {
          assert r[a] == p[a] && r[b] == p[b];
        }
      }
    }
  }

  /**
   * One step of `restoreState` for an editor: a stored draft replaces the
   * text only when there is one and it differs from DEFAULTS for that id.
   */
  function Restored(e: Editor, defaults: map<string, string>, saved: Option<string>): (r: Editor)
    ensures r.id == e.id && r.inHeaderedFigure == e.inHeaderedFigure
    ensures r.value == e.value || saved == Some(r.value)
    ensures saved.Some? && e.id in defaults && saved.value == defaults[e.id] ==> r == e
    ensures saved.Some? && (e.id !in defaults || saved.value != defaults[e.id]) ==> r.value == saved.value
  {
    if saved.Some? && (e.id !in defaults || saved.value != defaults[e.id]) then e.(value := saved.value)
    else e
  }

  /** Restoring from a store that holds nothing for the editor leaves it as it is. */
  lemma RestoreFromNothing(e: Editor, defaults: map<string, string>)
    ensures Restored(e, defaults, None) == e
  {
  }

  /**
   * Save, then reload: when DEFAULTS was snapshotted from the authored page
   * (unique ids), restoring a stored draft `s` gives the editor the text `s`,
   * whether or not `s` equals the authored text.
   */
  lemma RestoreAfterSave(authored: seq<Editor>, i: nat, s: string)
    requires UniqueIds(authored)
    requires i < |authored| && authored[i].id != ""
    ensures Restored(authored[i], Snapshot(authored), Some(s)).value == s
  {
    SnapshotOfUniqueIds(authored, i);
  }

  /**
   * Restoring when every stored draft equals its default (for instance the
   * default re-saved after a reset) leaves the authored page unchanged.
   */
  lemma RestoreOfDefaultsIsIdentity(authored: seq<Editor>, i: nat)
    requires UniqueIds(authored)
    requires i < |authored| && authored[i].id != ""
    ensures Restored(authored[i], Snapshot(authored), Some(authored[i].value)) == authored[i]
  {
    SnapshotOfUniqueIds(authored, i);
  }

  /**
   * `restoreState` for one counter object: persisted values overwrite the
   * live ones for keys the live object already defines; no key is added and
   * no live key is dropped.
   */
  function MergeCounters(live: Counters, persisted: Counters): (r: Counters)
    ensures r.Keys == live.Keys
    ensures forall k :: k in live && k in persisted ==> r[k] == persisted[k]
    ensures forall k :: k in live && k !in persisted ==> r[k] == live[k]
  {
    map k | k in live :: if k in persisted then persisted[k] else live[k]
  }

  /** Merging what the live object already holds changes nothing. */
  lemma MergeOfSelf(live: Counters)
    ensures MergeCounters(live, live) == live
  {
  }

  /**
   * Persisting `{"ex1": 42}` and restoring into live counters that define
   * `ex1` gives 42; into live counters without `ex1`, nothing changes.
   */
  lemma MergeExample(live: Counters)
    ensures "ex1" in live ==> MergeCounters(live, map["ex1" := 42])["ex1"] == 42
    ensures "ex1" !in live ==> MergeCounters(live, map["ex1" := 42]) == live
  {
  }

  /** Reset's counter step: zero the entry of `id` only where the object already defines it. */
  function ZeroIfDefined(c: Counters, id: string): (r: Counters)
    ensures r.Keys == c.Keys
    ensures id in c ==> r[id] == 0
    ensures forall k :: k in c && k != id ==> r[k] == c[k]
  {
    if id in c then c[id := 0] else c
  }

  /** Ids that Save/Reset buttons and `patchOriginals` care about. */
  predicate IsExerciseId(id: string) {
    StartsWith(id, "ex")
  }

  /**
   * `patchOriginals` on an existing `originalExerciseCode`: every DEFAULTS
   * entry whose id starts with "ex" is copied in; nothing else changes.
   */
  function PatchedOriginals(original: map<string, string>, defaults: map<string, string>): (r: map<string, string>)
    ensures r.Keys == original.Keys + (set id | id in defaults && IsExerciseId(id))
    ensures forall id :: id in defaults && IsExerciseId(id) ==> r[id] == defaults[id]
    ensures forall id :: id in original && !(id in defaults && IsExerciseId(id)) ==> r[id] == original[id]
  {
    map id | id in original.Keys + defaults.Keys && (id in original || IsExerciseId(id)) ::
      if id in defaults && IsExerciseId(id) then defaults[id] else original[id]
  }
}
