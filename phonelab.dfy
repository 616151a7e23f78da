/**
 * The PhoneLab pages' helpers: the draft and status keys of a week, the
 * four store operations on them, the indentation of a learner's code
 * before it is wrapped in a `try:` block, and the status chip of the hub.
 * Unlike the course add-on, these helpers do not catch the exceptions of a
 * disabled `localStorage`: they reach the caller.
 */
module PhoneLab {
  import opened Wrappers
  import opened Json
  import opened WebStorage
  import Namespace

  // ----- keys -----

  /** `storageKey(week)`: where a week's draft lives. */
  function StorageKey(week: string): string {
    "phonelab_" + week + "_draft"
  }

  /** `statusKey(week)`: where a week's status (`draft`, `submitted` or none) lives. */
  function StatusKey(week: string): string {
    "phonelab_" + week + "_status"
  }

  /**
   * Different weeks have different keys, and a draft key is never a
   * status key (one ends in `t`, the other in `s`).
   */
  lemma KeysAreDistinct(w1: string, w2: string)
    ensures StorageKey(w1) == StorageKey(w2) ==> w1 == w2
    ensures StatusKey(w1) == StatusKey(w2) ==> w1 == w2
    ensures StorageKey(w1) != StatusKey(w2)
  {
    var a, b := StorageKey(w1), StatusKey(w2);
    if StorageKey(w1) == StorageKey(w2) {
      assert w1 == StorageKey(w1)[9..|StorageKey(w1)| - 6];
      assert w2 == StorageKey(w2)[9..|StorageKey(w2)| - 6];
    }
    if StatusKey(w1) == StatusKey(w2) {
      assert w1 == StatusKey(w1)[9..|StatusKey(w1)| - 7];
      assert w2 == StatusKey(w2)[9..|StatusKey(w2)| - 7];
    }
    assert a[|a| - 1] == 't' && b[|b| - 1] == 's';
  }

  /**
   * The PhoneLab keys never meet the course add-on's keys in the shared
   * store: these begin with `phonelab_`, those with `cs_`.
   */
  lemma KeysMissCourseKeys(week: string, pageId: string, key: string)
    ensures StorageKey(week) != Namespace.Prefix(pageId) + key
    ensures StatusKey(week) != Namespace.Prefix(pageId) + key
  {
    assert StorageKey(week)[0] == 'p' && StatusKey(week)[0] == 'p';
    assert (Namespace.Prefix(pageId) + key)[0] == 'c';
  }

  // ----- the store, as values -----

  /** What `loadDraft` reads from `items`: nothing for a missing or empty value, else what parsing gives. */
  function DraftIn<T>(items: map<string, string>, codec: Codec<T>, week: string): (r: Option<T>)
    ensures StorageKey(week) !in items || items[StorageKey(week)] == "" ==> r == None
  {
    var key := StorageKey(week);
    if key !in items || items[key] == "" then None else codec.parse(items[key])
  }

  /** What `getStatus` reads from `items`: the stored status, or `none` for a missing or empty value. */
  function StatusIn(items: map<string, string>, week: string): (r: string)
    ensures r != ""
    ensures StatusKey(week) in items && items[StatusKey(week)] != "" ==> r == items[StatusKey(week)]
  {
    var key := StatusKey(week);
    if key in items && items[key] != "" then items[key] else "none"
  }

  /** The store after `saveDraft(week, obj)`: the draft written, then the status set to `draft`. */
  function SavedDraft<T>(items: map<string, string>, codec: Codec<T>, week: string, obj: T): map<string, string> {
    items[StorageKey(week) := codec.stringify(obj)][StatusKey(week) := "draft"]
  }

  /**
   * Saving a draft and loading it gives the object back, and the week's
   * status reads `draft`, whenever parsing what was written gives the
   * value back.
   */
  lemma SaveThenLoad<T(!new)>(items: map<string, string>, codec: Codec<T>, week: string, obj: T)
    requires Faithful(codec)
    ensures DraftIn(SavedDraft(items, codec, week, obj), codec, week) == Some(obj)
    ensures StatusIn(SavedDraft(items, codec, week, obj), week) == "draft"
  {
    KeysAreDistinct(week, week);
    assert codec.stringify(obj) != "" && codec.parse(codec.stringify(obj)) == Some(obj);
  }

  /** Saving one week's draft changes neither the draft nor the status of another week. */
  lemma SaveLeavesOtherWeeks<T>(items: map<string, string>, codec: Codec<T>, week: string, obj: T, other: string)
    requires other != week
    ensures DraftIn(SavedDraft(items, codec, week, obj), codec, other) == DraftIn(items, codec, other)
    ensures StatusIn(SavedDraft(items, codec, week, obj), other) == StatusIn(items, other)
  {
    KeysAreDistinct(week, other);
    KeysAreDistinct(other, week);
  }

  /**
   * Setting a status and reading it back gives that status, except that
   * an empty status reads `none`; no other week's status, and no draft,
   * changes.
   */
  lemma SetThenGetStatus<T>(items: map<string, string>, codec: Codec<T>, week: string, status: string, other: string)
    ensures status != "" ==> StatusIn(items[StatusKey(week) := status], week) == status
    ensures status == "" ==> StatusIn(items[StatusKey(week) := status], week) == "none"
    ensures other != week ==> StatusIn(items[StatusKey(week) := status], other) == StatusIn(items, other)
    ensures DraftIn(items[StatusKey(week) := status], codec, other) == DraftIn(items, codec, other)
  {
    KeysAreDistinct(week, other);
    KeysAreDistinct(other, week);
  }

  // ----- the store operations -----

  /** `saveDraft(week, obj)`: two `setItem` calls; an exception from the first skips the second. */
  method SaveDraft<T>(store: LocalStorage, codec: Codec<T>, week: string, obj: T) returns (r: Outcome<()>)
    modifies store`items
    ensures r.Threw? <==> !store.available
    ensures store.items == if store.available then SavedDraft(old(store.items), codec, week, obj) else old(store.items)
  {
    var written := store.SetItem(StorageKey(week), codec.stringify(obj));
    if written.Threw? {
      return Threw;
    }
    r := store.SetItem(StatusKey(week), "draft");
  }

  /** `loadDraft(week)`: `null` for a missing or empty value, or when the text does not parse. */
  method LoadDraft<T>(store: LocalStorage, codec: Codec<T>, week: string) returns (r: Outcome<Option<T>>)
    ensures !store.available ==> r.Threw?
    ensures store.available ==> r == Returned(DraftIn(store.items, codec, week))
  {
    var raw := store.GetItem(StorageKey(week));
    if raw.Threw? {
      return Threw;
    }
    if raw.value.None? || raw.value.value == "" {
      return Returned(None);
    }
    r := Returned(codec.parse(raw.value.value));
  }

  /** `setStatus(week, status)`. */
  method SetStatus(store: LocalStorage, week: string, status: string) returns (r: Outcome<()>)
    modifies store`items
    ensures r.Threw? <==> !store.available
    ensures store.items == if store.available then old(store.items)[StatusKey(week) := status] else old(store.items)
  {
    r := store.SetItem(StatusKey(week), status);
  }

  /** `getStatus(week)`: the stored status, or `none` when it is missing or empty. */
  method GetStatus(store: LocalStorage, week: string) returns (r: Outcome<string>)
    ensures !store.available ==> r.Threw?
    ensures store.available ==> r == Returned(StatusIn(store.items, week))
  {
    var raw := store.GetItem(StatusKey(week));
    if raw.Threw? {
      return Threw;
    }
    r := Returned(raw.value.GetOr(""));
    if r.value == "" {
      r := Returned("none");
    }
  }

  /** Saving a draft in an available store, then loading it, returns the object. */
  method SaveDraftThenLoad<T(!new)>(store: LocalStorage, codec: Codec<T>, week: string, obj: T) returns (loaded: Outcome<Option<T>>)
    requires store.available && Faithful(codec)
    modifies store`items
    ensures loaded == Returned(Some(obj))
  {
    var saved := SaveDraft(store, codec, week, obj);
    SaveThenLoad(old(store.items), codec, week, obj);
    loaded := LoadDraft(store, codec, week);
  }

  // ----- indentation -----

  /** `s.split("\n")`: the pieces between line feeds; at least one, possibly empty. */
  function Split(s: string): (r: seq<string>)
    ensures |r| >= 1
    ensures forall i :: 0 <= i < |r| ==> '\n' !in r[i]
    decreases |s|
  {
    if s == "" then [""]
    else
      var rest := Split(s[1..]);
      if s[0] == '\n' then [""] + rest
      else
        assert '\n' !in rest[0];
        [[s[0]] + rest[0]] + rest[1..]
  }

  /** `lines.join("\n")`. */
  function Join(lines: seq<string>): string {
    if lines == [] then ""
    else if |lines| == 1 then lines[0]
    else lines[0] + "\n" + Join(lines[1..])
  }

  /** Joining the pieces of a split gives the text back. */
  lemma {:induction false} JoinSplit(s: string)
    ensures Join(Split(s)) == s
    decreases |s|
  {
    if s != "" {
      JoinSplit(s[1..]);
      var rest := Split(s[1..]);
      if s[0] == '\n' {
        assert s == "\n" + s[1..];
      } else if |rest| == 1 {
        assert s == [s[0]] + s[1..];
      } else {
        assert Join(rest) == rest[0] + "\n" + Join(rest[1..]);
        assert ([[s[0]] + rest[0]] + rest[1..])[1..] == rest[1..];
        assert s == [s[0]] + s[1..];
      }
    }
  }

  /** Splitting text that starts with a piece without line feeds: the piece is glued to the first piece of the rest. */
  lemma {:induction false} SplitAfterPiece(x: string, t: string)
    requires '\n' !in x
    ensures Split(x + t) == [x + Split(t)[0]] + Split(t)[1..]
    decreases |x|
  {
    if x != "" {
      assert (x + t)[1..] == x[1..] + t;
      assert x[0] in x;
      assert '\n' !in x[1..] by {
        assert forall c :: c in x[1..] ==> c in x;
      }
      SplitAfterPiece(x[1..], t);
      assert [x[0]] + (x[1..] + Split(t)[0]) == x + Split(t)[0];
    } else {
      var r := Split(t);
      assert x + t == t && x + r[0] == r[0];
      assert [r[0]] + r[1..] == r;
    }
  }

  /** Splitting joined pieces that have no line feeds gives the pieces back. */
  lemma {:induction false} SplitJoin(lines: seq<string>)
    requires |lines| >= 1
    requires forall i :: 0 <= i < |lines| ==> '\n' !in lines[i]
    ensures Split(Join(lines)) == lines
    decreases |lines|
  {
    if |lines| == 1 {
      SplitAfterPiece(lines[0], "");
      assert lines[0] + "" == lines[0];
    } else {
      var t := Join(lines[1..]);
      SplitJoin(lines[1..]);
      assert lines[0] + "\n" + t == lines[0] + ("\n" + t);
      SplitAfterPiece(lines[0], "\n" + t);
      assert ("\n" + t)[1..] == t;
      assert Split("\n" + t) == [""] + lines[1..];
      assert lines[0] + "" == lines[0];
    }
  }

  const INDENT: string := "    "

  /** Four spaces before each line. */
  function Indented(lines: seq<string>): (r: seq<string>)
    ensures |r| == |lines|
    ensures forall i :: 0 <= i < |r| ==> r[i] == INDENT + lines[i]
  {
    seq(|lines|, i requires 0 <= i < |lines| => INDENT + lines[i])
  }

  /** `indentPython(code)`: every line of `code`, including an empty last one, indented by four spaces. */
  function IndentPython(code: string): string {
    Join(Indented(Split(code)))
  }

  /** `line.slice(4)`: the line without its first four characters. */
  function DropIndent(line: string): string {
    if |line| >= 4 then line[4..] else ""
  }

  function Dedented(lines: seq<string>): (r: seq<string>)
    ensures |r| == |lines|
    ensures forall i :: 0 <= i < |r| ==> r[i] == DropIndent(lines[i])
  {
    seq(|lines|, i requires 0 <= i < |lines| => DropIndent(lines[i]))
  }

  /**
   * The indented code has as many lines as the code, each line is the
   * code's line behind four spaces, and dropping those four spaces from
   * every line gives the code back.
   */
  lemma IndentPythonLines(code: string)
    ensures |Split(IndentPython(code))| == |Split(code)|
    ensures forall i :: 0 <= i < |Split(code)| ==> Split(IndentPython(code))[i] == INDENT + Split(code)[i]
    ensures Join(Dedented(Split(IndentPython(code)))) == code
  {
    var lines := Split(code);
    var ind := Indented(lines);
    forall i | 0 <= i < |ind|
      ensures '\n' !in ind[i]
    {
      assert '\n' !in lines[i];
      assert forall c :: c in ind[i] ==> c in INDENT || c in lines[i];
    }
    SplitJoin(ind);
    assert Dedented(ind) == lines by {
      forall i | 0 <= i < |ind|
        ensures Dedented(ind)[i] == lines[i]
      {
        assert ind[i] == INDENT + lines[i];
      }
    }
    JoinSplit(code);
  }

  /** Empty code becomes one line of four spaces. */
  lemma IndentEmpty()
    ensures IndentPython("") == "    "
  {
  }

  // ----- the status chip -----

  /** The text a chip shows for a status. */
  function ChipText(status: string): string {
    if status == "submitted" then "Submitted"
    else if status == "draft" then "Draft saved"
    else "Not started"
  }

  /** A `[data-chip]` element: its text and its classes. */
  class Chip {
    var text: string
    var classes: set<string>

    constructor (text: string, classes: set<string>)
      ensures this.text == text && this.classes == classes
    {
      this.text := text;
      this.classes := classes;
    }

    /**
     * `updateChip(el, status)`: `ok` and `warn` are removed, then the chip
     * reads `Submitted` with `ok`, `Draft saved` with `warn`, or
     * `Not started` with neither; its other classes stay.
     */
    method UpdateChip(status: string)
      modifies this
      ensures text == ChipText(status)
      ensures "ok" in classes <==> status == "submitted"
      ensures "warn" in classes <==> status == "draft"
      ensures forall c :: c != "ok" && c != "warn" ==> (c in classes <==> c in old(classes))
    {
      classes := classes - {"ok", "warn"};
      if status == "submitted" {
        text := "Submitted";
        classes := classes + {"ok"};
      } else if status == "draft" {
        text := "Draft saved";
        classes := classes + {"warn"};
      } else {
        text := "Not started";
      }
    }
  }

  /** After a draft is saved, the hub chip of that week reads `Draft saved`. */
  lemma ChipAfterSave<T(!new)>(items: map<string, string>, codec: Codec<T>, week: string, obj: T)
    requires Faithful(codec)
    ensures ChipText(StatusIn(SavedDraft(items, codec, week, obj), week)) == "Draft saved"
  {
    SaveThenLoad(items, codec, week, obj);
  }

  /** A week never touched reads `none`, and its chip `Not started`. */
  lemma UntouchedWeek(items: map<string, string>, week: string)
    requires StatusKey(week) !in items
    ensures StatusIn(items, week) == "none" && ChipText(StatusIn(items, week)) == "Not started"
  {
  }
}
