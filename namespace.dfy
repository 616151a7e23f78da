/**
 * The page identifier and the key layout of the course add-on: every value
 * a lecture page keeps lives under `cs_<PAGE_ID>_<key>`, where the logical
 * key is `ta_<editor id>`, `form_<field id>`, `keystrokeCounts` or
 * `pasteAttempts`.
 */
module Namespace {
  import opened Text

  /** `pathname.split("/").pop()`: the text after the last '/'. */
  function LastSegment(path: string): (r: string)
    ensures |r| <= |path| && r == path[|path| - |r|..]
    ensures '/' !in r
    ensures |r| < |path| ==> path[|path| - |r| - 1] == '/'
  {
    if path == "" || path[|path| - 1] == '/' then ""
    else LastSegment(path[..|path| - 1]) + [path[|path| - 1]]
  }

  /** `s.replace(/\.html?$/i, "")`: drop one trailing `.htm` or `.html`, in any ASCII case. */
  function StripHtmlExtension(s: string): (r: string)
    ensures |r| <= |s| && r == s[..|r|]
    ensures |s| >= 5 && Lower(s[|s| - 5..]) == ".html" ==> r == s[..|s| - 5]
    ensures |s| >= 4 && Lower(s[|s| - 4..]) == ".htm" ==> r == s[..|s| - 4]
    ensures r != s ==> Lower(s[|r|..]) == ".htm" || Lower(s[|r|..]) == ".html"
  {
    if |s| >= 5 && Lower(s[|s| - 5..]) == ".html" then
      HtmlEndingIsNotHtm(s);
      s[..|s| - 5]
    else if |s| >= 4 && Lower(s[|s| - 4..]) == ".htm" then s[..|s| - 4]
    else s
  }

  /** A name ending in `.html` does not also end in `.htm`: the last letters differ. */
  lemma HtmlEndingIsNotHtm(s: string)
    requires |s| >= 5 && Lower(s[|s| - 5..]) == ".html"
    ensures Lower(s[|s| - 4..]) != ".htm"
  {
    assert Lower(s[|s| - 5..])[4] == LowerChar(s[|s| - 1]) == 'l';
    assert Lower(s[|s| - 4..])[3] == LowerChar(s[|s| - 1]);
  }

  /** The identifier taken from the URL path; empty when the path gives none. */
  function PathId(pathname: string): string {
    StripHtmlExtension(LastSegment(pathname))
  }

  /** `s` with its leading characters outside `[a-zA-Z0-9]` removed. */
  function DropNonAlnum(s: string): (r: string)
    ensures |r| <= |s| && r == s[|s| - |r|..]
    ensures r == "" || IsAsciiAlnum(r[0])
    ensures s != "" && !IsAsciiAlnum(s[0]) ==> |r| < |s|
  {
    if s != "" && !IsAsciiAlnum(s[0]) then DropNonAlnum(s[1..]) else s
  }

  /** Only ASCII letters, digits and single underscores. */
  predicate IsSanitized(s: string) {
    && (forall i :: 0 <= i < |s| ==> IsAsciiAlnum(s[i]) || s[i] == '_')
    && (forall i :: 0 <= i < |s| - 1 ==> s[i] != '_' || s[i + 1] != '_')
  }

  /** `title.replace(/[^a-zA-Z0-9]+/g, "_")`: each maximal run outside the class becomes one '_'. */
  function Sanitize(s: string): (r: string)
    ensures IsSanitized(r)
    ensures s != "" && IsAsciiAlnum(s[0]) ==> r != "" && r[0] == s[0]
    ensures s != "" ==> r != ""
    decreases |s|
  {
    if s == "" then ""
    else if IsAsciiAlnum(s[0]) then [s[0]] + Sanitize(s[1..])
    else "_" + Sanitize(DropNonAlnum(s))
  }

  /** Every character is an ASCII letter or digit. */
  predicate AllAlnum(s: string) {
    forall i :: 0 <= i < |s| ==> IsAsciiAlnum(s[i])
  }

  /** A run of letters and digits is kept as it is. */
  lemma {:induction false} SanitizeKeepsAlnum(a: string)
    requires AllAlnum(a)
    ensures Sanitize(a) == a
    decreases |a|
  {
    if a != "" {
      AllAlnumTail(a);
      SanitizeKeepsAlnum(a[1..]);
      SanitizeKeepsLeadingAlnum(a[0], a[1..]);
      assert a == [a[0]] + a[1..];
    }
  }

  /** Dropping a run of characters outside the class stops at the first letter or digit after it. */
  lemma {:induction false} DropNonAlnumOfRun(n: string, t: string)
    requires forall i :: 0 <= i < |n| ==> !IsAsciiAlnum(n[i])
    requires t == "" || IsAsciiAlnum(t[0])
    ensures DropNonAlnum(n + t) == t
    decreases |n|
  {
    if n != "" {
      assert (n + t)[1..] == n[1..] + t;
      DropNonAlnumOfRun(n[1..], t);
    } else {
      assert n + t == t;
    }
  }

  /**
   * Letters and digits are kept in order and a maximal run of other
   * characters becomes one '_': `a`, then such a run `n`, then text `t`
   * that does not continue the run, sanitises to `a`, '_', and `t` sanitised.
   */
  lemma {:induction false} SanitizeCollapsesRun(a: string, n: string, t: string)
    requires AllAlnum(a)
    requires n != "" && forall i :: 0 <= i < |n| ==> !IsAsciiAlnum(n[i])
    requires t == "" || IsAsciiAlnum(t[0])
    ensures Sanitize(a + n + t) == a + "_" + Sanitize(t)
    decreases |a|
  {
    if a == "" {
      assert a + n + t == n + t;
      SanitizeOfRun(n, t);
      assert a + "_" + Sanitize(t) == "_" + Sanitize(t);
    } else {
      var c, rest, u := a[0], a[1..], Sanitize(t);
      var tail := rest + n + t;
      AllAlnumTail(a);
      SanitizeCollapsesRun(rest, n, t);
      SanitizeKeepsLeadingAlnum(c, tail);
      ConsAssoc(c, rest, n, t);
      ConsAssoc(c, rest, "_", u);
      assert a == [c] + rest;
    }
  }

  lemma SanitizeOfRun(n: string, t: string)
    requires n != "" && forall i :: 0 <= i < |n| ==> !IsAsciiAlnum(n[i])
    requires t == "" || IsAsciiAlnum(t[0])
    ensures Sanitize(n + t) == "_" + Sanitize(t)
  {
    assert (n + t)[0] == n[0];
    DropNonAlnumOfRun(n, t);
  }

  lemma ConsAssoc(c: char, x: string, y: string, z: string)
    ensures [c] + (x + y + z) == [c] + x + y + z
  {
  }

  lemma AllAlnumTail(a: string)
    requires a != "" && AllAlnum(a)
    ensures AllAlnum(a[1..])
  {
    forall i | 0 <= i < |a| - 1 ensures IsAsciiAlnum(a[1..][i]) {
      assert a[1..][i] == a[i + 1];
    }
  }

  lemma SanitizeKeepsLeadingAlnum(c: char, s: string)
    requires IsAsciiAlnum(c)
    ensures Sanitize([c] + s) == [c] + Sanitize(s)
  {
    assert ([c] + s)[1..] == s;
  }

  /** `s.substring(0, n)`. */
  function Take(s: string, n: nat): (r: string)
    ensures |r| <= n && |r| <= |s| && r == s[..|r|]
    ensures |s| <= n ==> r == s
    ensures |s| > n ==> |r| == n
  {
    if |s| <= n then s else s[..n]
  }

  /**
   * PAGE_ID: the last path segment without a trailing `.htm`/`.html`; when
   * that is empty, the title sanitised and cut to 40 characters.
   */
  function PageId(pathname: string, title: string): string {
    var path := PathId(pathname);
    if path != "" then path else Take(Sanitize(title), 40)
  }

  /**
   * PAGE_ID is the path identifier when there is one, and otherwise the
   * sanitised title cut to 40 characters, non-empty when the title is; either
   * way it holds no '/'.
   */
  lemma PageIdShape(pathname: string, title: string)
    ensures '/' !in PageId(pathname, title)
    ensures PathId(pathname) != "" ==> PageId(pathname, title) == PathId(pathname)
    ensures PathId(pathname) == "" ==> PageId(pathname, title) == Take(Sanitize(title), 40)
    ensures PathId(pathname) == "" ==> |PageId(pathname, title)| <= 40 && IsSanitized(PageId(pathname, title))
    ensures PathId(pathname) == "" && title != "" ==> PageId(pathname, title) != ""
  {
    if PathId(pathname) != "" {
      PathIdHasNoSlash(pathname);
    } else {
      TakeOfSanitized(Sanitize(title), 40);
    }
  }

  /** The identifier taken from the path is part of one segment, so it holds no '/'. */
  lemma PathIdHasNoSlash(pathname: string)
    ensures '/' !in PathId(pathname)
  {
    var s := LastSegment(pathname);
    var r := StripHtmlExtension(s);
    forall i | 0 <= i < |r|
      ensures r[i] != '/'
    {
      assert r[i] == s[i] && s[i] in s;
    }
  }

  /** A prefix of a sanitised string is sanitised, holds no '/', and is empty only when one of the two is. */
  lemma TakeOfSanitized(s: string, n: nat)
    requires IsSanitized(s)
    ensures IsSanitized(Take(s, n)) && '/' !in Take(s, n)
    ensures s != "" && n > 0 ==> Take(s, n) != ""
  {
    var r := Take(s, n);
    forall i | 0 <= i < |r|
      ensures r[i] == s[i] && r[i] != '/'
    {
    }
  }

  /** LS_PREFIX. */
  function Prefix(pageId: string): string {
    "cs_" + pageId + "_"
  }

  /** The logical key of an editor's draft. */
  function DraftKey(id: string): string {
    "ta_" + id
  }

  /** The logical key of a form field's value. */
  function FormKey(fid: string): string {
    "form_" + fid
  }

  const KEYSTROKES: string := "keystrokeCounts"
  const PASTES: string := "pasteAttempts"

  /**
   * Within one page the logical keys never collide: drafts of different
   * editors, form fields and the two counter objects each have their own key,
   * and the prefix keeps them apart once stored.
   */
  lemma KeysOfOnePageAreDistinct(pageId: string, a: string, b: string, f: string, g: string)
    ensures Prefix(pageId) + DraftKey(a) == Prefix(pageId) + DraftKey(b) ==> a == b
    ensures Prefix(pageId) + FormKey(f) == Prefix(pageId) + FormKey(g) ==> f == g
    ensures DraftKey(a) != FormKey(f)
    ensures DraftKey(a) != KEYSTROKES && DraftKey(a) != PASTES
    ensures FormKey(f) != KEYSTROKES && FormKey(f) != PASTES
    ensures KEYSTROKES != PASTES
  {
    var p := Prefix(pageId);
    if p + DraftKey(a) == p + DraftKey(b) {
      assert a == (p + DraftKey(a))[|p| + 3..];
      assert b == (p + DraftKey(b))[|p| + 3..];
    }
    if p + FormKey(f) == p + FormKey(g) {
      assert f == (p + FormKey(f))[|p| + 5..];
      assert g == (p + FormKey(g))[|p| + 5..];
    }
    assert DraftKey(a)[0] == 't' && FormKey(f)[0] == 'f';
    assert KEYSTROKES[0] == 'k' && PASTES[0] == 'p';
  }

  /**
   * Across pages the prefix does not keep keys apart: a page named `Week`
   * with an editor `ta_x` and a page named `Week_ta` with an editor `x`
   * store their drafts under the same key.
   */
  lemma PagesCanShareAKey()
    ensures Prefix("Week") + DraftKey("ta_x") == Prefix("Week_ta") + DraftKey("x")
    ensures "Week" != "Week_ta" && "ta_x" != "x"
  {
  }

  /** PAGE_ID from the path: the file name without its extension. */
  lemma PageIdFromPath()
    ensures PageId("/w/W1.HTML", "Lecture") == "W1"
  {
    var seg := "W1.HTML";
    assert LastSegment("/w/W1.HTML") == seg by {
      assert LastSegment("/w/") == "";
      assert "/w/W1.HTML"[..3] == "/w/";
      assert "/w/W1.HTML"[..4] == "/w/W" && "/w/W1.HTML"[..5] == "/w/W1";
      assert "/w/W1.HTML"[..6] == "/w/W1." && "/w/W1.HTML"[..7] == "/w/W1.H";
      assert "/w/W1.HTML"[..8] == "/w/W1.HT" && "/w/W1.HTML"[..9] == "/w/W1.HTM";
    }
    assert seg[|seg| - 5..] == ".HTML";
    assert Lower(".HTML") == ".html";
    assert seg[..|seg| - 5] == "W1";
  }

  /** A path ending in '/' gives no identifier. */
  lemma PathIdOfDirectory()
    ensures PathId("/w/") == ""
  {
    assert LastSegment("/w/") == "";
    assert StripHtmlExtension("") == "";
  }

  /** One space between two letters becomes one '_'. */
  lemma SanitizeOfSpacedLetters()
    ensures Sanitize("A B") == "A_B"
  {
    assert AllAlnum("A") && AllAlnum("B");
    assert "A" + " " + "B" == "A B";
    SanitizeCollapsesRun("A", " ", "B");
    SanitizeKeepsAlnum("B");
    assert "A" + "_" + "B" == "A_B";
  }

  /** PAGE_ID from the title when the path ends in '/': a space becomes '_'. */
  lemma PageIdFromTitle()
    ensures PageId("/w/", "A B") == "A_B"
  {
    PathIdOfDirectory();
    SanitizeOfSpacedLetters();
    assert Take("A_B", 40) == "A_B";
  }
}
