/**
 * How the navigator reads the page: a figure label must have the shape
 * `Figure <digits>.<digits> : <title>` (any ASCII case, flexible white
 * space) to be indexed, and an exercise card gives its number and a title.
 */
module Labels {
  import opened Wrappers
  import opened Text

  /** The three groups captured from a matching figure label. */
  datatype FigureLabel = FigureLabel(section: nat, sub: nat, title: string)

  /** The last character of a non-empty string is not white space. */
  predicate EndsInNonSpace(s: string) {
    s != "" && !IsSpace(s[|s| - 1])
  }

  /** A non-empty suffix of a string that ends in non-space ends in non-space too. */
  lemma EndsInNonSpaceSuffix(s: string, k: nat)
    requires k <= |s|
    ensures EndsInNonSpace(s) && k < |s| ==> EndsInNonSpace(s[k..])
  {
    if k < |s| {
      assert s[k..][|s| - k - 1] == s[|s| - 1];
    }
  }

  /** What a stage yields for a title: non-empty, trimmed, on one line. */
  predicate GoodTitle(title: string) {
    title != "" && IsTrimmed(title) && NoLineTerminator(title)
  }

  /**
   * `\s*(.+)$` followed by `.trim()` on the captured title: white space is
   * skipped, and the rest up to the end must be at least one character with
   * no line terminator. When only white space is left, the regular
   * expression backtracks and the title is its last character.
   */
  function MatchTitle(s: string): (r: Option<string>)
    ensures s[SpanSpace(s)..] != "" ==> (r.Some? <==> NoLineTerminator(s[SpanSpace(s)..]))
    ensures EndsInNonSpace(s) && r.Some? ==> GoodTitle(r.value) && r.value == s[SpanSpace(s)..]
    ensures s == "" ==> r == None
  {
    var rest := s[SpanSpace(s)..];
    if rest != "" then
      if NoLineTerminator(rest) then
        if EndsInNonSpace(s) then
          assert rest[|rest| - 1] == s[|s| - 1];
          TrimmedIsFixed(rest);
          Some(Trim(rest))
        else Some(Trim(rest))
      else None
    else if s != "" && !IsLineTerminator(s[|s| - 1]) then Some(Trim(s[|s| - 1..]))
    else None
  }

  /** `\s*:\s*(.+)$`, after both numbers. */
  function MatchColon(section: nat, sub: nat, e: string): (r: Option<FigureLabel>)
    ensures EndsInNonSpace(e) && r.Some? ==> GoodTitle(r.value.title)
    ensures r.Some? ==> r.value.section == section && r.value.sub == sub
  {
    var colon := e[SpanSpace(e)..];
    if colon == "" || colon[0] != ':' then None
    else
      EndsInNonSpaceSuffix(e, SpanSpace(e) + 1);
      match MatchTitle(colon[1..])
      case None => None
      case Some(title) => Some(FigureLabel(section, sub, title))
  }

  /** `(\d+)` for the sub-number, then the colon and the title. */
  function MatchSub(section: nat, c: string): (r: Option<FigureLabel>)
    ensures EndsInNonSpace(c) && r.Some? ==> GoodTitle(r.value.title)
  {
    var d2 := SpanDigits(c);
    if d2 == 0 then None
    else
      EndsInNonSpaceSuffix(c, d2);
      MatchColon(section, DigitsValue(c[..d2]), c[d2..])
  }

  /** `(\d+)\.` for the section, then the rest. */
  function MatchNumbers(b: string): (r: Option<FigureLabel>)
    ensures EndsInNonSpace(b) && r.Some? ==> GoodTitle(r.value.title)
  {
    var d1 := SpanDigits(b);
    if d1 == 0 || d1 == |b| || b[d1] != '.' then None
    else
      EndsInNonSpaceSuffix(b, d1 + 1);
      MatchSub(DigitsValue(b[..d1]), b[d1 + 1..])
  }

  /** `\s+` after the word `Figure`, then the rest. */
  function MatchAfterWord(a: string): (r: Option<FigureLabel>)
    ensures EndsInNonSpace(a) && r.Some? ==> GoodTitle(r.value.title)
    ensures r.Some? ==> a != "" && IsSpace(a[0])
  {
    var n0 := SpanSpace(a);
    if n0 == 0 then None
    else
      EndsInNonSpaceSuffix(a, n0);
      MatchNumbers(a[n0..])
  }

  /** `/^Figure\s+(\d+)\.(\d+)\s*:\s*(.+)$/i` with the numbers read by `parseInt(_, 10)`. */
  function MatchLabel(t: string): (r: Option<FigureLabel>)
    ensures r.Some? ==> |t| > 6 && Lower(t[..6]) == "figure" && IsSpace(t[6])
    ensures EndsInNonSpace(t) && r.Some? ==> GoodTitle(r.value.title)
  {
    if |t| < 6 || Lower(t[..6]) != "figure" then None
    else
      EndsInNonSpaceSuffix(t, 6);
      MatchAfterWord(t[6..])
  }

  /** What the navigator does with a label's `textContent`: trim it, then match. */
  function ParseLabel(text: string): (r: Option<FigureLabel>)
    ensures r.Some? ==> GoodTitle(r.value.title)
  {
    MatchLabel(Trim(text))
  }

  /**
   * The pieces the label pattern reads, apart from the title: the word
   * `Figure` in any case, a non-empty white-space run, the section digits,
   * the sub-number digits, and the white space before and after the colon.
   */
  predicate LabelParts(w: string, s1: string, x: string, y: string, s2: string, s3: string) {
    && Lower(w) == "figure"
    && s1 != "" && AllSpace(s1)
    && x != "" && AllDigits(x)
    && y != "" && AllDigits(y)
    && AllSpace(s2) && AllSpace(s3)
  }

  /** `w s1 x . y s2 : s3 title`, joined. */
  function LabelShape(w: string, s1: string, x: string, y: string, s2: string, s3: string, title: string): string {
    w + (s1 + (x + ("." + (y + (s2 + (":" + (s3 + title)))))))
  }

  lemma PiecesOfJoin(p: string, q: string)
    ensures (p + q)[..|p|] == p && (p + q)[|p|..] == q
  {
  }

  lemma MatchTitleOfShape(s3: string, title: string)
    requires AllSpace(s3) && GoodTitle(title)
    ensures MatchTitle(s3 + title) == Some(title)
  {
    var u := s3 + title;
    SpanSpaceOf(s3, title);
    assert u[|s3|..] == title;
    assert u[|u| - 1] == title[|title| - 1];
    TrimmedIsFixed(title);
  }

  lemma MatchColonOfShape(section: nat, sub: nat, s2: string, s3: string, title: string)
    requires AllSpace(s2) && AllSpace(s3) && GoodTitle(title)
    ensures MatchColon(section, sub, s2 + (":" + (s3 + title))) == Some(FigureLabel(section, sub, title))
  {
    var colon := ":" + (s3 + title);
    SpanSpaceOf(s2, colon);
    assert (s2 + colon)[|s2|..] == colon;
    assert colon[1..] == s3 + title;
    MatchTitleOfShape(s3, title);
  }

  lemma MatchSubOfShape(section: nat, y: string, s2: string, s3: string, title: string)
    requires y != "" && AllDigits(y) && AllSpace(s2) && AllSpace(s3) && GoodTitle(title)
    ensures MatchSub(section, y + (s2 + (":" + (s3 + title)))) == Some(FigureLabel(section, DigitsValue(y), title))
  {
    var e := s2 + (":" + (s3 + title));
    assert e[0] == if s2 == "" then ':' else s2[0];
    SpanDigitsOf(y, e);
    PiecesOfJoin(y, e);
    MatchColonOfShape(section, DigitsValue(y), s2, s3, title);
  }

  lemma MatchNumbersOfShape(x: string, y: string, s2: string, s3: string, title: string)
    requires x != "" && AllDigits(x) && y != "" && AllDigits(y)
    requires AllSpace(s2) && AllSpace(s3) && GoodTitle(title)
    ensures MatchNumbers(x + ("." + (y + (s2 + (":" + (s3 + title))))))
         == Some(FigureLabel(DigitsValue(x), DigitsValue(y), title))
  {
    MatchNumbersOfJoin(x, y + (s2 + (":" + (s3 + title))));
    MatchSubOfShape(DigitsValue(x), y, s2, s3, title);
  }

  lemma MatchNumbersOfJoin(x: string, c: string)
    requires x != "" && AllDigits(x)
    ensures MatchNumbers(x + ("." + c)) == MatchSub(DigitsValue(x), c)
  {
    var b := x + ("." + c);
    SpanDigitsOf(x, "." + c);
    PiecesOfJoin(x, "." + c);
    PiecesOfJoin(".", c);
    assert b[|x|] == '.' && b[|x| + 1..] == c;
  }

  /**
   * Every spelling the pattern accepts is read as written: the word
   * `Figure` in any case, any white space, numerals with leading zeros,
   * white space around the colon, and any good title give that title and
   * the numerals' values.
   */
  lemma MatchLabelOfShape(w: string, s1: string, x: string, y: string, s2: string, s3: string, title: string)
    requires LabelParts(w, s1, x, y, s2, s3) && GoodTitle(title)
    ensures MatchLabel(LabelShape(w, s1, x, y, s2, s3, title)) == Some(FigureLabel(DigitsValue(x), DigitsValue(y), title))
  {
    var b := x + ("." + (y + (s2 + (":" + (s3 + title)))));
    var a := s1 + b;
    var t := w + a;
    assert |w| == 6 && t[..6] == w && t[6..] == a;
    SpanSpaceOf(s1, b);
    assert a[|s1|..] == b;
    MatchNumbersOfShape(x, y, s2, s3, title);
  }

  lemma TitleParts(u: string) returns (s3: string, rest: string)
    requires MatchTitle(u).Some?
    ensures AllSpace(s3) && rest != "" && NoLineTerminator(rest) && (|rest| == 1 || !IsSpace(rest[0]))
    ensures u == s3 + rest && MatchTitle(u).value == Trim(rest)
  {
    var n := SpanSpace(u);
    if u[n..] != "" {
      s3, rest := u[..n], u[n..];
    } else {
      s3, rest := u[..|u| - 1], u[|u| - 1..];
    }
    assert u == s3 + rest;
  }

  lemma SpacePrefix(e: string, k: nat)
    requires k == SpanSpace(e)
    ensures AllSpace(e[..k])
  {
    forall i | 0 <= i < k ensures IsSpace(e[..k][i]) {
      assert e[..k][i] == e[i];
    }
  }

  lemma SplitAt(b: string, d: nat)
    requires d <= |b|
    ensures b == b[..d] + b[d..]
  {
  }

  /** A string is what comes before index `d`, the character there, and what follows. */
  lemma SplitAround(b: string, d: nat)
    requires d < |b|
    ensures b == b[..d] + ([b[d]] + b[d + 1..])
  {
  }

  lemma ColonParts(section: nat, sub: nat, e: string) returns (s2: string, s3: string, rest: string)
    requires MatchColon(section, sub, e).Some?
    ensures AllSpace(s2) && AllSpace(s3) && rest != "" && NoLineTerminator(rest) && (|rest| == 1 || !IsSpace(rest[0]))
    ensures e == s2 + (":" + (s3 + rest)) && MatchColon(section, sub, e).value == FigureLabel(section, sub, Trim(rest))
  {
    var k := SpanSpace(e);
    var colon := e[k..];
    var u := colon[1..];
    s2 := e[..k];
    SpacePrefix(e, k);
    assert colon != "" && colon[0] == ':';
    SplitAt(e, k);
    SplitAround(colon, 0);
    assert MatchTitle(u).Some? && MatchColon(section, sub, e).value == FigureLabel(section, sub, MatchTitle(u).value);
    s3, rest := TitleParts(u);
  }

  lemma SubParts(section: nat, c: string) returns (y: string, s2: string, s3: string, rest: string)
    requires MatchSub(section, c).Some?
    ensures y != "" && AllDigits(y) && AllSpace(s2) && AllSpace(s3) && rest != "" && NoLineTerminator(rest)
    ensures |rest| == 1 || !IsSpace(rest[0])
    ensures c == y + (s2 + (":" + (s3 + rest)))
    ensures MatchSub(section, c).value == FigureLabel(section, DigitsValue(y), Trim(rest))
  {
    var d := SpanDigits(c);
    var e := c[d..];
    y := c[..d];
    assert MatchSub(section, c) == MatchColon(section, DigitsValue(y), e);
    SplitAt(c, d);
    s2, s3, rest := ColonParts(section, DigitsValue(y), e);
  }

  lemma NumbersParts(b: string) returns (x: string, y: string, s2: string, s3: string, rest: string)
    requires MatchNumbers(b).Some?
    ensures x != "" && AllDigits(x) && y != "" && AllDigits(y)
    ensures AllSpace(s2) && AllSpace(s3) && rest != "" && NoLineTerminator(rest)
    ensures |rest| == 1 || !IsSpace(rest[0])
    ensures b == x + ("." + (y + (s2 + (":" + (s3 + rest)))))
    ensures MatchNumbers(b).value == FigureLabel(DigitsValue(x), DigitsValue(y), Trim(rest))
  {
    var d := SpanDigits(b);
    var c := b[d + 1..];
    x := b[..d];
    assert MatchNumbers(b) == MatchSub(DigitsValue(x), c) && 0 < d < |b| && b[d] == '.';
    SplitAround(b, d);
    y, s2, s3, rest := SubParts(DigitsValue(x), c);
  }

  /** The figure labels the pattern accepts, with what it reads from each. */
  predicate IsLabelOf(t: string, l: FigureLabel, w: string, s1: string, x: string, y: string, s2: string, s3: string, rest: string) {
    && LabelParts(w, s1, x, y, s2, s3)
    && rest != "" && NoLineTerminator(rest)
    && t == LabelShape(w, s1, x, y, s2, s3, rest)
    && l == FigureLabel(DigitsValue(x), DigitsValue(y), Trim(rest))
  }

  lemma LabelPartsOf(t: string) returns (w: string, s1: string, x: string, y: string, s2: string, s3: string, rest: string)
    requires MatchLabel(t).Some?
    ensures IsLabelOf(t, MatchLabel(t).value, w, s1, x, y, s2, s3, rest)
    ensures |rest| == 1 || !IsSpace(rest[0])
  {
    var a := t[6..];
    var n := SpanSpace(a);
    var b := a[n..];
    w, s1 := t[..6], a[..n];
    SpacePrefix(a, n);
    assert MatchLabel(t) == MatchAfterWord(a) == MatchNumbers(b) && |t| >= 6;
    SplitAt(a, n);
    SplitAt(t, 6);
    x, y, s2, s3, rest := NumbersParts(b);
    assert LabelParts(w, s1, x, y, s2, s3);
    assert t == LabelShape(w, s1, x, y, s2, s3, rest);
  }

  /**
   * A label the pattern accepts has its shape: `Figure` in some case,
   * white space, digits, `.`, digits, optional white space, `:`, optional
   * white space and a one-line rest, and the label holds the two numerals'
   * values and the trimmed rest.
   */
  lemma MatchLabelHasShape(t: string, l: FigureLabel)
    requires MatchLabel(t) == Some(l)
    ensures exists w, s1, x, y, s2, s3, rest :: IsLabelOf(t, l, w, s1, x, y, s2, s3, rest)
  {
    var w, s1, x, y, s2, s3, rest := LabelPartsOf(t);
    assert IsLabelOf(t, l, w, s1, x, y, s2, s3, rest);
  }

  /**
   * `ParseLabel` indexes a label exactly when its trimmed text has the
   * label shape with a good title, and then reads the numerals' values and
   * that title.
   */
  lemma ParseLabelShape(text: string, l: FigureLabel)
    ensures ParseLabel(text) == Some(l) <==>
      exists w, s1, x, y, s2, s3, title ::
        && LabelParts(w, s1, x, y, s2, s3) && GoodTitle(title)
        && Trim(text) == LabelShape(w, s1, x, y, s2, s3, title)
        && l == FigureLabel(DigitsValue(x), DigitsValue(y), title)
  {
    var t := Trim(text);
    if ParseLabel(text) == Some(l) {
      var w, s1, x, y, s2, s3, rest := LabelPartsOf(t);
      assert t[|t| - 1] == rest[|rest| - 1];
      TrimmedIsFixed(rest);
      assert GoodTitle(rest);
    }
    forall w, s1, x, y, s2, s3, title |
      && LabelParts(w, s1, x, y, s2, s3) && GoodTitle(title)
      && t == LabelShape(w, s1, x, y, s2, s3, title)
      ensures ParseLabel(text) == Some(FigureLabel(DigitsValue(x), DigitsValue(y), title))
    {
      MatchLabelOfShape(w, s1, x, y, s2, s3, title);
    }
  }

  lemma LowerFigure()
    ensures Lower("Figure") == "figure"
  {
    var l := Lower("Figure");
    assert l[0] == 'f' && l[1] == 'i' && l[2] == 'g' && l[3] == 'u' && l[4] == 'r' && l[5] == 'e';
  }

  /** A label written in the canonical shape: `Figure 2.1: Loops`. */
  function LabelText(section: nat, sub: nat, title: string): string {
    LabelShape("Figure", " ", NatToString(section), NatToString(sub), "", " ", title)
  }

  /**
   * Writing a label in the canonical shape and parsing it gives back the
   * section, the sub-number and the title, for any title that is
   * non-empty, trimmed and on one line.
   */
  lemma ParseLabelText(section: nat, sub: nat, title: string)
    requires GoodTitle(title)
    ensures ParseLabel(LabelText(section, sub, title)) == Some(FigureLabel(section, sub, title))
  {
    var x, y := NatToString(section), NatToString(sub);
    var t := LabelText(section, sub, title);
    assert t[0] == 'F' && t[|t| - 1] == title[|title| - 1];
    TrimmedIsFixed(t);
    LowerFigure();
    assert LabelParts("Figure", " ", x, y, "", " ");
    MatchLabelOfShape("Figure", " ", x, y, "", " ", title);
    NatToStringRoundTrip(section);
    NatToStringRoundTrip(sub);
  }

  /** `trim` is idempotent, so white space around a label never changes what it parses to. */
  lemma ParseIgnoresSurroundingSpace(text: string)
    ensures ParseLabel(Trim(text)) == ParseLabel(text)
  {
    TrimmedIsFixed(Trim(text));
  }

  /** An `.exercise-card`: the text of its `.exercise-number` and `.exercise-title`, when present. */
  datatype Card = Card(number: Option<string>, title: Option<string>)

  /** The number and the title shown for an exercise. */
  datatype ExerciseLabel = ExerciseLabel(num: string, title: string)

  // `s.replace(/^\d+\s*/, "")`: leading digits, and the white space after them, are dropped.
  function DropLeadingNumber(s: string): (r: string)
    ensures |r| <= |s| && r == s[|s| - |r|..]
    ensures SpanDigits(s) == 0 ==> r == s
    ensures SpanDigits(s) > 0 ==> r == "" || !IsSpace(r[0])
    ensures SpanDigits(s) > 0 ==> SpanDigits(s) <= |s| - |r| && AllSpace(s[SpanDigits(s)..|s| - |r|])
  {
    var d := SpanDigits(s);
    if d == 0 then s
    else
      var rest := s[d..];
      var k := SpanSpace(rest);
      assert s[d..|s| - |rest[k..]|] == rest[..k];
      SpacePrefix(rest, k);
      rest[k..]
  }

  /**
   * A card without a number element is skipped; otherwise the number is
   * trimmed, and the title element's text loses its leading number and is
   * trimmed, or is `Exercise <num>` when the card has no title element.
   */
  function ExerciseOf(card: Card): (r: Option<ExerciseLabel>)
    ensures r.Some? <==> card.number.Some?
    ensures r.Some? ==> r.value.num == Trim(card.number.value)
    ensures r.Some? && card.title.None? ==> r.value.title == "Exercise " + r.value.num
    ensures r.Some? && card.title.Some? ==> IsTrimmed(r.value.title)
  {
    if card.number.None? then None
    else
      var num := Trim(card.number.value);
      var title := if card.title.Some? then Trim(DropLeadingNumber(card.title.value)) else "Exercise " + num;
      Some(ExerciseLabel(num, title))
  }

  /**
   * The pattern `^\d+\s*` removes exactly the leading digits and the white space
   * after them: digits, a white-space run, and a rest that starts with
   * neither white space nor (right after the digits) a digit leave the rest.
   */
  lemma DropNumberThenSpace(ds: string, ws: string, rest: string)
    requires ds != "" && AllDigits(ds) && AllSpace(ws)
    requires rest == "" || !IsSpace(rest[0])
    requires ws == "" ==> rest == "" || !IsDigit(rest[0])
    ensures DropLeadingNumber(ds + (ws + rest)) == rest
  {
    var tail := ws + rest;
    assert tail == "" || !IsDigit(tail[0]) by {
      if ws != "" {
        assert tail[0] == ws[0];
      }
    }
    SpanDigitsOf(ds, tail);
    PiecesOfJoin(ds, tail);
    SpanSpaceOf(ws, rest);
    PiecesOfJoin(ws, rest);
  }

  /** A title element reading `<n> <title>` shows `<title>`. */
  lemma NumberedTitle(n: nat, title: string)
    requires IsTrimmed(title)
    ensures DropLeadingNumber(NatToString(n) + " " + title) == title
    ensures Trim(DropLeadingNumber(NatToString(n) + " " + title)) == title
  {
    var x := NatToString(n);
    assert x + " " + title == x + (" " + title);
    DropNumberThenSpace(x, " ", title);
    TrimmedIsFixed(title);
  }

  /**
   * A card whose title element reads digits, white space and a rest shows
   * the rest, trimmed, beside the trimmed number.
   */
  lemma ExerciseTitleOf(card: Card, ds: string, ws: string, rest: string)
    requires card.number.Some? && card.title == Some(ds + (ws + rest))
    requires ds != "" && AllDigits(ds) && AllSpace(ws)
    requires rest == "" || !IsSpace(rest[0])
    requires ws == "" ==> rest == "" || !IsDigit(rest[0])
    ensures ExerciseOf(card) == Some(ExerciseLabel(Trim(card.number.value), Trim(rest)))
  {
    DropNumberThenSpace(ds, ws, rest);
  }

  /** A title element that does not start with a digit is only trimmed. */
  lemma UnnumberedExerciseTitle(card: Card, text: string)
    requires card.number.Some? && card.title == Some(text)
    requires text == "" || !IsDigit(text[0])
    ensures ExerciseOf(card) == Some(ExerciseLabel(Trim(card.number.value), Trim(text)))
  {
  }
}
