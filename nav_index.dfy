/**
 * The navigator's index: the figures and exercises found on the page, the
 * figures grouped by section in first-seen order, the list of entries the
 * sidebar shows, and the scroll targets paired with those entries.
 */
module NavIndex {
  import opened Wrappers
  import opened Text
  import opened Labels

  /** A `.code-figure-label`: its text, and the element a click scrolls to (its `.code-figure`, or the label itself). */
  datatype LabelEl = LabelEl(text: string, el: nat)

  /** An `.exercise-card` and its element. */
  datatype CardEl = CardEl(card: Card, el: nat)

  datatype Figure = Figure(section: nat, sub: nat, title: string, el: nat)

  datatype Exercise = Exercise(num: string, title: string, el: nat)

  /** The number shown for a figure: `${section}.${sub}`. */
  function FigureNum(f: Figure): string {
    NatToString(f.section) + "." + NatToString(f.sub)
  }

  function FigureOf(l: LabelEl): Option<Figure> {
    match ParseLabel(l.text)
    case None => None
    case Some(m) => Some(Figure(m.section, m.sub, m.title, l.el))
  }

  /** The values `f` gives for the elements of `xs`, in order, skipping those it gives none for. */
  function FilterMap<A, B>(xs: seq<A>, f: A -> Option<B>): (r: seq<B>)
    ensures |r| <= |xs|
  {
    if xs == [] then []
    else
      var n := |xs| - 1;
      FilterMap(xs[..n], f) + (match f(xs[n]) case Some(y) => [y] case None => [])
  }

  /** Collecting keeps document order: the values of two runs are those of each run, one after the other. */
  lemma {:induction false} FilterMapOfConcat<A, B>(a: seq<A>, b: seq<A>, f: A -> Option<B>)
    ensures FilterMap(a + b, f) == FilterMap(a, f) + FilterMap(b, f)
    decreases |b|
  {
    if b != [] {
      var n := |b| - 1;
      assert (a + b)[..|a + b| - 1] == a + b[..n];
      assert (a + b)[|a + b| - 1] == b[n];
      FilterMapOfConcat(a, b[..n], f);
    } else {
      assert a + b == a;
    }
  }

  /** An element `f` gives nothing for adds nothing, wherever it stands. */
  lemma FilterMapSkips<A, B>(a: seq<A>, x: A, b: seq<A>, f: A -> Option<B>)
    requires f(x) == None
    ensures FilterMap(a + [x] + b, f) == FilterMap(a + b, f)
  {
    FilterMapOfConcat(a + [x], b, f);
    FilterMapOfConcat(a, [x], f);
    FilterMapOfConcat(a, b, f);
    assert [x][..0] == [];
  }

  /** An element `f` gives a value for adds exactly that value, in its place. */
  lemma FilterMapKeeps<A, B>(a: seq<A>, x: A, b: seq<A>, f: A -> Option<B>)
    requires f(x).Some?
    ensures FilterMap(a + [x] + b, f) == FilterMap(a, f) + [f(x).value] + FilterMap(b, f)
  {
    FilterMapOfConcat(a + [x], b, f);
    FilterMapOfConcat(a, [x], f);
    assert [x][..0] == [];
  }

  /** The figures of the page, in document order: one per label that parses. */
  function Figures(labels: seq<LabelEl>): seq<Figure> {
    FilterMap(labels, FigureOf)
  }

  /** The first loop of `buildNav`: every `.code-figure-label` whose text parses becomes a figure. */
  method CollectFigures(labels: seq<LabelEl>) returns (figures: seq<Figure>)
    ensures figures == Figures(labels)
  {
    figures := [];
    var k := 0;
    while k < |labels|
      invariant k <= |labels|
      invariant figures == FilterMap(labels[..k], FigureOf)
    {
      assert labels[..k + 1][..k] == labels[..k] && labels[..k + 1][k] == labels[k];
      var m := ParseLabel(labels[k].text);
      if m.Some? {
        figures := figures + [Figure(m.value.section, m.value.sub, m.value.title, labels[k].el)];
      }
      k := k + 1;
    }
    assert labels[..k] == labels;
  }

  function ExerciseAt(c: CardEl): Option<Exercise> {
    match ExerciseOf(c.card)
    case None => None
    case Some(x) => Some(Exercise(x.num, x.title, c.el))
  }

  /** The exercises of the page, in document order: one per card that has a number element. */
  function Exercises(cards: seq<CardEl>): seq<Exercise> {
    FilterMap(cards, ExerciseAt)
  }

  /** The second loop of `buildNav`: every card with a number element becomes an exercise. */
  method CollectExercises(cards: seq<CardEl>) returns (exercises: seq<Exercise>)
    ensures exercises == Exercises(cards)
  {
    exercises := [];
    var k := 0;
    while k < |cards|
      invariant k <= |cards|
      invariant exercises == FilterMap(cards[..k], ExerciseAt)
    {
      assert cards[..k + 1][..k] == cards[..k] && cards[..k + 1][k] == cards[k];
      var x := ExerciseOf(cards[k].card);
      if x.Some? {
        exercises := exercises + [Exercise(x.value.num, x.value.title, cards[k].el)];
      }
      k := k + 1;
    }
    assert cards[..k] == cards;
  }

  // ----- grouping by section -----

  /** The keys of `sectionMap`: each section once, in the order its first figure appears. */
  function Sections(figs: seq<Figure>): seq<nat> {
    if figs == [] then []
    else
      var n := |figs| - 1;
      var r := Sections(figs[..n]);
      if figs[n].section in r then r else r + [figs[n].section]
  }

  /** `sectionMap.get(s)`: the figures of section `s`, in document order. */
  function InSection(figs: seq<Figure>, s: nat): seq<Figure> {
    if figs == [] then []
    else
      var n := |figs| - 1;
      InSection(figs[..n], s) + (if figs[n].section == s then [figs[n]] else [])
  }

  /** A figure added at the end joins the end of its own section's group and no other. */
  lemma InSectionAppend(figs: seq<Figure>, f: Figure, s: nat)
    ensures InSection(figs + [f], s) == InSection(figs, s) + (if f.section == s then [f] else [])
  {
    assert (figs + [f])[..|figs|] == figs;
  }

  /** No section is listed twice. */
  lemma {:induction false} SectionsDistinct(figs: seq<Figure>)
    ensures forall i, j :: 0 <= i < j < |Sections(figs)| ==> Sections(figs)[i] != Sections(figs)[j]
    decreases |figs|
  {
    if figs != [] {
      SectionsDistinct(figs[..|figs| - 1]);
    }
  }

  /** Every listed section has a figure on the page. */
  lemma {:induction false} SectionWitness(figs: seq<Figure>, s: nat) returns (k: nat)
    requires s in Sections(figs)
    ensures k < |figs| && figs[k].section == s
    decreases |figs|
  {
    var n := |figs| - 1;
    if figs[n].section == s {
      k := n;
    } else {
      k := SectionWitness(figs[..n], s);
    }
  }

  /** Every figure's section is listed. */
  lemma {:induction false} SectionListed(figs: seq<Figure>, k: nat)
    requires k < |figs|
    ensures figs[k].section in Sections(figs)
    decreases |figs|
  {
    var n := |figs| - 1;
    if k < n {
      assert figs[..n][k] == figs[k];
      SectionListed(figs[..n], k);
    }
  }

  /** A section that is not listed has no figures. */
  lemma {:induction false} UnlistedSectionIsEmpty(figs: seq<Figure>, s: nat)
    requires s !in Sections(figs)
    ensures InSection(figs, s) == []
    decreases |figs|
  {
    if figs != [] {
      UnlistedSectionIsEmpty(figs[..|figs| - 1], s);
    }
  }

  /** The groups of the sections in `order`, one after the other. */
  function Flatten(figs: seq<Figure>, order: seq<nat>): seq<Figure> {
    if order == [] then []
    else
      var n := |order| - 1;
      Flatten(figs, order[..n]) + InSection(figs, order[n])
  }

  /** The figures in the order the sidebar lists them: group by group. */
  function Grouped(figs: seq<Figure>): seq<Figure> {
    Flatten(figs, Sections(figs))
  }

  /**
   * `figures.forEach` filling `sectionMap`: a section seen for the first
   * time becomes a new key at the end; each figure is pushed onto its
   * section's list.
   */
  method GroupBySection(figs: seq<Figure>) returns (order: seq<nat>, groups: map<nat, seq<Figure>>)
    ensures order == Sections(figs)
    ensures forall s :: s in groups <==> s in order
    ensures forall s :: s in groups ==> groups[s] == InSection(figs, s)
  {
    order, groups := [], map[];
    var k := 0;
    while k < |figs|
      invariant k <= |figs|
      invariant order == Sections(figs[..k])
      invariant forall s :: s in groups <==> s in order
      invariant forall s :: s in groups ==> groups[s] == InSection(figs[..k], s)
    {
      var f := figs[k];
      assert figs[..k + 1][..k] == figs[..k] && figs[..k + 1][k] == f;
      if f.section !in groups {
        UnlistedSectionIsEmpty(figs[..k], f.section);
        order := order + [f.section];
        groups := groups[f.section := []];
      }
      groups := groups[f.section := groups[f.section] + [f]];
      k := k + 1;
    }
    assert figs[..k] == figs;
  }

  /** Grouping loses and repeats no figure: the sidebar lists the page's figures, reordered. */
  lemma {:induction false} GroupingIsPermutation(figs: seq<Figure>)
    ensures multiset(Grouped(figs)) == multiset(figs)
    decreases |figs|
  {
    if figs != [] {
      var n := |figs| - 1;
      var pre := figs[..n];
      var f := figs[n];
      assert figs == pre + [f];
      GroupingIsPermutation(pre);
      var o := Sections(pre);
      SectionsDistinct(pre);
      if f.section in o {
        FlattenGrows(pre, f, o);
      } else {
        FlattenOtherSection(pre, f, o);
        UnlistedSectionIsEmpty(pre, f.section);
        assert (o + [f.section])[..|o|] == o;
        assert InSection(figs, f.section) == [f];
      }
    }
  }

  /** Adding a figure of a section listed once in `order` adds it to the groups of `order`. */
  lemma {:induction false} FlattenGrows(figs: seq<Figure>, f: Figure, order: seq<nat>)
    requires f.section in order
    requires forall i, j :: 0 <= i < j < |order| ==> order[i] != order[j]
    ensures multiset(Flatten(figs + [f], order)) == multiset(Flatten(figs, order)) + multiset{f}
    decreases |order|
  {
    var n := |order| - 1;
    if order[n] == f.section {
      assert f.section !in order[..n];
      FlattenGrowsLastGroup(figs, f, order);
    } else {
      assert order == order[..n] + [order[n]];
      FlattenGrows(figs, f, order[..n]);
      InSectionAppend(figs, f, order[n]);
    }
  }

  /** The step of `FlattenGrows` where the figure's section is the last one listed. */
  lemma FlattenGrowsLastGroup(figs: seq<Figure>, f: Figure, order: seq<nat>)
    requires order != [] && order[|order| - 1] == f.section && f.section !in order[..|order| - 1]
    ensures multiset(Flatten(figs + [f], order)) == multiset(Flatten(figs, order)) + multiset{f}
  {
    var n := |order| - 1;
    FlattenOtherSection(figs, f, order[..n]);
    InSectionAppend(figs, f, f.section);
  }

  // ----- positional pairing -----

  /** Each section's figures stand together on the page. */
  ghost predicate Contiguous(figs: seq<Figure>) {
    forall i, j, k :: 0 <= i < j < k < |figs| && figs[i].section == figs[k].section ==> figs[j].section == figs[i].section
  }

  /** Adding a figure of a section that is not listed in `order` does not change the groups of `order`. */
  lemma {:induction false} FlattenOtherSection(figs: seq<Figure>, f: Figure, order: seq<nat>)
    requires f.section !in order
    ensures Flatten(figs + [f], order) == Flatten(figs, order)
    decreases |order|
  {
    if order != [] {
      var n := |order| - 1;
      InSectionAppend(figs, f, order[n]);
      FlattenOtherSection(figs, f, order[..n]);
    }
  }

  /** A prefix of contiguous figures is contiguous. */
  lemma ContiguousPrefix(figs: seq<Figure>, n: nat)
    requires n <= |figs| && Contiguous(figs)
    ensures Contiguous(figs[..n])
  {
    var pre := figs[..n];
    forall i, j, k | 0 <= i < j < k < |pre| && pre[i].section == pre[k].section
      ensures pre[j].section == pre[i].section
    {
      assert pre[i] == figs[i] && pre[j] == figs[j] && pre[k] == figs[k];
    }
  }

  /** On contiguous figures the section listed last is that of the last figure. */
  lemma {:induction false} LastSection(figs: seq<Figure>)
    requires figs != [] && Contiguous(figs)
    ensures Sections(figs)[|Sections(figs)| - 1] == figs[|figs| - 1].section
    decreases |figs|
  {
    var n := |figs| - 1;
    var pre := figs[..n];
    var s := figs[n].section;
    var r := Sections(pre);
    if s in r {
      ContiguousPrefix(figs, n);
      LastSection(pre);
      var i := SectionWitness(pre, s);
      assert pre[i] == figs[i] && pre[n - 1] == figs[n - 1];
      if i < n - 1 {
        assert figs[i].section == figs[n].section;
      }
      assert r[|r| - 1] == figs[n - 1].section;
    }
  }

  /**
   * When each section's figures stand together, listing them group by
   * group gives the page order back.
   */
  lemma {:induction false} ContiguousGroupingKeepsOrder(figs: seq<Figure>)
    requires Contiguous(figs)
    ensures Grouped(figs) == figs
    decreases |figs|
  {
    if figs != [] {
      var n := |figs| - 1;
      var pre := figs[..n];
      var f := figs[n];
      assert figs == pre + [f];
      ContiguousPrefix(figs, n);
      ContiguousGroupingKeepsOrder(pre);
      var o := Sections(pre);
      if f.section in o {
        assert f.section == o[|o| - 1] by {
          LastSection(figs);
        }
        GroupedJoinsLastGroup(pre, f);
      } else {
        GroupedOpensNewGroup(pre, f);
      }
    }
  }

  /** A figure of the section listed last joins the end of the last group. */
  lemma GroupedJoinsLastGroup(pre: seq<Figure>, f: Figure)
    requires Sections(pre) != [] && f.section == Sections(pre)[|Sections(pre)| - 1]
    ensures Grouped(pre + [f]) == Grouped(pre) + [f]
  {
    var o := Sections(pre);
    var m := |o| - 1;
    assert (pre + [f])[..|pre|] == pre;
    assert Sections(pre + [f]) == o;
    SectionsDistinct(pre);
    assert o == o[..m] + [o[m]];
    assert o[m] !in o[..m];
    FlattenOtherSection(pre, f, o[..m]);
    InSectionAppend(pre, f, o[m]);
    calc {
      Grouped(pre + [f]);
      Flatten(pre + [f], o);
      Flatten(pre + [f], o[..m]) + InSection(pre + [f], o[m]);
      Flatten(pre, o[..m]) + InSection(pre, o[m]) + [f];
      Flatten(pre, o) + [f];
    }
  }

  /** A figure of a section not yet listed opens a new group at the end. */
  lemma GroupedOpensNewGroup(pre: seq<Figure>, f: Figure)
    requires f.section !in Sections(pre)
    ensures Grouped(pre + [f]) == Grouped(pre) + [f]
  {
    var o := Sections(pre);
    assert (pre + [f])[..|pre|] == pre;
    assert Sections(pre + [f]) == o + [f.section];
    FlattenOtherSection(pre, f, o);
    UnlistedSectionIsEmpty(pre, f.section);
    InSectionAppend(pre, f, f.section);
    assert (o + [f.section])[..|o|] == o;
    calc {
      Grouped(pre + [f]);
      Flatten(pre + [f], o + [f.section]);
      Flatten(pre + [f], o) + InSection(pre + [f], f.section);
      Flatten(pre, o) + [f];
    }
  }

  /**
   * When a section's figures are interleaved with another's, the sidebar
   * order differs from the page order: figures 2.1, 3.1, 2.2 are listed
   * 2.1, 2.2, 3.1.
   */
  lemma InterleavedSectionsAreReordered(a: Figure, b: Figure, c: Figure)
    requires a.section == 2 && b.section == 3 && c.section == 2
    ensures Grouped([a, b, c]) == [a, c, b]
    ensures Grouped([a, b, c]) != [a, b, c] <==> b != c
  {
    var figs := [a, b, c];
    SectionsOfThree(a, b, c);
    InSectionOfThree(a, b, c);
    assert [2, 3][..1] == [2] && [2][..0] == [];
    calc {
      Grouped(figs);
      Flatten(figs, [2, 3]);
      Flatten(figs, [2]) + InSection(figs, 3);
      Flatten(figs, []) + InSection(figs, 2) + InSection(figs, 3);
      [a, c, b];
    }
    if b != c {
      assert Grouped(figs)[1] != figs[1];
    }
  }

  lemma SectionsOfThree(a: Figure, b: Figure, c: Figure)
    requires a.section == 2 && b.section == 3 && c.section == 2
    ensures Sections([a, b, c]) == [2, 3]
  {
    assert [a, b, c][..2] == [a, b] && [a, b][..1] == [a] && [a][..0] == [];
    assert Sections([a]) == [2];
    assert Sections([a, b]) == [2, 3];
  }

  lemma InSectionOfThree(a: Figure, b: Figure, c: Figure)
    requires a.section == 2 && b.section == 3 && c.section == 2
    ensures InSection([a, b, c], 2) == [a, c] && InSection([a, b, c], 3) == [b]
  {
    assert [a, b, c][..2] == [a, b] && [a, b][..1] == [a] && [a][..0] == [];
    assert InSection([a], 2) == [a];
    assert InSection([a, b], 2) == [a];
    assert InSection([a], 3) == [];
    assert InSection([a, b], 3) == [b];
  }

  // ----- rendering -----

  /**
   * An element of `.ca-nav-list`. An item is made from a figure or an
   * exercise; what it displays and searches is computed from that.
   */
  datatype Entry = GroupLabel(text: string) | FigureItem(figure: Figure) | ExerciseItem(exercise: Exercise) | Separator
  {
    predicate IsItem() {
      FigureItem? || ExerciseItem?
    }

    /** The text of the item's `.ca-nav-num`: `X.Y` for a figure, `Ex<num>` for an exercise. */
    function Num(): string
      requires IsItem()
    {
      if FigureItem? then FigureNum(figure) else "Ex" + exercise.num
    }

    function Title(): string
      requires IsItem()
    {
      if FigureItem? then figure.title else exercise.title
    }

    /** `item.dataset.search`: the title, lower-cased. */
    function Search(): string
      requires IsItem()
    {
      Lower(Title())
    }

    /** The element a click on the item scrolls to. */
    function El(): nat
      requires IsItem()
    {
      if FigureItem? then figure.el else exercise.el
    }
  }

  /** The section sign that opens a labelled group's title. */
  const SECTION_SIGN: string := "§"

  /**
   * The text of a group label: `§N <label>` when the page's `sections` list
   * has a non-empty label at position N, else `Section N`.
   */
  function GroupTitle(sections: seq<string>, n: nat): string {
    if 1 <= n <= |sections| && sections[n - 1] != "" then SECTION_SIGN + NatToString(n) + " " + sections[n - 1]
    else "Section " + NatToString(n)
  }

  /** The number a group title shows: the numeral after `§` or after `Section `. */
  function TitleNumber(t: string): nat {
    var start := if StartsWith(t, SECTION_SIGN) then |SECTION_SIGN| else if StartsWith(t, "Section ") then 8 else |t|;
    var ds := t[start..];
    DigitsValue(ds[..SpanDigits(ds)])
  }

  /**
   * A group title starts with the section sign exactly when the section
   * has a non-empty label in `sections`, and its numeral reads back as the
   * section number, so no two sections share a title.
   */
  lemma GroupTitleShape(sections: seq<string>, n: nat)
    ensures StartsWith(GroupTitle(sections, n), SECTION_SIGN) <==> 1 <= n <= |sections| && sections[n - 1] != ""
    ensures TitleNumber(GroupTitle(sections, n)) == n
  {
    var x := NatToString(n);
    var t := GroupTitle(sections, n);
    NatToStringRoundTrip(n);
    if 1 <= n <= |sections| && sections[n - 1] != "" {
      var tail := " " + sections[n - 1];
      assert t == SECTION_SIGN + (x + tail);
      PiecesOfJoin(SECTION_SIGN, x + tail);
      SpanDigitsOf(x, tail);
      PiecesOfJoin(x, tail);
    } else {
      assert t == "Section " + x;
      assert t[0] == 'S';
      PiecesOfJoin("Section ", x);
      assert x + "" == x;
      SpanDigitsOf(x, "");
    }
  }

  /** Distinct sections never share a group title. */
  lemma GroupTitlesDistinct(sections: seq<string>, m: nat, n: nat)
    requires m != n
    ensures GroupTitle(sections, m) != GroupTitle(sections, n)
  {
    GroupTitleShape(sections, m);
    GroupTitleShape(sections, n);
  }

  function FigureItems(figs: seq<Figure>): (r: seq<Entry>)
    ensures |r| == |figs| && forall k :: 0 <= k < |r| ==> r[k] == FigureItem(figs[k])
  {
    seq(|figs|, k requires 0 <= k < |figs| => FigureItem(figs[k]))
  }

  function ExerciseItems(xs: seq<Exercise>): (r: seq<Entry>)
    ensures |r| == |xs| && forall k :: 0 <= k < |r| ==> r[k] == ExerciseItem(xs[k])
  {
    seq(|xs|, k requires 0 <= k < |xs| => ExerciseItem(xs[k]))
  }

  /** The figure part of the list: per section in `order`, its label and then its items. */
  function RenderGroups(figs: seq<Figure>, order: seq<nat>, sections: seq<string>): seq<Entry> {
    if order == [] then []
    else
      var n := |order| - 1;
      RenderGroups(figs, order[..n], sections) + [GroupLabel(GroupTitle(sections, order[n]))] + FigureItems(InSection(figs, order[n]))
  }

  /** The header of the exercise part: a separator and the `Practice Exercises` label. */
  const EXERCISES_HEADER: seq<Entry> := [Separator, GroupLabel("Practice Exercises")]

  /** The whole list: the figure groups, then, when there are exercises, their header and items. */
  function Rendered(figs: seq<Figure>, xs: seq<Exercise>, sections: seq<string>): seq<Entry> {
    var groups := RenderGroups(figs, Sections(figs), sections);
    if xs == [] then groups else groups + EXERCISES_HEADER + ExerciseItems(xs)
  }

  /** `figs.forEach` appending one item per figure of a group. */
  method AppendFigureItems(list0: seq<Entry>, members: seq<Figure>) returns (list: seq<Entry>)
    ensures list == list0 + FigureItems(members)
  {
    list := list0;
    var k := 0;
    while k < |members|
      invariant k <= |members|
      invariant list == list0 + FigureItems(members[..k])
    {
      assert FigureItems(members[..k + 1]) == FigureItems(members[..k]) + [FigureItem(members[k])];
      list := list + [FigureItem(members[k])];
      k := k + 1;
    }
    assert members[..k] == members;
  }

  /** `sectionMap.forEach` appending a label and the group's items. */
  method RenderFigureGroups(figs: seq<Figure>, sections: seq<string>) returns (list: seq<Entry>)
    ensures list == RenderGroups(figs, Sections(figs), sections)
  {
    var order, groups := GroupBySection(figs);
    list := [];
    var g := 0;
    while g < |order|
      invariant g <= |order|
      invariant list == RenderGroups(figs, order[..g], sections)
    {
      var s := order[g];
      assert order[..g + 1][..g] == order[..g] && order[..g + 1][g] == s;
      list := AppendFigureItems(list + [GroupLabel(GroupTitle(sections, s))], groups[s]);
      g := g + 1;
    }
    assert order[..g] == order;
  }

  /** `exercises.forEach` appending one item per exercise. */
  method AppendExerciseItems(list0: seq<Entry>, xs: seq<Exercise>) returns (list: seq<Entry>)
    ensures list == list0 + ExerciseItems(xs)
  {
    list := list0;
    var k := 0;
    while k < |xs|
      invariant k <= |xs|
      invariant list == list0 + ExerciseItems(xs[..k])
    {
      assert ExerciseItems(xs[..k + 1]) == ExerciseItems(xs[..k]) + [ExerciseItem(xs[k])];
      list := list + [ExerciseItem(xs[k])];
      k := k + 1;
    }
    assert xs[..k] == xs;
  }

  /** The list `buildNav` fills: the figure groups, then the exercise part. */
  method RenderList(figs: seq<Figure>, xs: seq<Exercise>, sections: seq<string>) returns (list: seq<Entry>)
    ensures list == Rendered(figs, xs, sections)
  {
    list := RenderFigureGroups(figs, sections);
    if |xs| > 0 {
      list := AppendExerciseItems(list + EXERCISES_HEADER, xs);
    }
  }

  /** The items of a list, in order: what `list.querySelectorAll(".ca-nav-item")` returns. */
  function Items(entries: seq<Entry>): seq<Entry> {
    if entries == [] then []
    else
      var n := |entries| - 1;
      Items(entries[..n]) + (if entries[n].IsItem() then [entries[n]] else [])
  }

  lemma {:induction false} ItemsOfConcat(a: seq<Entry>, b: seq<Entry>)
    ensures Items(a + b) == Items(a) + Items(b)
    decreases |b|
  {
    if b != [] {
      var n := |b| - 1;
      assert (a + b)[..|a + b| - 1] == a + b[..n];
      assert (a + b)[|a + b| - 1] == b[n];
      ItemsOfConcat(a, b[..n]);
    } else {
      assert a + b == a;
    }
  }

  lemma {:induction false} ItemsOfItems(xs: seq<Entry>)
    requires forall k :: 0 <= k < |xs| ==> xs[k].IsItem()
    ensures Items(xs) == xs
    decreases |xs|
  {
    if xs != [] {
      var n := |xs| - 1;
      ItemsOfItems(xs[..n]);
      assert xs == xs[..n] + [xs[n]];
    }
  }

  /** The items of the figure part are the grouped figures, in order. */
  lemma {:induction false} ItemsOfGroups(figs: seq<Figure>, order: seq<nat>, sections: seq<string>)
    ensures Items(RenderGroups(figs, order, sections)) == FigureItems(Flatten(figs, order))
    decreases |order|
  {
    if order != [] {
      var n := |order| - 1;
      var members := InSection(figs, order[n]);
      var heading := [GroupLabel(GroupTitle(sections, order[n]))];
      var before := RenderGroups(figs, order[..n], sections);
      ItemsOfHeading(GroupTitle(sections, order[n]));
      var fi := FigureItems(members);
      assert RenderGroups(figs, order, sections) == before + heading + fi;
      assert Flatten(figs, order) == Flatten(figs, order[..n]) + members;
      ItemsOfConcat(before + heading, fi);
      ItemsOfConcat(before, heading);
      assert Items(before) + [] == Items(before);
      ItemsOfGroups(figs, order[..n], sections);
      ItemsOfItems(fi);
      FigureItemsOfConcat(Flatten(figs, order[..n]), members);
    }
  }

  /** A group label is not a nav item. */
  lemma ItemsOfHeading(title: string)
    ensures Items([GroupLabel(title)]) == []
  {
    assert [GroupLabel(title)][..0] == [];
  }

  lemma FigureItemsOfConcat(a: seq<Figure>, b: seq<Figure>)
    ensures FigureItems(a + b) == FigureItems(a) + FigureItems(b)
  {
    assert forall k :: 0 <= k < |a + b| ==> FigureItems(a + b)[k] == (FigureItems(a) + FigureItems(b))[k];
  }

  /** The nav items of the whole list: the figures group by group, then the exercises. */
  lemma ItemsOfRendered(figs: seq<Figure>, xs: seq<Exercise>, sections: seq<string>)
    ensures Items(Rendered(figs, xs, sections)) == FigureItems(Grouped(figs)) + ExerciseItems(xs)
  {
    var groups := RenderGroups(figs, Sections(figs), sections);
    ItemsOfGroups(figs, Sections(figs), sections);
    if xs != [] {
      ItemsWithExercises(groups, xs);
    } else {
      assert ExerciseItems(xs) == [];
    }
  }

  /** The exercise part adds its items, and only them, after those of the figure part. */
  lemma ItemsWithExercises(groups: seq<Entry>, xs: seq<Exercise>)
    ensures Items(groups + EXERCISES_HEADER + ExerciseItems(xs)) == Items(groups) + ExerciseItems(xs)
  {
    assert Items(EXERCISES_HEADER) == [] by {
      assert EXERCISES_HEADER[..1] == [Separator] && [Separator][..0] == [];
    }
    ItemsOfConcat(groups + EXERCISES_HEADER, ExerciseItems(xs));
    ItemsOfConcat(groups, EXERCISES_HEADER);
    ItemsOfItems(ExerciseItems(xs));
  }

  /** An entry of `allTargets`: an element the observer watches, and the position of the nav item it highlights. */
  datatype Target = Target(el: nat, item: nat)

  /**
   * `allTargets`: figure `i` is paired with nav item `i`, and exercise `i`
   * with nav item `|figs| + i` when that item exists.
   */
  function Targets(figs: seq<Figure>, xs: seq<Exercise>, itemCount: nat): (r: seq<Target>)
    ensures |figs| <= |r| <= |figs| + |xs|
    ensures forall i :: 0 <= i < |figs| ==> r[i] == Target(figs[i].el, i)
    ensures forall i :: |figs| <= i < |r| ==> r[i] == Target(xs[i - |figs|].el, i) && i < itemCount
    ensures |figs| + |xs| <= itemCount ==> |r| == |figs| + |xs|
  {
    var n := if |figs| + |xs| <= itemCount then |xs| else if |figs| <= itemCount then itemCount - |figs| else 0;
    seq(|figs|, i requires 0 <= i < |figs| => Target(figs[i].el, i))
      + seq(n, i requires 0 <= i < n => Target(xs[i].el, |figs| + i))
  }

  /** Every target highlights the nav item that scrolls to its own element. */
  ghost predicate PairedCorrectly(items: seq<Entry>, targets: seq<Target>) {
    forall i :: 0 <= i < |targets| ==>
      targets[i].item < |items| && items[targets[i].item].IsItem() && items[targets[i].item].El() == targets[i].el
  }

  /** With contiguous sections, every scroll target highlights its own nav item. */
  lemma ContiguousPairsCorrectly(figs: seq<Figure>, xs: seq<Exercise>, sections: seq<string>)
    requires Contiguous(figs)
    ensures var items := Items(Rendered(figs, xs, sections));
      PairedCorrectly(items, Targets(figs, xs, |items|))
  {
    ItemsOfRendered(figs, xs, sections);
    ContiguousGroupingKeepsOrder(figs);
    PairedByPosition(figs, xs, Items(Rendered(figs, xs, sections)));
  }

  /** When the items are the figures and then the exercises, in page order, the positional pairing is right. */
  lemma PairedByPosition(figs: seq<Figure>, xs: seq<Exercise>, items: seq<Entry>)
    requires items == FigureItems(figs) + ExerciseItems(xs)
    ensures PairedCorrectly(items, Targets(figs, xs, |items|))
  {
    var targets := Targets(figs, xs, |items|);
    forall i | 0 <= i < |targets|
      ensures targets[i].item < |items| && items[targets[i].item].IsItem() && items[targets[i].item].El() == targets[i].el
    {
      if i < |figs| {
        assert items[i] == FigureItem(figs[i]);
      } else {
        assert items[i] == ExerciseItem(xs[i - |figs|]);
      }
    }
  }

  /**
   * With figures 2.1, 3.1, 2.2 on three different elements, figure 3.1
   * coming into view highlights the item of figure 2.2.
   */
  lemma InterleavedPairsWrongly(a: Figure, b: Figure, c: Figure, sections: seq<string>)
    requires a.section == 2 && b.section == 3 && c.section == 2 && b.el != c.el
    ensures var items := Items(Rendered([a, b, c], [], sections));
      && |items| == 3
      && Targets([a, b, c], [], |items|)[1] == Target(b.el, 1)
      && items[1] == FigureItem(c)
      && !PairedCorrectly(items, Targets([a, b, c], [], |items|))
  {
    ItemsOfRendered([a, b, c], [], sections);
    InterleavedSectionsAreReordered(a, b, c);
  }
}
