/**
 * The sidebar navigator once built: the entries of its list, which of them
 * are displayed after a search, which nav item is highlighted, and whether
 * the sidebar is open.
 */
module Sidebar {
  import opened Wrappers
  import opened Text
  import opened Labels
  import opened NavIndex

  // ----- search -----

  /**
   * Whether an item matches a query that is already lower-cased and
   * trimmed: an empty query matches every item; otherwise the query must
   * occur in the item's `data-search` text or in its lower-cased number.
   */
  predicate Matches(e: Entry, q: string)
    requires e.IsItem()
  {
    q == "" || Contains(e.Search(), q) || Contains(Lower(e.Num()), q)
  }

  /** Some item matching `q` stands at or after `j`, before the next group label or separator. */
  predicate MatchAhead(entries: seq<Entry>, q: string, j: nat)
    decreases |entries| - j
  {
    if j >= |entries| || entries[j].GroupLabel? || entries[j].Separator? then false
    else Matches(entries[j], q) || MatchAhead(entries, q, j + 1)
  }

  /**
   * The display of every entry after a search for `q`: an item is shown
   * when it matches; a group label when an item of its run matches; a
   * separator keeps its display `prev`.
   */
  function SearchShown(entries: seq<Entry>, q: string, prev: seq<bool>): (r: seq<bool>)
    requires |prev| == |entries|
    ensures |r| == |entries|
  {
    seq(|entries|, k requires 0 <= k < |entries| =>
      if entries[k].IsItem() then Matches(entries[k], q)
      else if entries[k].GroupLabel? then MatchAhead(entries, q, k + 1)
      else prev[k])
  }

  /** A shown group label has a matching item in its run, with only items before it. */
  lemma {:induction false} MatchAheadWitness(entries: seq<Entry>, q: string, j: nat) returns (m: nat)
    requires MatchAhead(entries, q, j)
    ensures j <= m < |entries| && entries[m].IsItem() && Matches(entries[m], q)
    ensures forall p :: j <= p <= m ==> entries[p].IsItem()
    decreases |entries| - j
  {
    if Matches(entries[j], q) {
      m := j;
    } else {
      m := MatchAheadWitness(entries, q, j + 1);
    }
  }

  /** Conversely, a matching item in a label's run makes the label shown. */
  lemma {:induction false} MatchAheadOf(entries: seq<Entry>, q: string, j: nat, m: nat)
    requires j <= m < |entries|
    requires forall p :: j <= p <= m ==> entries[p].IsItem()
    requires Matches(entries[m], q)
    ensures MatchAhead(entries, q, j)
    decreases m - j
  {
    if j < m {
      MatchAheadOf(entries, q, j + 1, m);
    }
  }

  /** Every group label is directly followed by an item. */
  ghost predicate LabelsLeadItems(entries: seq<Entry>) {
    forall k :: 0 <= k < |entries| && entries[k].GroupLabel? ==> k + 1 < |entries| && entries[k + 1].IsItem()
  }

  lemma LabelsLeadItemsConcat(a: seq<Entry>, b: seq<Entry>)
    requires LabelsLeadItems(a) && LabelsLeadItems(b)
    ensures LabelsLeadItems(a + b)
  {
    forall k | 0 <= k < |a + b| && (a + b)[k].GroupLabel?
      ensures k + 1 < |a + b| && (a + b)[k + 1].IsItem()
    {
      if k < |a| {
        assert a[k].GroupLabel?;
      } else {
        assert b[k - |a|].GroupLabel?;
      }
    }
  }

  /** A section listed by `Sections` has at least one figure. */
  lemma {:induction false} ListedSectionHasFigures(figs: seq<Figure>, s: nat)
    requires s in Sections(figs)
    ensures InSection(figs, s) != []
    decreases |figs|
  {
    var n := |figs| - 1;
    if figs[n].section != s {
      ListedSectionHasFigures(figs[..n], s);
    }
  }

  lemma {:induction false} GroupsLeadItems(figs: seq<Figure>, order: seq<nat>, sections: seq<string>)
    requires forall i :: 0 <= i < |order| ==> InSection(figs, order[i]) != []
    ensures LabelsLeadItems(RenderGroups(figs, order, sections))
    decreases |order|
  {
    if order != [] {
      var n := |order| - 1;
      var group := [GroupLabel(GroupTitle(sections, order[n]))] + FigureItems(InSection(figs, order[n]));
      GroupsLeadItems(figs, order[..n], sections);
      LabelsLeadItemsConcat(RenderGroups(figs, order[..n], sections), group);
      assert RenderGroups(figs, order, sections) == RenderGroups(figs, order[..n], sections) + group;
    }
  }

  /** In the list `buildNav` renders, every group label is followed by an item. */
  lemma RenderedLabelsLeadItems(figs: seq<Figure>, xs: seq<Exercise>, sections: seq<string>)
    ensures LabelsLeadItems(Rendered(figs, xs, sections))
  {
    var order := Sections(figs);
    forall i | 0 <= i < |order|
      ensures InSection(figs, order[i]) != []
    {
      ListedSectionHasFigures(figs, order[i]);
    }
    GroupsLeadItems(figs, order, sections);
    var groups := RenderGroups(figs, order, sections);
    if xs != [] {
      var tail := EXERCISES_HEADER + ExerciseItems(xs);
      assert LabelsLeadItems(tail) by {
        forall k | 0 <= k < |tail| && tail[k].GroupLabel?
          ensures k + 1 < |tail| && tail[k + 1].IsItem()
        {
          assert k == 1;
        }
      }
      LabelsLeadItemsConcat(groups, tail);
    } else {
      assert Rendered(figs, xs, sections) == groups;
    }
  }

  /**
   * Clearing the search box shows the whole list again: every item and
   * every group label of the rendered list is displayed.
   */
  lemma ClearingTheSearchShowsAll(figs: seq<Figure>, xs: seq<Exercise>, sections: seq<string>, prev: seq<bool>)
    requires |prev| == |Rendered(figs, xs, sections)|
    ensures var entries := Rendered(figs, xs, sections);
      forall k :: 0 <= k < |entries| && !entries[k].Separator? ==> SearchShown(entries, "", prev)[k]
  {
    var entries := Rendered(figs, xs, sections);
    RenderedLabelsLeadItems(figs, xs, sections);
    forall k | 0 <= k < |entries| && entries[k].GroupLabel?
      ensures MatchAhead(entries, "", k + 1)
    {
      MatchAheadOf(entries, "", k + 1, k + 1);
    }
  }

  /** The characters of `s` are not ASCII capitals, so lower-casing leaves it as it is. */
  lemma LowerOfNoCapitals(s: string)
    requires forall i :: 0 <= i < |s| ==> !('A' <= s[i] <= 'Z')
    ensures Lower(s) == s
  {
  }

  /** Typing a figure's number, such as `2.1`, finds that figure. */
  lemma NumberFindsFigure(f: Figure)
    ensures Matches(FigureItem(f), Trim(Lower(FigureNum(f))))
  {
    var num := FigureNum(f);
    assert forall i :: 0 <= i < |num| ==> IsDigit(num[i]) || num[i] == '.';
    LowerOfNoCapitals(num);
    TrimmedIsFixed(num);
    assert OccursAt(Lower(num), num, 0);
  }

  /** Typing `ex` finds every exercise, whatever its title: the number shown is `Ex<num>`. */
  lemma ExFindsEveryExercise(x: Exercise)
    ensures Matches(ExerciseItem(x), "ex")
  {
    var shown := Lower("Ex" + x.num);
    assert shown[0] == 'e' && shown[1] == 'x';
    assert shown[0..2] == "ex";
    assert OccursAt(shown, "ex", 0);
  }

  // ----- highlighting -----

  /** At most one nav item carries the class `active`. */
  predicate AtMostOne(active: seq<bool>) {
    forall i, j :: 0 <= i < j < |active| && active[i] ==> !active[j]
  }

  /** The `active` classes after `highlightActive(x)`: the item `x`, or none. */
  function Highlighted(n: nat, x: Option<nat>): (r: seq<bool>)
    ensures |r| == n && AtMostOne(r)
    ensures forall i :: 0 <= i < n ==> (r[i] <==> x == Some(i))
  {
    seq(n, i requires 0 <= i < n => x == Some(i))
  }

  /** The position of the first target watching `el`: `allTargets.find`. */
  function FindTarget(targets: seq<Target>, el: nat): (r: Option<nat>)
    ensures r.Some? ==> r.value < |targets| && targets[r.value].el == el
    ensures r.Some? ==> forall i :: 0 <= i < r.value ==> targets[i].el != el
    ensures r.None? ==> forall i :: 0 <= i < |targets| ==> targets[i].el != el
  {
    if targets == [] then None
    else if targets[0].el == el then Some(0)
    else match FindTarget(targets[1..], el)
      case None => None
      case Some(i) => Some(i + 1)
  }

  /** An entry of the observer's callback: the element it reports and whether it is intersecting. */
  datatype Observed = Observed(el: nat, isIntersecting: bool)

  /** The item the callback highlights last for `batch`, or nothing when no intersecting entry is a target. */
  function LastHighlight(targets: seq<Target>, batch: seq<Observed>): (r: Option<nat>)
    ensures r.None? <==> forall i :: 0 <= i < |batch| && batch[i].isIntersecting ==> FindTarget(targets, batch[i].el).None?
    ensures r.Some? ==> exists t :: t in targets && t.item == r.value
  {
    if batch == [] then None
    else
      var n := |batch| - 1;
      var b := batch[n];
      var found := if b.isIntersecting then FindTarget(targets, b.el) else None;
      if found.Some? then Some(targets[found.value].item) else
        assert batch[..n] + [b] == batch;
        LastHighlight(targets, batch[..n])
  }

  /**
   * When each section's figures stand together, a figure or exercise
   * element scrolling into view highlights the nav item that scrolls to
   * that same element.
   */
  lemma ContiguousScrollHighlightsOwnItem(figs: seq<Figure>, xs: seq<Exercise>, sections: seq<string>, el: nat)
    requires Contiguous(figs)
    ensures var items := Items(Rendered(figs, xs, sections));
      var targets := Targets(figs, xs, |items|);
      FindTarget(targets, el).Some? ==>
        var t := targets[FindTarget(targets, el).value];
        t.item < |items| && items[t.item].IsItem() && items[t.item].El() == el
  {
    ContiguousPairsCorrectly(figs, xs, sections);
  }

  // ----- opening and closing -----

  /**
   * Where a click lands: the toggle button, a nav item, elsewhere in the
   * sidebar, an exercise's Save or Reset button (whose handler stops the
   * click from reaching the document), or anywhere else outside both.
   */
  datatype ClickTarget = ToggleButton | NavItemAt(item: nat) | InSidebar | ExerciseButton | Elsewhere

  /**
   * `navOpen` after a click: the toggle flips it, a click inside the
   * sidebar or on a Save/Reset button leaves it, and any other click
   * outside the sidebar and the toggle closes it.
   */
  function OpenAfter(open: bool, t: ClickTarget): (r: bool)
    ensures r && !open ==> t == ToggleButton
    ensures !r && open ==> t == ToggleButton || t == Elsewhere
    ensures t == ToggleButton ==> r != open
    ensures t.NavItemAt? || t == InSidebar || t == ExerciseButton ==> r == open
  {
    var flipped := if t == ToggleButton then !open else open;
    if flipped && t == Elsewhere then false else flipped
  }

  /** `navOpen` after several clicks. */
  function OpenAfterAll(open: bool, clicks: seq<ClickTarget>): bool {
    if clicks == [] then open
    else OpenAfter(OpenAfterAll(open, clicks[..|clicks| - 1]), clicks[|clicks| - 1])
  }

  function ToggleCount(clicks: seq<ClickTarget>): nat {
    if clicks == [] then 0
    else ToggleCount(clicks[..|clicks| - 1]) + (if clicks[|clicks| - 1] == ToggleButton then 1 else 0)
  }

  /** Without a click outside, the sidebar is open exactly when it was toggled an odd number of times from its state. */
  lemma {:induction false} TogglesAlternate(open: bool, clicks: seq<ClickTarget>)
    requires Elsewhere !in clicks
    ensures OpenAfterAll(open, clicks) == (open != (ToggleCount(clicks) % 2 == 1))
    decreases |clicks|
  {
    if clicks != [] {
      var n := |clicks| - 1;
      assert Elsewhere !in clicks[..n] by {
        assert forall c :: c in clicks[..n] ==> c in clicks;
      }
      TogglesAlternate(open, clicks[..n]);
    }
  }

  /** After a click outside, the sidebar stays closed until the toggle is clicked. */
  lemma {:induction false} ClosedUntilToggled(open: bool, before: seq<ClickTarget>, after: seq<ClickTarget>)
    requires ToggleButton !in after
    ensures !OpenAfterAll(open, before + [Elsewhere] + after)
    decreases |after|
  {
    var all := before + [Elsewhere] + after;
    if after == [] {
      assert all[..|all| - 1] == before;
    } else {
      var n := |after| - 1;
      assert all[..|all| - 1] == before + [Elsewhere] + after[..n];
      assert ToggleButton !in after[..n] by {
        assert forall c :: c in after[..n] ==> c in after;
      }
      ClosedUntilToggled(open, before, after[..n]);
      assert all[|all| - 1] == after[n];
    }
  }

  // ----- the navigator -----

  class Navigator {
    /** The children of `.ca-nav-list`, in order. */
    const entries: seq<Entry>
    /** `allTargets`. */
    const targets: seq<Target>
    /** Whether each entry is displayed (`style.display` is not `none`). */
    var shown: seq<bool>
    /** Whether each nav item carries the class `active`. */
    var active: seq<bool>
    var navOpen: bool

    ghost predicate Valid()
      reads this
    {
      && |shown| == |entries|
      && |active| == |Items(entries)|
      && (forall t :: t in targets ==> t.item < |active|)
      && AtMostOne(active)
    }

    /** A freshly built sidebar: closed, everything displayed, nothing highlighted. */
    constructor (entries: seq<Entry>, targets: seq<Target>)
      requires forall t :: t in targets ==> t.item < |Items(entries)|
      ensures Valid()
      ensures this.entries == entries && this.targets == targets
      ensures shown == seq(|entries|, _ => true) && active == Highlighted(|Items(entries)|, None) && !navOpen
    {
      this.entries := entries;
      this.targets := targets;
      shown := seq(|entries|, _ => true);
      active := Highlighted(|Items(entries)|, None);
      navOpen := false;
    }

    /** `highlightActive(x)`: clear `active` from every item, then set it on `x`, if any. */
    method HighlightActive(x: Option<nat>)
      requires Valid()
      requires x.Some? ==> x.value < |active|
      modifies this`active
      ensures Valid()
      ensures active == Highlighted(|old(active)|, x)
    {
      var k := 0;
      while k < |active|
        invariant k <= |active| == |old(active)|
        invariant forall i :: 0 <= i < k ==> !active[i]
      {
        active := active[k := false];
        k := k + 1;
      }
      if x.Some? {
        active := active[x.value := true];
      }
      assert active == Highlighted(|old(active)|, x);
    }

    /**
     * The search box's `input` handler: every item is shown or hidden by
     * whether it matches the lower-cased, trimmed query; then every group
     * label is shown exactly when an item up to the next label or separator
     * is shown.
     */
    method Search(query: string)
      requires Valid()
      modifies this`shown
      ensures Valid()
      ensures shown == SearchShown(entries, Trim(Lower(query)), old(shown))
    {
      var q := Trim(Lower(query));
      ShowMatchingItems(q);
      ShowLiveGroupLabels(q, old(shown));
    }

    /** The first loop of the search handler: each item shown exactly when it matches `q`. */
    method ShowMatchingItems(q: string)
      requires |shown| == |entries|
      modifies this`shown
      ensures |shown| == |entries|
      ensures forall j :: 0 <= j < |entries| ==> shown[j] == if entries[j].IsItem() then Matches(entries[j], q) else old(shown)[j]
    {
      var k := 0;
      while k < |entries|
        invariant k <= |entries| && |shown| == |entries|
        invariant forall j :: 0 <= j < k ==> shown[j] == if entries[j].IsItem() then Matches(entries[j], q) else old(shown)[j]
        invariant forall j :: k <= j < |entries| ==> shown[j] == old(shown)[j]
      {
        if entries[k].IsItem() {
          shown := shown[k := Matches(entries[k], q)];
        }
        k := k + 1;
      }
    }

    /** The second loop of the search handler: each group label shown exactly when an item of its run is. */
    method ShowLiveGroupLabels(q: string, ghost prev: seq<bool>)
      requires |shown| == |entries| == |prev|
      requires forall j :: 0 <= j < |entries| ==> shown[j] == if entries[j].IsItem() then Matches(entries[j], q) else prev[j]
      modifies this`shown
      ensures shown == SearchShown(entries, q, prev)
    {
      var k := 0;
      while k < |entries|
        invariant k <= |entries| && |shown| == |entries|
        invariant forall j :: 0 <= j < k ==> shown[j] == SearchShown(entries, q, prev)[j]
        invariant forall j :: k <= j < |entries| ==> shown[j] == if entries[j].IsItem() then Matches(entries[j], q) else prev[j]
      {
        if entries[k].GroupLabel? {
          var anyVisible := AnyShownAfter(q, k);
          shown := shown[k := anyVisible];
        }
        k := k + 1;
      }
      assert shown == SearchShown(entries, q, prev);
    }

    /**
     * The walk from group label `k` over its siblings up to the next label
     * or separator: whether any item on the way is displayed.
     */
    method AnyShownAfter(q: string, k: nat) returns (anyVisible: bool)
      requires |shown| == |entries| && k < |entries|
      requires forall j :: k < j < |entries| && entries[j].IsItem() ==> shown[j] == Matches(entries[j], q)
      ensures anyVisible == MatchAhead(entries, q, k + 1)
    {
      var next := k + 1;
      anyVisible := false;
      while next < |entries| && !entries[next].GroupLabel? && !entries[next].Separator?
        invariant k < next <= |entries|
        invariant MatchAhead(entries, q, k + 1) == (anyVisible || MatchAhead(entries, q, next))
      {
        assert MatchAhead(entries, q, next) == (shown[next] || MatchAhead(entries, q, next + 1));
        if entries[next].IsItem() && shown[next] {
          anyVisible := true;
        }
        next := next + 1;
      }
      assert !MatchAhead(entries, q, next);
    }

    /**
     * A click anywhere: the toggle's handler flips `navOpen`; a nav item's
     * handler highlights it; then the document's handler closes the sidebar
     * when the click landed outside both the sidebar and the toggle, unless
     * a Save or Reset handler stopped it on the way.
     */
    method Click(t: ClickTarget)
      requires Valid()
      requires t.NavItemAt? ==> t.item < |active|
      modifies this`navOpen, this`active
      ensures Valid()
      ensures navOpen == OpenAfter(old(navOpen), t)
      ensures active == if t.NavItemAt? then Highlighted(|old(active)|, Some(t.item)) else old(active)
    {
      if t == ToggleButton {
        navOpen := !navOpen;
      } else if t.NavItemAt? {
        HighlightActive(Some(t.item));
      }
      if navOpen && t == Elsewhere {
        navOpen := false;
      }
    }

    /**
     * The observer's callback: for each intersecting entry, the first
     * target watching its element has its nav item highlighted.
     */
    method Observe(batch: seq<Observed>)
      requires Valid()
      modifies this`active
      ensures Valid()
      ensures LastHighlight(targets, batch).None? ==> active == old(active)
      ensures LastHighlight(targets, batch).Some? ==> active == Highlighted(|old(active)|, LastHighlight(targets, batch))
    {
      var k := 0;
      while k < |batch|
        invariant k <= |batch| && Valid() && |active| == |old(active)|
        invariant LastHighlight(targets, batch[..k]).None? ==> active == old(active)
        invariant LastHighlight(targets, batch[..k]).Some? ==> active == Highlighted(|old(active)|, LastHighlight(targets, batch[..k]))
      {
        assert batch[..k + 1][..k] == batch[..k] && batch[..k + 1][k] == batch[k];
        if batch[k].isIntersecting {
          var found := FindTarget(targets, batch[k].el);
          if found.Some? {
            assert targets[found.value] in targets;
            HighlightActive(Some(targets[found.value].item));
          }
        }
        k := k + 1;
      }
      assert batch[..k] == batch;
    }
  }

  /**
   * The `allTargets` loop: figure `i` is paired with nav item `i`, and
   * exercise `i` with nav item `|figs| + i` when there is one.
   */
  method CollectTargets(figs: seq<Figure>, xs: seq<Exercise>, itemCount: nat) returns (targets: seq<Target>)
    ensures targets == Targets(figs, xs, itemCount)
  {
    targets := [];
    var i := 0;
    while i < |figs|
      invariant i <= |figs| && |targets| == i
      invariant forall j :: 0 <= j < i ==> targets[j] == Target(figs[j].el, j)
    {
      targets := targets + [Target(figs[i].el, i)];
      i := i + 1;
    }
    i := 0;
    while i < |xs|
      invariant i <= |xs|
      invariant |figs| <= |targets| <= |figs| + i
      invariant forall j :: 0 <= j < |figs| ==> targets[j] == Target(figs[j].el, j)
      invariant forall j :: |figs| <= j < |targets| ==> targets[j] == Target(xs[j - |figs|].el, j) && j < itemCount
      invariant |figs| + i <= itemCount ==> |targets| == |figs| + i
      invariant |figs| + i > itemCount ==> |targets| == if |figs| <= itemCount then itemCount else |figs|
    {
      if |figs| + i < itemCount {
        targets := targets + [Target(xs[i].el, |figs| + i)];
      }
      i := i + 1;
    }
    assert targets == Targets(figs, xs, itemCount);
  }

  /** The rendered list has one item per figure and per exercise. */
  lemma RenderedItemCount(figs: seq<Figure>, xs: seq<Exercise>, sections: seq<string>)
    ensures |Items(Rendered(figs, xs, sections))| == |figs| + |xs|
  {
    ItemsOfRendered(figs, xs, sections);
    GroupingIsPermutation(figs);
    assert |multiset(Grouped(figs))| == |multiset(figs)|;
  }

  /**
   * `buildNav`: collect the figures and the exercises; with neither there
   * is no navigator. Otherwise render the list and pair the scroll
   * targets with its items; the sidebar starts closed, with every entry
   * displayed and nothing highlighted.
   */
  method BuildNav(labels: seq<LabelEl>, cards: seq<CardEl>, sections: seq<string>) returns (nav: Option<Navigator>)
    ensures nav.None? <==> Figures(labels) == [] && Exercises(cards) == []
    ensures nav.Some? ==>
      && fresh(nav.value) && nav.value.Valid()
      && nav.value.entries == Rendered(Figures(labels), Exercises(cards), sections)
      && nav.value.targets == Targets(Figures(labels), Exercises(cards), |Items(nav.value.entries)|)
      && |nav.value.targets| == |Figures(labels)| + |Exercises(cards)|
      && !nav.value.navOpen
      && (forall k :: 0 <= k < |nav.value.shown| ==> nav.value.shown[k])
      && (forall i :: 0 <= i < |nav.value.active| ==> !nav.value.active[i])
  {
    var figures := CollectFigures(labels);
    var exercises := CollectExercises(cards);
    if |figures| == 0 && |exercises| == 0 {
      return None;
    }
    var entries := RenderList(figures, exercises, sections);
    var itemCount := |Items(entries)|;
    RenderedItemCount(figures, exercises, sections);
    var targets := CollectTargets(figures, exercises, itemCount);
    var n := new Navigator(entries, targets);
    nav := Some(n);
  }
}
