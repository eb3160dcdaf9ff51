/** The view controller: the static entry table, the derived category list, the category
    filter, the dashboard counters, and the two pieces of UI state (`selectedCategory`,
    `activeIndex`) with the four handlers that change them. */
module App {

  import opened Wrappers
  import opened FAQAccordion

  /** The pseudo-category that shows every entry. */
  const All: string := "All"

  // ---------------------------------------------------------------------------
  // Static data
  // ---------------------------------------------------------------------------

  /** The shipped entry table, reduced to id, category and tags. */
  function FaqItems(): (items: seq<FaqItem>)
    ensures |items| == 8
    ensures forall i :: 0 <= i < |items| ==> items[i].id == i + 1
  {
    [ FaqItem(1, "Basics", ["React", "Fundamentals"]),
      FaqItem(2, "State Management", ["Hooks", "State", "Redux"]),
      FaqItem(3, "Advanced", ["Hooks", "Functions"]),
      FaqItem(4, "Performance", ["Optimization", "Memoization"]),
      FaqItem(5, "Basics", ["Props", "State", "Fundamentals"]),
      FaqItem(6, "Forms", ["Forms", "Validation", "Input"]),
      FaqItem(7, "Routing", ["Router", "Navigation", "SPA"]),
      FaqItem(8, "Testing", ["Jest", "Testing", "Quality"]) ]
  }

  /** Every entry's `id` differs from every other entry's. */
  predicate UniqueIds(items: seq<FaqItem>)
  {
    forall i, j :: 0 <= i < j < |items| ==> items[i].id != items[j].id
  }

  // ---------------------------------------------------------------------------
  // Distinct categories, in first-occurrence order
  // ---------------------------------------------------------------------------

  predicate NoDuplicates(s: seq<string>)
  {
    forall i, j :: 0 <= i < j < |s| ==> s[i] != s[j]
  }

  /** The category of every entry, in entry order. */
  function CategoryColumn(items: seq<FaqItem>): (cs: seq<string>)
    ensures |cs| == |items|
    ensures forall i :: 0 <= i < |items| ==> cs[i] == items[i].category
  {
    seq(|items|, i requires 0 <= i < |items| => items[i].category)
  }

  /** The values of `s` with later repeats dropped: what spreading a Set built from `s` yields. */
  function Distinct(s: seq<string>): (r: seq<string>)
    ensures |r| <= |s|
  {
    if s == [] then []
    else
      var kept := Distinct(s[..|s| - 1]);
      var last := s[|s| - 1];
      if last in kept then kept else kept + [last]
  }

  /** The position of the first occurrence of `x` in `s`. */
  function FirstIndex(s: seq<string>, x: string): (k: nat)
    requires x in s
    ensures k < |s| && s[k] == x
    ensures forall j :: 0 <= j < k ==> s[j] != x
  {
    if s[0] == x then 0 else 1 + FirstIndex(s[1..], x)
  }

  /** `Distinct` lists every value of `s` exactly once and nothing else, in the order of
      first occurrence in `s`. */
  lemma {:induction false} DistinctIsFirstOccurrenceList(s: seq<string>)
    ensures NoDuplicates(Distinct(s))
    ensures forall x :: x in Distinct(s) <==> x in s
    ensures |Distinct(s)| <= |s|
    ensures forall i, j :: 0 <= i < j < |Distinct(s)| ==>
      FirstIndex(s, Distinct(s)[i]) < FirstIndex(s, Distinct(s)[j])
  {
    if s != [] {
      var prefix := s[..|s| - 1];
      var last := s[|s| - 1];
      assert s == prefix + [last];
      DistinctIsFirstOccurrenceList(prefix);
      forall x | x in prefix
        ensures FirstIndex(s, x) == FirstIndex(prefix, x)
      {
        var k := FirstIndex(prefix, x);
        assert s[k] == x;
      }
      if last !in Distinct(prefix) {
        assert FirstIndex(s, last) == |s| - 1;
      }
    }
  }

  /** The category filter buttons: each category once, in first-occurrence order. */
  function Categories(items: seq<FaqItem>): (cs: seq<string>)
    ensures NoDuplicates(cs)
    ensures forall i :: 0 <= i < |items| ==> items[i].category in cs
    ensures forall c :: c in cs ==> exists i :: 0 <= i < |items| && items[i].category == c
    ensures |cs| <= |items|
    ensures |cs| == 0 <==> |items| == 0
  {
    var column := CategoryColumn(items);
    var cs := Distinct(column);
    DistinctIsFirstOccurrenceList(column);
    assert forall i :: 0 <= i < |items| ==> column[i] in cs;
    assert |items| > 0 ==> column[0] in cs;
    cs
  }

  /** The category buttons appear in the order in which their categories first occur among
      the entries: every entry of a later button's category comes after some entry of an
      earlier button's category. */
  lemma CategoriesInFirstOccurrenceOrder(items: seq<FaqItem>, i: int, j: int, q: int)
    requires 0 <= i < j < |Categories(items)|
    requires 0 <= q < |items| && items[q].category == Categories(items)[j]
    ensures exists p :: 0 <= p < q && items[p].category == Categories(items)[i]
  {
    var column := CategoryColumn(items);
    DistinctIsFirstOccurrenceList(column);
    var cs := Categories(items);
    assert column[q] == cs[j];
    var p := FirstIndex(column, cs[i]);
    assert p < FirstIndex(column, cs[j]) <= q;
    assert items[p].category == cs[i];
  }

  // ---------------------------------------------------------------------------
  // The category filter
  // ---------------------------------------------------------------------------

  /** The entries whose category is `c`, in their original order. */
  function FilterByCategory(items: seq<FaqItem>, c: string): (r: seq<FaqItem>)
    ensures |r| <= |items|
  {
    if items == [] then []
    else
      var kept := FilterByCategory(items[..|items| - 1], c);
      var last := items[|items| - 1];
      if last.category == c then kept + [last] else kept
  }

  /** The filter keeps every entry of category `c` and no other entry. */
  lemma {:induction false} FilterKeepsExactlyCategory(items: seq<FaqItem>, c: string)
    ensures |FilterByCategory(items, c)| <= |items|
    ensures forall x :: x in FilterByCategory(items, c) <==> x in items && x.category == c
  {
    if items != [] {
      FilterKeepsExactlyCategory(items[..|items| - 1], c);
      assert items == items[..|items| - 1] + [items[|items| - 1]];
    }
  }

  /** The positions in `items` of the entries whose category is `c`, in increasing order. */
  function MatchingPositions(items: seq<FaqItem>, c: string): seq<int>
  {
    if items == [] then []
    else
      var kept := MatchingPositions(items[..|items| - 1], c);
      if items[|items| - 1].category == c then kept + [|items| - 1] else kept
  }

  /** The matching positions are valid, strictly increasing, and are exactly the positions
      whose entry has category `c`. */
  lemma {:induction false} MatchingPositionsExact(items: seq<FaqItem>, c: string)
    ensures forall k :: 0 <= k < |MatchingPositions(items, c)| ==> 0 <= MatchingPositions(items, c)[k] < |items|
    ensures forall k, l :: 0 <= k < l < |MatchingPositions(items, c)| ==>
      MatchingPositions(items, c)[k] < MatchingPositions(items, c)[l]
    ensures forall i :: 0 <= i < |items| ==> (i in MatchingPositions(items, c) <==> items[i].category == c)
  {
    if items != [] {
      var prefix := items[..|items| - 1];
      MatchingPositionsExact(prefix, c);
      assert forall i :: 0 <= i < |prefix| ==> prefix[i] == items[i];
    }
  }

  /** The filter result is the entries at the matching positions, in position order. */
  lemma {:induction false} FilterTakesMatchingPositions(items: seq<FaqItem>, c: string)
    ensures |MatchingPositions(items, c)| == |FilterByCategory(items, c)|
    ensures forall k :: 0 <= k < |MatchingPositions(items, c)| ==>
      0 <= MatchingPositions(items, c)[k] < |items| &&
      FilterByCategory(items, c)[k] == items[MatchingPositions(items, c)[k]]
  {
    if items != [] {
      var prefix := items[..|items| - 1];
      FilterTakesMatchingPositions(prefix, c);
    }
  }

  /** The filter keeps exactly the entries of category `c`, in their original order: it is
      the selection of `items` at the strictly increasing positions whose category is `c`. */
  lemma FilterIsOrderedSelection(items: seq<FaqItem>, c: string)
    ensures |MatchingPositions(items, c)| == |FilterByCategory(items, c)|
    ensures forall k :: 0 <= k < |MatchingPositions(items, c)| ==> 0 <= MatchingPositions(items, c)[k] < |items|
    ensures forall k :: 0 <= k < |MatchingPositions(items, c)| ==>
      FilterByCategory(items, c)[k] == items[MatchingPositions(items, c)[k]]
    ensures forall k, l :: 0 <= k < l < |MatchingPositions(items, c)| ==>
      MatchingPositions(items, c)[k] < MatchingPositions(items, c)[l]
    ensures forall i :: 0 <= i < |items| ==> (i in MatchingPositions(items, c) <==> items[i].category == c)
  {
    MatchingPositionsExact(items, c);
    FilterTakesMatchingPositions(items, c);
  }

  /** The list handed to the accordion: every entry for "All", else the entries of that category. */
  function FilteredItems(items: seq<FaqItem>, selectedCategory: string): (r: seq<FaqItem>)
    ensures selectedCategory == All ==> r == items
    ensures selectedCategory != All ==> forall x :: x in r <==> x in items && x.category == selectedCategory
    ensures |r| <= |items|
  {
    FilterKeepsExactlyCategory(items, selectedCategory);
    if selectedCategory == All then items else FilterByCategory(items, selectedCategory)
  }

  /** Filtering keeps entries distinct by id, so the accordion's row keys stay unique. */
  lemma FilteredKeepsUniqueIds(items: seq<FaqItem>, selectedCategory: string)
    requires UniqueIds(items)
    ensures UniqueIds(FilteredItems(items, selectedCategory))
  {
    if selectedCategory != All {
      var r, ps := FilterByCategory(items, selectedCategory), MatchingPositions(items, selectedCategory);
      FilterIsOrderedSelection(items, selectedCategory);
      forall k, l | 0 <= k < l < |r|
        ensures r[k].id != r[l].id
      {
        assert r[k] == items[ps[k]] && r[l] == items[ps[l]] && ps[k] < ps[l];
      }
    }
  }

  /** Choosing "All" or any offered category yields a non-empty list, so position 0 exists. */
  lemma {:induction false} OfferedCategoryIsInhabited(items: seq<FaqItem>, c: string)
    requires (c == All && |items| > 0) || c in Categories(items)
    ensures |FilteredItems(items, c)| > 0
  {
    if c != All {
      var i :| 0 <= i < |items| && items[i].category == c;
      assert items[i] in FilteredItems(items, c);
    }
  }

  // ---------------------------------------------------------------------------
  // Dashboard counters
  // ---------------------------------------------------------------------------

  /** The three stat cards: total questions, categories, filtered items. */
  datatype Stats = Stats(total: nat, categories: nat, filtered: nat)

  function DashboardStats(items: seq<FaqItem>, selectedCategory: string): (s: Stats)
    ensures s.filtered <= s.total && s.categories <= s.total
    ensures selectedCategory == All ==> s.filtered == s.total
    ensures s.categories == 0 <==> s.total == 0
  {
    Stats(|items|, |Categories(items)|, |FilteredItems(items, selectedCategory)|)
  }

  // ---------------------------------------------------------------------------
  // UI state and its transitions
  // ---------------------------------------------------------------------------

  /** The controller's two state fields. */
  datatype UiState = UiState(selectedCategory: string, activeIndex: Option<int>)

  /** The state the component starts in: every category, first entry expanded. */
  function InitialState(): (r: UiState)
    ensures r.selectedCategory == All && r.activeIndex == Some(0)
  {
    UiState(All, Some(0))
  }

  /** The invariant that keeps the state displayable: nothing is expanded, or the expanded
      position is a position of the currently filtered list. */
  predicate Displayable(items: seq<FaqItem>, st: UiState)
  {
    st.activeIndex.None? || 0 <= st.activeIndex.value < |FilteredItems(items, st.selectedCategory)|
  }

  /** Clicking the header at `index`: collapse it if it is the expanded one, else expand it alone. */
  function Toggle(st: UiState, index: int): (r: UiState)
    ensures r.selectedCategory == st.selectedCategory
    ensures r.activeIndex.None? <==> st.activeIndex == Some(index)
    ensures r.activeIndex.Some? ==> r.activeIndex == Some(index)
  {
    st.(activeIndex := if st.activeIndex == Some(index) then None else Some(index))
  }

  /** Choosing a category filter: the first position of the new list becomes the expanded one. */
  function SelectCategory(st: UiState, category: string): (r: UiState)
    ensures r.selectedCategory == category && r.activeIndex == Some(0)
  {
    UiState(category, Some(0))
  }

  /** The state "expand all" settles in: only the last filtered entry is expanded. */
  function ExpandAll(items: seq<FaqItem>, st: UiState): (r: UiState)
    ensures r.selectedCategory == st.selectedCategory
    ensures r.activeIndex.None? <==> |FilteredItems(items, st.selectedCategory)| == 0
    ensures r.activeIndex.Some? ==> r.activeIndex.value + 1 == |FilteredItems(items, st.selectedCategory)|
  {
    var count := |FilteredItems(items, st.selectedCategory)|;
    st.(activeIndex := if count > 0 then Some(count - 1) else None)
  }

  /** "Collapse all": nothing is expanded. */
  function CollapseAll(st: UiState): (r: UiState)
    ensures r.selectedCategory == st.selectedCategory && r.activeIndex.None?
  {
    st.(activeIndex := None)
  }

  /** The start state is displayable whenever there is at least one entry. */
  lemma InitialStateDisplayable(items: seq<FaqItem>)
    requires |items| > 0
    ensures Displayable(items, InitialState())
    ensures InitialState().selectedCategory == All && InitialState().activeIndex == Some(0)
  {
  }

  /** Toggling the same header twice restores the state exactly when that header was the
      expanded one or nothing was expanded; otherwise the second click collapses everything. */
  lemma ToggleTwiceRestores(st: UiState, index: int)
    ensures Toggle(Toggle(st, index), index) == st <==> st.activeIndex in {None, Some(index)}
    ensures st.activeIndex !in {None, Some(index)} ==> Toggle(Toggle(st, index), index).activeIndex == None
  {
  }

  /** With entry 3 expanded, toggling entry 0 twice leaves nothing expanded, not entry 3. */
  lemma ToggleTwiceForgetsOtherRow()
    ensures Toggle(Toggle(UiState(All, Some(3)), 0), 0) == UiState(All, None)
  {
  }

  /** Toggling a rendered row leaves the state displayable, whatever the state before. */
  lemma ToggleKeepsDisplayable(items: seq<FaqItem>, st: UiState, index: int)
    requires 0 <= index < |FilteredItems(items, st.selectedCategory)|
    ensures Displayable(items, Toggle(st, index))
  {
  }

  /** Choosing "All" or an offered category resets to position 0, which is displayable. */
  lemma SelectCategoryKeepsDisplayable(items: seq<FaqItem>, st: UiState, category: string)
    requires (category == All && |items| > 0) || category in Categories(items)
    ensures SelectCategory(st, category) == UiState(category, Some(0))
    ensures Displayable(items, SelectCategory(st, category))
  {
    OfferedCategoryIsInhabited(items, category);
  }

  /** "Expand all" keeps the category, ends displayable, and expands the last filtered entry
      (nothing when the list is empty). */
  lemma ExpandAllSettles(items: seq<FaqItem>, st: UiState)
    ensures ExpandAll(items, st).selectedCategory == st.selectedCategory
    ensures Displayable(items, ExpandAll(items, st))
    ensures var n := |FilteredItems(items, st.selectedCategory)|;
      ExpandAll(items, st).activeIndex == if n > 0 then Some(n - 1) else None
  {
  }

  /** "Collapse all" keeps the category and leaves nothing expanded. */
  lemma CollapseAllKeepsDisplayable(items: seq<FaqItem>, st: UiState)
    ensures CollapseAll(st) == UiState(st.selectedCategory, None)
    ensures Displayable(items, CollapseAll(st))
  {
  }

  /** After "expand all" the accordion shows at most one expanded row: exactly one when the
      filtered list is non-empty. */
  lemma ExpandAllOpensAtMostOne(items: seq<FaqItem>, st: UiState)
    ensures var filtered := FilteredItems(items, st.selectedCategory);
      ActiveCount(Render(filtered, ExpandAll(items, st).activeIndex).rows) == if |filtered| > 0 then 1 else 0
  {
    var filtered := FilteredItems(items, st.selectedCategory);
    RenderedActiveCount(filtered, ExpandAll(items, st).activeIndex);
  }

  /** In a displayable state the rendered accordion shows exactly one expanded row when a
      position is set and none otherwise. */
  lemma DisplayableIsSingleOpen(items: seq<FaqItem>, st: UiState)
    requires Displayable(items, st)
    ensures ActiveCount(Render(FilteredItems(items, st.selectedCategory), st.activeIndex).rows)
         == if st.activeIndex.Some? then 1 else 0
  {
    RenderedActiveCount(FilteredItems(items, st.selectedCategory), st.activeIndex);
  }

  // ---------------------------------------------------------------------------
  // Sequences of user interactions
  // ---------------------------------------------------------------------------

  /** The inputs the page offers: a row header, a category button, the two bulk buttons. */
  datatype Event = ClickRow(index: int) | ClickCategory(category: string) | ClickExpandAll | ClickCollapseAll

  /** The state after one handler runs. */
  function Step(items: seq<FaqItem>, st: UiState, e: Event): (r: UiState)
    ensures !e.ClickCategory? ==> r.selectedCategory == st.selectedCategory
    ensures e.ClickCategory? ==> r == UiState(e.category, Some(0))
    ensures e.ClickCollapseAll? ==> r.activeIndex.None?
  {
    match e
    case ClickRow(index) => Toggle(st, index)
    case ClickCategory(category) => SelectCategory(st, category)
    case ClickExpandAll => ExpandAll(items, st)
    case ClickCollapseAll => CollapseAll(st)
  }

  /** Whether the page currently shows the control `e` clicks: a rendered row, "All" or an observed category. */
  predicate Offered(items: seq<FaqItem>, st: UiState, e: Event)
    ensures Offered(items, st, e) && e.ClickRow? ==>
      var v := Render(FilteredItems(items, st.selectedCategory), st.activeIndex);
      0 <= e.index < |v.rows| && v.rows[e.index].toggleIndex == e.index
    ensures e.ClickExpandAll? || e.ClickCollapseAll? ==> Offered(items, st, e)
  {
    match e
    case ClickRow(index) => 0 <= index < |FilteredItems(items, st.selectedCategory)|
    case ClickCategory(category) => category == All || category in Categories(items)
    case _ => true
  }

  /** Whether every event of `es` is offered by the page in the state it is applied to. */
  predicate OfferedRun(items: seq<FaqItem>, st: UiState, es: seq<Event>)
    decreases |es|
  {
    es == [] || (Offered(items, st, es[0]) && OfferedRun(items, Step(items, st, es[0]), es[1..]))
  }

  /** The state after the events of `es`, in order. */
  function Run(items: seq<FaqItem>, st: UiState, es: seq<Event>): UiState
    decreases |es|
  {
    if es == [] then st else Run(items, Step(items, st, es[0]), es[1..])
  }

  /** One offered click leads to a displayable state, whatever the state before. */
  lemma StepKeepsDisplayable(items: seq<FaqItem>, st: UiState, e: Event)
    requires |items| > 0 && Offered(items, st, e)
    ensures Displayable(items, Step(items, st, e))
  {
    match e
    case ClickRow(index) => ToggleKeepsDisplayable(items, st, index);
    case ClickCategory(category) => SelectCategoryKeepsDisplayable(items, st, category);
    case ClickExpandAll => ExpandAllSettles(items, st);
    case ClickCollapseAll => CollapseAllKeepsDisplayable(items, st);
  }

  /** Any sequence of clicks on offered controls keeps the state displayable, and the page
      single-open: exactly one expanded row when a position is set, none otherwise. */
  lemma {:induction false} OfferedRunKeepsDisplayable(items: seq<FaqItem>, st: UiState, es: seq<Event>)
    requires |items| > 0 && Displayable(items, st) && OfferedRun(items, st, es)
    ensures Displayable(items, Run(items, st, es))
    ensures var end := Run(items, st, es);
      ActiveCount(Render(FilteredItems(items, end.selectedCategory), end.activeIndex).rows)
      == if end.activeIndex.Some? then 1 else 0
    decreases |es|
  {
    if es == [] {
      DisplayableIsSingleOpen(items, st);
    } else {
      StepKeepsDisplayable(items, st, es[0]);
      OfferedRunKeepsDisplayable(items, Step(items, st, es[0]), es[1..]);
    }
  }

  // ---------------------------------------------------------------------------
  // The shipped table
  // ---------------------------------------------------------------------------

  /** Appending one value to the input of `Distinct` appends it to the output unless already seen. */
  lemma DistinctSnoc(s: seq<string>, x: string)
    ensures Distinct(s + [x]) == if x in Distinct(s) then Distinct(s) else Distinct(s) + [x]
  {
    assert (s + [x])[..|s|] == s;
  }

  /** Appending one entry to the input of the filter appends it to the output when its category matches. */
  lemma FilterSnoc(items: seq<FaqItem>, x: FaqItem, c: string)
    ensures FilterByCategory(items + [x], c)
         == if x.category == c then FilterByCategory(items, c) + [x] else FilterByCategory(items, c)
  {
    assert (items + [x])[..|items|] == items;
  }

  /** The shipped ids are 1 to 8, so no two entries share a key. */
  lemma ShippedIdsUnique()
    ensures UniqueIds(FaqItems())
  {
    var items := FaqItems();
    assert forall i :: 0 <= i < |items| ==> items[i].id == i + 1;
  }

  /** The shipped categories column, entry by entry. */
  lemma ShippedCategoryColumn()
    ensures CategoryColumn(FaqItems())
         == ["Basics", "State Management", "Advanced", "Performance", "Basics", "Forms", "Routing", "Testing"]
  {
  }

  /** The first two shipped categories differ. */
  lemma ShippedDistinctUpTo2()
    ensures Distinct(["Basics", "State Management"]) == ["Basics", "State Management"]
  {
    DistinctSnoc([], "Basics");
    assert [] + ["Basics"] == ["Basics"];
    DistinctSnoc(["Basics"], "State Management");
    assert ["Basics"] + ["State Management"] == ["Basics", "State Management"];
  }

  /** The first four shipped categories are pairwise different. */
  lemma ShippedDistinctUpTo4()
    ensures Distinct(["Basics", "State Management", "Advanced", "Performance"]) == ["Basics", "State Management", "Advanced", "Performance"]
  {
    ShippedDistinctUpTo2();
    DistinctSnoc(["Basics", "State Management"], "Advanced");
    assert ["Basics", "State Management"] + ["Advanced"] == ["Basics", "State Management", "Advanced"];
    DistinctSnoc(["Basics", "State Management", "Advanced"], "Performance");
    assert ["Basics", "State Management", "Advanced"] + ["Performance"] == ["Basics", "State Management", "Advanced", "Performance"];
  }

  /** The fifth entry repeats "Basics", which is dropped. */
  lemma ShippedDistinctUpTo5()
    ensures Distinct(["Basics", "State Management", "Advanced", "Performance", "Basics"])
         == ["Basics", "State Management", "Advanced", "Performance"]
  {
    ShippedDistinctUpTo4();
    DistinctSnoc(["Basics", "State Management", "Advanced", "Performance"], "Basics");
    assert ["Basics", "State Management", "Advanced", "Performance"] + ["Basics"]
        == ["Basics", "State Management", "Advanced", "Performance", "Basics"];
  }

  /** The sixth entry's "Forms" is new. */
  lemma ShippedDistinctUpTo6()
    ensures Distinct(["Basics", "State Management", "Advanced", "Performance", "Basics", "Forms"])
         == ["Basics", "State Management", "Advanced", "Performance", "Forms"]
  {
    ShippedDistinctUpTo5();
    DistinctSnoc(["Basics", "State Management", "Advanced", "Performance", "Basics"], "Forms");
    assert ["Basics", "State Management", "Advanced", "Performance", "Basics"] + ["Forms"]
        == ["Basics", "State Management", "Advanced", "Performance", "Basics", "Forms"];
  }

  /** The categories column of the shipped table, with its repeat of "Basics" dropped. */
  lemma ShippedDistinct()
    ensures Distinct(["Basics", "State Management", "Advanced", "Performance", "Basics", "Forms", "Routing", "Testing"])
         == ["Basics", "State Management", "Advanced", "Performance", "Forms", "Routing", "Testing"]
  {
    ShippedDistinctUpTo6();
    DistinctSnoc(["Basics", "State Management", "Advanced", "Performance", "Basics", "Forms"], "Routing");
    assert ["Basics", "State Management", "Advanced", "Performance", "Basics", "Forms"] + ["Routing"] == ["Basics", "State Management", "Advanced", "Performance", "Basics", "Forms", "Routing"];
    DistinctSnoc(["Basics", "State Management", "Advanced", "Performance", "Basics", "Forms", "Routing"], "Testing");
    assert ["Basics", "State Management", "Advanced", "Performance", "Basics", "Forms", "Routing"] + ["Testing"] == ["Basics", "State Management", "Advanced", "Performance", "Basics", "Forms", "Routing", "Testing"];
  }

  /** The shipped table has seven categories, in the order of first occurrence. */
  lemma ShippedCategories()
    ensures Categories(FaqItems())
         == ["Basics", "State Management", "Advanced", "Performance", "Forms", "Routing", "Testing"]
  {
    ShippedCategoryColumn();
    ShippedDistinct();
  }

  /** Among the first four shipped entries only the first is in "Basics". */
  lemma ShippedBasicsUpTo4()
    ensures FilterByCategory(FaqItems()[..4], "Basics") == [FaqItems()[0]]
  {
    var items := FaqItems();
    for n := 0 to 4
      invariant FilterByCategory(items[..n], "Basics") == if n == 0 then [] else [items[0]]
    {
      FilterSnoc(items[..n], items[n], "Basics");
      assert items[..n + 1] == items[..n] + [items[n]];
    }
  }

  /** Filtering the shipped table by "Basics" yields the entries with ids 1 and 5, in that order. */
  lemma ShippedBasicsFilter()
    ensures FilteredItems(FaqItems(), "Basics") == [FaqItems()[0], FaqItems()[4]]
    ensures FaqItems()[0].id == 1 && FaqItems()[4].id == 5
  {
    var items := FaqItems();
    ShippedBasicsUpTo4();
    for n := 4 to 8
      invariant FilterByCategory(items[..n], "Basics") == if n == 4 then [items[0]] else [items[0], items[4]]
    {
      FilterSnoc(items[..n], items[n], "Basics");
      assert items[..n + 1] == items[..n] + [items[n]];
    }
    assert items[..8] == items;
  }

  /** The counters read 8 / 7 / 8 with every category shown and 8 / 7 / 2 with "Basics" selected. */
  lemma ShippedStats()
    ensures DashboardStats(FaqItems(), All) == Stats(8, 7, 8)
    ensures DashboardStats(FaqItems(), "Basics") == Stats(8, 7, 2)
  {
    ShippedCategories();
    ShippedBasicsFilter();
  }

  // ---------------------------------------------------------------------------
  // The component instance
  // ---------------------------------------------------------------------------

  /** One mounted App: the static table and the two state fields its handlers assign. */
  class FaqApp {
    const faqItems: seq<FaqItem> := FaqItems()
    var selectedCategory: string
    var activeIndex: Option<int>

    function State(): UiState
      reads this
    {
      UiState(selectedCategory, activeIndex)
    }

    /** The list currently handed to the accordion. */
    function Filtered(): seq<FaqItem>
      reads this
    {
      FilteredItems(faqItems, selectedCategory)
    }

    predicate Consistent()
      reads this
    {
      Displayable(faqItems, State())
    }

    constructor ()
      ensures State() == InitialState()
      ensures Consistent()
    {
      selectedCategory := All;
      activeIndex := Some(0);
    }

    method HandleAccordionToggle(index: int)
      modifies this
      ensures State() == Toggle(old(State()), index)
      ensures old(Consistent()) && 0 <= index < |Filtered()| ==> Consistent()
    {
      activeIndex := if activeIndex == Some(index) then None else Some(index);
    }

    method HandleCategorySelect(category: string)
      modifies this
      ensures State() == SelectCategory(old(State()), category)
      ensures category == All || category in Categories(faqItems) ==> Consistent() && |Filtered()| > 0
    {
      selectedCategory := category;
      activeIndex := Some(0);
      if category == All || category in Categories(faqItems) {
        SelectCategoryKeepsDisplayable(faqItems, old(State()), category);
        OfferedCategoryIsInhabited(faqItems, category);
      }
    }

    /** The handler first collapses everything and, after its deferred step, expands the last
        filtered entry; only the composed final state is modelled. */
    method HandleExpandAll()
      modifies this
      ensures State() == ExpandAll(faqItems, old(State()))
      ensures Consistent()
    {
      activeIndex := None;
      var allIndices := seq(|Filtered()|, i => i);
      activeIndex := if |allIndices| > 0 then Some(|allIndices| - 1) else None;
    }

    method HandleCollapseAll()
      modifies this
      ensures State() == CollapseAll(old(State()))
      ensures Consistent()
    {
      activeIndex := None;
    }

    /** The accordion as the page renders it from the current state. */
    method RenderAccordion() returns (v: Accordion)
      ensures v == Render(Filtered(), activeIndex)
      ensures ActiveCount(v.rows) == if activeIndex.Some? && 0 <= activeIndex.value < |Filtered()| then 1 else 0
      ensures Consistent() ==> ActiveCount(v.rows) == if activeIndex.Some? then 1 else 0
    {
      v := Render(Filtered(), activeIndex);
      RenderedActiveCount(Filtered(), activeIndex);
    }
  }

  /** The walk-through of the shipped page: pick "Basics", toggle its first entry closed and open,
      then open the second entry, which closes the first. */
  method BasicsWalkthrough()
  {
    var app := new FaqApp();
    ShippedStats();
    app.HandleCategorySelect("Basics");
    assert app.activeIndex == Some(0) && |app.Filtered()| == 2;
    app.HandleAccordionToggle(0);
    assert app.activeIndex == None;
    app.HandleAccordionToggle(0);
    assert app.activeIndex == Some(0);
    app.HandleAccordionToggle(1);
    assert app.activeIndex == Some(1) && app.Consistent();
    var v := app.RenderAccordion();
    assert v.rows[1].isActive && !v.rows[0].isActive;
  }
}
