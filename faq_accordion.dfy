/** The stateless accordion component: given the (already filtered) entries and the
    controller's expanded position, it produces one row per entry and, for an empty
    list, the empty-state message. It owns no state; clicking a row's header only
    reports that row's position back to the controller. */
module FAQAccordion {

  import opened Wrappers

  /** One FAQ entry. The question, answer and icon are display-only and are not modelled;
      `id` is the row's identity key and `category` the label used for filtering. */
  datatype FaqItem = FaqItem(id: int, category: string, tags: seq<string>)

  /** What one rendered row exposes: its key, its category badge, the argument its header
      passes to `onToggle`, whether it is the active (expanded) row, and the two ARIA
      attributes derived from that. */
  datatype Row = Row(
    key: int,
    category: string,
    toggleIndex: int,
    isActive: bool,
    ariaExpanded: bool,
    ariaHidden: bool)

  /** The rendered accordion: its rows, in entry order, and whether the empty-state block is shown. */
  datatype Accordion = Accordion(rows: seq<Row>, showsEmptyState: bool)

  /** The row for the entry at `index`; it is active exactly when the expanded position is `index`. */
  function RenderRow(item: FaqItem, index: int, activeIndex: Option<int>): (row: Row)
    ensures row.key == item.id && row.category == item.category && row.toggleIndex == index
    ensures row.isActive <==> activeIndex == Some(index)
    ensures row.ariaExpanded == row.isActive && row.ariaHidden == !row.isActive
  {
    var isActive := activeIndex == Some(index);
    Row(item.id, item.category, index, isActive, isActive, !isActive)
  }

  /** The whole component: one row per entry, in entry order. */
  function Render(items: seq<FaqItem>, activeIndex: Option<int>): (v: Accordion)
    ensures |v.rows| == |items|
    ensures forall i :: 0 <= i < |items| ==>
      v.rows[i].key == items[i].id && v.rows[i].category == items[i].category && v.rows[i].toggleIndex == i
    ensures forall i :: 0 <= i < |items| ==> (v.rows[i].isActive <==> activeIndex == Some(i))
    ensures forall i :: 0 <= i < |items| ==>
      v.rows[i].ariaExpanded == v.rows[i].isActive && v.rows[i].ariaHidden == !v.rows[i].isActive
    ensures v.showsEmptyState <==> |items| == 0
  {
    Accordion(seq(|items|, i requires 0 <= i < |items| => RenderRow(items[i], i, activeIndex)), |items| == 0)
  }

  /** The number of rows shown expanded. */
  function ActiveCount(rows: seq<Row>): (n: nat)
    ensures n <= |rows|
    ensures n == 0 <==> forall i :: 0 <= i < |rows| ==> !rows[i].isActive
  {
    if rows == [] then 0
    else ActiveCount(rows[..|rows| - 1]) + (if rows[|rows| - 1].isActive then 1 else 0)
  }

  /** Rows whose activity is "my position is the expanded one" have exactly one expanded row
      when that position is in range, and none otherwise. */
  lemma {:induction false} ActiveCountOfPositionRows(rows: seq<Row>, activeIndex: Option<int>)
    requires forall i :: 0 <= i < |rows| ==> (rows[i].isActive <==> activeIndex == Some(i))
    ensures ActiveCount(rows) == if activeIndex.Some? && 0 <= activeIndex.value < |rows| then 1 else 0
  {
    if rows != [] {
      var prefix := rows[..|rows| - 1];
      assert forall i :: 0 <= i < |prefix| ==> prefix[i] == rows[i];
      ActiveCountOfPositionRows(prefix, activeIndex);
    }
  }

  /** Single-open: the rendered accordion shows exactly one expanded row when the expanded
      position is a valid position of `items`, and none when it is null or out of range. */
  lemma RenderedActiveCount(items: seq<FaqItem>, activeIndex: Option<int>)
    ensures ActiveCount(Render(items, activeIndex).rows)
         == if activeIndex.Some? && 0 <= activeIndex.value < |items| then 1 else 0
  {
    ActiveCountOfPositionRows(Render(items, activeIndex).rows, activeIndex);
  }

  /** At most one row is ever shown expanded, and it is the row at the expanded position. */
  lemma AtMostOneActiveRow(items: seq<FaqItem>, activeIndex: Option<int>, i: int, j: int)
    requires 0 <= i < |items| && 0 <= j < |items|
    requires Render(items, activeIndex).rows[i].isActive && Render(items, activeIndex).rows[j].isActive
    ensures i == j && activeIndex == Some(i)
  {
  }

  /** With no expanded position, or one outside the list, no row is expanded. */
  lemma NoActiveRowOutOfRange(items: seq<FaqItem>, activeIndex: Option<int>)
    requires activeIndex.None? || activeIndex.value < 0 || activeIndex.value >= |items|
    ensures forall i :: 0 <= i < |items| ==> !Render(items, activeIndex).rows[i].isActive
  {
  }

}
