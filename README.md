# FAQ accordion: selection and filter state machine

This project models the logic of a small React FAQ page in Dafny. The page shows a fixed
list of question/answer entries. Category buttons filter the list, and the entries form a
single-open accordion. A dashboard shows three counters.

- `wrappers.dfy`: `Option`, which models the source's `number | null`.
- `faq_accordion.dfy`, module `FAQAccordion` (models `src/components/FAQAccordion.tsx`). This
  is the stateless renderer, written as a pure function from `(items, activeIndex)` to rows.
  Each row carries its key, its category badge, the position its header reports to `onToggle`,
  whether it is active, and its `aria-expanded` and `aria-hidden` values. The result also says
  whether the empty-state block is shown.
- `app.dfy`, module `App` (models `src/App.tsx`):
  - the entry table, reduced to id, category and tags;
  - the derived category list (a Set built from the category column, then spread);
  - the category filter and the three counters;
  - the UI state `(selectedCategory, activeIndex)`, with each handler as a transition function;
  - the class `FaqApp`, whose two fields the four handler methods assign. Each method is proved
    equal to its transition function.

The main property is the display invariant. It says `activeIndex` is null or a position of
the current filtered list (`Displayable`). Each handler preserves it when its input comes from
the page:
- a rendered row position for toggle;
- "All" or an observed category for category select.

Any sequence of such clicks therefore preserves it, with "expand all" taken as one step
(`OfferedRunKeepsDisplayable`). In every displayable state the rendered accordion has exactly
one expanded row when a position is set and none otherwise (`DisplayableIsSingleOpen`).

Behaviour worth noting:
- Selecting a category sets `activeIndex` to 0 even when the new list is empty (App.tsx:98).
  The model proves that 0 is valid for every category the page offers.
- Toggling sets `activeIndex` to any position it is given, in range or not (App.tsx:93).
- Toggling the same row twice restores the previous state only when that row was expanded or
  nothing was expanded. From "row 3 expanded", toggling row 0 twice leaves nothing expanded.
  `ToggleTwiceRestores` proves this as an if-and-only-if, and `ToggleTwiceForgetsOtherRow`
  proves the concrete case.
- "Expand all" expands only the last filtered entry (App.tsx:105).

## Model

| member | source | states |
|---|---|---|
| `FAQAccordion.RenderRow` | src/components/FAQAccordion.tsx:24-59 | a row carries the entry's id as key and its category; its header reports its own position; it is active exactly when `activeIndex` equals its position; `aria-expanded` equals active and `aria-hidden` equals not active |
| `FAQAccordion.Render` | src/components/FAQAccordion.tsx:20-92 | one row per entry, in entry order, keyed by `id`, each reporting its position `i` to `onToggle`; row `i` is active iff `activeIndex == i`; ARIA attributes follow activity; the empty-state block is shown iff the list is empty |
| `FAQAccordion.ActiveCountOfPositionRows` | src/components/FAQAccordion.tsx:23-24 | rows active exactly at the expanded position number one expanded row when that position is in range, none otherwise |
| `FAQAccordion.RenderedActiveCount` | src/components/FAQAccordion.tsx:23-24 | the rendered accordion has exactly one expanded row when `activeIndex` is a valid position, and none when it is null or out of range |
| `FAQAccordion.AtMostOneActiveRow` | src/components/FAQAccordion.tsx:24 | two active rows are the same row, and it is the row at `activeIndex` |
| `FAQAccordion.NoActiveRowOutOfRange` | src/components/FAQAccordion.tsx:24 | with `activeIndex` null, negative or past the end, no row is active |
| `App.FaqItems` | src/App.tsx:18-83 | the shipped table has eight entries with ids 1 to 8 in order (question, answer and icon omitted) |
| `App.CategoryColumn` | src/App.tsx:85 | the mapped column has one category per entry, entry `i`'s category at position `i` |
| `App.Distinct` | src/App.tsx:85 | spreading the Set is never longer than its input; its full contract is `DistinctIsFirstOccurrenceList` |
| `App.DistinctIsFirstOccurrenceList` | src/App.tsx:85 | deduplication yields no duplicates and exactly the values of its input, no longer than the input, ordered by first occurrence |
| `App.Categories` | src/App.tsx:85 | the category list has no duplicates, contains every entry's category and only categories of some entry, is no longer than the table, and is empty only for an empty table |
| `App.CategoriesInFirstOccurrenceOrder` | src/App.tsx:85 | a later category button's category never occurs before the first occurrence of an earlier button's category |
| `App.FilterByCategory` | src/App.tsx:90 | the filter is never longer than the table; its full contract is `FilterKeepsExactlyCategory` and `FilterIsOrderedSelection` |
| `App.FilterKeepsExactlyCategory` | src/App.tsx:90 | the filter keeps every entry of the chosen category and no other, and is no longer than the table |
| `App.MatchingPositionsExact` | src/App.tsx:90 | the kept positions are valid, strictly increasing, and are exactly the positions whose category matches |
| `App.FilterTakesMatchingPositions` | src/App.tsx:90 | the k-th kept entry is the entry at the k-th matching position |
| `App.FilterIsOrderedSelection` | src/App.tsx:88-90 | the filter is the subsequence of the table at the matching positions: original order, no others |
| `App.FilteredItems` | src/App.tsx:88-90 | with "All" the list is the table itself; otherwise it holds exactly the entries of the selected category; never longer than the table |
| `App.FilteredKeepsUniqueIds` | src/App.tsx:88-90 | filtering keeps ids pairwise distinct, so row keys stay unique |
| `App.OfferedCategoryIsInhabited` | src/App.tsx:85-90 | "All" over a non-empty table, or any observed category, gives a non-empty filtered list |
| `App.DashboardStats` | src/App.tsx:133-151 | filtered count and category count never exceed the total; with "All" the filtered count equals the total; zero categories iff zero entries |
| `App.Toggle` | src/App.tsx:92-94 | toggle keeps the category; it clears `activeIndex` iff it already was the clicked position, and otherwise sets it to that position |
| `App.InitialState` | src/App.tsx:16 | the start state is category "All" (App.tsx:86) with position 0 expanded; `InitialStateDisplayable` proves it valid |
| `App.SelectCategory` | src/App.tsx:96-99 | the new state has the chosen category and position 0, whatever the old state; `SelectCategoryKeepsDisplayable` proves 0 valid for offered categories |
| `App.ExpandAll` | src/App.tsx:101-107 | the final state keeps the category; nothing is expanded iff the filtered list is empty, else the last filtered position; `ExpandAllSettles` and `ExpandAllOpensAtMostOne` add validity and single-open |
| `App.CollapseAll` | src/App.tsx:109-111 | the category is kept and nothing is expanded; `CollapseAllKeepsDisplayable` proves validity |
| `App.Step` | src/App.tsx:159-193 | a row, category, expand-all or collapse-all click runs its handler: only a category click changes the category, and it resets to position 0; collapse-all leaves nothing expanded |
| `App.Offered` | src/App.tsx:189-193 | an offered row click names a row the accordion renders for the current list, whose header reports exactly that position; the two bulk buttons are always offered |
| `App.InitialStateDisplayable` | src/App.tsx:16 | the start state is ("All", 0), which is displayable for any non-empty table |
| `App.ToggleTwiceRestores` | src/App.tsx:92-94 | two toggles of the same position restore the state iff nothing or that position was expanded; otherwise they leave nothing expanded |
| `App.ToggleTwiceForgetsOtherRow` | src/App.tsx:92-94 | from row 3 expanded, toggling row 0 twice leaves nothing expanded |
| `App.ToggleKeepsDisplayable` | src/App.tsx:92-94 | toggling a rendered position leaves the state displayable, from any state |
| `App.SelectCategoryKeepsDisplayable` | src/App.tsx:96-99 | selecting sets the category and resets `activeIndex` to 0; for "All" or an observed category this is displayable |
| `App.ExpandAllSettles` | src/App.tsx:101-107 | the final state keeps the category and expands the last filtered position, or nothing for an empty list; it is displayable |
| `App.ExpandAllOpensAtMostOne` | src/App.tsx:101-107 | after expand-all the accordion shows exactly one expanded row for a non-empty list, none for an empty one |
| `App.CollapseAllKeepsDisplayable` | src/App.tsx:109-111 | collapse-all keeps the category, clears `activeIndex`, and is displayable |
| `App.DisplayableIsSingleOpen` | src/App.tsx:189-193 | in a displayable state the accordion fed with the filtered list shows exactly one expanded row when a position is set, none otherwise |
| `App.StepKeepsDisplayable` | src/App.tsx:92-111 | any one handler run on a control the page offers leads to a displayable state, from any state |
| `App.OfferedRunKeepsDisplayable` | src/App.tsx:92-111 | any sequence of clicks on offered controls preserves the display invariant, and the final page shows exactly one expanded row iff a position is set |
| `App.ShippedIdsUnique` | src/App.tsx:18-83 | the shipped ids are pairwise distinct |
| `App.ShippedDistinct` | src/App.tsx:85 | deduplicating the shipped category column drops the second "Basics" and keeps seven categories |
| `App.ShippedCategories` | src/App.tsx:85 | the shipped category buttons are Basics, State Management, Advanced, Performance, Forms, Routing, Testing |
| `App.ShippedBasicsFilter` | src/App.tsx:88-90 | filtering the shipped table by "Basics" yields the entries with ids 1 and 5, in that order |
| `App.ShippedStats` | src/App.tsx:133-151 | the counters read 8 / 7 / 8 for "All" and 8 / 7 / 2 for "Basics" |
| `App.FaqApp.constructor` | src/App.tsx:16 | a new page starts in ("All", 0) and is displayable |
| `App.FaqApp.HandleAccordionToggle` | src/App.tsx:92-94 | the new state is the toggle of the old one; toggling a rendered row keeps the page displayable |
| `App.FaqApp.HandleCategorySelect` | src/App.tsx:96-99 | the new state is (category, 0); for "All" or an observed category the page is displayable and the list non-empty |
| `App.FaqApp.HandleExpandAll` | src/App.tsx:101-107 | the final state expands the last filtered entry (or none) and is displayable |
| `App.FaqApp.HandleCollapseAll` | src/App.tsx:109-111 | `activeIndex` becomes null with the category unchanged; the page is displayable |
| `App.FaqApp.RenderAccordion` | src/App.tsx:189-193 | the accordion is rendered from the filtered list and `activeIndex` in every state; it shows exactly one expanded row iff `activeIndex` is a valid position, so in a consistent state one iff a position is set |

## Left out

- Question and answer text, and the icon of each entry: display only. `FaqItem` keeps `id`, `category` and `tags`; tags are an opaque field.
- JSX markup, CSS classes, the inline `maxHeight`/`opacity` styles, the chevron rotation, the header, the footer texts and the info cards: presentation only.
- The lower-cased `data-category` attribute and the `aria-controls` id string: they need string case folding and number formatting, which the model does not have.
- The `lucide-react` icons: a foreign library with no behaviour.
- The "Learn More" button: it has no handler.
- Tag rendering beyond the opaque field.
- `App.FaqApp.HandleExpandAll`: only the composed final state is modelled, not the 50 ms deferred step. The window in which another click can run between its two assignments is not modelled, and neither is the stale filtered list its closure captures. In that window the invariant can break: expand-all under "All" followed by "Basics" within 50 ms ends in ("Basics", 7) over a 2-entry list, so no row is open while the footer reads "Expanded: Yes".
- React re-rendering and `useState` batching: a setter is a direct field assignment.
- The category selector compares with the "All" string, as the source does. A category literally named "All" would therefore show every entry. The shipped table has no such category.
