# Grid layout engine of the recipe-list demo, in Dafny

This project models `CollectionViewGridLayout`, the `UICollectionViewLayout`
subclass of the recipe-list demo app. It also models the cell-size table it
depends on, `RecipeListCell.suggestedSize(for:)`.

The layout works like this:

- It reads the collection view's frame width and the preferred content size
  category. From them it derives a column count (`numberOfColumns`) and a
  floored cell width (`cellWidth`).
- On `prepare()` with an empty record list, it builds every item's layout
  attributes in one pass (`initalLayout()`):
  - items are visited section by section and row by row;
  - columns are assigned round-robin;
  - each column has a running `yOffset`;
  - each frame is inset by `contentInset.left` horizontally and by
    `contentInset.right` vertically;
  - the content height is the lowest un-inset bottom edge, starting from the
    top inset, plus the bottom inset.
- It answers visibility queries by a linear scan.
- A bounds change or a full invalidation discards every record.
- When a self-sizing cell reports a different height, the layout repairs the
  records in place:
  - that item takes the new height and the current cell width;
  - the later items of its column move down by the difference;
  - the changed items are invalidated;
  - the content height is recomputed from a trailing window of records, and
    the change is reported as the context's `contentSizeAdjustment`.

The project has six modules:

- `ContentSize`: the size-category table.
- `Geometry`: content width, column count, cell width, and the `CGRect`
  operations the layout uses.
- `Residues`: facts about `i % n`. Item `i` of a build lands in column `i % n`.
- `GridSpec`: value-level definitions of what a build produces
  (`Built`, `BuildBottom`), the visibility filter (`Visible`), the
  correction (`Corrected`, `RefreshSet`) and the trailing window
  (`TrailingWindow`, `MaxBottom`), with the properties proved about them.
- `GridLayout`: the class `CollectionViewGridLayout`.
  - Its fields are the record list (`layoutAttributesForItems`) and
    `contentHeight`. Its methods update these fields in place.
  - Each method is proved against the `GridSpec` definitions.
  - Each method keeps the invariant `Valid()`: every record sits in column
    `index % n`, and consecutive frames of a column are stacked with a fixed
    gap.
- `Wrappers`: `Option`.

`CGFloat` is modelled as `real`. Swift's `Int(_:)` is truncation toward zero
(`Trunc`), and `floor` is `Floor`.

## Quirks of the code the model keeps

- The vertical inset of every frame is `contentInset.right`, and the
  horizontal inset is `contentInset.left` (`CollectionViewLayout.swift:219`).
  Consecutive frames of a column are therefore twice the right inset apart
  (`BuiltStacked`).
- Each column's running `yOffset` starts at 0, while `contentHeight` starts at
  the top inset (`CollectionViewLayout.swift:194-200`).
- While the list holds no more records than there are columns, the window
  `collectionViewHeight(from:context:)` is given is the last record alone
  (`CollectionViewLayout.swift:156-161`). `ShortGridWindowMissesTallerItem`
  shows a two-item list where this sets the content height above the bottom of
  the taller item.
- With more records than columns, `WindowBottomIsOverallBottom` proves the
  window's lowest edge is the lowest edge of the whole list, under four
  conditions:
  - every column is stacked, as after a build (`Valid()`);
  - the gap is at least 0, that is, the right inset is non-negative;
  - every frame height is non-negative;
  - for the layout's own records, the column count the window is cut with
    equals the one the records were built with, because the window uses the
    current `numberOfColumns`.
- With zero columns, the correction's slice at `CollectionViewLayout.swift:163`
  has a closed range whose lower bound exceeds its upper bound, and it traps.
  The model requires at least one column (`InvalidationContextForPreferred`).
- The content height a correction recomputes is the lowest inset frame edge,
  so it no longer includes the bottom inset
  (`CollectionViewLayout.swift:171-180`).

## Model

Source paths are relative to the repository root. `CollectionViewLayout.swift`
and `RecipeListCell.swift` both live in `CollectionViewLayoutDemo/`.

| member | source | states |
|---|---|---|
| ContentSize.SuggestedSize | CollectionViewLayoutDemo/RecipeListCell.swift:12-26 | height is always 340; width is 320 exactly for the seven standard categories and unnamed ones, 360 exactly for accessibilityMedium, 400 exactly for accessibilityLarge, 450 exactly for the three largest accessibility categories |
| ContentSize.SuggestedWidthRange | CollectionViewLayoutDemo/RecipeListCell.swift:14-25 | the suggested width is one of 320, 360, 400, 450, so it lies in [320, 450] |
| Geometry.Rect.InsetBy | CollectionViewLayoutDemo/CollectionViewLayout.swift:219 | insetting moves each edge inward by dx or dy and leaves a non-negative size |
| Geometry.Trunc | CollectionViewLayoutDemo/CollectionViewLayout.swift:45 | `Int(_:)` truncates toward zero: within one below x for x >= 0, within one above x for x < 0 |
| Geometry.ContentWidth | CollectionViewLayoutDemo/CollectionViewLayout.swift:30-37 | 0 without a view; otherwise the content width plus the left and right insets is the bounds width |
| Geometry.NumberOfColumns | CollectionViewLayoutDemo/CollectionViewLayout.swift:39-52 | 0 without a view or with a zero-width frame, at least 1 for a positive frame width (CoreGraphics never reports a negative one; for such a value the count is not positive) |
| Geometry.NumberOfColumnsFit | CollectionViewLayoutDemo/CollectionViewLayout.swift:44-51 | for a positive frame width the count is floor(frame width / suggested width), raised to 1; a frame at least one suggested width wide holds count × suggested width points, a frame of 320 or more holds count × 320 points, a narrower one has one column |
| Geometry.CellWidth | CollectionViewLayoutDemo/CollectionViewLayout.swift:54-60 | 0 without a view; always a whole number of points |
| Geometry.CellWidthFits | CollectionViewLayoutDemo/CollectionViewLayout.swift:54-60 | n cells, the n−1 one-point gutters and one more point per column fit in the frame width |
| Geometry.CellWidthBound | CollectionViewLayoutDemo/CollectionViewLayout.swift:59 | multiplying the floored per-column quotient back by n stays within the frame width less n |
| Geometry.ShouldInvalidateForBoundsChange | CollectionViewLayoutDemo/CollectionViewLayout.swift:101-111 | true exactly when there is a view and the new size differs from its frame size; any width change invalidates |
| Residues.ModSucc | CollectionViewLayoutDemo/CollectionViewLayout.swift:229 | the wrapping column counter equals the next index's residue mod n |
| Residues.ModShiftDistinct | CollectionViewLayoutDemo/CollectionViewLayout.swift:143-154 | indices less than n apart are in different columns |
| Residues.ModAddPeriod | CollectionViewLayoutDemo/CollectionViewLayout.swift:227-229 | indices n apart are in the same column |
| Residues.ModHit | CollectionViewLayoutDemo/CollectionViewLayout.swift:163 | any n consecutive indices meet every column |
| GridSpec.SectionCount | CollectionViewLayoutDemo/CollectionViewLayout.swift:196 | defines the number of sections: the data source's answer, or 1 when it does not implement the question |
| GridSpec.PathsBefore | CollectionViewLayoutDemo/CollectionViewLayout.swift:206-209 | defines the index paths of the first s sections, section by section and row by row (properties in `PathsBeforeExact`, `PathsBeforePrefix`) |
| GridSpec.Paths | CollectionViewLayoutDemo/CollectionViewLayout.swift:196-209 | defines every index path the build visits, in visiting order |
| GridSpec.Estimate | CollectionViewLayoutDemo/CollectionViewLayout.swift:211-216 | defines an item's height: the delegate's estimate when there is a delegate, otherwise `estimatedRowHeight` |
| GridSpec.Estimates | CollectionViewLayoutDemo/CollectionViewLayout.swift:211-216 | one estimate per visited index path, in visiting order |
| GridSpec.PathsBeforeExact | CollectionViewLayoutDemo/CollectionViewLayout.swift:206-209 | the build visits exactly the index paths of the reported sections and rows, each once, in section-then-row order |
| GridSpec.PathsBeforePrefix | CollectionViewLayoutDemo/CollectionViewLayout.swift:206-208 | the items of the first s sections are a prefix of those of the first t ≥ s sections |
| GridSpec.ColumnOffsets | CollectionViewLayoutDemo/CollectionViewLayout.swift:201-204 | the left edges of the first c columns; one per column (values in `ColumnOffsetsAt`) |
| GridSpec.ColumnOffsetsNext | CollectionViewLayoutDemo/CollectionViewLayout.swift:202-204 | one more pass of the xOffset loop appends the next column's left edge |
| GridSpec.ColumnOffsetsAt | CollectionViewLayoutDemo/CollectionViewLayout.swift:202-204 | column j's left edge is j column widths from the left |
| GridSpec.ColumnTotal | CollectionViewLayoutDemo/CollectionViewLayout.swift:200-227 | defines column c's running `yOffset` after i items: the sum of the estimates of the earlier items of that column (properties in `ColumnTotalAhead`, `ColumnTotalSkip`) |
| GridSpec.RawFrame | CollectionViewLayoutDemo/CollectionViewLayout.swift:218 | defines item i's frame before insetting: column i mod n's xOffset and running yOffset, the cell width and the estimate |
| GridSpec.Built | CollectionViewLayoutDemo/CollectionViewLayout.swift:206-230 | defines the record list a build produces, item by item (shape in `BuiltShape`, stacking in `BuiltStacked`) |
| GridSpec.BuildBottom | CollectionViewLayoutDemo/CollectionViewLayout.swift:194-226 | the running content height is at least the top inset, at least every placed un-inset bottom edge, and equal to the top inset or to one of those edges |
| GridSpec.BuiltShape | CollectionViewLayoutDemo/CollectionViewLayout.swift:206-230 | one record per item in enumeration order; item i is in column i mod n, at that column's xOffset plus the left inset, the column's running total plus the vertical inset, with the cell width and its estimate less both insets |
| GridSpec.ColumnTotalAhead | CollectionViewLayoutDemo/CollectionViewLayout.swift:227-229 | item i's height is added only to column i mod n's running yOffset over the next n items |
| GridSpec.ColumnTotalSkip | CollectionViewLayoutDemo/CollectionViewLayout.swift:218-229 | item i + n starts where item i ends, before insetting |
| GridSpec.BuiltStacked | CollectionViewLayoutDemo/CollectionViewLayout.swift:218-229 | in a build, the next frame of each column starts twice the vertical inset below the previous one's bottom |
| GridSpec.BuildBottomIsMax | CollectionViewLayoutDemo/CollectionViewLayout.swift:194-226 | the final running height is the larger of the top inset and the lowest un-inset frame edge |
| GridSpec.TwoColumnsUniformY | CollectionViewLayoutDemo/CollectionViewLayout.swift:218-229 | with two columns and every estimate 500, item i starts ⌊i/2⌋ × 500 down |
| GridSpec.TwoColumnsUniformBottom | CollectionViewLayoutDemo/CollectionViewLayout.swift:226 | with two columns and every estimate 500, the running height after i items is ⌊(i+1)/2⌋ × 500 |
| GridSpec.TwentyOneItemsInTwoColumns | CollectionViewLayoutDemo/CollectionViewLayout.swift:186-234 | 21 items of height 500 in two columns: item 20 is in column 0 at y = 5000, item 1 at y = 0, content 5500 high |
| GridSpec.Visible | CollectionViewLayoutDemo/CollectionViewLayout.swift:90-99 | a record is returned exactly when it is in the list and intersects the rectangle; never more records than the list holds |
| GridSpec.VisibleConcat | CollectionViewLayoutDemo/CollectionViewLayout.swift:93-97 | filtering a concatenation is concatenating the filtered parts, so list order is kept |
| GridSpec.VisibleEmpty | CollectionViewLayoutDemo/CollectionViewLayout.swift:90-99 | nothing is visible in an empty list |
| GridSpec.CorrectedAt | CollectionViewLayoutDemo/CollectionViewLayout.swift:133-154 | defines record j after a correction of item k (properties in `CorrectionLocality`) |
| GridSpec.Corrected | CollectionViewLayoutDemo/CollectionViewLayout.swift:133-154 | defines the record list after a correction of item k by delta at the given cell width |
| GridSpec.RefreshSet | CollectionViewLayoutDemo/CollectionViewLayout.swift:139-152 | defines the invalidated index paths: item k's and those of the later items of its column (properties in `RefreshCoversChanges`) |
| GridSpec.CorrectionLocality | CollectionViewLayoutDemo/CollectionViewLayout.swift:133-154 | a correction keeps the count, every column and index path; item k gets height + delta and the cell width; later items of k's column move down by delta; every other record is unchanged |
| GridSpec.RefreshCoversChanges | CollectionViewLayoutDemo/CollectionViewLayout.swift:139-152 | every changed record's index path is invalidated, and every invalidated path is item k or a later item of its column |
| GridSpec.CorrectedKeepsColumns | CollectionViewLayoutDemo/CollectionViewLayout.swift:143-154 | a correction keeps every item in column index mod n and each column stacked with the same gap |
| GridSpec.TrailingWindow | CollectionViewLayoutDemo/CollectionViewLayout.swift:156-166 | with at most n records the window is the last record alone; otherwise it is the last n records, in order |
| GridSpec.MaxBottom | CollectionViewLayoutDemo/CollectionViewLayout.swift:171-179 | the result is at least every record's bottom edge and equals one of them |
| GridSpec.WindowOnePerColumn | CollectionViewLayoutDemo/CollectionViewLayout.swift:163 | with more records than columns the window holds exactly one record of each column |
| GridSpec.ColumnReachesWindow | CollectionViewLayoutDemo/CollectionViewLayout.swift:163-179 | following a stacked column down from any item reaches a window item that ends no higher |
| GridSpec.WindowBottomIsOverallBottom | CollectionViewLayoutDemo/CollectionViewLayout.swift:156-179 | with more records than columns, stacked columns and non-negative heights and gap, the window's lowest edge is the lowest edge of the whole list |
| GridSpec.ShortGridWindowMissesTallerItem | CollectionViewLayoutDemo/CollectionViewLayout.swift:158-161 | a valid two-column list of two items whose window bottom (500) is above the list's lowest edge (600) |
| GridLayout.GridOf | CollectionViewLayoutDemo/CollectionViewLayout.swift:197-219 | defines the grid a build on a host uses: the column count, left edges `column * contentWidth / numberOfColumns`, the cell width, and the left and right insets used by `insetBy` |
| GridLayout.ShouldInvalidateForPreferred | CollectionViewLayoutDemo/CollectionViewLayout.swift:121-128 | true exactly when the height changed or the original width is not the cell width |
| GridLayout.BoundsChangeContext | CollectionViewLayoutDemo/CollectionViewLayout.swift:113-119 | the context is flagged as a bounds change and otherwise unchanged |
| GridLayout.BuildStep | CollectionViewLayoutDemo/CollectionViewLayout.swift:218-229 | placing the next item at its column's xOffset and yOffset, and advancing the running height, yOffset and column, keeps the build in step with the specification |
| GridLayout.BuildDone | CollectionViewLayoutDemo/CollectionViewLayout.swift:206-231 | once every item is placed, the records are the whole build and the running height is the build's bottom |
| GridLayout.BuiltValid | CollectionViewLayoutDemo/CollectionViewLayout.swift:186-234 | a completed build puts item i in column i mod n and stacks each column with a gap of twice the vertical inset |
| GridLayout.PartlyCorrectedStep | CollectionViewLayoutDemo/CollectionViewLayout.swift:143-154 | one pass of the correction loop leaves indexes up to the item alone and moves a later one down exactly when it shares the item's column |
| GridLayout.PartlyCorrectedDone | CollectionViewLayoutDemo/CollectionViewLayout.swift:143-154 | after the last index the loop's records are the full correction |
| GridLayout.RefreshBeforeStep | CollectionViewLayoutDemo/CollectionViewLayout.swift:139-152 | one pass adds the current index path exactly when it is a later item of the same column |
| GridLayout.RefreshBeforeAll | CollectionViewLayoutDemo/CollectionViewLayout.swift:139-152 | after the last index the invalidated set is the refresh set |
| GridLayout.CollectionViewGridLayout.constructor | CollectionViewLayoutDemo/CollectionViewLayout.swift:21-29 | a new layout has the given delegate, estimated row height 500, no records, content height 0, and satisfies the invariant |
| GridLayout.CollectionViewGridLayout.CollectionViewContentSize | CollectionViewLayoutDemo/CollectionViewLayout.swift:62-64 | the content size is the content width by the cached content height |
| GridLayout.CollectionViewGridLayout.InvalidateLayout | CollectionViewLayoutDemo/CollectionViewLayout.swift:72-80 | a bounds-change or invalidate-everything context empties the records; any other context keeps them; the invariant holds |
| GridLayout.CollectionViewGridLayout.Prepare | CollectionViewLayoutDemo/CollectionViewLayout.swift:82-88 | on a built layout nothing changes: records, content height, and the column count and gap of the invariant are kept; an empty list is rebuilt into exactly the build of the host, with the invariant holding for the host's column count and twice its right inset, or stays empty without a view or data source |
| GridLayout.CollectionViewGridLayout.InitialLayout | CollectionViewLayoutDemo/CollectionViewLayout.swift:186-234 | without a view or data source the records are empty and the content height is unchanged; otherwise records and content height are the specified build of the host's grid, and the invariant holds for the host's column count and a gap of twice its right inset |
| GridLayout.CollectionViewGridLayout.PlaceItems | CollectionViewLayoutDemo/CollectionViewLayout.swift:196-231 | the section loop leaves the records equal to the build and the content height equal to the build's bottom |
| GridLayout.CollectionViewGridLayout.PlaceSection | CollectionViewLayoutDemo/CollectionViewLayout.swift:208-230 | the row loop of one section appends that section's records and keeps the column, yOffsets, records and height in step with the specification |
| GridLayout.CollectionViewGridLayout.FinishBuild | CollectionViewLayoutDemo/CollectionViewLayout.swift:233 | the bottom inset is added to the content height and the finished build satisfies the invariant |
| GridLayout.CollectionViewGridLayout.LayoutAttributesForElements | CollectionViewLayoutDemo/CollectionViewLayout.swift:90-99 | the scan returns exactly the visible records, in list order |
| GridLayout.CollectionViewGridLayout.LayoutAttributesForItem | CollectionViewLayoutDemo/CollectionViewLayout.swift:182-184 | the record at the flat index, which lies in column index mod n |
| GridLayout.CollectionViewGridLayout.CollectionViewHeight | CollectionViewLayoutDemo/CollectionViewLayout.swift:171-180 | the content height becomes the window's lowest bottom edge, and the context reports old minus new height |
| GridLayout.CollectionViewGridLayout.AdjustColumn | CollectionViewLayoutDemo/CollectionViewLayout.swift:133-154 | the records become the correction of the old records, the invalidated set is the refresh set, and the invariant holds |
| GridLayout.CollectionViewGridLayout.InvalidationContextForPreferred | CollectionViewLayoutDemo/CollectionViewLayout.swift:130-169 | the records are corrected by preferred minus original height at the current cell width; the content height is the trailing window's lowest edge; the context invalidates the refresh set, reports old minus new content height, and discards nothing |

## Left out

- UIKit plumbing is not modelled: `super` calls, `invalidationContextClass`,
  the `as!` casts, and the copying and equality of attribute objects.
- Records are values in a sequence, not shared objects. The source returns its
  stored attribute objects from `layoutAttributesForElements(in:)` and
  `layoutAttributesForItem(at:)` (`CollectionViewLayout.swift:95, 183`). It
  later mutates those same objects during a correction
  (`CollectionViewLayout.swift:136-137, 151`). The model's query results are
  snapshots. A holder of a returned object sees later corrections in the
  source but not in the model.
- Floating point is not modelled. `CGFloat` arithmetic is exact `real`
  arithmetic, so rounding in `columnWidth`, `cellWidth` and the running sums is
  not captured.
- The weak `delegate` is a constructor argument and a field. Its estimate is a
  function of the index path. A delegate that disappears mid-build is not
  modelled.
- `UIApplication.shared.preferredContentSizeCategory` and the collection view
  are read from a `Host` parameter. The data source is modelled as a section
  count and a per-section row count.
- `CGRect.intersects` is modelled as strict overlap of standardized
  rectangles. The special cases of null and infinite rectangles are left out.
- Geometry.Rect.InsetBy: defined only where the inset leaves a non-negative
  size. CoreGraphics would return the null rectangle, which the model does not
  represent.
- GridLayout.CollectionViewGridLayout.InitialLayout: requires `CanBuild`, that
  is, a positive column count and a cell width and estimates large enough to
  be inset. A build that produces null rectangles is not modelled.
- GridLayout.CollectionViewGridLayout.Prepare: inherits the `CanBuild`
  requirement when it builds.
- GridLayout.CollectionViewGridLayout.InvalidationContextForPreferred: takes a
  flat item index. The source indexes by `indexPath.row`, which is the flat
  index only for a single section. It requires at least one column and an
  index in range, where the source traps otherwise.
- GridLayout.CollectionViewGridLayout.LayoutAttributesForItem: requires an
  index in range, where the source traps otherwise.
- The loops of `initalLayout()` and of the correction are split into helper
  methods: `PlaceItems`, `PlaceSection` and `FinishBuild` for the build,
  `AdjustColumn` for the correction.
- Two reads are hoisted. Both are pure reads of unchanged state, so the
  values are the same:
  - `cellWidth` is read once before the item loops; the source reads it for
    every item (`CollectionViewLayout.swift:218`);
  - `numberOfSections` is read after the xOffset loop; the source reads it
    before (`CollectionViewLayout.swift:196`).
- Geometry.CellWidth: requires at least one column when there is a view. With
  a view of zero frame width the source divides by a column count of 0. The
  result is +∞, which the model does not represent.
- GridLayout.ShouldInvalidateForPreferred: requires at least one column when
  there is a view, because it reads `CellWidth`. For a zero-width view the
  source compares the original width against +∞ and returns `true`; the model
  does not cover that case.
- The view controller, the gradient view, the font helpers and the cell's
  presentation code (`awakeFromNib`, shadows, labels) are outside the layout
  engine and are not part of this model.
