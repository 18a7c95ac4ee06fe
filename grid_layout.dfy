/** `CollectionViewGridLayout`: the layout object. It owns the record list
    (`layoutAttributesForItems`) and the cached `contentHeight`, builds the
    records lazily in `prepare`, answers visibility and lookup queries,
    discards the records on a bounds change or full invalidation, and repairs
    them in place when one cell reports its measured height. */
module GridLayout {
  import opened Wrappers
  import opened ContentSize
  import opened Geometry
  import opened GridSpec
  import opened Residues

  /** `CollectionViewGridLayoutInvalidationContext`, with the parts of UIKit's
      context the layout sets or reads: the two "discard everything" flags,
      the items to invalidate and the height of `contentSizeAdjustment` (its
      width is always 0). */
  datatype InvalidationContext = InvalidationContext(
    invalidatedBecauseOfBoundsChange: bool,
    invalidateEverything: bool,
    invalidatedItems: set<IndexPath>,
    contentSizeAdjustment: real)

  /** What the layout reads from its environment: its collection view (none
      once released), the application's preferred content size category and
      the collection view's data source (none when unset). */
  datatype Host = Host(view: Option<View>, category: SizeCategory, dataSource: Option<DataSource>)

  /** A column count of a completed build. */
  type Positive = n: nat | n >= 1 witness 1

  /** A build can proceed past its guard. */
  predicate Ready(host: Host) {
    host.view.Some? && host.dataSource.Some?
  }

  function ColumnCount(host: Host): int {
    NumberOfColumns(host.view, host.category)
  }

  /** The geometry a build reads from the host. */
  function GridOf(host: Host): Grid
    requires host.view.Some? && ColumnCount(host) >= 1
  {
    var n := ColumnCount(host);
    Grid(n, ColumnOffsets(ContentWidth(host.view) / n as real, n), CellWidth(host.view, host.category),
         host.view.value.contentInset.left, host.view.value.contentInset.right)
  }

  /** A build on this host has at least one column and every frame it
      creates can be inset. */
  predicate CanBuild(host: Host, delegate: Option<Estimator>, rowHeight: real) {
    Ready(host) ==>
      && ColumnCount(host) >= 1
      && Fits(GridOf(host), Estimates(delegate, rowHeight, Paths(host.dataSource.value)))
  }

  /** `shouldInvalidateLayout(forPreferredLayoutAttributes:withOriginalAttributes:)`:
      a self-sized cell asks for a correction unless its height is unchanged
      and its width is already the cell width. */
  function ShouldInvalidateForPreferred(host: Host, preferred: Rect, original: Rect): (b: bool)
    requires host.view.Some? ==> ColumnCount(host) >= 1
    ensures b <==> preferred.height != original.height || original.width != CellWidth(host.view, host.category)
    ensures host.view.None? ==> (b <==> preferred.height != original.height || original.width != 0.0)
  {
    !(preferred.height == original.height && original.width == CellWidth(host.view, host.category))
  }

  /** `invalidationContext(forBoundsChange:)`: the context UIKit supplies,
      flagged as a bounds change. */
  function BoundsChangeContext(base: InvalidationContext): (c: InvalidationContext)
    ensures c.invalidatedBecauseOfBoundsChange
    ensures c.invalidateEverything == base.invalidateEverything
    ensures c.invalidatedItems == base.invalidatedItems
    ensures c.contentSizeAdjustment == base.contentSizeAdjustment
  {
    base.(invalidatedBecauseOfBoundsChange := true)
  }

  /** The state of the build loop once the first `|rs|` items are placed:
      the next column, each column's running `yOffset`, the records so far
      and the running content height. */
  ghost predicate BuildProgress(g: Grid, hs: seq<real>, ps: seq<IndexPath>, top: real,
                                rs: seq<Record>, height: real, column: int, yOffset: seq<real>)
    requires Fits(g, hs) && |ps| == |hs|
  {
    && |rs| <= |ps|
    && column == |rs| % g.columns
    && |yOffset| == g.columns
    && (forall c | 0 <= c < g.columns :: yOffset[c] == ColumnTotal(hs, |rs|, c, g.columns))
    && (forall j | 0 <= j < |rs| :: rs[j] == SpecRecord(g, hs, ps, j))
    && height == BuildBottom(g, hs, top, |rs|)
  }

  /** Placing the next item in the current column advances the build state. */
  lemma BuildStep(g: Grid, hs: seq<real>, ps: seq<IndexPath>, top: real,
                  rs: seq<Record>, height: real, column: int, yOffset: seq<real>)
    requires Fits(g, hs) && |ps| == |hs| && |rs| < |ps|
    requires BuildProgress(g, hs, ps, top, rs, height, column, yOffset)
    ensures var i := |rs|;
            var frame := Rect(g.xOffsets[column], yOffset[column], g.cellWidth, hs[i]);
            BuildProgress(g, hs, ps, top,
                             rs + [Record(ps[i], frame.InsetBy(g.insetX, g.insetY), column)],
                             Max(height, frame.MaxY()),
                             if column < g.columns - 1 then column + 1 else 0,
                             yOffset[column := yOffset[column] + hs[i]])
  {
    var i, n := |rs|, g.columns;
    var frame := Rect(g.xOffsets[column], yOffset[column], g.cellWidth, hs[i]);
    assert frame == RawFrame(g, hs, i);
    var rs' := rs + [Record(ps[i], frame.InsetBy(g.insetX, g.insetY), column)];
    var yOffset' := yOffset[column := yOffset[column] + hs[i]];
    ModSucc(i, n);
    forall c | 0 <= c < n
      ensures yOffset'[c] == ColumnTotal(hs, i + 1, c, n)
    {
    }
    forall j | 0 <= j < |rs'|
      ensures rs'[j] == SpecRecord(g, hs, ps, j)
    {
      if j < i {
        assert rs'[j] == rs[j];
      }
    }
    assert Max(height, frame.MaxY()) == BuildBottom(g, hs, top, i + 1);
  }

  /** Once every item is placed the records are the whole build. */
  lemma BuildDone(g: Grid, hs: seq<real>, ps: seq<IndexPath>, top: real,
                  rs: seq<Record>, height: real, column: int, yOffset: seq<real>)
    requires Fits(g, hs) && |ps| == |hs| && |rs| == |ps|
    requires BuildProgress(g, hs, ps, top, rs, height, column, yOffset)
    ensures rs == Built(g, hs, ps)
    ensures height == BuildBottom(g, hs, top, |ps|)
  {
  }

  /** A completed build satisfies the layout's invariant. */
  lemma BuiltValid(g: Grid, hs: seq<real>, ps: seq<IndexPath>)
    requires Fits(g, hs) && |ps| == |hs|
    ensures Columns(Built(g, hs, ps), g.columns)
    ensures Stacked(Built(g, hs, ps), g.columns, 2.0 * g.insetY)
  {
    BuiltShape(g, hs, ps);
    BuiltStacked(g, hs, ps);
  }

  /** The records of a correction in progress: item `item` and the items
      before `index` already corrected, the rest as they were. */
  ghost function PartlyCorrected(before: seq<Record>, item: nat, delta: real, cellWidth: real, index: nat): (rs: seq<Record>)
    requires item < |before|
    ensures |rs| == |before|
  {
    seq(|before|, j requires 0 <= j < |before| =>
      if j < index || j == item then CorrectedAt(before, item, delta, cellWidth, j) else before[j])
  }

  /** One pass of the correction loop: indexes up to `item` are already
      final, and a later index moves down by `delta` exactly when it shares
      item `item`'s column. */
  lemma PartlyCorrectedStep(before: seq<Record>, item: nat, delta: real, cellWidth: real, index: nat)
    requires item < |before| && index < |before|
    ensures var rs := PartlyCorrected(before, item, delta, cellWidth, index);
            var r := rs[index];
            && rs[item].column == before[item].column
            && PartlyCorrected(before, item, delta, cellWidth, index + 1) ==
               if index <= item || r.column != rs[item].column then rs
               else rs[index := r.(frame := r.frame.(y := r.frame.y + delta))]
  {
    var rs := PartlyCorrected(before, item, delta, cellWidth, index);
    var next := PartlyCorrected(before, item, delta, cellWidth, index + 1);
    if index <= item || rs[index].column != rs[item].column {
      assert next == rs;
    }
  }

  /** Once the loop has passed every index the correction is complete. */
  lemma PartlyCorrectedDone(before: seq<Record>, item: nat, delta: real, cellWidth: real)
    requires item < |before|
    ensures PartlyCorrected(before, item, delta, cellWidth, |before|) == Corrected(before, item, delta, cellWidth)
  {
  }

  /** The index paths invalidated once the loop has passed `index`. */
  ghost function RefreshBefore(rs: seq<Record>, item: nat, index: nat): set<IndexPath>
    requires item < |rs|
  {
    {rs[item].indexPath} + set j | item < j < index && j < |rs| && rs[j].column == rs[item].column :: rs[j].indexPath
  }

  lemma RefreshBeforeStep(rs: seq<Record>, item: nat, index: nat)
    requires item < |rs| && index < |rs|
    ensures RefreshBefore(rs, item, index + 1) ==
            RefreshBefore(rs, item, index) +
            if item < index && rs[index].column == rs[item].column then {rs[index].indexPath} else {}
  {
  }

  lemma RefreshBeforeAll(rs: seq<Record>, item: nat)
    requires item < |rs|
    ensures RefreshBefore(rs, item, |rs|) == RefreshSet(rs, item)
  {
  }

  class CollectionViewGridLayout {
    /** The delegate's estimate for each item, if a delegate is set. */
    var delegate: Option<Estimator>
    /** The height used when there is no delegate. */
    var estimatedRowHeight: real
    /** `layoutAttributesForItems`; empty means "needs a build". */
    var records: seq<Record>
    var contentHeight: real

    /** The column count and the vertical gap between consecutive items of a
        column as of the last build. */
    ghost var builtColumns: Positive
    ghost var gap: real

    /** Every record sits in column `index % builtColumns`, and each column's
        frames are stacked `gap` apart. */
    ghost predicate Valid()
      reads this`records, this`builtColumns, this`gap
    {
      Columns(records, builtColumns) && Stacked(records, builtColumns, gap)
    }

    /** The record list and content height a build on `host` produces. */
    ghost predicate LaidOut(host: Host)
      reads this
      requires Ready(host) && CanBuild(host, delegate, estimatedRowHeight)
    {
      var view := host.view.value;
      var g := GridOf(host);
      var ps := Paths(host.dataSource.value);
      var hs := Estimates(delegate, estimatedRowHeight, ps);
      && records == Built(g, hs, ps)
      && contentHeight == BuildBottom(g, hs, view.contentInset.top, |ps|) + view.contentInset.bottom
    }

    constructor (delegate: Option<Estimator>)
      ensures Valid()
      ensures this.delegate == delegate && estimatedRowHeight == 500.0
      ensures records == [] && contentHeight == 0.0
    {
      this.delegate := delegate;
      estimatedRowHeight := 500.0;
      records := [];
      contentHeight := 0.0;
      builtColumns := 1;
      gap := 0.0;
    }

    /** `collectionViewContentSize`. */
    function CollectionViewContentSize(host: Host): (s: Size)
      reads this`contentHeight
      ensures s.height == contentHeight
      ensures host.view.None? ==> s.width == 0.0
      ensures host.view.Some? ==> s.width + host.view.value.contentInset.left + host.view.value.contentInset.right
                                  == host.view.value.bounds.width
    {
      Size(ContentWidth(host.view), contentHeight)
    }

    /** `invalidateLayout(with:)`: a bounds change or a full invalidation
        discards every record; any other context keeps them. */
    method InvalidateLayout(context: InvalidationContext)
      requires Valid()
      modifies this`records
      ensures Valid()
      ensures context.invalidatedBecauseOfBoundsChange || context.invalidateEverything ==> records == []
      ensures !context.invalidatedBecauseOfBoundsChange && !context.invalidateEverything ==> records == old(records)
    {
      if context.invalidatedBecauseOfBoundsChange || context.invalidateEverything {
        records := [];
      }
    }

    /** `prepare()`: builds only when there are no records. */
    method Prepare(host: Host)
      requires Valid()
      requires records == [] ==> CanBuild(host, delegate, estimatedRowHeight)
      modifies this`records, this`contentHeight, this`builtColumns, this`gap
      ensures Valid()
      ensures old(records) != [] ==> records == old(records) && contentHeight == old(contentHeight)
      ensures old(records) != [] ==> builtColumns == old(builtColumns) && gap == old(gap)
      ensures old(records) == [] && !Ready(host) ==> records == [] && contentHeight == old(contentHeight)
      ensures old(records) == [] && Ready(host) ==> LaidOut(host)
      ensures old(records) == [] && Ready(host) ==>
                builtColumns == ColumnCount(host) && gap == 2.0 * host.view.value.contentInset.right
    {
      if records != [] {
        return;
      }
      InitialLayout(host);
    }

    /** `initalLayout()`: one pass over every item, section by section, that
        assigns columns round-robin and stacks each column's frames. */
    method InitialLayout(host: Host)
      requires CanBuild(host, delegate, estimatedRowHeight)
      modifies this`records, this`contentHeight, this`builtColumns, this`gap
      ensures Valid()
      ensures !Ready(host) ==> records == [] && contentHeight == old(contentHeight)
      ensures Ready(host) ==> LaidOut(host)
      ensures Ready(host) ==> builtColumns == ColumnCount(host) && gap == 2.0 * host.view.value.contentInset.right
    {
      records := [];
      if host.view.None? || host.dataSource.None? {
        return;
      }
      var view, dataSource := host.view.value, host.dataSource.value;
      contentHeight := view.contentInset.top;
      var numberOfColumns := NumberOfColumns(host.view, host.category);
      var columnWidth := ContentWidth(host.view) / numberOfColumns as real;
      var cellWidth := CellWidth(host.view, host.category);
      var xOffset := [];
      var c := 0;
      while c < numberOfColumns
        invariant 0 <= c <= numberOfColumns && xOffset == ColumnOffsets(columnWidth, c)
        invariant records == [] && contentHeight == view.contentInset.top
      {
        ColumnOffsetsNext(columnWidth, c);
        xOffset := xOffset + [c as real * columnWidth];
        c := c + 1;
      }
      var g := Grid(numberOfColumns, xOffset, cellWidth, view.contentInset.left, view.contentInset.right);
      assert g == GridOf(host);

      builtColumns, gap := g.columns, 2.0 * g.insetY;
      PlaceItems(dataSource, g, view.contentInset);
      FinishBuild(dataSource, g, view.contentInset.bottom);
    }

    /** The loops of `initalLayout()`: every section in order, starting at
        column 0 with every column's `yOffset` at 0. */
    method PlaceItems(dataSource: DataSource, g: Grid, contentInset: Insets)
      requires Fits(g, Estimates(delegate, estimatedRowHeight, Paths(dataSource)))
      requires g.insetX == contentInset.left && g.insetY == contentInset.right
      requires records == [] && contentHeight == contentInset.top
      modifies this`records, this`contentHeight
      ensures var ps := Paths(dataSource);
              var hs := Estimates(delegate, estimatedRowHeight, ps);
              && records == Built(g, hs, ps)
              && contentHeight == BuildBottom(g, hs, contentInset.top, |ps|)
    {
      ghost var ps := Paths(dataSource);
      ghost var hs := Estimates(delegate, estimatedRowHeight, ps);
      var numberOfSections := dataSource.numberOfSections.GetOr(1);
      var column := 0;
      var yOffset := seq(g.columns, _ => 0.0);

      var section := 0;
      while section < numberOfSections
        invariant 0 <= section <= numberOfSections
        invariant |records| == |PathsBefore(dataSource, section)|
        invariant BuildProgress(g, hs, ps, contentInset.top, records, contentHeight, column, yOffset)
      {
        column, yOffset := PlaceSection(dataSource, g, contentInset, section, column, yOffset);
        section := section + 1;
      }
      BuildDone(g, hs, ps, contentInset.top, records, contentHeight, column, yOffset);
    }

    /** The last step of `initalLayout()`: the bottom inset is added to the
        content height, and the finished build meets the invariant. */
    method FinishBuild(dataSource: DataSource, g: Grid, bottom: real)
      requires Fits(g, Estimates(delegate, estimatedRowHeight, Paths(dataSource)))
      requires records == Built(g, Estimates(delegate, estimatedRowHeight, Paths(dataSource)), Paths(dataSource))
      requires builtColumns == g.columns && gap == 2.0 * g.insetY
      modifies this`contentHeight
      ensures Valid()
      ensures contentHeight == old(contentHeight) + bottom
    {
      contentHeight := contentHeight + bottom;
      BuiltValid(g, Estimates(delegate, estimatedRowHeight, Paths(dataSource)), Paths(dataSource));
    }

    /** The inner loop of `initalLayout()`: each row of `section` gets the
        next column round-robin, a frame at that column's `xOffset` and
        running `yOffset`, inset by the grid's insets, and raises the content
        height to the frame's bottom edge. */
    method PlaceSection(dataSource: DataSource, g: Grid, contentInset: Insets, section: nat,
                        column0: int, yOffset0: seq<real>)
      returns (column: int, yOffset: seq<real>)
      requires section < SectionCount(dataSource)
      requires Fits(g, Estimates(delegate, estimatedRowHeight, Paths(dataSource)))
      requires g.insetX == contentInset.left && g.insetY == contentInset.right
      requires |records| == |PathsBefore(dataSource, section)|
      requires BuildProgress(g, Estimates(delegate, estimatedRowHeight, Paths(dataSource)), Paths(dataSource),
                             contentInset.top, records, contentHeight, column0, yOffset0)
      modifies this`records, this`contentHeight
      ensures |records| == |PathsBefore(dataSource, section + 1)|
      ensures BuildProgress(g, Estimates(delegate, estimatedRowHeight, Paths(dataSource)), Paths(dataSource),
                            contentInset.top, records, contentHeight, column, yOffset)
    {
      ghost var ps := Paths(dataSource);
      ghost var hs := Estimates(delegate, estimatedRowHeight, ps);
      var numberOfColumns, xOffset, cellWidth := g.columns, g.xOffsets, g.cellWidth;
      column, yOffset := column0, yOffset0;
      var rows := dataSource.itemsInSection(section);
      ghost var done := PathsBefore(dataSource, section);
      assert done + SectionPaths(section, rows) <= ps by {
        PathsBeforePrefix(dataSource, section + 1, SectionCount(dataSource));
      }

      var row := 0;
      while row < rows
        invariant 0 <= row <= rows
        invariant |records| == |done| + row
        invariant BuildProgress(g, hs, ps, contentInset.top, records, contentHeight, column, yOffset)
      {
        var indexPath := IndexPath(section, row);
        ghost var i := |records|;
        assert ps[i] == indexPath by {
          assert (done + SectionPaths(section, rows))[i] == indexPath;
        }

        var estimatedHeightForItem: real;
        if delegate.Some? {
          estimatedHeightForItem := delegate.value(indexPath);
        } else {
          estimatedHeightForItem := estimatedRowHeight;
        }
        assert estimatedHeightForItem == hs[i] by {
          assert hs[i] == Estimate(delegate, estimatedRowHeight, indexPath);
        }
        BuildStep(g, hs, ps, contentInset.top, records, contentHeight, column, yOffset);

        var frame := Rect(xOffset[column], yOffset[column], cellWidth, estimatedHeightForItem);
        var insetFrame := frame.InsetBy(contentInset.left, contentInset.right);
        records := records + [Record(indexPath, insetFrame, column)];

        contentHeight := Max(contentHeight, frame.MaxY());
        yOffset := yOffset[column := yOffset[column] + estimatedHeightForItem];

        column := if column < numberOfColumns - 1 then column + 1 else 0;
        row := row + 1;
      }
    }

    /** `layoutAttributesForElements(in:)`: a linear scan that keeps the
        records whose frame intersects `rect`. It changes nothing. */
    method LayoutAttributesForElements(rect: Rect) returns (visible: seq<Record>)
      ensures visible == Visible(records, rect)
    {
      visible := [];
      var i := 0;
      while i < |records|
        invariant 0 <= i <= |records|
        invariant visible == Visible(records[..i], rect)
      {
        var attributes := records[i];
        if attributes.frame.Intersects(rect) {
          visible := visible + [attributes];
        }
        assert records[..i + 1][..i] == records[..i];
        i := i + 1;
      }
      assert records[..i] == records;
    }

    /** `layoutAttributesForItem(at:)`: the record at a flat index, which
        must be in range. */
    method LayoutAttributesForItem(item: nat) returns (attributes: Record)
      requires item < |records|
      ensures attributes == records[item]
      ensures Valid() ==> attributes.column == item % builtColumns
    {
      attributes := records[item];
      if Valid() {
        assert InColumn(records, item, builtColumns);
      }
    }

    /** `collectionViewHeight(from:context:)`: sets the content height to the
        lowest bottom edge in the window and reports the change (old minus
        new) in the context. */
    method CollectionViewHeight(lastRowCellAttributes: seq<Record>, context: InvalidationContext)
      returns (updated: InvalidationContext)
      requires |lastRowCellAttributes| >= 1
      modifies this`contentHeight
      ensures contentHeight == MaxBottom(lastRowCellAttributes)
      ensures updated == context.(contentSizeAdjustment := old(contentHeight) - contentHeight)
    {
      var maxY := MaxBottom(lastRowCellAttributes);
      var diff := contentHeight - maxY;
      updated := context.(contentSizeAdjustment := diff);
      contentHeight := maxY;
    }

    /** The record edits of `invalidationContext(forPreferredLayoutAttributes:withOriginalAttributes:)`:
        item `item` takes its height plus `contentHeightAdjustment` and the
        width `cellWidth`, the later items of its column move down by the
        same amount, and the index paths of every edited record are
        returned. */
    method AdjustColumn(item: nat, contentHeightAdjustment: real, cellWidth: real)
      returns (invalidated: set<IndexPath>)
      requires Valid()
      requires item < |records|
      modifies this`records
      ensures Valid()
      ensures records == Corrected(old(records), item, contentHeightAdjustment, cellWidth)
      ensures invalidated == RefreshSet(old(records), item)
    {
      ghost var before := records;

      var attributes := records[item];
      attributes := attributes.(frame := attributes.frame.(height := attributes.frame.height + contentHeightAdjustment));
      attributes := attributes.(frame := attributes.frame.(width := cellWidth));
      invalidated := {attributes.indexPath};
      records := records[item := attributes];
      assert records == PartlyCorrected(before, item, contentHeightAdjustment, cellWidth, 0);

      var index := 0;
      while index < |records|
        invariant 0 <= index <= |records| == |before|
        invariant records == PartlyCorrected(before, item, contentHeightAdjustment, cellWidth, index)
        invariant invalidated == RefreshBefore(before, item, index)
      {
        ghost var next := PartlyCorrected(before, item, contentHeightAdjustment, cellWidth, index + 1);
        ghost var nextInvalidated := RefreshBefore(before, item, index + 1);
        if index <= item {
          assert records == next && invalidated == nextInvalidated by {
            PartlyCorrectedStep(before, item, contentHeightAdjustment, cellWidth, index);
            RefreshBeforeStep(before, item, index);
          }
          index := index + 1;
          continue;
        }
        var currentColumn := records[index].column;
        if currentColumn == attributes.column {
          var shifted := records[index];
          shifted := shifted.(frame := shifted.frame.(y := shifted.frame.y + contentHeightAdjustment));
          assert records[index := shifted] == next && invalidated + {shifted.indexPath} == nextInvalidated by {
            PartlyCorrectedStep(before, item, contentHeightAdjustment, cellWidth, index);
            RefreshBeforeStep(before, item, index);
          }
          records := records[index := shifted];
          invalidated := invalidated + {shifted.indexPath};
        } else {
          assert records == next && invalidated == nextInvalidated by {
            PartlyCorrectedStep(before, item, contentHeightAdjustment, cellWidth, index);
            RefreshBeforeStep(before, item, index);
          }
        }
        index := index + 1;
      }
      assert records == Corrected(before, item, contentHeightAdjustment, cellWidth) by {
        PartlyCorrectedDone(before, item, contentHeightAdjustment, cellWidth);
      }
      assert invalidated == RefreshSet(before, item) by {
        RefreshBeforeAll(before, item);
      }
      assert Valid() by {
        CorrectedKeepsColumns(before, item, contentHeightAdjustment, cellWidth, builtColumns, gap);
      }
    }

    /** `invalidationContext(forPreferredLayoutAttributes:withOriginalAttributes:)`:
        applies the correction, then recomputes the content height from the
        trailing window of records and reports the change. */
    method InvalidationContextForPreferred(host: Host, item: nat, preferred: Rect, original: Rect)
      returns (context: InvalidationContext)
      requires Valid()
      requires item < |records|
      requires ColumnCount(host) >= 1
      modifies this`records, this`contentHeight
      ensures Valid()
      ensures records == Corrected(old(records), item, preferred.height - original.height,
                                   CellWidth(host.view, host.category))
      ensures contentHeight == MaxBottom(TrailingWindow(records, ColumnCount(host)))
      ensures context == InvalidationContext(false, false, RefreshSet(old(records), item),
                                             old(contentHeight) - contentHeight)
    {
      var contentHeightAdjustment := preferred.height - original.height;
      var cellWidth := CellWidth(host.view, host.category);
      var invalidated := AdjustColumn(item, contentHeightAdjustment, cellWidth);
      ghost var corrected := records;

      var count := |records| - 1;
      var numberOfColumns := NumberOfColumns(host.view, host.category);
      var lastRow: seq<Record>;
      if count < numberOfColumns {
        lastRow := records[count..|records|];
      } else {
        lastRow := records[count - numberOfColumns + 1..count + 1];
      }
      assert lastRow == TrailingWindow(records, numberOfColumns);
      context := CollectionViewHeight(lastRow, InvalidationContext(false, false, invalidated, 0.0));
      // Follows from the frame of `CollectionViewHeight`; stated so that the
      // postcondition about `records` is matched against this snapshot.
      assert records == corrected;
    }
  }
}
