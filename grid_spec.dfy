/** The value-level specification of the grid layout: the records a build
    produces, the visibility filter, the single-item height correction and the
    trailing-row window the content height is recomputed from, with the
    properties the layout relies on. The class in `GridLayout` is proved
    against these definitions. */
module GridSpec {
  import opened Wrappers
  import opened Geometry
  import opened Residues

  /** `IndexPath`: a section and a row within it. */
  datatype IndexPath = IndexPath(section: nat, row: nat)

  /** One entry of `layoutAttributesForItems`: the item's index path, its
      frame and the column it was assigned (`CollectionViewGridLayoutAttribute.column`). */
  datatype Record = Record(indexPath: IndexPath, frame: Rect, column: int)

  /** What the layout asks its data source: the number of sections, if the
      data source answers that optional question, and the items per section. */
  datatype DataSource = DataSource(numberOfSections: Option<nat>, itemsInSection: nat -> nat)

  /** The delegate's estimated height for an item. */
  type Estimator = IndexPath -> real

  function Max(a: real, b: real): real {
    if a >= b then a else b
  }

  // ---------------------------------------------------------------------
  // Item enumeration
  // ---------------------------------------------------------------------

  /** The number of sections, one when the data source does not say. */
  function SectionCount(ds: DataSource): nat {
    ds.numberOfSections.GetOr(1)
  }

  function SectionPaths(section: nat, rows: nat): seq<IndexPath> {
    seq(rows, r requires 0 <= r < rows => IndexPath(section, r))
  }

  /** The index paths of the first `s` sections, section by section and row
      by row within a section. */
  function PathsBefore(ds: DataSource, s: nat): seq<IndexPath> {
    if s == 0 then [] else PathsBefore(ds, s - 1) + SectionPaths(s - 1, ds.itemsInSection(s - 1))
  }

  /** Every item the data source reports, in the order the build visits them. */
  function Paths(ds: DataSource): seq<IndexPath> {
    PathsBefore(ds, SectionCount(ds))
  }

  /** Section-then-row order. */
  predicate Precedes(p: IndexPath, q: IndexPath) {
    p.section < q.section || (p.section == q.section && p.row < q.row)
  }

  /** The enumeration holds exactly the items of the first `s` sections, each
      once, in section-then-row order. */
  lemma {:induction false} PathsBeforeExact(ds: DataSource, s: nat)
    ensures forall p :: p in PathsBefore(ds, s) <==> p.section < s && p.row < ds.itemsInSection(p.section)
    ensures forall i, j :: 0 <= i < j < |PathsBefore(ds, s)| ==> Precedes(PathsBefore(ds, s)[i], PathsBefore(ds, s)[j])
  {
    if s > 0 {
      PathsBeforeExact(ds, s - 1);
      var prefix, sec := PathsBefore(ds, s - 1), SectionPaths(s - 1, ds.itemsInSection(s - 1));
      assert PathsBefore(ds, s) == prefix + sec;
      forall p: IndexPath
        ensures p in prefix + sec <==> p.section < s && p.row < ds.itemsInSection(p.section)
      {
        if p.section == s - 1 && p.row < ds.itemsInSection(p.section) {
          assert sec[p.row] == p;
        }
      }
      forall i, j | 0 <= i < j < |prefix + sec|
        ensures Precedes((prefix + sec)[i], (prefix + sec)[j])
      {
        if i < |prefix| && j >= |prefix| {
          assert prefix[i] in prefix;
        }
      }
    }
  }

  /** Earlier sections' enumeration is a prefix of later ones'. */
  lemma {:induction false} PathsBeforePrefix(ds: DataSource, s: nat, t: nat)
    requires s <= t
    ensures PathsBefore(ds, s) <= PathsBefore(ds, t)
  {
    if s < t {
      PathsBeforePrefix(ds, s, t - 1);
    }
  }

  /** The height the build uses for an item: the delegate's estimate, or the
      layout's `estimatedRowHeight` when there is no delegate. */
  function Estimate(delegate: Option<Estimator>, rowHeight: real, p: IndexPath): real {
    match delegate
    case Some(estimate) => estimate(p)
    case None => rowHeight
  }

  function Estimates(delegate: Option<Estimator>, rowHeight: real, ps: seq<IndexPath>): (hs: seq<real>)
    ensures |hs| == |ps|
  {
    seq(|ps|, i requires 0 <= i < |ps| => Estimate(delegate, rowHeight, ps[i]))
  }

  // ---------------------------------------------------------------------
  // Initial build
  // ---------------------------------------------------------------------

  /** The geometry a build works with: column count, each column's left
      edge (`xOffset`, multiples of `contentWidth / numberOfColumns`), cell
      width, and the two amounts each frame is inset by: `contentInset.left`
      horizontally and `contentInset.right` vertically. */
  datatype Grid = Grid(columns: nat, xOffsets: seq<real>, cellWidth: real, insetX: real, insetY: real)

  /** The left edges of the first `c` columns, `columnWidth` apart. */
  function ColumnOffsets(columnWidth: real, c: nat): (xs: seq<real>)
    ensures |xs| == c
  {
    if c == 0 then [] else ColumnOffsets(columnWidth, c - 1) + [(c - 1) as real * columnWidth]
  }

  /** One more column starts one column width further right. */
  lemma ColumnOffsetsNext(columnWidth: real, c: nat)
    ensures ColumnOffsets(columnWidth, c + 1) == ColumnOffsets(columnWidth, c) + [c as real * columnWidth]
  {
    assert (c + 1) - 1 == c;
  }

  /** Column `j` starts `j` column widths from the left. */
  lemma {:induction false} ColumnOffsetsAt(columnWidth: real, c: nat, j: nat)
    requires j < c
    ensures ColumnOffsets(columnWidth, c)[j] == j as real * columnWidth
  {
    if j < c - 1 {
      ColumnOffsetsAt(columnWidth, c - 1, j);
    }
  }

  /** Every frame can be inset without producing a null rectangle. */
  predicate Fits(g: Grid, hs: seq<real>) {
    && g.columns >= 1 && |g.xOffsets| == g.columns
    && 0.0 <= g.cellWidth && 2.0 * g.insetX <= g.cellWidth
    && forall i | 0 <= i < |hs| :: 0.0 <= hs[i] && 2.0 * g.insetY <= hs[i]
  }

  /** The sum of the heights of the first `i` items that fall in column `c`:
      the column's running `yOffset` after `i` items. */
  function ColumnTotal(hs: seq<real>, i: nat, c: nat, n: nat): real
    requires n >= 1 && i <= |hs|
  {
    if i == 0 then 0.0
    else ColumnTotal(hs, i - 1, c, n) + (if (i - 1) % n == c then hs[i - 1] else 0.0)
  }

  /** Item `i`'s frame before insetting: column `i % n`, stacked under the
      earlier items of that column, starting at 0. */
  function RawFrame(g: Grid, hs: seq<real>, i: nat): Rect
    requires g.columns >= 1 && |g.xOffsets| == g.columns && i < |hs|
  {
    var c := i % g.columns;
    Rect(g.xOffsets[c], ColumnTotal(hs, i, c, g.columns), g.cellWidth, hs[i])
  }

  function SpecRecord(g: Grid, hs: seq<real>, ps: seq<IndexPath>, i: nat): Record
    requires Fits(g, hs) && |ps| == |hs| && i < |hs|
  {
    Record(ps[i], RawFrame(g, hs, i).InsetBy(g.insetX, g.insetY), i % g.columns)
  }

  /** The record list a build produces. */
  function Built(g: Grid, hs: seq<real>, ps: seq<IndexPath>): seq<Record>
    requires Fits(g, hs) && |ps| == |hs|
  {
    seq(|ps|, i requires 0 <= i < |ps| => SpecRecord(g, hs, ps, i))
  }

  /** The running content height after `i` items: the top inset, raised to
      each un-inset frame's bottom edge. */
  function BuildBottom(g: Grid, hs: seq<real>, top: real, i: nat): (m: real)
    requires g.columns >= 1 && |g.xOffsets| == g.columns && i <= |hs|
    ensures m >= top
    ensures forall j | 0 <= j < i :: RawFrame(g, hs, j).MaxY() <= m
    ensures m == top || exists j | 0 <= j < i :: RawFrame(g, hs, j).MaxY() == m
  {
    if i == 0 then top else Max(BuildBottom(g, hs, top, i - 1), RawFrame(g, hs, i - 1).MaxY())
  }

  /** Item `i` lies in column `i % n`. */
  ghost predicate InColumn(rs: seq<Record>, i: nat, n: nat)
    requires i < |rs| && n >= 1
  {
    rs[i].column == i % n
  }

  /** Every item `i` lies in column `i % n`. */
  ghost predicate Columns(rs: seq<Record>, n: nat)
    requires n >= 1
  {
    forall i | 0 <= i < |rs| :: InColumn(rs, i, n)
  }

  /** Item `i + n`, the next item of item `i`'s column, starts `gap` below
      the bottom of item `i`'s frame. */
  ghost predicate StackedAt(rs: seq<Record>, i: nat, n: nat, gap: real)
    requires i + n < |rs|
  {
    rs[i + n].frame.y == rs[i].frame.y + rs[i].frame.height + gap
  }

  /** Within a column, each frame starts `gap` below the bottom of the
      previous item of that column. */
  ghost predicate Stacked(rs: seq<Record>, n: nat, gap: real) {
    forall i: nat | i + n < |rs| :: StackedAt(rs, i, n, gap)
  }

  /** A build produces one record per item, in enumeration order, with the
      frame described item by item. */
  lemma BuiltShape(g: Grid, hs: seq<real>, ps: seq<IndexPath>)
    requires Fits(g, hs) && |ps| == |hs|
    ensures |Built(g, hs, ps)| == |ps|
    ensures Columns(Built(g, hs, ps), g.columns)
    ensures forall i | 0 <= i < |ps| ::
              var r := Built(g, hs, ps)[i];
              && r.indexPath == ps[i]
              && 0 <= r.column < g.columns
              && r.frame.x == g.xOffsets[i % g.columns] + g.insetX
              && r.frame.y == ColumnTotal(hs, i, i % g.columns, g.columns) + g.insetY
              && r.frame.width == g.cellWidth - 2.0 * g.insetX
              && r.frame.height == hs[i] - 2.0 * g.insetY
  {
  }

  /** Adding the `i`-th height to the running totals affects only column
      `i % n`, and the next `n - 1` items add nothing to that column. */
  lemma {:induction false} ColumnTotalAhead(hs: seq<real>, i: nat, m: nat, n: nat)
    requires n >= 1 && 1 <= m <= n && i + m <= |hs|
    ensures ColumnTotal(hs, i + m, i % n, n) == ColumnTotal(hs, i, i % n, n) + hs[i]
  {
    if m > 1 {
      ColumnTotalAhead(hs, i, m - 1, n);
      ModShiftDistinct(i, m - 1, n);
    }
  }

  /** Item `i + n` starts where item `i` ends, before insetting. */
  lemma ColumnTotalSkip(hs: seq<real>, i: nat, n: nat)
    requires n >= 1 && i + n < |hs|
    ensures ColumnTotal(hs, i + n, (i + n) % n, n) == ColumnTotal(hs, i, i % n, n) + hs[i]
  {
    ColumnTotalAhead(hs, i, n, n);
    ModAddPeriod(i, n);
  }

  /** Built records of one column are contiguous up to the vertical inset
      applied on both sides of every frame. */
  lemma BuiltStacked(g: Grid, hs: seq<real>, ps: seq<IndexPath>)
    requires Fits(g, hs) && |ps| == |hs|
    ensures Stacked(Built(g, hs, ps), g.columns, 2.0 * g.insetY)
  {
    var rs, gap := Built(g, hs, ps), 2.0 * g.insetY;
    forall i: nat | i + g.columns < |rs|
      ensures StackedAt(rs, i, g.columns, gap)
    {
      ColumnTotalSkip(hs, i, g.columns);
    }
  }

  /** The build's content height (before the bottom inset) is the larger of
      the top inset and the lowest un-inset bottom edge. */
  lemma BuildBottomIsMax(g: Grid, hs: seq<real>, top: real)
    requires g.columns >= 1 && |g.xOffsets| == g.columns
    ensures var m := BuildBottom(g, hs, top, |hs|);
            && m >= top
            && (forall j | 0 <= j < |hs| :: RawFrame(g, hs, j).MaxY() <= m)
            && (m == top || exists j | 0 <= j < |hs| :: RawFrame(g, hs, j).MaxY() == m)
  {
  }

  /** With two columns and every height 500, item `i` starts `i / 2`
      heights down. */
  lemma {:induction false} TwoColumnsUniformY(hs: seq<real>, i: nat)
    requires i < |hs| && forall j | 0 <= j < |hs| :: hs[j] == 500.0
    ensures ColumnTotal(hs, i, i % 2, 2) == (i / 2) as real * 500.0
  {
    if i >= 2 {
      TwoColumnsUniformY(hs, i - 2);
      ColumnTotalSkip(hs, i - 2, 2);
      assert (i - 2) % 2 == i % 2 && (i - 2) / 2 + 1 == i / 2;
    }
  }

  /** With two columns and every height 500, the running bottom after `i`
      items sits `(i + 1) / 2` heights down. */
  lemma {:induction false} TwoColumnsUniformBottom(g: Grid, hs: seq<real>, i: nat)
    requires g.columns == 2 && |g.xOffsets| == 2 && i <= |hs| && forall j | 0 <= j < |hs| :: hs[j] == 500.0
    ensures BuildBottom(g, hs, 0.0, i) == ((i + 1) / 2) as real * 500.0
  {
    if i > 0 {
      TwoColumnsUniformBottom(g, hs, i - 1);
      TwoColumnsUniformY(hs, i - 1);
      assert (i - 1) / 2 + 1 == (i + 1) / 2;
      assert RawFrame(g, hs, i - 1).MaxY() == ((i + 1) / 2) as real * 500.0;
      assert i / 2 <= (i + 1) / 2;
    }
  }

  /** The demo list: 21 items of estimated height 500 in two columns with no
      insets. Item 20 lands in column 0 at y = 5000 and the content is 5500
      high (eleven items in column 0); the `+ 0.0` is the zero bottom inset
      added at the end of the build. */
  lemma TwentyOneItemsInTwoColumns(g: Grid, ps: seq<IndexPath>)
    requires g.columns == 2 && |g.xOffsets| == 2 && g.insetX == 0.0 && g.insetY == 0.0
    requires 0.0 <= g.cellWidth && |ps| == 21
    ensures var hs := seq(21, _ => 500.0);
            && Built(g, hs, ps)[20].column == 0
            && Built(g, hs, ps)[20].frame.y == 5000.0
            && Built(g, hs, ps)[1].frame.y == 0.0
            && BuildBottom(g, hs, 0.0, 21) + 0.0 == 5500.0
  {
    var hs := seq(21, _ => 500.0);
    TwoColumnsUniformY(hs, 20);
    TwoColumnsUniformY(hs, 1);
    TwoColumnsUniformBottom(g, hs, 21);
  }

  // ---------------------------------------------------------------------
  // Visibility query
  // ---------------------------------------------------------------------

  /** The records whose frame intersects `rect`, in list order. */
  function Visible(rs: seq<Record>, rect: Rect): (vs: seq<Record>)
    ensures |vs| <= |rs|
    ensures forall r :: r in vs <==> r in rs && r.frame.Intersects(rect)
  {
    if rs == [] then []
    else
      var last := rs[|rs| - 1];
      Visible(rs[..|rs| - 1], rect) + if last.frame.Intersects(rect) then [last] else []
  }

  /** Filtering respects concatenation, so it keeps the list order. */
  lemma {:induction false} VisibleConcat(a: seq<Record>, b: seq<Record>, rect: Rect)
    ensures Visible(a + b, rect) == Visible(a, rect) + Visible(b, rect)
  {
    if b != [] {
      var b' := b[..|b| - 1];
      assert (a + b)[..|a + b| - 1] == a + b';
      VisibleConcat(a, b', rect);
    } else {
      assert a + b == a;
    }
  }

  /** Nothing is visible before a build. */
  lemma VisibleEmpty(rect: Rect)
    ensures Visible([], rect) == []
  {
  }

  // ---------------------------------------------------------------------
  // Height correction
  // ---------------------------------------------------------------------

  /** Record `j` after item `k`'s height grows by `delta`: item `k` takes the
      new height and the current cell width, later items of its column move
      down by `delta`, every other record stays. */
  function CorrectedAt(rs: seq<Record>, k: nat, delta: real, cellWidth: real, j: nat): Record
    requires k < |rs| && j < |rs|
  {
    var r := rs[j];
    if j == k then r.(frame := r.frame.(width := cellWidth, height := r.frame.height + delta))
    else if j > k && r.column == rs[k].column then r.(frame := r.frame.(y := r.frame.y + delta))
    else r
  }

  function Corrected(rs: seq<Record>, k: nat, delta: real, cellWidth: real): seq<Record>
    requires k < |rs|
  {
    seq(|rs|, j requires 0 <= j < |rs| => CorrectedAt(rs, k, delta, cellWidth, j))
  }

  /** The index paths a correction invalidates: item `k` and the later items
      of its column. */
  function RefreshSet(rs: seq<Record>, k: nat): set<IndexPath>
    requires k < |rs|
  {
    {rs[k].indexPath} + set j | k < j < |rs| && rs[j].column == rs[k].column :: rs[j].indexPath
  }

  /** A correction is local: it changes only item `k` (height by `delta`,
      width to the cell width) and moves the later items of `k`'s column by
      `delta`; the count, every column and every index path stay. */
  lemma CorrectionLocality(rs: seq<Record>, k: nat, delta: real, cellWidth: real)
    requires k < |rs|
    ensures var out := Corrected(rs, k, delta, cellWidth);
            && |out| == |rs|
            && (forall j | 0 <= j < |rs| :: out[j].column == rs[j].column && out[j].indexPath == rs[j].indexPath)
            && out[k].frame == Rect(rs[k].frame.x, rs[k].frame.y, cellWidth, rs[k].frame.height + delta)
            && (forall j | k < j < |rs| && rs[j].column == rs[k].column ::
                  out[j].frame == rs[j].frame.(y := rs[j].frame.y + delta))
            && (forall j | 0 <= j < |rs| && j != k && (j < k || rs[j].column != rs[k].column) ::
                  out[j] == rs[j])
  {
  }

  /** Every record a correction changes is in the refresh set. */
  lemma RefreshCoversChanges(rs: seq<Record>, k: nat, delta: real, cellWidth: real)
    requires k < |rs|
    ensures forall j | 0 <= j < |rs| && Corrected(rs, k, delta, cellWidth)[j] != rs[j] ::
              rs[j].indexPath in RefreshSet(rs, k)
    ensures forall p :: p in RefreshSet(rs, k) ==>
              exists j | k <= j < |rs| :: rs[j].indexPath == p && rs[j].column == rs[k].column
  {
  }

  /** A correction keeps every item in its column and keeps each column's
      frames stacked with the same gap. */
  lemma CorrectedKeepsColumns(rs: seq<Record>, k: nat, delta: real, cellWidth: real, n: nat, gap: real)
    requires n >= 1 && k < |rs| && Columns(rs, n) && Stacked(rs, n, gap)
    ensures Columns(Corrected(rs, k, delta, cellWidth), n)
    ensures Stacked(Corrected(rs, k, delta, cellWidth), n, gap)
  {
    var out := Corrected(rs, k, delta, cellWidth);
    forall i | 0 <= i < |out|
      ensures InColumn(out, i, n)
    {
      assert InColumn(rs, i, n);
    }
    forall i: nat | i + n < |out|
      ensures StackedAt(out, i, n, gap)
    {
      assert StackedAt(rs, i, n, gap);
      assert InColumn(rs, i, n) && InColumn(rs, i + n, n) && InColumn(rs, k, n);
      ModAddPeriod(i, n);
      if i < k < i + n {
        ModShiftDistinct(i, k - i, n);
      }
    }
  }

  // ---------------------------------------------------------------------
  // Content height after a correction
  // ---------------------------------------------------------------------

  /** The records `collectionViewHeight(from:context:)` is given: only the
      last record while the list has at most `n` records, the last `n`
      records otherwise. */
  function TrailingWindow(rs: seq<Record>, n: nat): (w: seq<Record>)
    requires |rs| >= 1 && n >= 1
    ensures |rs| <= n ==> w == [rs[|rs| - 1]]
    ensures |rs| > n ==> |w| == n && forall j | 0 <= j < n :: w[j] == rs[|rs| - n + j]
  {
    var count := |rs| - 1;
    if count < n then rs[count..] else rs[count - n + 1..count + 1]
  }

  /** The lowest bottom edge among a non-empty list of records. */
  function MaxBottom(w: seq<Record>): (m: real)
    requires |w| >= 1
    ensures forall j | 0 <= j < |w| :: w[j].frame.MaxY() <= m
    ensures exists j | 0 <= j < |w| :: w[j].frame.MaxY() == m
  {
    if |w| == 1 then w[0].frame.MaxY()
    else Max(MaxBottom(w[..|w| - 1]), w[|w| - 1].frame.MaxY())
  }

  /** Some record of `w` lies in column `c`. */
  ghost predicate HasColumn(w: seq<Record>, c: int) {
    exists j | 0 <= j < |w| :: w[j].column == c
  }

  /** Once the grid has more records than columns, the window holds exactly
      one record of each column. */
  lemma WindowOnePerColumn(rs: seq<Record>, n: nat)
    requires n >= 1 && |rs| > n && Columns(rs, n)
    ensures var w := TrailingWindow(rs, n);
            && (forall c | 0 <= c < n :: HasColumn(w, c))
            && (forall i, j | 0 <= i < j < n :: w[i].column != w[j].column)
  {
    var w := TrailingWindow(rs, n);
    var lo := |rs| - n;
    forall c | 0 <= c < n
      ensures HasColumn(w, c)
    {
      var h := ModHit(lo, c, n);
      assert InColumn(rs, h, n);
      assert w[h - lo].column == c;
    }
    forall i, j | 0 <= i < j < n
      ensures w[i].column != w[j].column
    {
      assert InColumn(rs, lo + i, n) && InColumn(rs, lo + j, n);
      ModShiftDistinct(lo + i, j - i, n);
    }
  }

  /** Every height is non-negative. */
  ghost predicate NonNegativeHeights(rs: seq<Record>) {
    forall i | 0 <= i < |rs| :: rs[i].frame.height >= 0.0
  }

  /** Following a column down from item `i` reaches the window without
      rising: some window item of the same column ends no higher. */
  lemma {:induction false} ColumnReachesWindow(rs: seq<Record>, n: nat, gap: real, i: nat) returns (j: nat)
    requires n >= 1 && i < |rs| && Stacked(rs, n, gap) && gap >= 0.0 && NonNegativeHeights(rs)
    ensures |rs| - n <= j < |rs| && i <= j
    ensures rs[i].frame.MaxY() <= rs[j].frame.MaxY()
    decreases |rs| - i
  {
    if i + n >= |rs| {
      j := i;
    } else {
      assert StackedAt(rs, i, n, gap);
      j := ColumnReachesWindow(rs, n, gap, i + n);
    }
  }

  /** With more records than columns, stacked columns and non-negative
      heights and gap, the window's lowest edge is the lowest edge overall. */
  lemma WindowBottomIsOverallBottom(rs: seq<Record>, n: nat, gap: real)
    requires n >= 1 && |rs| > n && Stacked(rs, n, gap) && gap >= 0.0 && NonNegativeHeights(rs)
    ensures MaxBottom(TrailingWindow(rs, n)) == MaxBottom(rs)
  {
    var w := TrailingWindow(rs, n);
    var m := MaxBottom(rs);
    var i :| 0 <= i < |rs| && rs[i].frame.MaxY() == m;
    var j := ColumnReachesWindow(rs, n, gap, i);
    assert w[j - (|rs| - n)] == rs[j];
    var k :| 0 <= k < |w| && w[k].frame.MaxY() == MaxBottom(w);
    assert w[k] == rs[|rs| - n + k];
  }

  /** While the list has at most `n` records the window is the last record
      only, so a taller earlier record in another column is missed: two
      records in two columns, the first 600 high, the second 500 high. */
  lemma ShortGridWindowMissesTallerItem()
    ensures var rs := [Record(IndexPath(0, 0), Rect(0.0, 0.0, 100.0, 600.0), 0),
                       Record(IndexPath(0, 1), Rect(100.0, 0.0, 100.0, 500.0), 1)];
            && Columns(rs, 2) && Stacked(rs, 2, 0.0) && NonNegativeHeights(rs)
            && MaxBottom(TrailingWindow(rs, 2)) == 500.0
            && MaxBottom(rs) == 600.0
  {
    var rs := [Record(IndexPath(0, 0), Rect(0.0, 0.0, 100.0, 600.0), 0),
               Record(IndexPath(0, 1), Rect(100.0, 0.0, 100.0, 500.0), 1)];
    assert TrailingWindow(rs, 2) == [rs[1]];
  }
}
