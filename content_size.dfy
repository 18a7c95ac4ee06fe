/** The size-category table of the recipe cell: the minimum size a cell asks
    for under each dynamic-type (preferred content size) category. */
module ContentSize {

  /** The dynamic-type categories; `Unspecified` stands for every category the
      table does not name (UIKit's `.unspecified` and any future value). */
  datatype SizeCategory =
    | ExtraSmall | Small | Medium | Large | ExtraLarge | ExtraExtraLarge | ExtraExtraExtraLarge
    | AccessibilityMedium | AccessibilityLarge
    | AccessibilityExtraLarge | AccessibilityExtraExtraLarge | AccessibilityExtraExtraExtraLarge
    | Unspecified

  /** A width and a height, in points. */
  datatype CellSize = CellSize(width: real, height: real)

  /** The seven standard (non-accessibility) categories. */
  predicate IsStandard(c: SizeCategory) {
    c.ExtraSmall? || c.Small? || c.Medium? || c.Large? || c.ExtraLarge?
    || c.ExtraExtraLarge? || c.ExtraExtraExtraLarge?
  }

  /** The three largest accessibility categories, which share one width. */
  predicate IsLargestAccessibility(c: SizeCategory) {
    c.AccessibilityExtraLarge? || c.AccessibilityExtraExtraLarge? || c.AccessibilityExtraExtraExtraLarge?
  }

  /** `RecipeListCell.suggestedSize(for:)`. */
  function SuggestedSize(c: SizeCategory): (s: CellSize)
    ensures s.height == 340.0
    ensures IsStandard(c) || c.Unspecified? <==> s.width == 320.0
    ensures c.AccessibilityMedium? <==> s.width == 360.0
    ensures c.AccessibilityLarge? <==> s.width == 400.0
    ensures IsLargestAccessibility(c) <==> s.width == 450.0
  {
    match c
    case ExtraSmall | Small | Medium | Large | ExtraLarge | ExtraExtraLarge | ExtraExtraExtraLarge =>
      CellSize(320.0, 340.0)
    case AccessibilityMedium => CellSize(360.0, 340.0)
    case AccessibilityLarge => CellSize(400.0, 340.0)
    case AccessibilityExtraLarge | AccessibilityExtraExtraLarge | AccessibilityExtraExtraExtraLarge =>
      CellSize(450.0, 340.0)
    case Unspecified => CellSize(320.0, 340.0)
  }

  /** The suggested width is one of four values, so never below 320 points;
      this is the minimum cell width that bounds the number of columns. */
  lemma SuggestedWidthRange(c: SizeCategory)
    ensures SuggestedSize(c).width in {320.0, 360.0, 400.0, 450.0}
    ensures 320.0 <= SuggestedSize(c).width <= 450.0
  {
  }
}
