/**
 * The CMS grid layout helper `applyGridStyles`. On a viewport at least 992
 * pixels wide it resets the grid's four inline styles and then picks a
 * layout from the number of CMS items: one item is centred with flex, two
 * or four go in two columns, three or six in three columns, and five in
 * three columns over two rows with the fourth item spanning two columns.
 * Any other count keeps the reset styles. On a narrower viewport all four
 * styles and every item's `gridColumn` are cleared.
 */
module CmsGridLayout {

  const DesktopMinWidth := 992
  const TwoColumns := "repeat(2, 1fr)"
  const ThreeColumns := "repeat(3, 1fr)"
  const TwoRows := "auto auto"
  const SpanTwo := "span 2"

  /** The grid element's four inline styles. */
  datatype GridStyle = GridStyle(display: string, gridTemplateColumns: string, gridTemplateRows: string, justifyContent: string)

  const Cleared := GridStyle("", "", "", "")

  /** The styles `applyGridStyles` leaves on the grid. */
  function Layout(itemCount: nat, innerWidth: int): (r: GridStyle)
    ensures innerWidth < DesktopMinWidth || itemCount == 0 || itemCount > 6 ==> r == Cleared
    ensures r.display == "grid" <==> innerWidth >= DesktopMinWidth && 2 <= itemCount <= 6
    ensures r.justifyContent != "" <==> innerWidth >= DesktopMinWidth && itemCount == 1
    ensures r.gridTemplateRows == (if innerWidth >= DesktopMinWidth && itemCount == 5 then TwoRows else "")
    ensures innerWidth >= DesktopMinWidth ==>
      r.gridTemplateColumns == (if itemCount == 2 || itemCount == 4 then TwoColumns
        else if 3 <= itemCount <= 6 && itemCount != 4 then ThreeColumns else "")
    ensures innerWidth >= DesktopMinWidth && itemCount == 1 ==> r.display == "flex" && r.justifyContent == "center"
  {
    if innerWidth < DesktopMinWidth then Cleared
    else if itemCount == 1 then Cleared.(display := "flex", justifyContent := "center")
    else if itemCount == 2 || itemCount == 4 then Cleared.(display := "grid", gridTemplateColumns := TwoColumns)
    else if itemCount == 3 || itemCount == 6 then Cleared.(display := "grid", gridTemplateColumns := ThreeColumns)
    else if itemCount == 5 then Cleared.(display := "grid", gridTemplateRows := TwoRows, gridTemplateColumns := ThreeColumns)
    else Cleared
  }

  /** The items' `gridColumn` styles after `applyGridStyles`. */
  function ItemColumns(columns: seq<string>, innerWidth: int): (r: seq<string>)
    ensures |r| == |columns|
    ensures innerWidth < DesktopMinWidth ==> forall i :: 0 <= i < |r| ==> r[i] == ""
    ensures innerWidth >= DesktopMinWidth ==>
      forall i :: 0 <= i < |r| && !(|r| == 5 && i == 3) ==> r[i] == columns[i]
    ensures innerWidth >= DesktopMinWidth && |r| == 5 ==> r[3] == SpanTwo
  {
    if innerWidth >= DesktopMinWidth then
      if |columns| == 5 then columns[3 := SpanTwo] else columns
    else seq(|columns|, _ => "")
  }

  /** The number of columns a `gridTemplateColumns` value lays out (0: no explicit template). */
  function ColumnCount(template: string): nat
  {
    if template == TwoColumns then 2 else if template == ThreeColumns then 3 else 0
  }

  /** How many grid columns an item with this `gridColumn` occupies. */
  function SpanOf(gridColumn: string): nat
  {
    if gridColumn == SpanTwo then 2 else 1
  }

  function TotalSpan(columns: seq<string>): nat
  {
    if columns == [] then 0 else SpanOf(columns[0]) + TotalSpan(columns[1..])
  }

  lemma {:induction false} TotalSpanOfPlain(columns: seq<string>)
    requires forall i :: 0 <= i < |columns| ==> columns[i] == ""
    ensures TotalSpan(columns) == |columns|
  {
    if columns != [] {
      TotalSpanOfPlain(columns[1..]);
    }
  }

  lemma {:induction false} TotalSpanUpdate(columns: seq<string>, i: nat, v: string)
    requires i < |columns|
    ensures TotalSpan(columns[i := v]) == TotalSpan(columns) - SpanOf(columns[i]) + SpanOf(v)
  {
    if i > 0 {
      assert columns[i := v][1..] == columns[1..][i - 1 := v];
      TotalSpanUpdate(columns[1..], i - 1, v);
    }
  }

  /**
   * The desktop grid layouts have no ragged last row: starting from items
   * without an inline `gridColumn`, for two to six items the columns the
   * items occupy add up to a whole number of rows of the chosen template.
   */
  lemma FullRows(columns: seq<string>, innerWidth: int)
    requires innerWidth >= DesktopMinWidth && 2 <= |columns| <= 6
    requires forall i :: 0 <= i < |columns| ==> columns[i] == ""
    ensures var cols := ColumnCount(Layout(|columns|, innerWidth).gridTemplateColumns);
      cols > 1 && TotalSpan(ItemColumns(columns, innerWidth)) % cols == 0
  {
    TotalSpanOfPlain(columns);
    if |columns| == 5 {
      TotalSpanUpdate(columns, 3, SpanTwo);
    }
  }

  /** Applying the helper twice at one width leaves what one application leaves. */
  lemma ItemColumnsIdempotent(columns: seq<string>, innerWidth: int)
    ensures ItemColumns(ItemColumns(columns, innerWidth), innerWidth) == ItemColumns(columns, innerWidth)
  {
  }

  /** Only the fourth of five items ever gets a span, and only on a desktop viewport. */
  lemma OnlyFourthOfFiveSpans(columns: seq<string>, innerWidth: int, i: nat)
    requires i < |columns| && columns[i] != SpanTwo
    ensures ItemColumns(columns, innerWidth)[i] == SpanTwo <==>
      innerWidth >= DesktopMinWidth && |columns| == 5 && i == 3
  {
  }

  /** The `.room-grid` element and its `.w-dyn-item` children. */
  class CmsGrid {
    var display: string
    var gridTemplateColumns: string
    var gridTemplateRows: string
    var justifyContent: string
    /** The inline `gridColumn` of each CMS item. */
    const items: array<string>

    function Style(): GridStyle
      reads this
    {
      GridStyle(display, gridTemplateColumns, gridTemplateRows, justifyContent)
    }

    constructor (style: GridStyle, items: array<string>)
      ensures Style() == style && this.items == items
    {
      display := style.display;
      gridTemplateColumns := style.gridTemplateColumns;
      gridTemplateRows := style.gridTemplateRows;
      justifyContent := style.justifyContent;
      this.items := items;
    }

    /** `applyGridStyles()` at viewport width `innerWidth`. */
    method ApplyGridStyles(innerWidth: int)
      modifies this, items
      ensures Style() == Layout(items.Length, innerWidth)
      ensures items[..] == ItemColumns(old(items[..]), innerWidth)
    {
      var itemCount := items.Length;
      if innerWidth >= DesktopMinWidth {
        display := "";
        gridTemplateColumns := "";
        gridTemplateRows := "";
        justifyContent := "";

        if itemCount == 1 {
          display := "flex";
          justifyContent := "center";
        } else if itemCount == 2 || itemCount == 4 {
          display := "grid";
          gridTemplateColumns := TwoColumns;
        } else if itemCount == 3 || itemCount == 6 {
          display := "grid";
          gridTemplateColumns := ThreeColumns;
        } else if itemCount == 5 {
          display := "grid";
          gridTemplateRows := TwoRows;
          gridTemplateColumns := ThreeColumns;
          items[3] := SpanTwo;
        }
      } else {
        display := "";
        gridTemplateColumns := "";
        gridTemplateRows := "";
        justifyContent := "";
        for i := 0 to items.Length
          modifies items
          invariant forall j :: 0 <= j < i ==> items[j] == ""
        {
          items[i] := "";
        }
      }
    }
  }
}
