/** Row rectangles, the search for the row at a point, and the widths the texts of a row get. */
module PopupGeometry {
  import opened Popup

  function Height(r: Row): nat {
    if IsSeparator(r) then SEPARATOR_HEIGHT else ROW_HEIGHT
  }

  function TotalHeight(rows: seq<Row>): nat {
    if rows == [] then 0 else TotalHeight(rows[..|rows| - 1]) + Height(rows[|rows| - 1])
  }

  lemma HeightSnoc(rows: seq<Row>, i: nat)
    requires i < |rows|
    ensures TotalHeight(rows[..i + 1]) == TotalHeight(rows[..i]) + Height(rows[i])
  {
    assert rows[..i + 1][..i] == rows[..i];
  }

  function Separators(rows: seq<Row>): nat {
    if rows == [] then 0 else Separators(rows[..|rows| - 1]) + if rows[|rows| - 1].suggestion.id == Separator then 1 else 0
  }

  /** A separator is one pixel high and any other row 24. */
  lemma {:induction false} HeightsAdd(rows: seq<Row>)
    ensures Separators(rows) <= |rows|
    ensures TotalHeight(rows) == 24 * (|rows| - Separators(rows)) + Separators(rows)
    decreases |rows|
  {
    if rows != [] {
      HeightsAdd(rows[..|rows| - 1]);
    }
  }

  /** `GetRowBounds`: top and height of row `index`, with `border` the border thickness. */
  method GetRowBounds(rows: seq<Row>, border: nat, index: nat) returns (top: nat, height: nat)
    requires index < |rows|
    ensures top == border + TotalHeight(rows[..index])
    ensures top + height == border + TotalHeight(rows[..index + 1])
  {
    top := border;
    var i := 0;
    while i < index
      invariant 0 <= i <= index && top == border + TotalHeight(rows[..i])
    {
      HeightSnoc(rows, i);
      top := top + Height(rows[i]);
      i := i + 1;
    }
    HeightSnoc(rows, index);
    height := Height(rows[index]);
  }

  method GetDesiredPopupHeight(rows: seq<Row>, border: nat) returns (height: nat)
    ensures height == 2 * border + TotalHeight(rows)
  {
    height := 2 * border;
    var i := 0;
    while i < |rows|
      invariant 0 <= i <= |rows| && height == 2 * border + TotalHeight(rows[..i])
    {
      HeightSnoc(rows, i);
      height := height + Height(rows[i]);
      i := i + 1;
    }
    assert rows[..i] == rows;
  }

  function Top(rows: seq<Row>, border: nat, i: nat): nat
    requires i <= |rows|
  {
    border + TotalHeight(rows[..i])
  }

  /** The rectangles tile the popup, top to bottom, up to the lower border. */
  lemma RowsTile(rows: seq<Row>, border: nat, i: nat)
    requires i < |rows|
    ensures Top(rows, border, 0) == border
    ensures Top(rows, border, i) < Top(rows, border, i + 1)
    ensures Top(rows, border, |rows|) + border == 2 * border + TotalHeight(rows)
  {
    HeightSnoc(rows, i);
    assert rows[..|rows|] == rows;
  }

  lemma {:induction false} TopMonotone(rows: seq<Row>, border: nat, i: nat, j: nat)
    requires i <= j <= |rows|
    ensures Top(rows, border, i) <= Top(rows, border, j)
    ensures i < j ==> Top(rows, border, i) < Top(rows, border, j)
    decreases j - i
  {
    if i < j {
      RowsTile(rows, border, i);
      TopMonotone(rows, border, i + 1, j);
    }
  }

  /** The line at height `y`: the first row that ends at or below it, else the last row. */
  predicate IsLineAt(rows: seq<Row>, border: nat, y: int, line: int) {
    if rows == [] then line == NO_SELECTION
    else
      0 <= line < |rows| &&
      (line > 0 ==> Top(rows, border, line) < y) &&
      (line < |rows| - 1 ==> y <= Top(rows, border, line + 1))
  }

  /** `LineFromY` */
  method LineFromY(rows: seq<Row>, border: nat, y: int) returns (line: int)
    ensures IsLineAt(rows, border, y, line)
  {
    var height := border;
    line := 0;
    while line < |rows|
      invariant 0 <= line <= |rows| && height == Top(rows, border, line)
      invariant line > 0 ==> height < y
    {
      HeightSnoc(rows, line);
      height := height + Height(rows[line]);
      if y <= height {
        return;
      }
      line := line + 1;
    }
    line := |rows| - 1;
    if rows != [] {
      TopMonotone(rows, border, line, line + 1);
    }
  }

  /** The line is unique and grows with the height: the search inverts the row rectangles. */
  lemma LinesAreOrdered(rows: seq<Row>, border: nat, y: int, y': int, line: int, line': int)
    requires IsLineAt(rows, border, y, line) && IsLineAt(rows, border, y', line') && y <= y'
    ensures line <= line'
    ensures y == y' ==> line == line'
    ensures rows == [] ==> line == -1
  {
    if line' < line {
      TopMonotone(rows, border, line' + 1, line);
    } else if line < line' && y == y' {
      TopMonotone(rows, border, line + 1, line');
    }
  }

  /** Inside the popup the line at `y` is the row whose rectangle holds `y`, its top edge excluded. */
  lemma LineInvertsBounds(rows: seq<Row>, border: nat, y: int, i: nat)
    requires i < |rows| && Top(rows, border, 0) < y <= Top(rows, border, |rows|)
    ensures IsLineAt(rows, border, y, i) <==> Top(rows, border, i) < y <= Top(rows, border, i + 1)
  {
  }

  // -------------------------------------------------------------------------
  // Widths

  const NAME_PADDING: nat := 15
  const ICON_PADDING: nat := 5
  const END_PADDING: nat := 3

  /**
    What is measured of a row: the widths of value and label, with `plainWidth` the width of
    the value in the plain font, whether it has a label, and the width of its icon, if any.
   */
  datatype Measure = Measure(valueWidth: nat, plainWidth: nat, labelWidth: nat, hasLabel: bool, icon: int)

  function WithoutText(m: Measure, border: nat): nat {
    END_PADDING + (if m.hasLabel then NAME_PADDING else 0) + (if m.icon >= 0 then m.icon + ICON_PADDING else 0) +
    END_PADDING + 2 * border
  }

  /** The width of a row with its value in the plain font. */
  function PlainRow(m: Measure, border: nat): nat {
    m.plainWidth + m.labelWidth + WithoutText(m, border)
  }

  /** The width of a row as it is drawn: titles are bold, warnings italic. */
  function DrawnRow(m: Measure, border: nat): nat {
    m.valueWidth + m.labelWidth + WithoutText(m, border)
  }

  /** The least width that is no smaller than the element and than every row in the plain font. */
  predicate IsDesiredWidth(rows: seq<Measure>, border: nat, elementWidth: int, width: int) {
    && width >= elementWidth && (forall i :: 0 <= i < |rows| ==> width >= PlainRow(rows[i], border))
    && (width == elementWidth || exists i :: 0 <= i < |rows| && width == PlainRow(rows[i], border))
  }

  method GetDesiredPopupWidth(rows: seq<Measure>, border: nat, elementWidth: int) returns (width: int)
    ensures IsDesiredWidth(rows, border, elementWidth, width)
  {
    width := elementWidth;
    var i := 0;
    while i < |rows|
      invariant 0 <= i <= |rows| && width >= elementWidth
      invariant forall k :: 0 <= k < i ==> width >= PlainRow(rows[k], border)
      invariant width == elementWidth || exists k :: 0 <= k < i && width == PlainRow(rows[k], border)
    {
      var rowSize := rows[i].plainWidth + rows[i].labelWidth + WithoutText(rows[i], border);
      if width < rowSize {
        width := rowSize;
      }
      i := i + 1;
    }
  }

  /** C++ division, towards zero. */
  function TruncDiv(a: int, b: int): int
    requires b > 0
  {
    if a >= 0 then a / b else -((-a) / b)
  }

  /** The share of the available width a field gets; a row without text is skipped. */
  function Share(available: int, part: nat, total: nat): int
    requires total > 0
  {
    TruncDiv(available * part, total)
  }

  lemma DivBounds(a: nat, b: nat)
    requires b > 0
    ensures (a / b) * b <= a < (a / b) * b + b
  {
  }

  lemma MulMonotone(a: int, b: int, c: nat)
    requires a <= b
    ensures a * c <= b * c
  {
  }

  lemma CancelFactor(a: int, b: int, c: nat)
    requires c > 0 && a * c <= b * c
    ensures a <= b
  {
    if b < a {
      MulMonotone(b + 1, a, c);
    }
  }

  lemma Distribute(a: nat, b: nat, c: nat)
    ensures a * (b + c) == a * b + a * c && (b + c) * a == b * a + c * a
  {
  }

  lemma DownRounded(a: nat, b: nat)
    requires b > 0
    ensures TruncDiv(a, b) >= 0 && TruncDiv(a, b) * b <= a < TruncDiv(a, b) * b + b
  {
    DivBounds(a, b);
  }

  lemma UpRounded(a: int, b: nat)
    requires b > 0 && a < 0
    ensures TruncDiv(a, b) <= 0 && TruncDiv(a, b) * b - b < a <= TruncDiv(a, b) * b
  {
    var p := TruncDiv(-a, b);
    DownRounded(-a, b);
    assert TruncDiv(a, b) == -p;
    hide TruncDiv;
    Negated(p, b);
  }

  lemma TruncIsRounded(a: int, b: nat)
    requires b > 0
    ensures var q := TruncDiv(a, b);
            if a >= 0 then q >= 0 && q * b <= a < q * b + b else q <= 0 && q * b - b < a <= q * b
  {
    hide TruncDiv;
    if a >= 0 {
      DownRounded(a, b);
    } else {
      UpRounded(a, b);
    }
  }

  lemma Negated(a: int, b: int)
    ensures (-a) * b == -(a * b)
  {
  }

  /** A field gets its share of the width to the pixel, rounded towards zero. */
  lemma {:induction false} ShareIsRounded(available: int, part: nat, total: nat)
    requires total > 0
    ensures var s := Share(available, part, total);
            if available >= 0 then s >= 0 && s * total <= available * part < s * total + total
            else s <= 0 && s * total - total < available * part <= s * total
  {
    hide TruncDiv;
    TruncIsRounded(available * part, total);
    if available >= 0 {
      MulMonotone(0, available, part);
    } else {
      MulMonotone(available, 0, part);
      if available * part == 0 {
        TruncOfZero(total);
      }
    }
  }

  lemma TruncOfZero(b: nat)
    requires b > 0
    ensures TruncDiv(0, b) == 0
  {
  }

  /** Neither field gets more than its share, and together they fit. */
  lemma {:induction false} SharesFit(available: nat, value: nat, labelWidth: nat)
    requires value + labelWidth > 0
    ensures var total := value + labelWidth;
            var v, l := Share(available, value, total), Share(available, labelWidth, total);
            v >= 0 && l >= 0 && v * total <= available * value && l * total <= available * labelWidth && v + l <= available
  {
    hide Share;
    var total := value + labelWidth;
    ShareIsRounded(available, value, total);
    ShareIsRounded(available, labelWidth, total);
    TwoSharesFit(available, value, labelWidth, Share(available, value, total), Share(available, labelWidth, total));
  }

  lemma TwoSharesFit(available: nat, value: nat, labelWidth: nat, v: nat, l: nat)
    requires value + labelWidth > 0
    requires v * (value + labelWidth) <= available * value && l * (value + labelWidth) <= available * labelWidth
    ensures v + l <= available
  {
    var total := value + labelWidth;
    Distribute(available, value, labelWidth);
    Distribute(total, v, l);
    CancelFactor(v + l, available, total);
  }

  /** A field with text gets at least its own width exactly when there is room for both texts. */
  lemma {:induction false} NothingIsCutExactly(available: int, part: nat, total: nat)
    requires 0 < part <= total
    ensures Share(available, part, total) >= part <==> available >= total
  {
    if available >= total {
      ShareCovers(available, part, total);
    } else if available >= 0 {
      DivBounds(available * part, total);
      MulMonotone(available + 1, total, part);
      var q := (available * part) / total;
      assert (available + 1) * part == available * part + part && total * part == part * total;
      if q >= part {
        MulMonotone(part, q, total);
      }
    } else {
      NegativeShare(available, part, total);
    }
  }

  lemma NegativeShare(available: int, part: nat, total: nat)
    requires available < 0 && total > 0
    ensures Share(available, part, total) <= 0
  {
    MulMonotone(available, 0, part);
    if available * part < 0 {
      DivBounds(-(available * part), total);
      if -(available * part) / total < 0 {
        MulMonotone(-(available * part) / total + 1, 0, total);
      }
    }
  }

  lemma ShareCovers(available: nat, part: nat, total: nat)
    requires 0 < total <= available
    ensures Share(available, part, total) >= part
  {
    DivBounds(available * part, total);
    MulMonotone(total, available, part);
    var q := (available * part) / total;
    assert total * part < q * total + total;
    assert q * total + total == (q + 1) * total && total * part == part * total;
    if q + 1 <= part {
      MulMonotone(q + 1, part, total);
    }
  }

  /** The widths the loop of `Show` passes on for one row; none for a row without text. */
  datatype Widths = Skipped | Widths(value: int, labelText: int)

  function RowWidths(m: Measure, border: nat, popupWidth: int): Widths {
    var total := m.valueWidth + m.labelWidth;
    var available := popupWidth - WithoutText(m, border);
    if total == 0 then Skipped else Widths(Share(available, m.valueWidth, total), Share(available, m.labelWidth, total))
  }

  method ElideRows(rows: seq<Measure>, border: nat, popupWidth: int) returns (widths: seq<Widths>)
    ensures |widths| == |rows|
    ensures forall i :: 0 <= i < |rows| ==> widths[i] == RowWidths(rows[i], border, popupWidth)
  {
    widths := [];
    var i := 0;
    while i < |rows|
      invariant 0 <= i <= |rows| && |widths| == i
      invariant forall k :: 0 <= k < i ==> widths[k] == RowWidths(rows[k], border, popupWidth)
    {
      var total := rows[i].valueWidth + rows[i].labelWidth;
      if total == 0 {
        widths := widths + [Skipped];
      } else {
        var available := popupWidth - WithoutText(rows[i], border);
        var value := TruncDiv(available * rows[i].valueWidth, total);
        var labelText := TruncDiv(available * rows[i].labelWidth, total);
        widths := widths + [Widths(value, labelText)];
      }
      i := i + 1;
    }
  }

  /** No field of the row gets less than the width of its text. */
  predicate Uncut(m: Measure, w: Widths) {
    w.Widths? ==> w.value >= m.valueWidth && w.labelText >= m.labelWidth
  }

  /** A row is cut exactly when the popup is narrower than the row as drawn; if there is room for text at all it fits. */
  lemma {:induction false} ElisionIsRight(m: Measure, border: nat, popupWidth: int)
    requires m.valueWidth + m.labelWidth > 0
    ensures RowWidths(m, border, popupWidth).Widths?
    ensures popupWidth >= WithoutText(m, border) ==>
            var w := RowWidths(m, border, popupWidth);
            w.value >= 0 && w.labelText >= 0 && w.value + w.labelText + WithoutText(m, border) <= popupWidth
    ensures Uncut(m, RowWidths(m, border, popupWidth)) <==> popupWidth >= DrawnRow(m, border)
  {
    hide Share;
    var available := popupWidth - WithoutText(m, border);
    var total := m.valueWidth + m.labelWidth;
    if available >= 0 {
      SharesFit(available, m.valueWidth, m.labelWidth);
    }
    if m.valueWidth > 0 {
      NothingIsCutExactly(available, m.valueWidth, total);
    }
    if m.labelWidth > 0 {
      NothingIsCutExactly(available, m.labelWidth, total);
    }
    NoTextNoShare(available, total);
  }

  lemma NoTextNoShare(available: int, total: nat)
    requires total > 0
    ensures Share(available, 0, total) == 0
  {
  }

  /**
    In a popup of the desired width a row is left whole exactly when the element or some row in
    the plain font is as wide as this row is drawn; for a row in the plain font that is always so.
   */
  lemma {:induction false} DesiredWidthLeavesWhole(rows: seq<Measure>, border: nat, elementWidth: int, width: int, i: nat)
    requires IsDesiredWidth(rows, border, elementWidth, width) && i < |rows| && rows[i].valueWidth + rows[i].labelWidth > 0
    ensures Uncut(rows[i], RowWidths(rows[i], border, width)) <==>
            elementWidth >= DrawnRow(rows[i], border) ||
            exists k :: 0 <= k < |rows| && PlainRow(rows[k], border) >= DrawnRow(rows[i], border)
    ensures rows[i].valueWidth <= rows[i].plainWidth ==> Uncut(rows[i], RowWidths(rows[i], border, width))
  {
    hide RowWidths, Uncut;
    ElisionIsRight(rows[i], border, width);
    assert width >= PlainRow(rows[i], border);
  }
}
