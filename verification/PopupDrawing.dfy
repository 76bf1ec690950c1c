/** Where the view puts the texts and the icon of a row, and that the controller leaves room for them. */
module PopupDrawing {
  import opened PopupGeometry

  /** Left edges of value, icon and label inside a row; without an icon its place is that of the label's edge. */
  datatype Places = Places(value: int, icon: int, labelText: int)

  /** What the texts and the icon leave free between the value and whatever comes next to it. */
  function Free(m: Measure, value: nat, labelText: nat, width: int): int {
    width - (3 + value) - (labelText + (if m.icon >= 0 then 5 + m.icon else 0) + 3)
  }

  /** The parts of a row from one edge to the other, 3 pixels from either edge and with 5 pixels between label and icon. */
  predicate SideBySide(m: Measure, value: nat, labelText: nat, width: int, rtl: bool, p: Places) {
    if rtl then
      && p.icon == 3 && p.labelText == 3 + (if m.icon >= 0 then m.icon + 5 else 0)
      && p.value == p.labelText + labelText + Free(m, value, labelText, width) && p.value + value == width - 3
    else
      && p.value == 3 && p.labelText == 3 + value + Free(m, value, labelText, width)
      && p.icon == p.labelText + labelText + (if m.icon >= 0 then 5 else 0)
      && p.icon + (if m.icon >= 0 then m.icon else 0) == width - 3
  }

  /** `DrawAutofillEntry`, with the widths of the elided texts and of the row. */
  method DrawAutofillEntry(m: Measure, value: nat, labelText: nat, width: int, rtl: bool) returns (p: Places)
    ensures SideBySide(m, value, labelText, width, rtl, p)
  {
    var valueX: int, x: int := END_PADDING, width - END_PADDING;
    if rtl {
      valueX, x := width - value - END_PADDING, END_PADDING;
    }
    var iconX := x;
    if m.icon >= 0 {
      if !rtl {
        x := x - m.icon;
      }
      iconX := x;
      if rtl {
        x := x + m.icon + ICON_PADDING;
      } else {
        x := x - ICON_PADDING;
      }
    }
    if !rtl {
      x := x - labelText;
    }
    p := Places(valueX, iconX, x);
  }

  /** The part of the row from `a` on ends `gap` pixels before the part at `b` begins. */
  predicate EndsBefore(a: int, width: int, gap: int, b: int) {
    a + width + gap <= b
  }

  /** If anything is free the parts lie inside the row, none over another, mirrored for right-to-left scripts. */
  lemma NothingOverlaps(m: Measure, value: nat, labelText: nat, width: int, rtl: bool, p: Places)
    requires SideBySide(m, value, labelText, width, rtl, p) && Free(m, value, labelText, width) >= 0
    ensures 3 <= p.value && p.value + value <= width - 3 && 3 <= p.labelText && p.labelText + labelText <= width - 3
    ensures m.icon >= 0 ==> 3 <= p.icon && p.icon + m.icon <= width - 3
    ensures rtl ==> EndsBefore(p.labelText, labelText, 0, p.value) &&
                    (m.icon >= 0 ==> EndsBefore(p.icon, m.icon, 5, p.labelText))
    ensures !rtl ==> EndsBefore(p.value, value, 0, p.labelText) &&
                     (m.icon >= 0 ==> EndsBefore(p.labelText, labelText, 5, p.icon))
    ensures SideBySide(m, value, labelText, width, !rtl,
                       Places(width - p.value - value, width - p.icon - (if m.icon >= 0 then m.icon else 0),
                              width - p.labelText - labelText))
  {
  }

  /** What the controller takes off for a row is what the view needs, and 15 pixels before a label if there is one. */
  lemma RoomIsAccounted(m: Measure, border: nat, popupWidth: int, value: nat, labelText: nat)
    ensures Free(m, value, labelText, popupWidth - 2 * border) ==
            popupWidth - WithoutText(m, border) - (value + labelText) + if m.hasLabel then 15 else 0
  {
  }

  /**
    In a popup with room for text the texts of a row, elided to the widths the controller gave
    them, do not touch: between value and label at least 15 pixels stay free.
   */
  lemma {:induction false} TextsStayApart(m: Measure, border: nat, popupWidth: int, value: nat, labelText: nat)
    requires popupWidth >= WithoutText(m, border) && m.valueWidth + m.labelWidth > 0
    requires var w := RowWidths(m, border, popupWidth); w.Widths? && value <= w.value && labelText <= w.labelText
    ensures Free(m, value, labelText, popupWidth - 2 * border) >= if m.hasLabel then 15 else 0
  {
    hide Share;
    RoomIsAccounted(m, border, popupWidth, value, labelText);
    SharesFit(popupWidth - WithoutText(m, border), m.valueWidth, m.labelWidth);
  }
}
