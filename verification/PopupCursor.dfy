/** What the cursor keys do to the selection, for every list of rows. */
module PopupCursor {
  import opened Popup

  predicate AnyAfter(rows: seq<Row>, sel: int)
    requires NO_SELECTION <= sel < |rows|
  {
    FirstFrom(rows, sel + 1) < |rows|
  }

  predicate AnyBefore(rows: seq<Row>, sel: int)
    requires 0 <= sel < |rows|
  {
    LastUpTo(rows, sel - 1) >= 0
  }

  /** Down goes to the next acceptable row; from the last one to row 0, or to no selection if row 0 cannot be accepted. */
  lemma NextExactly(rows: seq<Row>, sel: int)
    requires rows != [] && ValidSelection(rows, sel)
    ensures var n := Next(rows, sel);
            ValidSelection(rows, n) &&
            if exists k :: sel < k < |rows| && Acceptable(rows, k)
            then sel < n && Acceptable(rows, n) && forall k :: sel < k < n ==> !Acceptable(rows, k)
            else n == if Acceptable(rows, 0) then 0 else NO_SELECTION
  {
  }

  /** Up goes to the previous acceptable row; from the first one, or from none, to the last row if it can be accepted. */
  lemma PreviousExactly(rows: seq<Row>, sel: int)
    requires rows != [] && ValidSelection(rows, sel)
    ensures var n := Previous(rows, sel);
            ValidSelection(rows, n) &&
            if exists k :: 0 <= k < sel && Acceptable(rows, k)
            then n < sel && Acceptable(rows, n) && forall k :: n < k < sel ==> !Acceptable(rows, k)
            else n == if Acceptable(rows, |rows| - 1) then |rows| - 1 else NO_SELECTION
  {
  }

  /** Up undoes down, except from the last acceptable row when it is not the last row. */
  lemma UpUndoesDown(rows: seq<Row>, sel: int)
    requires Acceptable(rows, sel)
    ensures Previous(rows, Next(rows, sel)) == sel <==> AnyAfter(rows, sel) || Acceptable(rows, |rows| - 1)
  {
    NextExactly(rows, sel);
    PreviousExactly(rows, Next(rows, sel));
    if AnyAfter(rows, sel) {
      assert Acceptable(rows, FirstFrom(rows, sel + 1));
    } else if Acceptable(rows, |rows| - 1) {
      assert sel == |rows| - 1;
    }
  }

  /** Down undoes up, except from the first acceptable row when up can reach the last row but down cannot reach row 0. */
  lemma DownUndoesUp(rows: seq<Row>, sel: int)
    requires Acceptable(rows, sel)
    ensures Next(rows, Previous(rows, sel)) == sel <==>
            AnyBefore(rows, sel) || !Acceptable(rows, |rows| - 1) || Acceptable(rows, 0)
  {
    PreviousExactly(rows, sel);
    NextExactly(rows, Previous(rows, sel));
    if AnyBefore(rows, sel) {
      assert Acceptable(rows, LastUpTo(rows, sel - 1));
    }
  }

  predicate NoneAcceptable(rows: seq<Row>) {
    forall k :: 0 <= k < |rows| ==> !Acceptable(rows, k)
  }

  /** From a selection an update left behind a key leads to a proper one, unless it stays put with no row to accept. */
  lemma KeysRepairSelection(rows: seq<Row>, sel: int)
    requires rows != [] && NO_SELECTION <= sel <= |rows|
    ensures ValidSelection(rows, Next(rows, sel)) <==> !(sel == 0 && NoneAcceptable(rows))
    ensures ValidSelection(rows, Previous(rows, sel)) <==> !(sel == |rows| - 1 && NoneAcceptable(rows))
  {
    if sel < |rows| && !NoneAcceptable(rows) {
      var k :| 0 <= k < |rows| && Acceptable(rows, k);
      if sel == 0 && k > 0 {
        assert FirstFrom(rows, 1) <= k;
      }
      if sel == |rows| - 1 && k < sel {
        assert LastUpTo(rows, sel - 1) >= k;
      }
    }
  }

  function Down(rows: seq<Row>, sel: int, times: nat): (r: int)
    requires NO_SELECTION <= sel < |rows|
    ensures NO_SELECTION <= r < |rows|
    decreases times
  {
    if times == 0 then sel else Down(rows, Next(rows, sel), times - 1)
  }

  lemma NextInRange(rows: seq<Row>, sel: int)
    requires NO_SELECTION <= sel < |rows|
    ensures NO_SELECTION <= Next(rows, sel) < |rows|
  {
  }

  lemma {:induction false} DownAdds(rows: seq<Row>, sel: int, a: nat, b: nat)
    requires NO_SELECTION <= sel < |rows|
    ensures Down(rows, sel, a + b) == Down(rows, Down(rows, sel, a), b)
    decreases a
  {
    hide Next;
    if a > 0 {
      NextInRange(rows, sel);
      DownAdds(rows, Next(rows, sel), a - 1, b);
    }
  }

  /** Down steps through the rows between to any acceptable row below. */
  lemma {:induction false} ReachBelow(rows: seq<Row>, sel: int, target: int) returns (times: nat)
    requires ValidSelection(rows, sel) && Acceptable(rows, target) && sel <= target
    ensures Down(rows, sel, times) == target
    decreases target - sel
  {
    if sel == target {
      times := 0;
    } else {
      NextExactly(rows, sel);
      var n := ReachBelow(rows, Next(rows, sel), target);
      times := n + 1;
    }
  }

  /** From the last acceptable row down goes to row 0 or to no selection, above every acceptable row. */
  lemma LastAcceptable(rows: seq<Row>, target: int) returns (last: int)
    requires Acceptable(rows, target)
    ensures Acceptable(rows, last) && forall k :: Acceptable(rows, k) ==> k <= last
    ensures ValidSelection(rows, Next(rows, last)) && Next(rows, last) <= target
  {
    last := LastUpTo(rows, |rows| - 1);
    NextExactly(rows, last);
  }

  /** Down from any proper selection, or from none, visits every acceptable row: past the last one it starts again. */
  lemma EveryRowIsReached(rows: seq<Row>, sel: int, target: int) returns (times: nat)
    requires ValidSelection(rows, sel) && Acceptable(rows, target)
    ensures Down(rows, sel, times) == target
  {
    if sel <= target {
      times := ReachBelow(rows, sel, target);
    } else {
      var last := LastAcceptable(rows, target);
      var top := Next(rows, last);
      var a := ReachBelow(rows, sel, last);
      var b := ReachBelow(rows, top, target);
      times := a + (1 + b);
      DownAdds(rows, sel, a, 1 + b);
    }
  }

  // -------------------------------------------------------------------------
  // By the kind of item

  /** Rows a user can choose, kind by kind; the others only decorate the list. */
  predicate Selectable(r: Row) {
    match r.suggestion.id
    case Profile(_) => true
    case AutocompleteEntry => true
    case PasswordEntry => true
    case DatalistEntry => true
    case Separator => false
    case WarningMessage => false
    case Title => false
    case MacAccessContacts => true
    case ScanCreditCard => true
    case OtherItem(_) => true
  }

  /** Profiles and stored entries can be removed, and no other kind; whatever can be removed can be chosen. */
  lemma RemovableKinds(r: Row)
    ensures match r.suggestion.id
            case Profile(_) => CanDelete(r.suggestion.id)
            case AutocompleteEntry => CanDelete(r.suggestion.id)
            case PasswordEntry => CanDelete(r.suggestion.id)
            case _ => !CanDelete(r.suggestion.id)
    ensures CanDelete(r.suggestion.id) ==> Selectable(r)
  {
  }

  /** A popup is worth showing when its first row is one of these kinds, whatever comes after it. */
  lemma ShownForKinds(rows: seq<Row>)
    ensures HasSuggestions(rows) <==>
            rows != [] &&
            match rows[0].suggestion.id
            case Profile(_) => true
            case AutocompleteEntry => true
            case PasswordEntry => true
            case DatalistEntry => true
            case MacAccessContacts => true
            case ScanCreditCard => true
            case _ => false
  {
  }

  /** `SetSelectedLine` selects any selectable row, and on any other line clears the selection or leaves it there. */
  lemma SelectByKind(rows: seq<Row>, sel: int, line: int)
    requires NO_SELECTION <= line < |rows|
    ensures Select(rows, sel, line) ==
            if line == sel || (line >= 0 && Selectable(rows[line])) then line else NO_SELECTION
  {
  }

  /** The selection has not moved, is gone, or is on a row that can be chosen. */
  predicate LandsWell(rows: seq<Row>, before: int, sel: int) {
    sel == before || sel == NO_SELECTION || (0 <= sel < |rows| && Selectable(rows[sel]))
  }

  /** Neither key moves the selection to a separator, a warning or a title, wherever it was. */
  lemma KeysSkipDecoration(rows: seq<Row>, sel: int)
    requires rows != [] && NO_SELECTION <= sel <= |rows|
    ensures LandsWell(rows, sel, Next(rows, sel)) && LandsWell(rows, sel, Previous(rows, sel))
  {
  }

  /** Down goes to the nearest selectable row below; without one, to row 0 if it is selectable, else to none. */
  lemma DownByKind(rows: seq<Row>, sel: int)
    requires rows != [] && NO_SELECTION <= sel < |rows| && (sel >= 0 ==> Selectable(rows[sel]))
    ensures var n := Next(rows, sel);
            if exists k :: sel < k < |rows| && Selectable(rows[k])
            then sel < n < |rows| && Selectable(rows[n]) && forall k :: sel < k < n ==> !Selectable(rows[k])
            else n == if Selectable(rows[0]) then 0 else NO_SELECTION
  {
    KindsAgree(rows);
    NextExactly(rows, sel);
  }

  /** Up goes to the nearest selectable row above; without one, to the last row if it is selectable, else to none. */
  lemma UpByKind(rows: seq<Row>, sel: int)
    requires rows != [] && NO_SELECTION <= sel < |rows| && (sel >= 0 ==> Selectable(rows[sel]))
    ensures var n := Previous(rows, sel);
            if exists k :: 0 <= k < sel && Selectable(rows[k])
            then 0 <= n < sel && Selectable(rows[n]) && forall k :: n < k < sel ==> !Selectable(rows[k])
            else n == if Selectable(rows[|rows| - 1]) then |rows| - 1 else NO_SELECTION
  {
    KindsAgree(rows);
    PreviousExactly(rows, sel);
  }

  lemma KindsAgree(rows: seq<Row>)
    ensures forall k :: 0 <= k < |rows| ==> (Acceptable(rows, k) <==> Selectable(rows[k]))
  {
  }

  /** Every selectable row is reached by pressing down often enough. */
  lemma EverySelectableRowIsReached(rows: seq<Row>, sel: int, target: nat) returns (times: nat)
    requires NO_SELECTION <= sel < |rows| && (sel >= 0 ==> Selectable(rows[sel]))
    requires target < |rows| && Selectable(rows[target])
    ensures Down(rows, sel, times) == target
  {
    KindsAgree(rows);
    times := EveryRowIsReached(rows, sel, target);
  }

  // -------------------------------------------------------------------------
  // An update of the datalist does not touch the selection

  /** The rows an update takes off the top: the old datalist, and its separator if nothing replaces it. */
  function Removed(rows: seq<Row>, values: seq<string>): nat {
    var t := DropDatalist(rows);
    DropShrinks(rows);
    |rows| - |t| + if values == [] && t != [] && IsSeparator(t[0]) then 1 else 0
  }

  /** The rows it puts there: the new datalist, and a separator if there is none yet. */
  function Added(rows: seq<Row>, values: seq<string>): nat {
    var t := DropDatalist(rows);
    |values| + if values != [] && t != [] && !IsSeparator(t[0]) then 1 else 0
  }

  lemma {:induction false} DropIsTail(rows: seq<Row>)
    ensures |DropDatalist(rows)| <= |rows|
    ensures DropDatalist(rows) == rows[|rows| - |DropDatalist(rows)|..]
  {
    if rows != [] && IsDatalist(rows[0]) {
      DropIsTail(rows[1..]);
    }
  }

  /** Below the rows that are new, every row comes from the old list, moved up or down by the same distance. */
  lemma UpdateMovesRows(rows: seq<Row>, values: seq<string>, labels: seq<string>)
    requires |labels| >= |values|
    ensures Removed(rows, values) <= |rows|
    ensures |Updated(rows, values, labels)| == |rows| - Removed(rows, values) + Added(rows, values)
    ensures Updated(rows, values, labels)[Added(rows, values)..] == rows[Removed(rows, values)..]
    ensures forall i :: 0 <= i < |values| ==> IsDatalist(Updated(rows, values, labels)[i])
    ensures |values| < Added(rows, values) ==>
            Updated(rows, values, labels)[|values|] == Row(Suggestion("", "", "", Separator), "", "")
  {
    DropIsTail(rows);
  }

  /** The selected row after an update, if it is one of the old rows. */
  function RowBefore(rows: seq<Row>, values: seq<string>, sel: int): int {
    sel - Added(rows, values) + Removed(rows, values)
  }

  /** An update keeps the selection proper exactly when a datalist row or an acceptable old row ends up under it. */
  lemma UpdateKeepsSelection(rows: seq<Row>, values: seq<string>, labels: seq<string>, sel: int)
    requires |labels| >= |values| && NO_SELECTION <= sel
    ensures ValidSelection(Updated(rows, values, labels), sel) <==>
            sel == NO_SELECTION || sel < |values| ||
            (sel >= Added(rows, values) && Acceptable(rows, RowBefore(rows, values, sel)))
  {
    hide Updated, Removed, Added, DropDatalist;
    UpdateMovesRows(rows, values, labels);
    var after, a, r := Updated(rows, values, labels), Added(rows, values), Removed(rows, values);
    AddedBounds(rows, values);
    if a <= sel < |after| {
      assert after[a..][sel - a] == rows[r..][sel - a];
    }
  }

  lemma AddedBounds(rows: seq<Row>, values: seq<string>)
    ensures |values| <= Added(rows, values) <= |values| + 1
  {
  }

  /** The selected line still names an old row of the list, and then the same one exactly when as many rows came as went. */
  lemma SelectionNamesTheSameRow(rows: seq<Row>, values: seq<string>, labels: seq<string>, sel: int)
    requires |labels| >= |values| && 0 <= sel < |rows| && forall i, j :: 0 <= i < j < |rows| ==> rows[i] != rows[j]
    requires Added(rows, values) <= sel < |Updated(rows, values, labels)|
    ensures Updated(rows, values, labels)[sel] == rows[sel] <==> Added(rows, values) == Removed(rows, values)
  {
    hide Updated, Removed, Added, DropDatalist;
    UpdateMovesRows(rows, values, labels);
    var after, a, r := Updated(rows, values, labels), Added(rows, values), Removed(rows, values);
    assert after[sel] == after[a..][sel - a] == rows[r..][sel - a] == rows[r + sel - a];
  }

  /** In general, with rows that may be equal and lines that may be new. */
  lemma SelectionNamesAnEqualRow(rows: seq<Row>, values: seq<string>, labels: seq<string>, sel: int)
    requires |labels| >= |values| && 0 <= sel < |rows|
    ensures var after := Updated(rows, values, labels);
            sel < |after| && after[sel] == rows[sel] <==>
            if sel < |values| then rows[sel] == DatalistRows(values, labels)[sel]
            else if sel < Added(rows, values) then rows[sel] == SEPARATOR_ROW
            else RowBefore(rows, values, sel) < |rows| && rows[RowBefore(rows, values, sel)] == rows[sel]
  {
    UpdateMovesRows(rows, values, labels);
    var after, a, r := Updated(rows, values, labels), Added(rows, values), Removed(rows, values);
    NewRows(rows, values, labels);
    hide Updated, Removed, Added, DropDatalist, DatalistRows;
    AddedBounds(rows, values);
    if a <= sel < |after| {
      assert after[a..][sel - a] == rows[r..][sel - a];
    }
  }

  lemma NewRows(rows: seq<Row>, values: seq<string>, labels: seq<string>)
    requires |labels| >= |values|
    ensures DatalistRows(values, labels) <= Updated(rows, values, labels)
  {
  }

  /** An update of the datalist does not move the selection, which may then be on a row that cannot be accepted. */
  lemma UpdateMayLeaveASeparatorSelected()
    ensures var rows := [Row(Suggestion("a", "", "", Profile(1)), "a", ""),
                         Row(Suggestion("b", "", "", Profile(2)), "b", "")];
            ValidSelection(rows, 1) && !ValidSelection(Updated(rows, ["x"], [""]), 1)
  {
    var rows := [Row(Suggestion("a", "", "", Profile(1)), "a", ""), Row(Suggestion("b", "", "", Profile(2)), "b", "")];
    assert DropDatalist(rows) == rows;
    assert Updated(rows, ["x"], [""])[1] == SEPARATOR_ROW;
  }
}
