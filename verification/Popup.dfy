/** The autofill popup controller: its parallel lists, its selection and the geometry of its rows. */
module Popup {

  type Positive = n: nat | n > 0 witness 1

  /** `frontend_id`. Positive numbers are Autofill profiles; the named ones are distinct constants. */
  datatype ItemId =
    | Profile(id: Positive) | AutocompleteEntry | PasswordEntry | DatalistEntry | Separator | WarningMessage | Title
    | MacAccessContacts | ScanCreditCard | OtherItem(code: nat)

  datatype Suggestion = Suggestion(value: string, labelText: string, icon: string, id: ItemId)

  /** One row of the three parallel vectors. */
  datatype Row = Row(suggestion: Suggestion, elidedValue: string, elidedLabel: string)

  const NO_SELECTION: int := -1
  const ROW_HEIGHT: nat := 24
  const SEPARATOR_HEIGHT: nat := 1

  predicate CanAccept(id: ItemId) {
    id != Separator && id != WarningMessage && id != Title
  }

  predicate CanDelete(id: ItemId) {
    id.Profile? || id == AutocompleteEntry || id == PasswordEntry
  }

  /** The popup is worth showing: its first row is a real entry. */
  predicate HasSuggestions(rows: seq<Row>) {
    rows != [] &&
    var id := rows[0].suggestion.id;
    id.Profile? || id == AutocompleteEntry || id == PasswordEntry || id == DatalistEntry || id == MacAccessContacts ||
    id == ScanCreditCard
  }

  // -------------------------------------------------------------------------
  // Updating the datalist entries

  predicate IsDatalist(r: Row) {
    r.suggestion.id == DatalistEntry
  }

  predicate IsSeparator(r: Row) {
    r.suggestion.id == Separator
  }

  const SEPARATOR_ROW := Row(Suggestion("", "", "", Separator), "", "")

  function DropDatalist(rows: seq<Row>): (r: seq<Row>)
    ensures r == [] || !IsDatalist(r[0])
  {
    if rows != [] && IsDatalist(rows[0]) then DropDatalist(rows[1..]) else rows
  }

  function DropSeparator(rows: seq<Row>): seq<Row> {
    if rows != [] && IsSeparator(rows[0]) then rows[1..] else rows
  }

  function WithSeparator(rows: seq<Row>): seq<Row> {
    if rows != [] && !IsSeparator(rows[0]) then [SEPARATOR_ROW] + rows else rows
  }

  function DatalistRows(values: seq<string>, labels: seq<string>): (r: seq<Row>)
    requires |labels| >= |values|
    ensures |r| == |values|
    ensures forall i :: 0 <= i < |values| ==>
              r[i] == Row(Suggestion(values[i], labels[i], "", DatalistEntry), values[i], labels[i])
  {
    seq(|values|, i requires 0 <= i < |values| =>
      Row(Suggestion(values[i], labels[i], "", DatalistEntry), values[i], labels[i]))
  }

  /** The rows after an update. */
  function Updated(rows: seq<Row>, values: seq<string>, labels: seq<string>): seq<Row>
    requires |labels| >= |values|
  {
    if values == [] then DropSeparator(DropDatalist(rows))
    else DatalistRows(values, labels) + WithSeparator(DropDatalist(rows))
  }

  lemma {:induction false} DropLeading(a: seq<Row>, b: seq<Row>)
    requires forall i :: 0 <= i < |a| ==> IsDatalist(a[i])
    ensures DropDatalist(a + b) == DropDatalist(b)
  {
    if a == [] {
      assert a + b == b;
    } else {
      assert (a + b)[0] == a[0] && (a + b)[1..] == a[1..] + b;
      DropLeading(a[1..], b);
    }
  }

  lemma {:induction false} DropShrinks(rows: seq<Row>)
    ensures |DropDatalist(rows)| <= |rows|
    ensures rows != [] && IsDatalist(rows[0]) ==> |DropDatalist(rows)| < |rows|
    ensures rows == [] || !IsDatalist(rows[0]) ==> DropDatalist(rows) == rows
  {
    if rows != [] && IsDatalist(rows[0]) {
      DropShrinks(rows[1..]);
    }
  }

  /** Clearing the list before an update changes nothing: what follows the separator is not taken for more of it. */
  predicate ClearingIsHarmless(rows: seq<Row>, again: bool) {
    var t := DropDatalist(rows);
    t == [] || !IsSeparator(t[0]) ||
    if again then |t| == 1 || (!IsDatalist(t[1]) && !IsSeparator(t[1]))
    else t[0] == SEPARATOR_ROW && |t| > 1 && !IsDatalist(t[1]) && !IsSeparator(t[1])
  }

  /** Of two updates the last one counts, exactly when the first one did not clear too much. */
  lemma LastUpdateWins(rows: seq<Row>, v1: seq<string>, l1: seq<string>, v2: seq<string>, l2: seq<string>)
    requires |l1| >= |v1| && |l2| >= |v2|
    ensures Updated(Updated(rows, v1, l1), v2, l2) == Updated(rows, v2, l2) <==>
            v1 != [] || ClearingIsHarmless(rows, v2 == [])
  {
    var t := DropDatalist(rows);
    if v1 != [] {
      DropLeading(DatalistRows(v1, l1), WithSeparator(t));
      DropShrinks(WithSeparator(t));
      DropShrinks(t);
      assert DropDatalist(Updated(rows, v1, l1)) == WithSeparator(t);
      assert ([SEPARATOR_ROW] + t)[1..] == t;
    } else {
      ClearedFirst(rows, v2, l2);
    }
  }

  lemma ClearedFirst(rows: seq<Row>, v2: seq<string>, l2: seq<string>)
    requires |l2| >= |v2|
    ensures Updated(Updated(rows, [], []), v2, l2) == Updated(rows, v2, l2) <==> ClearingIsHarmless(rows, v2 == [])
  {
    var t := DropDatalist(rows);
    DropShrinks(t);
    if t != [] && IsSeparator(t[0]) {
      var u := t[1..];
      var w := DropDatalist(u);
      DropShrinks(u);
      assert u != [] ==> u[0] == t[1];
      assert Updated(rows, [], []) == u;
      if v2 != [] {
        var d := DatalistRows(v2, l2);
        assert Updated(u, v2, l2) == d + WithSeparator(w) && Updated(rows, v2, l2) == d + t;
        SamePrefix(d, WithSeparator(w), t);
        assert t == [t[0]] + u;
      }
    }
  }

  lemma SamePrefix(d: seq<Row>, a: seq<Row>, b: seq<Row>)
    ensures d + a == d + b <==> a == b
  {
    if d + a == d + b {
      assert a == (d + a)[|d|..] == (d + b)[|d|..] == b;
    }
  }

  // -------------------------------------------------------------------------
  // The selection

  predicate Acceptable(rows: seq<Row>, i: int) {
    0 <= i < |rows| && CanAccept(rows[i].suggestion.id)
  }

  /** A selection is none, or a row that can be accepted. */
  predicate ValidSelection(rows: seq<Row>, sel: int) {
    sel == NO_SELECTION || Acceptable(rows, sel)
  }

  /** The first acceptable row from `i` on, or the number of rows. */
  function FirstFrom(rows: seq<Row>, i: nat): (r: nat)
    requires i <= |rows|
    ensures i <= r <= |rows| && (r < |rows| ==> Acceptable(rows, r))
    ensures forall k :: i <= k < r ==> !Acceptable(rows, k)
    decreases |rows| - i
  {
    if i == |rows| || Acceptable(rows, i) then i else FirstFrom(rows, i + 1)
  }

  /** The last acceptable row up to `i`, or no selection. */
  function LastUpTo(rows: seq<Row>, i: int): (r: int)
    requires NO_SELECTION <= i < |rows|
    ensures NO_SELECTION <= r <= i && (r >= 0 ==> Acceptable(rows, r))
    ensures forall k :: r < k <= i ==> !Acceptable(rows, k)
    decreases i + 1
  {
    if i == NO_SELECTION || Acceptable(rows, i) then i else LastUpTo(rows, i - 1)
  }

  /** `SetSelectedLine`: a new line that cannot be accepted clears the selection. */
  function Select(rows: seq<Row>, sel: int, line: int): int {
    if sel == line || Acceptable(rows, line) then line else NO_SELECTION
  }

  /** After an update the selection may lie beyond the list. */
  function Next(rows: seq<Row>, sel: int): int
    requires NO_SELECTION <= sel
  {
    var line := if sel >= |rows| then |rows| else FirstFrom(rows, sel + 1);
    Select(rows, sel, if line >= |rows| then 0 else line)
  }

  function Previous(rows: seq<Row>, sel: int): int
    requires NO_SELECTION <= sel <= |rows|
  {
    var line := if sel == NO_SELECTION then NO_SELECTION else LastUpTo(rows, sel - 1);
    Select(rows, sel, if line <= NO_SELECTION then |rows| - 1 else line)
  }

  /** The parallel vectors as rows. */
  function Zip(suggestions: seq<Suggestion>, values: seq<string>, labels: seq<string>): (r: seq<Row>)
    requires |suggestions| == |values| == |labels|
    ensures |r| == |suggestions|
    ensures forall i :: 0 <= i < |r| ==> r[i] == Row(suggestions[i], values[i], labels[i])
  {
    seq(|suggestions|, i requires 0 <= i < |suggestions| => Row(suggestions[i], values[i], labels[i]))
  }

  /** The first `i` of `n` new places hold their entries, and the old rows follow the new places. */
  ghost predicate Filled(values: seq<string>, labels: seq<string>, i: nat, n: nat,
                         ss: seq<Suggestion>, vs: seq<string>, ls: seq<string>,
                         s: seq<Suggestion>, v: seq<string>, l: seq<string>)
  {
    && i <= n == |values| <= |labels| && |s| == |v| == |l| && |ss| == |vs| == |ls| == n + |s|
    && ss[n..] == s && vs[n..] == v && ls[n..] == l
    && (forall k :: 0 <= k < i ==> ss[k] == Suggestion(values[k], labels[k], "", DatalistEntry))
    && (forall k :: 0 <= k < i ==> vs[k] == values[k] && ls[k] == labels[k])
  }

  lemma FillOne(values: seq<string>, labels: seq<string>, i: nat, n: nat,
                ss: seq<Suggestion>, vs: seq<string>, ls: seq<string>,
                s: seq<Suggestion>, v: seq<string>, l: seq<string>)
    requires i < n && Filled(values, labels, i, n, ss, vs, ls, s, v, l)
    ensures i < |ss| && i < |vs| && i < |ls|
    ensures Filled(values, labels, i + 1, n, ss[i := Suggestion(values[i], labels[i], "", DatalistEntry)],
                   vs[i := values[i]], ls[i := labels[i]], s, v, l)
  {
    KeepsTail(ss, n, i, Suggestion(values[i], labels[i], "", DatalistEntry));
    KeepsTail(vs, n, i, values[i]);
    KeepsTail(ls, n, i, labels[i]);
  }

  lemma KeepsTail<T>(a: seq<T>, n: nat, i: nat, x: T)
    requires i < n <= |a|
    ensures a[i := x][n..] == a[n..]
  {
  }

  lemma FilledRows(values: seq<string>, labels: seq<string>, ss: seq<Suggestion>, vs: seq<string>, ls: seq<string>,
                   s: seq<Suggestion>, v: seq<string>, l: seq<string>)
    requires Filled(values, labels, |values|, |values|, ss, vs, ls, s, v, l)
    ensures Zip(ss, vs, ls) == DatalistRows(values, labels) + Zip(s, v, l)
  {
    var n, z, d, tail := |values|, Zip(ss, vs, ls), DatalistRows(values, labels), Zip(s, v, l);
    forall k | 0 <= k < |z|
      ensures z[k] == (d + tail)[k]
    {
      if k < n {
        assert z[k] == d[k];
      } else {
        assert ss[k] == ss[n..][k - n] && vs[k] == vs[n..][k - n] && ls[k] == ls[n..][k - n];
        assert z[k] == tail[k - n];
      }
    }
  }

  class Controller {
    var suggestions: seq<Suggestion>
    var elidedValues: seq<string>
    var elidedLabels: seq<string>
    var selectedLine: int
    var hidden: bool

    predicate Valid()
      reads this`suggestions, this`elidedValues, this`elidedLabels
    {
      |suggestions| == |elidedValues| == |elidedLabels|
    }

    function Rows(): seq<Row>
      requires Valid()
      reads this`suggestions, this`elidedValues, this`elidedLabels
    {
      Zip(suggestions, elidedValues, elidedLabels)
    }

    method EraseFirst()
      requires Valid() && suggestions != []
      modifies this`suggestions, this`elidedValues, this`elidedLabels
      ensures Valid() && Rows() == old(Rows())[1..]
    {
      suggestions := suggestions[1..];
      elidedValues := elidedValues[1..];
      elidedLabels := elidedLabels[1..];
    }

    /** The old datalist entries, which stand at the top. */
    method RemoveDatalist()
      requires Valid()
      modifies this`suggestions, this`elidedValues, this`elidedLabels
      ensures Valid() && Rows() == DropDatalist(old(Rows()))
    {
      while suggestions != [] && suggestions[0].id == DatalistEntry
        invariant Valid()
        invariant DropDatalist(Rows()) == DropDatalist(old(Rows()))
        decreases |suggestions|
      {
        EraseFirst();
      }
    }

    method UpdateDataListValues(values: seq<string>, labels: seq<string>)
      requires Valid() && |labels| >= |values|
      modifies this`suggestions, this`elidedValues, this`elidedLabels, this`hidden
      ensures Valid() && Rows() == Updated(old(Rows()), values, labels)
      ensures hidden == (old(hidden) || (values == [] && !HasSuggestions(Rows())))
    {
      RemoveDatalist();
      hide DropDatalist, DatalistRows;
      if values == [] {
        if suggestions != [] && suggestions[0].id == Separator {
          EraseFirst();
        }
        if !HasSuggestions(Rows()) {
          hidden := true;
        }
        return;
      }
      ghost var rest := Rows();
      if suggestions != [] && suggestions[0].id != Separator {
        suggestions := [Suggestion("", "", "", Separator)] + suggestions;
        elidedValues := [""] + elidedValues;
        elidedLabels := [""] + elidedLabels;
        assert Rows() == [SEPARATOR_ROW] + rest;
      }
      Prepend(values, labels);
    }

    method Prepend(values: seq<string>, labels: seq<string>)
      requires Valid() && |labels| >= |values|
      modifies this`suggestions, this`elidedValues, this`elidedLabels
      ensures Valid() && Rows() == DatalistRows(values, labels) + old(Rows())
    {
      var n := |values|;
      ghost var s, v, l := suggestions, elidedValues, elidedLabels;
      suggestions := seq(n, _ => Suggestion("", "", "", OtherItem(0))) + suggestions;
      elidedValues := seq(n, _ => "") + elidedValues;
      elidedLabels := seq(n, _ => "") + elidedLabels;
      var i := 0;
      while i < n
        invariant 0 <= i <= n && Filled(values, labels, i, n, suggestions, elidedValues, elidedLabels, s, v, l)
      {
        FillOne(values, labels, i, n, suggestions, elidedValues, elidedLabels, s, v, l);
        suggestions := suggestions[i := Suggestion(values[i], labels[i], "", DatalistEntry)];
        elidedValues := elidedValues[i := values[i]];
        elidedLabels := elidedLabels[i := labels[i]];
        i := i + 1;
      }
      FilledRows(values, labels, suggestions, elidedValues, elidedLabels, s, v, l);
    }

    method SetSelectedLine(line: int)
      requires Valid() && NO_SELECTION <= line < |suggestions|
      modifies this`selectedLine
      ensures selectedLine == Select(Rows(), old(selectedLine), line)
    {
      if selectedLine == line {
        return;
      }
      var chosen := line;
      if chosen != NO_SELECTION && !CanAccept(suggestions[chosen].id) {
        chosen := NO_SELECTION;
      }
      selectedLine := chosen;
    }

    /** On an empty list the source reads past the end; callers must have a row. */
    method SelectNextLine()
      requires Valid() && suggestions != [] && NO_SELECTION <= selectedLine
      modifies this`selectedLine
      ensures selectedLine == Next(Rows(), old(selectedLine))
    {
      var line := selectedLine + 1;
      while line < |suggestions| && !CanAccept(suggestions[line].id)
        invariant selectedLine + 1 <= line && (selectedLine < |suggestions| ==> line <= |suggestions|)
        invariant selectedLine < |suggestions| ==> FirstFrom(Rows(), line) == FirstFrom(Rows(), selectedLine + 1)
        decreases |suggestions| - line
      {
        line := line + 1;
      }
      if line >= |suggestions| {
        line := 0;
      }
      SetSelectedLine(line);
    }

    /** With a selection further beyond the list the source reads past the end. */
    method SelectPreviousLine()
      requires Valid() && NO_SELECTION <= selectedLine <= |suggestions|
      modifies this`selectedLine
      ensures selectedLine == Previous(Rows(), old(selectedLine))
    {
      var line := selectedLine - 1;
      while line > NO_SELECTION && !CanAccept(suggestions[line].id)
        invariant line < selectedLine && (selectedLine == NO_SELECTION ==> line < NO_SELECTION)
        invariant selectedLine > NO_SELECTION ==>
                    line >= NO_SELECTION && LastUpTo(Rows(), line) == LastUpTo(Rows(), selectedLine - 1)
        decreases line
      {
        line := line - 1;
      }
      if line <= NO_SELECTION {
        line := |suggestions| - 1;
      }
      SetSelectedLine(line);
    }

    method EraseAt(i: nat)
      requires Valid() && i < |suggestions|
      modifies this`suggestions, this`elidedValues, this`elidedLabels
      ensures Valid() && Rows() == old(Rows())[..i] + old(Rows())[i + 1..]
    {
      suggestions := suggestions[..i] + suggestions[i + 1..];
      elidedValues := elidedValues[..i] + elidedValues[i + 1..];
      elidedLabels := elidedLabels[..i] + elidedLabels[i + 1..];
    }

    method RemoveSelectedLine() returns (removed: bool)
      requires Valid() && NO_SELECTION <= selectedLine < |suggestions|
      modifies this
      ensures Valid()
      ensures removed == (old(selectedLine) != NO_SELECTION && CanDelete(old(suggestions)[old(selectedLine)].id))
      ensures !removed ==> Rows() == old(Rows()) && selectedLine == old(selectedLine) && hidden == old(hidden)
      ensures removed ==> Rows() == old(Rows())[..old(selectedLine)] + old(Rows())[old(selectedLine) + 1..] &&
                          selectedLine == NO_SELECTION && hidden == (old(hidden) || !HasSuggestions(Rows()))
    {
      if selectedLine == NO_SELECTION || !CanDelete(suggestions[selectedLine].id) {
        return false;
      }
      EraseAt(selectedLine);
      SetSelectedLine(NO_SELECTION);
      if !HasSuggestions(Rows()) {
        hidden := true;
      }
      return true;
    }
  }
}
