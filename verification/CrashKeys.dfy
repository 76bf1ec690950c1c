/** The dynamic crash keys of Windows: a bounded map kept in a block of slots reserved at start-up. */
module CrashKeys {
  import opened Decimal
  import opened Records

  const MAX_DYNAMIC_ENTRIES: nat := 256
  const MAX_PLUGIN_PATH_LENGTH: nat := 256
  const PLACEHOLDER: string := "unspecified-crash-key"
  const PLUGIN_CHUNK: string := "plugin-path-chunk-"

  datatype Entry = Entry(name: string, value: string)

  function Truncate(s: string, limit: nat): (r: string)
    ensures r <= s && |r| == if |s| <= limit then |s| else limit
  {
    if |s| <= limit then s else s[..limit]
  }

  // -------------------------------------------------------------------------
  // The bounded map

  /** Keys in the order they were first set, and the latest value of each. */
  datatype Table = Table(order: seq<string>, latest: map<string, string>)

  predicate NoRepeats(s: seq<string>) {
    forall i, j :: 0 <= i < j < |s| ==> s[i] != s[j]
  }

  ghost predicate WellFormed(t: Table) {
    NoRepeats(t.order) && |t.order| <= MAX_DYNAMIC_ENTRIES && forall k :: k in t.latest <==> k in t.order
  }

  /** A new key is refused when the table is full; an old one always takes the new value. */
  function SetKey(t: Table, key: string, value: string): Table {
    if key in t.latest then t.(latest := t.latest[key := value])
    else if |t.order| >= MAX_DYNAMIC_ENTRIES then t
    else Table(t.order + [key], t.latest[key := value])
  }

  function ClearKey(t: Table, key: string): Table {
    if key in t.latest then t.(latest := t.latest[key := ""]) else t
  }

  /** Setting a key, truncated to `limit`, and clearing it untruncated empties its slot only if nothing was cut off. */
  lemma ClearUndoesSetExactly(t: Table, key: string, value: string, limit: nat)
    requires WellFormed(t) && forall i :: 0 <= i < |t.order| ==> |t.order[i]| <= limit
    requires Truncate(key, limit) in t.latest || |t.order| < MAX_DYNAMIC_ENTRIES
    ensures var written := SetKey(t, Truncate(key, limit), value);
            var cleared := ClearKey(written, key);
            Truncate(key, limit) in cleared.latest &&
            (cleared.latest[Truncate(key, limit)] == "" <==> |key| <= limit || value == "") &&
            (|key| > limit ==> cleared == written)
  {
    assert |key| > limit ==> |Truncate(key, limit)| == limit && key !in t.order;
  }

  // -------------------------------------------------------------------------
  // Runs of the bounded map

  datatype Call = Set(key: string, value: string) | Clear(key: string)

  function Do(t: Table, call: Call): Table {
    match call
    case Set(key, value) => SetKey(t, key, value)
    case Clear(key) => ClearKey(t, key)
  }

  function Run(calls: seq<Call>): Table {
    if calls == [] then Table([], map[]) else Do(Run(calls[..|calls| - 1]), calls[|calls| - 1])
  }

  /** The distinct keys ever set, in the order of their first setting. */
  function KeysSet(calls: seq<Call>): seq<string> {
    if calls == [] then []
    else
      var before, last := KeysSet(calls[..|calls| - 1]), calls[|calls| - 1];
      if last.Set? && last.key !in before then before + [last.key] else before
  }

  /** What the last call about a key left in it. */
  function LastWrite(calls: seq<Call>, key: string): string {
    if calls == [] then ""
    else
      var last := calls[|calls| - 1];
      if last.key != key then LastWrite(calls[..|calls| - 1], key)
      else if last.Set? then last.value else ""
  }

  function FirstOf(keys: seq<string>): (r: seq<string>)
    ensures r <= keys && |r| <= MAX_DYNAMIC_ENTRIES
  {
    if |keys| <= MAX_DYNAMIC_ENTRIES then keys else keys[..MAX_DYNAMIC_ENTRIES]
  }

  lemma OrderStep(t: Table, keys: seq<string>, call: Call)
    requires WellFormed(t) && t.order == FirstOf(keys)
    ensures Do(t, call).order == FirstOf(if call.Set? && call.key !in keys then keys + [call.key] else keys)
  {
    if call.Set? && call.key !in keys {
      assert call.key !in t.order && call.key !in t.latest;
    } else if call.Set? && |keys| <= MAX_DYNAMIC_ENTRIES {
      assert call.key in t.order;
    }
  }

  lemma ValueStep(t: Table, call: Call, key: string)
    requires key in Do(t, call).latest
    ensures if key == call.key then Do(t, call).latest[key] == if call.Set? then call.value else ""
            else key in t.latest && Do(t, call).latest[key] == t.latest[key]
  {
  }

  /** In every run the table holds exactly the first 256 distinct keys set, each with what was last written to it. */
  lemma {:induction false} RunIsBoundedMap(calls: seq<Call>)
    ensures WellFormed(Run(calls)) && Run(calls).order == FirstOf(KeysSet(calls))
    ensures forall key :: key in Run(calls).latest ==> Run(calls).latest[key] == LastWrite(calls, key)
  {
    hide WellFormed, Do, FirstOf;
    if calls == [] {
      EmptyTable();
    } else {
      var before, last := calls[..|calls| - 1], calls[|calls| - 1];
      RunIsBoundedMap(before);
      DoKeepsWellFormed(Run(before), last);
      OrderStep(Run(before), KeysSet(before), last);
      forall key | key in Run(calls).latest
        ensures Run(calls).latest[key] == LastWrite(calls, key)
      {
        ValueStep(Run(before), last, key);
      }
    }
  }

  lemma EmptyTable()
    ensures WellFormed(Table([], map[])) && FirstOf([]) == []
  {
  }

  lemma DoKeepsWellFormed(t: Table, call: Call)
    requires WellFormed(t)
    ensures WellFormed(Do(t, call)) && t.order <= Do(t, call).order
  {
    var u := Do(t, call);
    if u.order != t.order {
      assert call.key !in t.order && u.order == t.order + [call.key];
    }
  }

  /** The call as the table sees it: a set is cut to the limits, a clear is not. */
  function Cut(call: Call, nameMax: nat, valueMax: nat): Call
    requires nameMax > 0 && valueMax > 0
  {
    match call
    case Set(key, value) => Set(Truncate(key, nameMax - 1), Truncate(value, valueMax - 1))
    case Clear(_) => call
  }

  /** A name and a value are stored as far as they fit with a terminator; what is cleared is looked up as it stands. */
  lemma CutExactly(call: Call, nameMax: nat, valueMax: nat)
    requires nameMax > 0 && valueMax > 0
    ensures var c := Cut(call, nameMax, valueMax);
            match call
            case Set(key, value) =>
              && c.Set? && c.key <= key && c.value <= value
              && |c.key| + 1 == (if |key| < nameMax then |key| + 1 else nameMax)
              && |c.value| + 1 == (if |value| < valueMax then |value| + 1 else valueMax)
            case Clear(key) => c == Clear(key)
  {
  }

  function CutAll(calls: seq<Call>, nameMax: nat, valueMax: nat): (r: seq<Call>)
    requires nameMax > 0 && valueMax > 0
    ensures |r| == |calls|
  {
    seq(|calls|, i requires 0 <= i < |calls| => Cut(calls[i], nameMax, valueMax))
  }

  lemma RunOneMore(calls: seq<Call>, call: Call, nameMax: nat, valueMax: nat)
    requires nameMax > 0 && valueMax > 0
    ensures Run(CutAll(calls + [call], nameMax, valueMax)) ==
            Do(Run(CutAll(calls, nameMax, valueMax)), Cut(call, nameMax, valueMax))
  {
    var all := CutAll(calls + [call], nameMax, valueMax);
    assert all[..|all| - 1] == CutAll(calls, nameMax, valueMax);
  }

  // -------------------------------------------------------------------------
  // The slots

  /** The keys are numbered in order from `base`, one slot each. */
  ghost predicate Indexed(base: nat, slots: map<string, nat>, order: seq<string>) {
    && |slots| == |order| <= MAX_DYNAMIC_ENTRIES
    && (forall i :: 0 <= i < |order| ==> order[i] in slots && slots[order[i]] == base + i)
    && (forall key :: key in slots ==> base <= slots[key] < base + |order| && order[slots[key] - base] == key)
  }

  ghost predicate Written(entries: seq<Entry>, slots: map<string, nat>, latest: map<string, string>) {
    && slots.Keys == latest.Keys
    && forall key :: key in slots ==> slots[key] < |entries| && entries[slots[key]] == Entry(key, latest[key])
  }

  ghost predicate Blank(entries: seq<Entry>, from: nat) {
    forall p :: from <= p < |entries| ==> entries[p] == Entry(PLACEHOLDER, "")
  }

  ghost predicate Fits(latest: map<string, string>, nameMax: nat, valueMax: nat) {
    forall key :: key in latest ==> |key| < nameMax && |latest[key]| < valueMax
  }

  lemma FitsStill(latest: map<string, string>, key: string, value: string, nameMax: nat, valueMax: nat)
    requires Fits(latest, nameMax, valueMax) && (key in latest || |key| < nameMax) && |value| < valueMax
    ensures Fits(latest[key := value], nameMax, valueMax)
  {
  }

  /** What each slot holds: the fixed entries, then the table in the order of its keys, then placeholders. */
  ghost predicate Represents(fixed: seq<Entry>, entries: seq<Entry>, slots: map<string, nat>, t: Table) {
    && |entries| == |fixed| + MAX_DYNAMIC_ENTRIES && fixed <= entries
    && Indexed(|fixed|, slots, t.order) && Written(entries, slots, t.latest) && Blank(entries, |fixed| + |t.order|)
  }

  lemma IndexedKeys(base: nat, slots: map<string, nat>, order: seq<string>)
    requires Indexed(base, slots, order)
    ensures NoRepeats(order) && forall key :: key in slots <==> key in order
  {
    forall key
      ensures key in slots <==> key in order
    {
      if key in slots {
        assert order[slots[key] - base] == key;
      }
    }
    forall i, j | 0 <= i < j < |order|
      ensures order[i] != order[j]
    {
      assert slots[order[i]] != slots[order[j]];
    }
  }

  lemma WrittenInOrder(base: nat, entries: seq<Entry>, slots: map<string, nat>, t: Table)
    requires Indexed(base, slots, t.order) && Written(entries, slots, t.latest)
    ensures forall i :: 0 <= i < |t.order| ==>
              t.order[i] in t.latest && base + i < |entries| && entries[base + i] == Entry(t.order[i], t.latest[t.order[i]])
  {
    forall i | 0 <= i < |t.order|
      ensures t.order[i] in t.latest && base + i < |entries| && entries[base + i] == Entry(t.order[i], t.latest[t.order[i]])
    {
      assert t.order[i] in slots && slots[t.order[i]] == base + i;
      assert t.order[i] in slots.Keys;
    }
  }

  lemma KeysOf(base: nat, entries: seq<Entry>, slots: map<string, nat>, t: Table)
    requires Indexed(base, slots, t.order) && Written(entries, slots, t.latest)
    requires NoRepeats(t.order) && forall key :: key in slots <==> key in t.order
    ensures WellFormed(t) && |t.order| <= MAX_DYNAMIC_ENTRIES
  {
    assert forall key :: key in t.latest <==> key in slots.Keys;
  }

  /** A table kept in slots is a bounded map, and its keys stand in the reserved block in the order they were first set. */
  lemma SlotsInOrder(fixed: seq<Entry>, entries: seq<Entry>, slots: map<string, nat>, t: Table)
    requires Represents(fixed, entries, slots, t)
    ensures WellFormed(t) && |fixed| + |t.order| <= |entries| && entries[..|fixed|] == fixed
    ensures forall i :: 0 <= i < |t.order| ==>
              t.order[i] in t.latest && entries[|fixed| + i] == Entry(t.order[i], t.latest[t.order[i]])
  {
    hide Indexed, Written, Blank, NoRepeats, WellFormed;
    IndexedKeys(|fixed|, slots, t.order);
    KeysOf(|fixed|, entries, slots, t);
    WrittenInOrder(|fixed|, entries, slots, t);
    PrefixIs(fixed, entries);
  }

  lemma PrefixIs(fixed: seq<Entry>, entries: seq<Entry>)
    requires fixed <= entries
    ensures entries[..|fixed|] == fixed
  {
  }

  lemma SlotOf(base: nat, slots: map<string, nat>, order: seq<string>, key: string)
    requires Indexed(base, slots, order) && key in slots
    ensures base <= slots[key] < base + |order|
    ensures forall other :: other in slots && slots[other] == slots[key] ==> other == key
  {
    assert order[slots[key] - base] == key;
  }

  lemma PrefixKept(fixed: seq<Entry>, entries: seq<Entry>, p: nat, e: Entry)
    requires fixed <= entries && |fixed| <= p < |entries|
    ensures fixed <= entries[p := e]
  {
    assert entries[p := e][..|fixed|] == entries[..|fixed|];
  }

  lemma UpdateWritten(entries: seq<Entry>, slots: map<string, nat>, latest: map<string, string>, key: string,
                      value: string)
    requires Written(entries, slots, latest) && key in slots
    requires forall other :: other in slots && slots[other] == slots[key] ==> other == key
    ensures slots[key] < |entries| && entries[slots[key]].name == key && key in latest
    ensures Written(entries[slots[key] := Entry(key, value)], slots, latest[key := value])
  {
    assert latest[key := value].Keys == latest.Keys;
  }

  lemma BlankBeside(entries: seq<Entry>, from: nat, p: nat, e: Entry)
    requires Blank(entries, from) && p < from && p < |entries|
    ensures Blank(entries[p := e], from)
  {
  }

  lemma UpdateRepresents(fixed: seq<Entry>, entries: seq<Entry>, slots: map<string, nat>, t: Table, key: string,
                         value: string)
    requires Represents(fixed, entries, slots, t) && key in slots
    ensures slots[key] < |entries| && entries[slots[key]].name == key && key in t.latest
    ensures Represents(fixed, entries[slots[key] := Entry(key, value)], slots, t.(latest := t.latest[key := value]))
  {
    hide Indexed, Written, Blank;
    SlotOf(|fixed|, slots, t.order, key);
    UpdateWritten(entries, slots, t.latest, key, value);
    PrefixKept(fixed, entries, slots[key], Entry(key, value));
    BlankBeside(entries, |fixed| + |t.order|, slots[key], Entry(key, value));
  }

  lemma InsertIndexed(base: nat, slots: map<string, nat>, order: seq<string>, key: string)
    requires Indexed(base, slots, order) && key !in slots && |slots| < MAX_DYNAMIC_ENTRIES
    ensures |order| < MAX_DYNAMIC_ENTRIES && forall k :: k in slots ==> slots[k] != base + |order|
    ensures Indexed(base, slots[key := base + |order|], order + [key])
  {
    var s, o := slots[key := base + |order|], order + [key];
    forall i | 0 <= i < |o|
      ensures o[i] in s && s[o[i]] == base + i
    {
      if i < |order| {
        assert o[i] == order[i] && order[i] in slots;
      }
    }
    forall k | k in s
      ensures base <= s[k] < base + |o| && o[s[k] - base] == k
    {
      if k != key {
        assert k in slots && order[slots[k] - base] == k;
      }
    }
  }

  lemma InsertWritten(entries: seq<Entry>, slots: map<string, nat>, latest: map<string, string>, key: string,
                      value: string, slot: nat)
    requires Written(entries, slots, latest) && key !in slots && slot < |entries|
    requires forall k :: k in slots ==> slots[k] != slot
    ensures Written(entries[slot := Entry(key, value)], slots[key := slot], latest[key := value])
  {
    assert slots[key := slot].Keys == slots.Keys + {key} == latest[key := value].Keys;
  }

  lemma BlankBeyond(entries: seq<Entry>, from: nat, e: Entry)
    requires Blank(entries, from) && from < |entries|
    ensures Blank(entries[from := e], from + 1)
  {
  }

  lemma InsertRepresents(fixed: seq<Entry>, entries: seq<Entry>, slots: map<string, nat>, t: Table, key: string,
                         value: string)
    requires Represents(fixed, entries, slots, t) && key !in slots && |slots| < MAX_DYNAMIC_ENTRIES
    ensures |fixed| + |t.order| < |entries|
    ensures var slot := |fixed| + |t.order|;
            Represents(fixed, entries[slot := Entry(key, value)], slots[key := slot],
                       Table(t.order + [key], t.latest[key := value]))
  {
    hide Indexed, Written, Blank;
    var slot := |fixed| + |t.order|;
    InsertIndexed(|fixed|, slots, t.order, key);
    InsertWritten(entries, slots, t.latest, key, value, slot);
    BlankBeyond(entries, slot, Entry(key, value));
    PrefixKept(fixed, entries, slot, Entry(key, value));
  }

  /** The whole state of a table in use. */
  datatype Slots = Slots(fixed: seq<Entry>, entries: seq<Entry>, slots: map<string, nat>, offset: nat)

  ghost predicate Holds(s: Slots, t: Table, nameMax: nat, valueMax: nat) {
    && nameMax > 0 && valueMax > 0
    && Represents(s.fixed, s.entries, s.slots, t) && Fits(t.latest, nameMax, valueMax)
    && s.offset == |s.fixed| + |t.order|
  }

  lemma KeysAgree(s: Slots, t: Table, nameMax: nat, valueMax: nat)
    requires Holds(s, t, nameMax, valueMax)
    ensures s.slots.Keys == t.latest.Keys && |s.slots| == |t.order| && nameMax > 0 && valueMax > 0
  {
  }

  lemma UpdateHolds(s: Slots, t: Table, key: string, value: string, nameMax: nat, valueMax: nat)
    requires Holds(s, t, nameMax, valueMax) && key in s.slots && |value| < valueMax
    ensures s.slots[key] < |s.entries| && s.entries[s.slots[key]].name == key && key in t.latest
    ensures Holds(s.(entries := s.entries[s.slots[key] := Entry(key, value)]), t.(latest := t.latest[key := value]),
                  nameMax, valueMax)
  {
    hide Fits, Represents;
    UpdateRepresents(s.fixed, s.entries, s.slots, t, key, value);
    FitsStill(t.latest, key, value, nameMax, valueMax);
  }

  lemma InsertHolds(s: Slots, t: Table, key: string, value: string, nameMax: nat, valueMax: nat)
    requires Holds(s, t, nameMax, valueMax) && key !in s.slots && |s.slots| < MAX_DYNAMIC_ENTRIES
    requires |key| < nameMax && |value| < valueMax
    ensures s.offset < |s.entries| && key !in t.latest && |t.order| < MAX_DYNAMIC_ENTRIES
    ensures Holds(Slots(s.fixed, s.entries[s.offset := Entry(key, value)], s.slots[key := s.offset], s.offset + 1),
                  SetKey(t, key, value), nameMax, valueMax)
  {
    hide Fits, Represents;
    KeysAgree(s, t, nameMax, valueMax);
    InsertRepresents(s.fixed, s.entries, s.slots, t, key, value);
    FitsStill(t.latest, key, value, nameMax, valueMax);
  }

  lemma HeldInOrder(s: Slots, t: Table, nameMax: nat, valueMax: nat)
    requires Holds(s, t, nameMax, valueMax)
    ensures WellFormed(t) && s.entries[..|s.fixed|] == s.fixed && |s.entries| == |s.fixed| + MAX_DYNAMIC_ENTRIES
    ensures var block := s.entries[|s.fixed|..];
            (forall i :: 0 <= i < |t.order| ==>
               t.order[i] in t.latest && block[i] == Entry(t.order[i], t.latest[t.order[i]])) &&
            (forall i :: |t.order| <= i < |block| ==> block[i] == Entry(PLACEHOLDER, ""))
  {
    SlotsInOrder(s.fixed, s.entries, s.slots, t);
    hide Indexed, Written;
    var block := s.entries[|s.fixed|..];
    assert forall i :: 0 <= i < |block| ==> block[i] == s.entries[|s.fixed| + i];
  }

  /** The slots hold, in order, the first 256 distinct keys set, each with what was last written to it, then placeholders. */
  ghost predicate HoldsLastWrites(block: seq<Entry>, calls: seq<Call>) {
    var keys := FirstOf(KeysSet(calls));
    && |block| == MAX_DYNAMIC_ENTRIES
    && (forall i :: 0 <= i < |keys| ==> block[i] == Entry(keys[i], LastWrite(calls, keys[i])))
    && (forall i :: |keys| <= i < |block| ==> block[i] == Entry("unspecified-crash-key", ""))
  }

  lemma RunFillsSlots(s: Slots, calls: seq<Call>, nameMax: nat, valueMax: nat)
    requires Holds(s, Run(calls), nameMax, valueMax)
    ensures s.entries[..|s.fixed|] == s.fixed && |s.fixed| <= |s.entries|
    ensures HoldsLastWrites(s.entries[|s.fixed|..], calls)
  {
    hide Run, LastWrite, KeysSet, Holds, FirstOf;
    RunIsBoundedMap(calls);
    HeldInOrder(s, Run(calls), nameMax, valueMax);
  }

  class CrashKeyTable {
    const nameMax: nat
    const valueMax: nat
    var entries: seq<Entry>
    var dynamic: map<string, nat>
    var ready: bool
    var offset: nat

    ghost var fixed: seq<Entry>
    ghost var table: Table
    ghost var calls: seq<Call>

    ghost predicate InUse()
      reads this
    {
      ready && Holds(Now(), table, nameMax, valueMax)
    }

    /** `calls` are the calls made since the slots were reserved. */
    ghost predicate Valid()
      reads this
    {
      nameMax > 0 && valueMax > 0 && InUse() && table == Run(CutAll(calls, nameMax, valueMax))
    }

    /** After any calls: the fixed entries unchanged, then what the calls, cut to the limits, last wrote. */
    lemma SlotsHoldLastWrites()
      requires Valid()
      ensures |fixed| <= |entries| && entries[..|fixed|] == fixed
      ensures HoldsLastWrites(entries[|fixed|..], CutAll(calls, nameMax, valueMax))
    {
      hide Holds, Run, CutAll, HoldsLastWrites;
      RunFillsSlots(Now(), CutAll(calls, nameMax, valueMax), nameMax, valueMax);
    }

    ghost function Now(): Slots
      reads this
    {
      Slots(fixed, entries, dynamic, offset)
    }

    constructor (nameMax: nat, valueMax: nat)
      requires nameMax > 0 && valueMax > 0
      ensures !ready && entries == [] && this.nameMax == nameMax && this.valueMax == valueMax
    {
      this.nameMax, this.valueMax := nameMax, valueMax;
      entries, dynamic, ready, offset := [], map[], false, 0;
    }

    /** The end of `GetCustomInfo`: reserve the slots after the fixed entries. */
    method Reserve()
      requires !ready && nameMax > 0 && valueMax > 0
      modifies this
      ensures Valid() && fixed == old(entries) && calls == []
    {
      fixed, table := entries, Table([], map[]);
      offset := |entries|;
      var i := 0;
      while i < MAX_DYNAMIC_ENTRIES
        invariant 0 <= i <= MAX_DYNAMIC_ENTRIES && |entries| == |fixed| + i && fixed <= entries
        invariant fixed == old(entries) && offset == |fixed| && table == Table([], map[])
        invariant forall p :: |fixed| <= p < |entries| ==> entries[p] == Entry(PLACEHOLDER, "")
      {
        entries := entries + [Entry(PLACEHOLDER, "")];
        i := i + 1;
      }
      dynamic := map[];
      ready := true;
      calls := [];
    }

    /** `SetCrashKeyValueImpl` */
    method SetCrashKeyValue(key: string, value: string)
      requires ready ==> Valid()
      modifies this
      ensures !old(ready) ==> !ready && entries == old(entries)
      ensures old(ready) ==> Valid() && fixed == old(fixed) && calls == old(calls) + [Set(key, value)]
      ensures old(ready) ==>
                table == SetKey(old(table), Truncate(key, nameMax - 1), Truncate(value, valueMax - 1))
    {
      hide Holds, Run, CutAll;
      if !ready {
        return;
      }
      KeysAgree(Now(), table, nameMax, valueMax);
      var safeKey, safeValue := Truncate(key, nameMax - 1), Truncate(value, valueMax - 1);
      if safeKey in dynamic {
        Update(safeKey, safeValue);
      } else if |dynamic| < MAX_DYNAMIC_ENTRIES {
        Insert(safeKey, safeValue);
      }
      RunOneMore(calls, Set(key, value), nameMax, valueMax);
      calls := calls + [Set(key, value)];
    }

    method Update(key: string, value: string)
      requires InUse() && key in dynamic && |key| < nameMax && |value| < valueMax
      modifies this`entries, this`table
      ensures InUse() && table == SetKey(old(table), key, value)
    {
      hide Holds;
      UpdateHolds(Now(), table, key, value, nameMax, valueMax);
      entries := entries[dynamic[key] := Entry(key, value)];
      table := table.(latest := table.latest[key := value]);
    }

    method Insert(key: string, value: string)
      requires InUse() && key !in dynamic && |dynamic| < MAX_DYNAMIC_ENTRIES && |key| < nameMax && |value| < valueMax
      modifies this`entries, this`table, this`offset, this`dynamic
      ensures InUse() && table == SetKey(old(table), key, value)
    {
      hide Holds, SetKey;
      InsertHolds(Now(), table, key, value, nameMax, valueMax);
      var slot := offset;
      offset, dynamic, entries := offset + 1, dynamic[key := slot], entries[slot := Entry(key, value)];
      table := SetKey(table, key, value);
    }

    /** `ClearCrashKeyValueImpl`, which looks the key up as it is. */
    method ClearCrashKeyValue(key: string)
      requires ready ==> Valid()
      modifies this
      ensures !old(ready) ==> !ready && entries == old(entries)
      ensures old(ready) ==> Valid() && fixed == old(fixed) && calls == old(calls) + [Clear(key)]
      ensures old(ready) ==> table == ClearKey(old(table), key)
    {
      hide Holds, Run, CutAll;
      if !ready {
        return;
      }
      KeysAgree(Now(), table, nameMax, valueMax);
      if key in dynamic {
        Empty(key);
      }
      RunOneMore(calls, Clear(key), nameMax, valueMax);
      calls := calls + [Clear(key)];
    }

    method Empty(key: string)
      requires InUse() && key in dynamic && valueMax > 0
      modifies this`entries, this`table
      ensures InUse() && table == ClearKey(old(table), key)
    {
      hide Holds;
      UpdateHolds(Now(), table, key, "", nameMax, valueMax);
      var slot := dynamic[key];
      entries := entries[slot := entries[slot].(value := "")];
      table := table.(latest := table.latest[key := ""]);
    }

    /** `SetPluginPath`, called before the slots are reserved: the end of the path, cut into pieces that fit a value. */
    method SetPluginPath(path: string)
      requires !ready && valueMax > 1
      modifies this`entries
      ensures entries == old(entries) + AsEntries(PathChunks(PathEnd(path), valueMax - 1, 0))
      decreases |path|
    {
      if |path| > MAX_PLUGIN_PATH_LENGTH {
        SetPluginPath(path[|path| - MAX_PLUGIN_PATH_LENGTH..]);
      } else {
        PushChunks(path);
      }
    }

    method PushChunks(path: string)
      requires valueMax > 1 && |path| <= MAX_PLUGIN_PATH_LENGTH
      modifies this`entries
      ensures entries == old(entries) + AsEntries(PathChunks(path, valueMax - 1, 0))
    {
      hide PathChunks, AsEntries, Digits;
      var size := valueMax - 1;
      var chunkIndex: nat, chunkStart: nat := 0, 0;
      ghost var all := entries + AsEntries(PathChunks(path, size, 0));
      assert path[0..] == path;
      while chunkStart < |path|
        invariant chunkIndex <= chunkStart <= |path|
        invariant entries + AsEntries(PathChunks(path[chunkStart..], size, chunkIndex)) == all
        decreases |path| - chunkStart
      {
        var chunkLength := ChunkLen(size, |path| - chunkStart);
        PushOne(entries, path, size, chunkStart, chunkIndex);
        entries := entries + [Entry(PLUGIN_CHUNK + Digits(chunkIndex + 1), path[chunkStart..chunkStart + chunkLength])];
        chunkIndex := chunkIndex + 1;
        chunkStart := chunkStart + chunkLength;
      }
      NoPathChunks(path[chunkStart..], size, chunkIndex);
      assert entries + [] == entries;
    }
  }

  function PathEnd(path: string): (r: string)
    ensures |r| <= MAX_PLUGIN_PATH_LENGTH
  {
    if |path| > MAX_PLUGIN_PATH_LENGTH then path[|path| - MAX_PLUGIN_PATH_LENGTH..] else path
  }

  function PathChunks(path: string, size: nat, index: nat): seq<Record>
    requires size > 0
  {
    Chunks(PLUGIN_CHUNK, path, size, false, index)
  }

  function AsEntries(rs: seq<Record>): (r: seq<Entry>)
    ensures |r| == |rs|
  {
    seq(|rs|, i requires 0 <= i < |rs| => Entry(rs[i].name, rs[i].data))
  }

  /** Entry `k`, from 0 on, holds the `k`-th piece of the text and is numbered from 1 on. */
  predicate HoldsPiece(e: Entry, text: string, size: nat, k: nat) {
    var lo, hi := k * size, Least((k + 1) * size, |text|);
    0 <= lo < hi <= |text| && e == Entry("plugin-path-chunk-" + Digits(k + 1), text[lo..hi])
  }

  lemma PathPiece(end: string, size: nat, k: nat)
    requires size > 0 && |end| <= MAX_PLUGIN_PATH_LENGTH && k < |PathChunks(end, size, 0)|
    ensures HoldsPiece(AsEntries(PathChunks(end, size, 0))[k], end, size, k)
  {
    hide Chunks, Digits;
    ChunkCount(PLUGIN_CHUNK, end, size, false, 0);
    ChunkIsPiece(PLUGIN_CHUNK, end, size, false, 0, k);
    ChunkNames(PLUGIN_CHUNK, end, size, false, 0, k);
  }

  /** What `SetPluginPath` adds: of the last 256 characters of the path the pieces that fit a value, in order. */
  lemma {:induction false} PluginPathExactly(path: string, size: nat)
    requires size > 0
    ensures var entries := AsEntries(PathChunks(PathEnd(path), size, 0));
            var end := path[if |path| <= 256 then 0 else |path| - 256..];
            |entries| == (|end| + size - 1) / size && forall k :: 0 <= k < |entries| ==> HoldsPiece(entries[k], end, size, k)
  {
    hide PathChunks, Digits, AsEntries, HoldsPiece;
    var end := PathEnd(path);
    assert end == path[if |path| <= 256 then 0 else |path| - 256..];
    PathCount(end, size);
    forall k | 0 <= k < |PathChunks(end, size, 0)|
      ensures HoldsPiece(AsEntries(PathChunks(end, size, 0))[k], end, size, k)
    {
      PathPiece(end, size, k);
    }
  }

  lemma PathCount(end: string, size: nat)
    requires size > 0
    ensures |PathChunks(end, size, 0)| == (|end| + size - 1) / size
  {
    hide Chunks;
    ChunkCount(PLUGIN_CHUNK, end, size, false, 0);
  }

  lemma NoPathChunks(path: string, size: nat, index: nat)
    requires path == [] && size > 0
    ensures AsEntries(PathChunks(path, size, index)) == []
  {
  }

  lemma PushOne(entries: seq<Entry>, path: string, size: nat, start: nat, index: nat)
    requires size > 0 && start < |path| && index < MAX_PLUGIN_PATH_LENGTH
    ensures var len := ChunkLen(size, |path| - start);
            entries + AsEntries(PathChunks(path[start..], size, index)) ==
            entries + [Entry(PLUGIN_CHUNK + Digits(index + 1), path[start..start + len])] +
            AsEntries(PathChunks(path[start + len..], size, index + 1))
  {
    var len := ChunkLen(size, |path| - start);
    var name, data := PLUGIN_CHUNK + Digits(index + 1), path[start..start + len];
    CutOne(path, size, start, index);
    AsEntriesCons(Record(name, data), PathChunks(path[start + len..], size, index + 1));
    hide PathChunks, AsEntries, Digits;
  }

  lemma AsEntriesCons(r: Record, rs: seq<Record>)
    ensures AsEntries([r] + rs) == [Entry(r.name, r.data)] + AsEntries(rs)
  {
  }

  lemma CutOne(path: string, size: nat, start: nat, index: nat)
    requires size > 0 && start < |path| && index < MAX_PLUGIN_PATH_LENGTH
    ensures var len := ChunkLen(size, |path| - start);
            PathChunks(path[start..], size, index) ==
            [Record(PLUGIN_CHUNK + Digits(index + 1), path[start..start + len])] +
            PathChunks(path[start + len..], size, index + 1)
  {
    hide Chunks, Digits;
    var left, len := path[start..], ChunkLen(size, |path| - start);
    ChunksUnfold(PLUGIN_CHUNK, left, size, false, index);
    assert Next(index) == index + 1;
    CutAt(path, start, len);
  }

  lemma CutAt(path: string, start: nat, len: nat)
    requires start + len <= |path|
    ensures path[start..][..len] == path[start..start + len]
    ensures path[start..][len..] == path[start + len..]
  {
  }
}
