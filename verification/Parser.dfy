/** `PatchInfo.parse_stream` as a state machine over the lines of a patch. */
module Parser {
  import opened Text
  import opened Hunks
  import opened Decimal

  // -------------------------------------------------------------------------
  // The three regular expressions

  datatype Option<T> = None | Some(value: T)

  /** The numbers of a hunk header. */
  datatype Header = Header(startsrc: nat, linessrc: nat, starttgt: nat, linestgt: nat)

  /** `(,(\d+))?` at the start of `s`: the count, 1 if absent, and what follows. */
  function OptionalCount(s: string): (nat, string) {
    if s != [] && s[0] == ',' && DigitRun(s[1..]) > 0 then
      var k := DigitRun(s[1..]);
      (Value(s[1..][..k]), s[1..][k..])
    else (1, s)
  }

  /** `\d+(,(\d+))?` at the start of `s`. */
  function Range(s: string): Option<(nat, nat, string)> {
    var k := DigitRun(s);
    if k == 0 then None
    else
      var (count, rest) := OptionalCount(s[k..]);
      Some((Value(s[..k]), count, rest))
  }

  const AT := "@@ -"
  const PLUS := " +"

  /** `^@@ -(\d+)(,(\d+))? \+(\d+)(,(\d+))?` */
  function MatchHeader(line: string): Option<Header> {
    if !(AT <= line) then None
    else
      match Range(line[4..])
      case None => None
      case Some((startsrc, linessrc, rest)) =>
        if !(PLUS <= rest) then None
        else
          match Range(rest[2..])
          case None => None
          case Some((starttgt, linestgt, _)) => Some(Header(startsrc, linessrc, starttgt, linestgt))
  }

  const DASHES := "--- "
  const PLUSES := "+++ "

  /** `([^\t]+)` at the start of `s`. */
  function BeforeTab(s: string): string {
    if s == [] || s[0] == '\t' then [] else [s[0]] + BeforeTab(s[1..])
  }

  /** `^--- ([^\t]+)` and `^\+\+\+ ([^\t]+)`, for a line that starts with the four marks. */
  function MatchName(line: string): Option<string>
    requires |line| >= 4
  {
    var name := BeforeTab(line[4..]);
    if name == [] then None else Some(name)
  }

  predicate IsSpace(c: char) {
    c == ' ' || c == '\t' || c == '\n' || c == '\r' || c as int == 11 || c as int == 12
  }

  function StripLeft(s: string): string {
    if s == [] || !IsSpace(s[0]) then s else StripLeft(s[1..])
  }

  function StripRight(s: string): string {
    if s == [] || !IsSpace(s[|s| - 1]) then s else StripRight(s[..|s| - 1])
  }

  /** `s.strip()` */
  function Strip(s: string): string {
    StripRight(StripLeft(s))
  }

  /** White space to Python's `strip`: a blank, or one of tab, line feed, vertical tab, form feed and carriage return. */
  predicate Blank(s: string) {
    forall i :: 0 <= i < |s| ==> s[i] as int == 32 || 9 <= s[i] as int <= 13
  }

  /** `strip` takes white space off both ends, and all of it. */
  lemma {:induction false} StripExactly(s: string) returns (left: string, right: string)
    ensures s == left + Strip(s) + right && Blank(left) && Blank(right)
    ensures Strip(s) == [] || (!Blank([Strip(s)[0]]) && !Blank([Strip(s)[|Strip(s)| - 1]]))
  {
    hide StripLeft, StripRight, Blank;
    var inner := StripLeft(s);
    left := OffLeft(s);
    right := OffRight(inner);
    assert s == left + (StripRight(inner) + right);
    if StripRight(inner) != [] {
      assert inner[0] == StripRight(inner)[0];
    }
  }

  lemma {:induction false} OffLeft(s: string) returns (left: string)
    ensures s == left + StripLeft(s) && Blank(left)
    ensures StripLeft(s) != [] ==> !Blank([StripLeft(s)[0]])
  {
    if s == [] || !IsSpace(s[0]) {
      left := [];
      assert s != [] ==> [s[0]][0] == s[0];
    } else {
      var rest := OffLeft(s[1..]);
      left := [s[0]] + rest;
      assert s == [s[0]] + s[1..];
    }
  }

  lemma StripRightUnfold(s: string)
    requires s != []
    ensures var last := s[|s| - 1];
            if IsSpace(last) then StripRight(s) == StripRight(s[..|s| - 1]) && Blank([last])
            else StripRight(s) == s && !Blank([last])
  {
    hide StripRight;
    var last := [s[|s| - 1]];
    assert last[0] == s[|s| - 1];
    StripRightOne(s);
  }

  lemma StripRightOne(s: string)
    requires s != []
    ensures StripRight(s) == if IsSpace(s[|s| - 1]) then StripRight(s[..|s| - 1]) else s
  {
  }

  lemma BlankConcat(a: string, b: string)
    requires Blank(a) && Blank(b)
    ensures Blank(a + b)
  {
  }

  lemma {:induction false} OffRight(s: string) returns (right: string)
    ensures s == StripRight(s) + right && Blank(right)
    ensures StripRight(s) != [] ==> !Blank([StripRight(s)[|StripRight(s)| - 1]])
  {
    if s == [] {
      right := [];
    } else {
      hide StripRight, Blank, IsSpace;
      StripRightUnfold(s);
      if StripRight(s) == s && !Blank([s[|s| - 1]]) {
        right := [];
        NothingIsBlank();
      } else {
        var rest := OffRight(s[..|s| - 1]);
        right := rest + [s[|s| - 1]];
        BlankConcat(rest, [s[|s| - 1]]);
        LastAppended(s, StripRight(s), rest);
      }
    }
  }

  lemma LastAppended(s: string, text: string, rest: string)
    requires s != [] && s[..|s| - 1] == text + rest
    ensures s == text + (rest + [s[|s| - 1]])
  {
    assert s == s[..|s| - 1] + [s[|s| - 1]];
  }

  lemma NothingIsBlank()
    ensures Blank([])
  {
  }

  /** There is no name on such a line only if nothing, or a tab, comes after the marks. */
  lemma NamelessExactly(line: string)
    requires |line| >= 4
    ensures MatchName(line).None? <==> |line| == 4 || line[4] == '\t'
  {
    if |line| > 4 {
      assert line[4..][0] == line[4];
    }
  }

  // -------------------------------------------------------------------------
  // The state

  /** The five region flags, the counters, the hunk being read and the result so far. */
  datatype State = State(
    header: bool, filenames: bool, hunkhead: bool, hunkbody: bool, hunkskip: bool,
    nextfileno: nat, nexthunkno: nat,
    info: Hunk, actualsrc: nat, actualtgt: nat,
    source: seq<string>, target: seq<string>, hunks: seq<seq<Hunk>>, hunkends: seq<Ends>)

  /** A Python exception ends the parse. */
  datatype Outcome = Running(st: State) | Raised

  const INIT := State(true, false, false, false, false, 0, 0, Hunk(0, 0, 0, 0, []), 0, 0, [], [], [], [])

  predicate OneRegion(st: State) {
    (if st.header then 1 else 0) + (if st.filenames then 1 else 0) + (if st.hunkhead then 1 else 0) +
    (if st.hunkbody then 1 else 0) + (if st.hunkskip then 1 else 0) == 1
  }

  /** The tables have one row a file; source names may run ahead, by one while a target name is awaited. */
  predicate Tables(st: State) {
    && |st.target| == |st.hunks| == |st.hunkends| == st.nextfileno
    && |st.source| >= st.nextfileno
    && (st.hunkhead || st.hunkbody || st.hunkskip ==> st.nextfileno > 0)
    && (st.filenames ==> |st.source| > st.nextfileno)
  }

  /** Every stored hunk has exactly the lines its header declares. */
  predicate StoredWellFormed(st: State) {
    forall f :: 0 <= f < |st.hunks| ==> AllWellFormed(st.hunks[f])
  }

  /** While a body is read the counters are those of its lines and below or at the declared ones. */
  predicate BodyCounts(st: State) {
    && BodyLines(st.info.text)
    && st.actualsrc == |OldLines(st.info.text)| <= st.info.linessrc
    && st.actualtgt == |NewLines(st.info.text)| <= st.info.linestgt
  }

  predicate Inv(st: State) {
    OneRegion(st) && Tables(st) && StoredWellFormed(st) && (st.hunkbody ==> BodyCounts(st))
  }

  // -------------------------------------------------------------------------
  // One turn of the loop, stage by stage

  /** "--- " seen in the header region. */
  function StageHeader(st: State, line: string): State {
    if st.header && DASHES <= line then st.(header := false, filenames := true) else st
  }

  function StoreHunk(st: State): State
    requires 0 < st.nextfileno <= |st.hunks|
  {
    var f := st.nextfileno - 1;
    st.(hunks := st.hunks[f := st.hunks[f] + [st.info]], hunkbody := false, hunkskip := true)
  }

  /** A body line is counted and appended. */
  function TakeLine(st: State, line: string): State
    requires 0 < st.nextfileno <= |st.hunkends|
  {
    var f := st.nextfileno - 1;
    st.(hunkends := st.hunkends[f := st.hunkends[f].Add(line)],
        actualsrc := st.actualsrc + if IsOld(line) then 1 else 0,
        actualtgt := st.actualtgt + if IsNew(line) then 1 else 0,
        info := st.info.(text := st.info.text + [line]))
  }

  /** The body region. A line that does not belong to a body, or one too many, ends in a TypeError. */
  function StageBody(st: State, line: string): Outcome
    requires st.hunkbody ==> 0 < st.nextfileno == |st.hunks| == |st.hunkends|
  {
    if !st.hunkbody then Running(st)
    else if !BodyLine(line) then Raised
    else
      var st1 := TakeLine(st, line);
      if st1.actualsrc > st1.info.linessrc || st1.actualtgt > st1.info.linestgt then Raised
      else if st1.actualsrc == st1.info.linessrc && st1.actualtgt == st1.info.linestgt then Running(StoreHunk(st1))
      else Running(st1)
  }

  function StageSkip(st: State, line: string): State {
    if !st.hunkskip then st
    else if MatchHeader(line).Some? then st.(hunkskip := false, hunkhead := true)
    else if DASHES <= line then st.(hunkskip := false, filenames := true)
    else st
  }

  /** The file-name region; the flag says that the rest of the turn is skipped. */
  function StageNames(st: State, line: string): (State, bool) {
    if !st.filenames then (st, false)
    else if DASHES <= line then
      match MatchName(line)
      case None => (st.(filenames := false, header := true), false)
      case Some(name) => (st.(source := st.source + [Strip(name)]), false)
    else if !(PLUSES <= line) then (st.(filenames := false, header := true), false)
    else
      match MatchName(line)
      case None => (st.(filenames := false, header := true), false)
      case Some(name) =>
        (st.(target := st.target + [name], nextfileno := st.nextfileno + 1, filenames := false, hunkhead := true,
             nexthunkno := 0, hunks := st.hunks + [[]], hunkends := st.hunkends + [NO_ENDS]), true)
  }

  function StageHead(st: State, line: string): State {
    if !st.hunkhead then st
    else
      match MatchHeader(line)
      case None => st.(hunkhead := false, header := true)
      case Some(h) =>
        st.(info := Hunk(h.startsrc, h.linessrc, h.starttgt, h.linestgt, []), actualsrc := 0, actualtgt := 0,
            hunkhead := false, hunkbody := true, nexthunkno := st.nexthunkno + 1)
  }

  function Step(st: State, line: string): Outcome
    requires Inv(st)
  {
    match StageBody(StageHeader(st, line), line)
    case Raised => Raised
    case Running(st1) =>
      var (st2, done) := StageNames(StageSkip(st1, line), line);
      Running(if done then st2 else StageHead(st2, line))
  }

  /** The invariant between stages: the source name of a "--- " line may still be missing. */
  predicate Between(st: State, line: string) {
    && OneRegion(st) && StoredWellFormed(st) && (st.hunkbody ==> BodyCounts(st))
    && |st.target| == |st.hunks| == |st.hunkends| == st.nextfileno <= |st.source|
    && (st.hunkhead || st.hunkbody || st.hunkskip ==> st.nextfileno > 0)
    && (st.filenames ==> |st.source| > st.nextfileno || DASHES <= line)
  }

  lemma BodyKeeps(st: State, line: string)
    requires Between(st, line)
    ensures StageBody(st, line).Running? ==> Between(StageBody(st, line).st, line)
  {
    hide OldLines, NewLines, BodyLines;
    if st.hunkbody && BodyLine(line) {
      TextGrows(st.info.text, line);
      var text := st.info.text + [line];
      assert |OldLines(text)| == st.actualsrc + if IsOld(line) then 1 else 0;
      assert |NewLines(text)| == st.actualtgt + if IsNew(line) then 1 else 0;
      var f := st.nextfileno - 1;
      assert AllWellFormed(st.hunks[f]);
    }
  }

  lemma SkipKeeps(st: State, line: string)
    requires Between(st, line)
    ensures Between(StageSkip(st, line), line)
  {
    hide MatchHeader, AllWellFormed, BodyLines, OldLines, NewLines;
  }

  lemma NamesKeeps(st: State, line: string)
    requires Between(st, line)
    ensures Inv(StageNames(st, line).0)
  {
    hide MatchName, Strip, BodyLines, OldLines, NewLines;
    assert AllWellFormed([]);
  }

  lemma HeadKeeps(st: State, line: string)
    requires Inv(st)
    ensures Inv(StageHead(st, line))
  {
    hide MatchHeader;
    EmptyBody();
  }

  /** Every turn that does not raise keeps the invariant. */
  lemma StepKeepsInv(st: State, line: string)
    requires Inv(st)
    ensures Step(st, line).Running? ==> Inv(Step(st, line).st)
  {
    hide StageBody, StageSkip, StageNames, StageHead, AllWellFormed, OldLines, NewLines, BodyLines;
    var st0 := StageHeader(st, line);
    BodyKeeps(st0, line);
    if StageBody(st0, line).Running? {
      var st1 := StageBody(st0, line).st;
      SkipKeeps(st1, line);
      NamesKeeps(StageSkip(st1, line), line);
      HeadKeeps(StageNames(StageSkip(st1, line), line).0, line);
    }
  }

  lemma EmptyBody()
    ensures BodyLines([]) && OldLines([]) == [] && NewLines([]) == []
  {
  }

  lemma {:induction false} TextGrows(text: seq<string>, line: string)
    requires BodyLines(text) && BodyLine(line)
    ensures BodyLines(text + [line])
    ensures OldLines(text + [line]) == OldLines(text) + (if IsOld(line) then [Tail(line)] else [])
    ensures NewLines(text + [line]) == NewLines(text) + (if IsNew(line) then [Tail(line)] else [])
  {
    if text == [] {
      assert [line][1..] == [];
    } else {
      TextGrows(text[1..], line);
      assert (text + [line])[0] == text[0] && (text + [line])[1..] == text[1..] + [line];
    }
  }

  /** The loop from state `st` on. */
  function Run(st: State, lines: seq<string>): Outcome
    requires Inv(st)
    decreases |lines|
  {
    if lines == [] then Running(st)
    else
      StepKeepsInv(st, lines[0]);
      match Step(st, lines[0])
      case Raised => Raised
      case Running(st') => Run(st', lines[1..])
  }

  lemma InitInv()
    ensures Inv(INIT)
  {
  }

  /** What `parse_stream` leaves in the object. */
  datatype Result = Parsed(source: seq<string>, target: seq<string>, hunks: seq<seq<Hunk>>) | Failed

  /** At the end of the stream anything but the skip region is an error, reported through an unknown name. */
  function Parse(lines: seq<string>): Result {
    InitInv();
    match Run(INIT, lines)
    case Raised => Failed
    case Running(st) => if st.hunkskip then Parsed(st.source, st.target, st.hunks) else Failed
  }

  /** The invariant holds after every prefix that does not raise. */
  lemma {:induction false} RunKeepsInv(st: State, lines: seq<string>)
    requires Inv(st)
    ensures Run(st, lines).Running? ==> Inv(Run(st, lines).st)
    decreases |lines|
  {
    hide Step, Inv;
    if lines != [] {
      StepKeepsInv(st, lines[0]);
      if Step(st, lines[0]).Running? {
        RunKeepsInv(Step(st, lines[0]).st, lines[1..]);
      }
    }
  }

  lemma {:induction false} RunConcat(st: State, a: seq<string>, b: seq<string>)
    requires Inv(st)
    ensures Run(st, a).Running? ==> Inv(Run(st, a).st)
    ensures Run(st, a + b) == if Run(st, a).Raised? then Raised else Run(Run(st, a).st, b)
    decreases |a|
  {
    hide Step, Inv;
    RunKeepsInv(st, a);
    if a == [] {
      assert a + b == b;
    } else {
      StepKeepsInv(st, a[0]);
      assert (a + b)[0] == a[0] && (a + b)[1..] == a[1..] + b;
      if Step(st, a[0]).Running? {
        RunConcat(Step(st, a[0]).st, a[1..], b);
      }
    }
  }

  /** A successful parse gives one row a file, and hunks the patcher may rely on. */
  lemma ParsedIsWellFormed(lines: seq<string>)
    requires Parse(lines).Parsed?
    ensures var p := Parse(lines);
            |p.target| == |p.hunks| <= |p.source| && 0 < |p.hunks| &&
            forall f :: 0 <= f < |p.hunks| ==> AllWellFormed(p.hunks[f])
  {
    hide Run;
    InitInv();
    RunKeepsInv(INIT, lines);
  }

  // -------------------------------------------------------------------------
  // Which name a row of hunks belongs to

  /** For every target name, the index of the source name read last before it. */
  function Ranks(st: State, ks: seq<nat>, lines: seq<string>): seq<nat>
    requires Inv(st)
    decreases |lines|
  {
    if lines == [] then ks
    else
      StepKeepsInv(st, lines[0]);
      match Step(st, lines[0])
      case Raised => ks
      case Running(st') => Ranks(st', Ranked(st, st', ks), lines[1..])
  }

  function Ranked(st: State, st': State, ks: seq<nat>): seq<nat> {
    if st'.nextfileno > st.nextfileno && st'.source != [] then ks + [|st'.source| - 1] else ks
  }

  predicate Increasing(ks: seq<nat>) {
    forall i, j :: 0 <= i < j < |ks| ==> ks[i] < ks[j]
  }

  /** While a target name is awaited there is a new source name; from then on none is added until the next file. */
  predicate RankInv(st: State, ks: seq<nat>) {
    && |ks| == st.nextfileno && Increasing(ks)
    && (ks != [] ==> ks[|ks| - 1] < |st.source|)
    && (st.filenames && ks != [] ==> ks[|ks| - 1] < |st.source| - 1)
    && (st.hunkhead || st.hunkbody || st.hunkskip ==> ks != [] && ks[|ks| - 1] == |st.source| - 1)
  }

  lemma StepKeepsRanks(st: State, ks: seq<nat>, line: string)
    requires Inv(st) && RankInv(st, ks)
    ensures Step(st, line).Running? ==> RankInv(Step(st, line).st, Ranked(st, Step(st, line).st, ks))
  {
    hide MatchHeader, MatchName, Strip, OldLines, NewLines, BodyLines, AllWellFormed, Increasing;
    if Step(st, line).Running? {
      var st' := Step(st, line).st;
      assert |st'.source| >= |st.source|;
      assert st'.nextfileno == st.nextfileno ||
             (st'.nextfileno == st.nextfileno + 1 && st.filenames && st'.source == st.source);
      if st'.nextfileno > st.nextfileno {
        OneMoreRank(ks, |st'.source| - 1);
      }
    }
  }

  lemma OneMoreRank(ks: seq<nat>, k: nat)
    requires Increasing(ks) && (ks != [] ==> ks[|ks| - 1] < k)
    ensures Increasing(ks + [k])
  {
    forall i | 0 <= i < |ks|
      ensures ks[i] < k
    {
      assert i < |ks| - 1 ==> ks[i] < ks[|ks| - 1];
    }
  }

  lemma {:induction false} RunKeepsRanks(st: State, ks: seq<nat>, lines: seq<string>)
    requires Inv(st) && RankInv(st, ks)
    ensures Run(st, lines).Running? ==> Inv(Run(st, lines).st) && RankInv(Run(st, lines).st, Ranks(st, ks, lines))
    decreases |lines|
  {
    hide Step, Inv, RankInv, Ranked;
    if lines != [] {
      StepKeepsInv(st, lines[0]);
      StepKeepsRanks(st, ks, lines[0]);
      if Step(st, lines[0]).Running? {
        var st' := Step(st, lines[0]).st;
        RunKeepsRanks(st', Ranked(st, st', ks), lines[1..]);
      }
    }
  }

  lemma {:induction false} IncreasingIsAbove(ks: seq<nat>, i: nat)
    requires Increasing(ks) && i < |ks|
    ensures i <= ks[i] && ks[i] + (|ks| - 1 - i) <= ks[|ks| - 1]
    decreases |ks|
  {
    if i > 0 {
      assert ks[i - 1] < ks[i];
      IncreasingIsAbove(ks[..i], i - 1);
    }
    if i < |ks| - 1 {
      IncreasingReaches(ks, i);
    }
  }

  lemma {:induction false} IncreasingReaches(ks: seq<nat>, i: nat)
    requires Increasing(ks) && i < |ks|
    ensures ks[i] + (|ks| - 1 - i) <= ks[|ks| - 1]
    decreases |ks| - i
  {
    if i < |ks| - 1 {
      assert ks[i] < ks[i + 1];
      IncreasingReaches(ks, i + 1);
    }
  }

  /**
    Every target follows a source name of its own. Row `i` of the hunks stands under source
    name `i`, as `apply` takes for granted, exactly when there are no more sources than targets.
   */
  lemma {:induction false} RowsLineUp(lines: seq<string>)
    requires Parse(lines).Parsed?
    ensures Inv(INIT)
    ensures var p, ks := Parse(lines), Ranks(INIT, [], lines);
            && |ks| == |p.target| && Increasing(ks) && (forall i :: 0 <= i < |ks| ==> i <= ks[i] < |p.source|)
            && ((forall i :: 0 <= i < |ks| ==> ks[i] == i) <==> |p.source| == |p.target|)
  {
    hide Run, Ranks, Increasing;
    InitInv();
    EmptyRanks();
    RunKeepsRanks(INIT, [], lines);
    var p, ks := Parse(lines), Ranks(INIT, [], lines);
    forall i | 0 <= i < |ks|
      ensures i <= ks[i] < |p.source| && (|p.source| == |p.target| ==> ks[i] == i)
    {
      IncreasingIsAbove(ks, i);
    }
    assert ks[|ks| - 1] == |p.source| - 1;
  }

  lemma EmptyRanks()
    ensures RankInv(INIT, [])
  {
  }

  // -------------------------------------------------------------------------
  // When a parse raises

  /** A line inside a body that is no body line, or one more than the header declares. */
  predicate Malformed(st: State, line: string) {
    && st.hunkbody
    && (!BodyLine(line) || (IsOld(line) && st.actualsrc == st.info.linessrc) ||
        (IsNew(line) && st.actualtgt == st.info.linestgt))
  }

  /** A turn raises exactly on a malformed body. */
  lemma StepRaisesExactly(st: State, line: string)
    requires Inv(st)
    ensures Step(st, line).Raised? <==> Malformed(st, line)
  {
    hide StageSkip, StageNames, StageHead, OldLines, NewLines, BodyLines, AllWellFormed, MatchHeader;
  }

  /** A run raises exactly when some prefix leads into a body and the next line does not belong there. */
  lemma {:induction false} RunRaisesExactly(st: State, lines: seq<string>)
    requires Inv(st)
    ensures Run(st, lines).Raised? <==>
            exists k :: 0 <= k < |lines| && Run(st, lines[..k]).Running? && Malformed(Run(st, lines[..k]).st, lines[k])
    decreases |lines|
  {
    hide Step, Inv, Malformed;
    if lines != [] {
      var line, rest := lines[0], lines[1..];
      StepRaisesExactly(st, line);
      StepKeepsInv(st, line);
      assert lines[..0] == [];
      if Step(st, line).Running? {
        var st' := Step(st, line).st;
        RunRaisesExactly(st', rest);
        forall k | 0 <= k < |rest|
          ensures Run(st, lines[..k + 1]) == Run(st', rest[..k]) && lines[k + 1] == rest[k]
        {
          assert lines[..k + 1][1..] == rest[..k];
        }
        if k :| 0 <= k < |lines| && Run(st, lines[..k]).Running? && Malformed(Run(st, lines[..k]).st, lines[k]) {
          assert k > 0;
          assert Run(st, lines[..(k - 1) + 1]) == Run(st', rest[..k - 1]) && lines[(k - 1) + 1] == rest[k - 1];
        }
      } else {
        assert Run(st, lines[..0]).Running? && Malformed(Run(st, lines[..0]).st, lines[0]);
      }
    }
  }
}
