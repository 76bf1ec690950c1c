/** Lines of a patch that belong to no file: names without a target, and the statistics of line ends. */
module Strays {
  import opened Text
  import opened Hunks
  import opened Parser
  import opened Printer

  // -------------------------------------------------------------------------
  // Source names already read have no influence on what follows

  function Prefixed(names: seq<string>, st: State): State {
    st.(source := names + st.source)
  }

  function PrefixedResult(names: seq<string>, r: Result): Result {
    match r
    case Parsed(source, target, hunks) => Parsed(names + source, target, hunks)
    case Failed => Failed
  }

  lemma NamesPrefixed(names: seq<string>, st: State, line: string)
    ensures StageNames(Prefixed(names, st), line) ==
            (Prefixed(names, StageNames(st, line).0), StageNames(st, line).1)
  {
    hide MatchName, Strip;
    forall name: string
      ensures names + (st.source + [name]) == (names + st.source) + [name]
    {
    }
  }

  lemma SkipPrefixed(names: seq<string>, st: State, line: string)
    ensures StageHeader(Prefixed(names, st), line) == Prefixed(names, StageHeader(st, line))
    ensures StageSkip(Prefixed(names, st), line) == Prefixed(names, StageSkip(st, line))
  {
    hide MatchHeader;
  }

  lemma HeadPrefixed(names: seq<string>, st: State, line: string)
    ensures StageHead(Prefixed(names, st), line) == Prefixed(names, StageHead(st, line))
  {
    hide MatchHeader;
  }

  lemma TakePrefixed(names: seq<string>, st: State, line: string)
    requires 0 < st.nextfileno == |st.hunks| == |st.hunkends|
    ensures TakeLine(Prefixed(names, st), line) == Prefixed(names, TakeLine(st, line))
    ensures StoreHunk(Prefixed(names, st)) == Prefixed(names, StoreHunk(st))
    ensures StoreHunk(Prefixed(names, TakeLine(st, line))) == Prefixed(names, StoreHunk(TakeLine(st, line)))
  {
    hide IsOld, IsNew;
  }

  lemma BodyPrefixed(names: seq<string>, st: State, line: string)
    requires st.hunkbody ==> 0 < st.nextfileno == |st.hunks| == |st.hunkends|
    ensures StageBody(Prefixed(names, st), line) ==
            match StageBody(st, line)
            case Raised => Raised
            case Running(st') => Running(Prefixed(names, st'))
  {
    hide BodyLine, IsOld, IsNew, TakeLine, StoreHunk;
    if st.hunkbody {
      TakePrefixed(names, st, line);
      TakeKeepsRows(st, line);
    }
  }

  lemma TakeKeepsRows(st: State, line: string)
    requires 0 < st.nextfileno == |st.hunks| == |st.hunkends|
    ensures TakeLine(st, line).nextfileno == |TakeLine(st, line).hunks|
  {
  }

  lemma StepPrefixed(names: seq<string>, st: State, line: string)
    requires Inv(st)
    ensures Inv(Prefixed(names, st))
    ensures Step(Prefixed(names, st), line) ==
            match Step(st, line)
            case Raised => Raised
            case Running(st') => Running(Prefixed(names, st'))
  {
    var st0 := StageHeader(st, line);
    SkipPrefixed(names, st, line);
    BodyPrefixed(names, st0, line);
    hide StageHeader, StageBody, StageSkip, StageNames, StageHead, Prefixed, StoredWellFormed, BodyCounts;
    if StageBody(st0, line).Running? {
      var st1 := StageBody(st0, line).st;
      SkipPrefixed(names, st1, line);
      var st2 := StageSkip(st1, line);
      NamesPrefixed(names, st2, line);
      HeadPrefixed(names, StageNames(st2, line).0, line);
    }
    PrefixedInv(names, st);
  }

  lemma PrefixedInv(names: seq<string>, st: State)
    requires Inv(st)
    ensures Inv(Prefixed(names, st))
  {
  }

  lemma {:induction false} RunPrefixed(names: seq<string>, st: State, lines: seq<string>)
    requires Inv(st)
    ensures Inv(Prefixed(names, st))
    ensures Run(Prefixed(names, st), lines) ==
            match Run(st, lines)
            case Raised => Raised
            case Running(st') => Running(Prefixed(names, st'))
    decreases |lines|
  {
    hide Step, Inv;
    PrefixedInv(names, st);
    if lines != [] {
      StepPrefixed(names, st, lines[0]);
      StepKeepsInv(st, lines[0]);
      StepKeepsInv(Prefixed(names, st), lines[0]);
      if Step(st, lines[0]).Running? {
        RunPrefixed(names, Step(st, lines[0]).st, lines[1..]);
      }
    }
  }

  // -------------------------------------------------------------------------
  // A source name that no target name follows

  predicate StartsWithTarget(lines: seq<string>) {
    lines != [] && PLUSES <= lines[0] && MatchName(lines[0]).Some?
  }

  /** The lines to go on with: one that is no source name either is used up. */
  function GoOn(rest: seq<string>): seq<string> {
    if rest == [] || DASHES <= rest[0] then rest else rest[1..]
  }

  function AwaitTarget(name: string): State {
    INIT.(header := false, filenames := true, source := [name])
  }

  lemma NameRead(line: string)
    requires DASHES <= line && MatchName(line).Some?
    ensures Inv(INIT) && Inv(AwaitTarget(Strip(MatchName(line).value)))
    ensures Step(INIT, line) == Running(AwaitTarget(Strip(MatchName(line).value)))
  {
    hide MatchName, Strip, MatchHeader;
    InitInv();
  }

  /** Whatever comes next, the name is the only trace it leaves. */
  lemma AfterStrayName(name: string, rest: seq<string>)
    requires rest != [] && !StartsWithTarget(rest)
    ensures Inv(INIT) && Inv(AwaitTarget(name)) && Inv(Prefixed([name], INIT))
    ensures Run(AwaitTarget(name), rest) == Run(Prefixed([name], INIT), GoOn(rest))
  {
    hide MatchName, Strip, MatchHeader;
    var s, p, line := AwaitTarget(name), Prefixed([name], INIT), rest[0];
    InitInv();
    assert p == INIT.(source := [name]);
    assert [line] + rest[1..] == rest;
    if DASHES <= line {
      assert Step(s, line) == Step(p, line);
      assert Step(s, line).Running?;
      RunOne(s, line, rest[1..]);
      RunOne(p, line, rest[1..]);
    } else {
      assert Step(s, line) == Running(p);
      RunOne(s, line, rest[1..]);
    }
  }

  /**
    A source name that no target name follows stays in the list of names, and the rest is read
    as if it had not been there. So every later source name stands one row too low for its hunks.
   */
  lemma StrayNameStays(preamble: seq<string>, line: string, rest: seq<string>)
    requires forall i :: 0 <= i < |preamble| ==> !(DASHES <= preamble[i])
    requires DASHES <= line && MatchName(line).Some? && !StartsWithTarget(rest)
    ensures Parse(preamble + ([line] + rest)) == PrefixedResult([Strip(MatchName(line).value)], Parse(GoOn(rest)))
  {
    hide MatchName, Strip, Step, Run, StartsWithTarget;
    var name := Strip(MatchName(line).value);
    InitInv();
    PreambleRun(INIT, preamble);
    RunConcat(INIT, preamble, [line] + rest);
    NameRead(line);
    RunOne(INIT, line, rest);
    if rest == [] {
      RunNil(INIT);
      RunNil(AwaitTarget(name));
    } else {
      AfterStrayName(name, rest);
      RunPrefixed([name], INIT, GoOn(rest));
    }
  }

  // -------------------------------------------------------------------------
  // The statistics of line ends

  /** All body lines of a row of hunks. */
  function LinesOf(hs: seq<Hunk>): seq<string> {
    if hs == [] then [] else LinesOf(hs[..|hs| - 1]) + hs[|hs| - 1].text
  }

  /** Row `f` of the statistics counts the lines of the hunks of that row and of the body that is being read. */
  predicate EndsCounted(st: State) {
    |st.hunkends| == |st.hunks| == st.nextfileno &&
    forall f :: 0 <= f < |st.hunks| ==>
      st.hunkends[f] == CountEnds(LinesOf(st.hunks[f]) + if st.hunkbody && f == |st.hunks| - 1 then st.info.text else [])
  }

  lemma CountOne(lines: seq<string>, l: string)
    ensures CountEnds(lines + [l]) == CountEnds(lines).Add(l)
  {
    assert (lines + [l])[..|lines|] == lines;
  }

  lemma LinesSnoc(hs: seq<Hunk>, h: Hunk)
    ensures LinesOf(hs + [h]) == LinesOf(hs) + h.text
  {
    assert (hs + [h])[..|hs|] == hs;
  }

  lemma BodyCounted(st: State, line: string)
    requires EndsCounted(st) && (st.hunkbody ==> st.nextfileno > 0)
    ensures StageBody(st, line).Running? ==> EndsCounted(StageBody(st, line).st)
  {
    hide CountEnds, LinesOf, IsOld, IsNew, BodyLine;
    if st.hunkbody && StageBody(st, line).Running? {
      var f := st.nextfileno - 1;
      var lines := LinesOf(st.hunks[f]) + st.info.text;
      CountOne(lines, line);
      assert lines + [line] == LinesOf(st.hunks[f]) + (st.info.text + [line]);
      var h := st.info.(text := st.info.text + [line]);
      LinesSnoc(st.hunks[f], h);
      assert LinesOf(st.hunks[f] + [h]) + [] == LinesOf(st.hunks[f] + [h]);
    }
  }

  lemma SkipCounted(st: State, line: string)
    requires EndsCounted(st) && !st.hunkbody
    ensures EndsCounted(StageSkip(st, line)) && !StageSkip(st, line).hunkbody
  {
    hide MatchHeader, CountEnds, LinesOf;
  }

  lemma NamesCounted(st: State, line: string)
    requires EndsCounted(st) && !st.hunkbody
    ensures EndsCounted(StageNames(st, line).0) && !StageNames(st, line).0.hunkbody
  {
    assert CountEnds([]) == NO_ENDS && LinesOf([]) == [];
    hide MatchName, Strip, CountEnds, LinesOf;
  }

  lemma HeadCounted(st: State, line: string)
    requires EndsCounted(st) && !st.hunkbody
    ensures EndsCounted(StageHead(st, line))
  {
    hide MatchHeader, CountEnds, LinesOf;
  }

  lemma StillInBody(st: State, line: string)
    requires OneRegion(st) && st.hunkbody
    ensures StageSkip(st, line) == st && StageNames(st, line) == (st, false) && StageHead(st, line) == st
  {
  }

  lemma StepCounted(st: State, line: string)
    requires Inv(st) && EndsCounted(st)
    ensures Step(st, line).Running? ==> EndsCounted(Step(st, line).st)
  {
    hide StageBody, StageSkip, StageNames, StageHead, AllWellFormed, BodyLines, OldLines, NewLines;
    var st0 := StageHeader(st, line);
    assert EndsCounted(st0);
    BodyCounted(st0, line);
    BodyKeeps(st0, line);
    if StageBody(st0, line).Running? {
      var st1 := StageBody(st0, line).st;
      if st1.hunkbody {
        StillInBody(st1, line);
      } else {
        SkipCounted(st1, line);
        var st2 := StageSkip(st1, line);
        NamesCounted(st2, line);
        HeadCounted(StageNames(st2, line).0, line);
      }
    }
  }

  /** In every run the statistics of each file count the line ends of its stored hunks, and of the body being read. */
  lemma {:induction false} EndsAreCounted(st: State, lines: seq<string>)
    requires Inv(st) && EndsCounted(st)
    ensures Run(st, lines).Running? ==> EndsCounted(Run(st, lines).st)
    decreases |lines|
  {
    hide Step, Inv, EndsCounted;
    if lines != [] {
      StepKeepsInv(st, lines[0]);
      StepCounted(st, lines[0]);
      if Step(st, lines[0]).Running? {
        EndsAreCounted(Step(st, lines[0]).st, lines[1..]);
      }
    }
  }

  // -------------------------------------------------------------------------
  // Hunk numbers

  /** The number of a hunk is its place in the row of its file, counted from 1. */
  predicate Counting(st: State) {
    |st.hunks| == st.nextfileno &&
    (st.nextfileno > 0 ==> st.nexthunkno == |st.hunks[st.nextfileno - 1]| + if st.hunkbody then 1 else 0)
  }

  lemma BodyCounting(st: State, line: string)
    requires Counting(st) && (st.hunkbody ==> 0 < st.nextfileno == |st.hunks| == |st.hunkends|)
    ensures StageBody(st, line).Running? ==> Counting(StageBody(st, line).st)
  {
    hide BodyLine, IsOld, IsNew;
  }

  lemma SkipCounting(st: State, line: string)
    requires Counting(st) && !st.hunkbody
    ensures Counting(StageSkip(st, line)) && !StageSkip(st, line).hunkbody
  {
    hide MatchHeader;
  }

  lemma NamesCounting(st: State, line: string)
    requires Counting(st) && !st.hunkbody
    ensures Counting(StageNames(st, line).0) && !StageNames(st, line).0.hunkbody
  {
    hide MatchName, Strip;
  }

  lemma HeadCounting(st: State, line: string)
    requires Counting(st) && !st.hunkbody && (st.hunkhead ==> st.nextfileno > 0)
    ensures Counting(StageHead(st, line))
  {
    hide MatchHeader;
  }

  lemma StepCounts(st: State, line: string)
    requires Inv(st) && Counting(st)
    ensures Step(st, line).Running? ==> Counting(Step(st, line).st)
  {
    hide StageBody, StageSkip, StageNames, StageHead, AllWellFormed, BodyLines, OldLines, NewLines;
    var st0 := StageHeader(st, line);
    assert Counting(st0);
    BodyCounting(st0, line);
    BodyKeeps(st0, line);
    if StageBody(st0, line).Running? {
      var st1 := StageBody(st0, line).st;
      if st1.hunkbody {
        StillInBody(st1, line);
      } else {
        var st2 := StageSkip(st1, line);
        var st3 := StageNames(st2, line).0;
        SkipCounting(st1, line);
        NamesCounting(st2, line);
        SkipKeeps(st1, line);
        NamesKeeps(st2, line);
        HeadCounting(st3, line);
      }
    }
  }

  /** In every run the hunk being read has the number of the place where it will be stored. */
  lemma {:induction false} HunksAreNumbered(st: State, lines: seq<string>)
    requires Inv(st) && Counting(st)
    ensures Run(st, lines).Running? ==> Counting(Run(st, lines).st)
    decreases |lines|
  {
    hide Step, Inv, Counting;
    if lines != [] {
      StepKeepsInv(st, lines[0]);
      StepCounts(st, lines[0]);
      if Step(st, lines[0]).Running? {
        HunksAreNumbered(Step(st, lines[0]).st, lines[1..]);
      }
    }
  }
}
