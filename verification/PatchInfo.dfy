/** `PatchInfo.parse_stream` on objects: stored hunks are shallow copies that share a list of lines. */
module PatchInfo {
  import opened Text
  import opened Hunks
  import opened Parser

  /** A Python list of lines. */
  class TextList {
    var lines: seq<string>

    constructor ()
      ensures lines == []
    {
      lines := [];
    }

    method Append(line: string)
      modifies this
      ensures lines == old(lines) + [line]
    {
      lines := lines + [line];
    }
  }

  class HunkInfo {
    var startsrc: nat
    var linessrc: nat
    var starttgt: nat
    var linestgt: nat
    var text: TextList

    constructor ()
      ensures Value() == Hunk(0, 0, 0, 0, []) && fresh(text)
    {
      startsrc, linessrc, starttgt, linestgt := 0, 0, 0, 0;
      text := new TextList();
    }

    ghost function Value(): Hunk
      reads this, text
    {
      Hunk(startsrc, linessrc, starttgt, linestgt, text.lines)
    }

    /** The assignments for a new header, with a new list. */
    method Reset(numbers: Header)
      modifies this
      ensures Value() == Hunk(numbers.startsrc, numbers.linessrc, numbers.starttgt, numbers.linestgt, [])
      ensures fresh(text)
    {
      startsrc := numbers.startsrc;
      linessrc := numbers.linessrc;
      starttgt := numbers.starttgt;
      linestgt := numbers.linestgt;
      text := new TextList();
    }

    /** `copy.copy(self)`: a new object with the very same list. */
    method Copy() returns (c: HunkInfo)
      ensures fresh(c) && c.Value() == Value() && c.text == text
    {
      c := new HunkInfo();
      c.startsrc, c.linessrc, c.starttgt, c.linestgt := startsrc, linessrc, starttgt, linestgt;
      c.text := text;
    }
  }

  class PatchInfo {
    var source: seq<string>
    var target: seq<string>
    var hunks: seq<seq<HunkInfo>>
    var hunkends: seq<Ends>
    ghost var Repr: set<object>
    ghost var place: map<TextList, (nat, nat)>

    constructor ()
    {
      source, target, hunks, hunkends := [], [], [], [];
      Repr, place := {}, map[];
    }

    /** The stored hunks have these values; every list of lines has one place in the table. */
    ghost predicate Stores(rows: seq<seq<Hunk>>)
      reads this`hunks, this`Repr, this`place, Repr
    {
      && |hunks| == |rows|
      && (forall f :: 0 <= f < |hunks| ==> |hunks[f]| == |rows[f]|)
      && (forall f, k :: 0 <= f < |hunks| && 0 <= k < |hunks[f]| ==> StoredAt(hunks[f][k], f, k, rows[f][k]))
    }

    ghost predicate StoredAt(h: HunkInfo, f: nat, k: nat, value: Hunk)
      reads this`Repr, this`place, Repr
    {
      h in Repr && h.text in Repr && h.text in place && place[h.text] == (f, k) && h.Value() == value
    }

    /** `self.hunks[nextfileno-1].append(hunkinfo.copy())` */
    method StoreCopy(f: nat, hunkinfo: HunkInfo, ghost rows: seq<seq<Hunk>>)
      requires Stores(rows) && f < |hunks| && hunkinfo.text !in Repr && this !in Repr && hunkinfo.text as object != this
      modifies this`hunks, this`Repr, this`place
      ensures Stores(rows[f := rows[f] + [hunkinfo.Value()]])
      ensures fresh(Repr - old(Repr) - {hunkinfo.text}) && old(Repr) <= Repr
    {
      var c := hunkinfo.Copy();
      place := place[c.text := (f, |hunks[f]|)];
      hunks := hunks[f := hunks[f] + [c]];
      Repr := Repr + {c, c.text};
    }

    method AddTarget(name: string, ghost rows: seq<seq<Hunk>>)
      requires Stores(rows) && this !in Repr
      modifies this`target, this`hunks, this`hunkends
      ensures target == old(target) + [name] && Stores(rows + [[]]) && hunkends == old(hunkends) + [NO_ENDS]
    {
      target := target + [name];
      hunks := hunks + [[]];
      hunkends := hunkends + [NO_ENDS];
    }

    lemma StoresLength(rows: seq<seq<Hunk>>)
      requires Stores(rows)
      ensures |hunks| == |rows|
    {
    }

    lemma StoresNothing()
      requires hunks == []
      ensures Stores([])
    {
    }

    /** No two stored hunks share their list of lines. */
    lemma NoListShared(rows: seq<seq<Hunk>>, f: nat, k: nat, f': nat, k': nat)
      requires Stores(rows) && f < |hunks| && k < |hunks[f]| && f' < |hunks| && k' < |hunks[f']|
      ensures hunks[f][k].text == hunks[f'][k'].text <==> f == f' && k == k'
    {
      assert StoredAt(hunks[f][k], f, k, rows[f][k]) && StoredAt(hunks[f'][k'], f', k', rows[f'][k']);
    }

    /** The fields agree with the state. */
    ghost predicate Shows(st: State)
      reads this, Repr
    {
      source == st.source && target == st.target && hunkends == st.hunkends && Stores(st.hunks)
    }

    method ParseStream(stream: seq<string>) returns (raised: bool)
      modifies this
      ensures raised <==> Parse(stream).Failed?
      ensures !raised ==> source == Parse(stream).source && target == Parse(stream).target && Stores(Parse(stream).hunks)
    {
      hide Run, Inv, StageHeader, StageBody, StageSkip, StageNames, StageHead, Stores, ParseLoop.Shows;
      source, target, hunks, hunkends := [], [], [], [];
      Repr, place := {}, map[];
      StoresNothing();
      var loop := new ParseLoop(this);
      InitInv();
      ghost var st := INIT;
      assert stream[0..] == stream;
      var lineno := 0;
      while lineno < |stream|
        invariant 0 <= lineno <= |stream|
        invariant Inv(st) && Run(INIT, stream) == Run(st, stream[lineno..])
        invariant fresh(loop) && loop.patch == this && fresh(loop.hunkinfo) && fresh(loop.hunkinfo.text) && fresh(Repr)
        invariant loop.Shows(st)
      {
        var line := stream[lineno];
        lineno := lineno + 1;
        RunTurn(st, stream, lineno);
        loop.HeaderRegion(line, st);
        ghost var st0 := StageHeader(st, line);
        HeaderFacts(st, line);
        var error := loop.BodyRegion(line, st0);
        if error {
          return true;
        }
        ghost var st1 := StageBody(st0, line).st;
        loop.SkipRegion(line, st1);
        ghost var st2 := StageSkip(st1, line);
        HeadFacts(st, line);
        var next := loop.NamesRegion(line, st2);
        st := StageNames(st2, line).0;
        if next {
          continue;
        }
        loop.HeadRegion(line, st);
        st := StageHead(st, line);
      }
      RunEnd(st, stream);
      loop.ShowsFacts(st);
      return !loop.hunkskip;
    }
  }

  /** The local variables of `parse_stream` and the blocks of its loop, one for each region. */
  class ParseLoop {
    const patch: PatchInfo
    var header: bool
    var filenames: bool
    var hunkhead: bool
    var hunkbody: bool
    var hunkskip: bool
    var nextfileno: nat
    var nexthunkno: nat
    var hunkinfo: HunkInfo
    var actualsrc: nat
    var actualtgt: nat

    constructor (patch: PatchInfo)
      requires patch.Shows(INIT) && patch.Repr == {}
      ensures this.patch == patch && Shows(INIT) && fresh(hunkinfo) && fresh(hunkinfo.text)
    {
      hide PatchInfo.Stores;
      this.patch := patch;
      header, filenames, hunkhead, hunkbody, hunkskip := true, false, false, false, false;
      nextfileno, nexthunkno, actualsrc, actualtgt := 0, 0, 0, 0;
      hunkinfo := new HunkInfo();
    }

    /** The hunk being read is not stored, nor is its list of lines while a body is read. */
    ghost predicate Apart()
      reads this, patch, hunkinfo
    {
      patch !in patch.Repr && this !in patch.Repr && hunkinfo !in patch.Repr && (hunkbody ==> hunkinfo.text !in patch.Repr)
    }

    ghost predicate Shows(st: State)
      reads this, patch, patch.Repr, hunkinfo, hunkinfo.text
    {
      && header == st.header && filenames == st.filenames && hunkhead == st.hunkhead
      && hunkbody == st.hunkbody && hunkskip == st.hunkskip
      && nextfileno == st.nextfileno && nexthunkno == st.nexthunkno
      && actualsrc == st.actualsrc && actualtgt == st.actualtgt && hunkinfo.Value() == st.info
      && patch.Shows(st) && Apart()
    }

    lemma ShowsFacts(st: State)
      requires Shows(st)
      ensures hunkskip == st.hunkskip && patch.Shows(st)
    {
    }

    method HeaderRegion(line: string, ghost st: State)
      requires Shows(st)
      modifies this`header, this`filenames
      ensures Shows(StageHeader(st, line))
    {
      hide PatchInfo.Stores, MatchHeader, MatchName, Strip;
      if header && DASHES <= line {
        header := false;
        filenames := true;
      }
    }

    method CountLine(line: string)
      requires BodyLine(line)
      modifies this`actualsrc, this`actualtgt
      ensures actualsrc == old(actualsrc) + if IsOld(line) then 1 else 0
      ensures actualtgt == old(actualtgt) + if IsNew(line) then 1 else 0
    {
      if line[0] == '-' {
        actualsrc := actualsrc + 1;
      } else if line[0] == '+' {
        actualtgt := actualtgt + 1;
      } else if line[0] != '\\' {
        actualsrc := actualsrc + 1;
        actualtgt := actualtgt + 1;
      }
    }

    method TakeBodyLine(line: string, ghost st: State)
      requires Shows(st) && st.hunkbody && BodyLine(line) && 0 < st.nextfileno == |st.hunks| == |st.hunkends|
      modifies this`actualsrc, this`actualtgt, patch`hunkends, hunkinfo.text
      ensures Shows(TakeLine(st, line))
    {
      hide PatchInfo.Stores, BodyLine, IsOld, IsNew, Ends.Add;
      var f := nextfileno - 1;
      patch.hunkends := patch.hunkends[f := patch.hunkends[f].Add(line)];
      CountLine(line);
      hunkinfo.text.Append(line);
    }

    /** Store the finished hunk and leave the region. */
    method FinishBody(ghost st: State)
      requires Shows(st) && st.hunkbody && 0 < st.nextfileno == |st.hunks|
      modifies this`hunkbody, this`hunkskip, patch`hunks, patch`Repr, patch`place
      ensures fresh(patch.Repr - old(patch.Repr) - {hunkinfo.text})
      ensures Shows(StoreHunk(st))
    {
      hide PatchInfo.Stores;
      patch.StoresLength(st.hunks);
      patch.StoreCopy(nextfileno - 1, hunkinfo, st.hunks);
      hunkbody := false;
      hunkskip := true;
    }

    method BodyRegion(line: string, ghost st: State) returns (raised: bool)
      requires Shows(st) && (st.hunkbody ==> 0 < st.nextfileno == |st.hunks| == |st.hunkends|)
      modifies this, patch, hunkinfo.text
      ensures hunkinfo == old(hunkinfo) && hunkinfo.text == old(hunkinfo.text)
      ensures fresh(patch.Repr - old(patch.Repr) - {hunkinfo.text})
      ensures raised <==> StageBody(st, line).Raised?
      ensures !raised ==> Shows(StageBody(st, line).st)
    {
      hide PatchInfo.Stores, BodyLine, IsOld, IsNew, Ends.Add, StoreHunk;
      if !hunkbody {
        return false;
      }
      var f := nextfileno - 1;
      patch.StoresLength(st.hunks);
      if !BodyLine(line) {
        patch.StoreCopy(f, hunkinfo, st.hunks);
        return true;
      }
      TakeBodyLine(line, st);
      if actualsrc > hunkinfo.linessrc || actualtgt > hunkinfo.linestgt {
        patch.StoreCopy(f, hunkinfo, st.hunks);
        return true;
      }
      if hunkinfo.linessrc == actualsrc && hunkinfo.linestgt == actualtgt {
        FinishBody(TakeLine(st, line));
      }
      return false;
    }

    method SkipRegion(line: string, ghost st: State)
      requires Shows(st)
      modifies this`hunkskip, this`hunkhead, this`filenames
      ensures Shows(StageSkip(st, line))
    {
      hide PatchInfo.Stores, MatchHeader, MatchName, Strip;
      if hunkskip {
        if MatchHeader(line).Some? {
          hunkskip := false;
          hunkhead := true;
        } else if DASHES <= line {
          hunkskip := false;
          filenames := true;
        }
      }
    }

    method SourceLine(line: string, ghost st: State)
      requires Shows(st) && st.filenames && DASHES <= line
      modifies this`filenames, this`header, patch`source
      ensures Shows(StageNames(st, line).0)
    {
      hide PatchInfo.Stores, MatchName, Strip;
      var name := MatchName(line);
      if name.None? {
        filenames := false;
        header := true;
      } else {
        patch.source := patch.source + [Strip(name.value)];
      }
    }

    method TargetLine(line: string, ghost st: State) returns (next: bool)
      requires Shows(st) && st.filenames && PLUSES <= line && !(DASHES <= line)
      modifies this`filenames, this`header, this`hunkhead, this`nextfileno, this`nexthunkno
      modifies patch`target, patch`hunks, patch`hunkends
      ensures Shows(StageNames(st, line).0) && next == StageNames(st, line).1
    {
      hide PatchInfo.Stores, MatchName;
      var name := MatchName(line);
      filenames := false;
      if name.None? {
        header := true;
        return false;
      }
      patch.AddTarget(name.value, st.hunks);
      nextfileno := nextfileno + 1;
      hunkhead := true;
      nexthunkno := 0;
      return true;
    }

    /** The flag is set by the `continue` of the block. */
    method NamesRegion(line: string, ghost st: State) returns (next: bool)
      requires Shows(st)
      modifies this`filenames, this`header, this`hunkhead, this`nextfileno, this`nexthunkno
      modifies patch`source, patch`target, patch`hunks, patch`hunkends
      ensures Shows(StageNames(st, line).0) && next == StageNames(st, line).1
    {
      hide PatchInfo.Stores, MatchName, Strip;
      next := false;
      if filenames {
        if DASHES <= line {
          NamesOfSourceGoOn(st, line);
          SourceLine(line, st);
        } else if !(PLUSES <= line) {
          filenames := false;
          header := true;
        } else {
          next := TargetLine(line, st);
        }
      }
    }

    method HeadRegion(line: string, ghost st: State)
      requires Shows(st) && (st.hunkhead ==> !st.hunkbody)
      modifies this, hunkinfo
      ensures Shows(StageHead(st, line))
      ensures hunkinfo == old(hunkinfo) && (hunkinfo.text == old(hunkinfo.text) || fresh(hunkinfo.text))
    {
      hide PatchInfo.Stores, MatchHeader, MatchName, Strip;
      if hunkhead {
        var numbers := MatchHeader(line);
        hunkhead := false;
        if numbers.None? {
          header := true;
        } else {
          hunkinfo.Reset(numbers.value);
          actualsrc, actualtgt := 0, 0;
          hunkbody := true;
          nexthunkno := nexthunkno + 1;
        }
      }
    }
  }

  lemma RunTurn(st: State, stream: seq<string>, n: nat)
    requires Inv(st) && 1 <= n <= |stream|
    ensures var r := Step(st, stream[n - 1]);
            match r
            case Raised => Run(st, stream[n - 1..]) == Raised
            case Running(st') => Inv(st') && Run(st, stream[n - 1..]) == Run(st', stream[n..])
  {
    hide Step, Inv;
    var line := stream[n - 1];
    StepKeepsInv(st, line);
    assert stream[n - 1..][0] == line && stream[n - 1..][1..] == stream[n..];
  }

  lemma RunEnd(st: State, stream: seq<string>)
    requires Inv(st)
    ensures Run(st, stream[|stream|..]) == Running(st)
  {
  }

  /** What the blocks need to know about the state at the top of the loop. */
  lemma HeaderFacts(st: State, line: string)
    requires Inv(st)
    ensures var st0 := StageHeader(st, line);
            st0.hunkbody ==> 0 < st0.nextfileno == |st0.hunks| == |st0.hunkends|
  {
  }

  lemma HeadFacts(st: State, line: string)
    requires Inv(st) && StageBody(StageHeader(st, line), line).Running?
    ensures var st3 := StageNames(StageSkip(StageBody(StageHeader(st, line), line).st, line), line).0;
            st3.hunkhead ==> !st3.hunkbody
  {
    hide StageBody, StageSkip, StageNames, AllWellFormed, OldLines, NewLines, BodyLines;
    var st0 := StageHeader(st, line);
    BodyKeeps(st0, line);
    var st1 := StageBody(st0, line).st;
    SkipKeeps(st1, line);
    NamesKeeps(StageSkip(st1, line), line);
  }

  lemma NamesOfSourceGoOn(st: State, line: string)
    requires DASHES <= line
    ensures !StageNames(st, line).1
  {
  }
}
