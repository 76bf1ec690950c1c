/** The loop of `PatchInfo.apply` that decides whether a file can be patched. */
module Validator {
  import opened Text
  import opened Hunks

  /** The variables of the loop. `hunk` is always the hunk number `hunkno`, or the last one. */
  datatype VState = VState(hunkno: nat, hunkfind: seq<string>, hunklineno: nat, validhunks: nat)

  /** How the treatment of one line ends. `Break` leaves the loop; `Raise` is an IndexError. */
  datatype VStep = Continue(st: VState) | Break(canpatch: bool, validhunks: nat) | Raise

  datatype Verdict = Checked(canpatch: bool, validhunks: nat) | Raised

  function Current(hs: seq<Hunk>, hunkno: nat): Hunk
    requires hs != []
  {
    if hunkno < |hs| then hs[hunkno] else hs[|hs| - 1]
  }

  /** Line number `n`, counted from 1, with content `line`. */
  function VLine(hs: seq<Hunk>, st: VState, n: nat, line: string): VStep
    requires hs != []
  {
    var hunk := Current(hs, st.hunkno);
    if n < hunk.startsrc then Continue(st)
    else
      var st1 := if n == hunk.startsrc then st.(hunkfind := Bare(OldLines(hunk.text)), hunklineno := 0) else st;
      var last := hunk.startsrc + |st1.hunkfind| - 1;
      if n < last then
        if st1.hunklineno >= |st1.hunkfind| then Raise
        else if RStrip(line) == st1.hunkfind[st1.hunklineno] then Continue(st1.(hunklineno := st1.hunklineno + 1))
        else if st1.hunkno + 1 < |hs| then Continue(st1.(hunkno := st1.hunkno + 1))
        else Break(false, st1.validhunks)
      else if n == last then
        var st2 := st1.(hunkno := st1.hunkno + 1, validhunks := st1.validhunks + 1);
        if st2.hunkno >= |hs| && st2.validhunks == |hs| then Break(true, st2.validhunks) else Continue(st2)
      else Continue(st1)
  }

  /** The loop over the lines from number `n` on. */
  function VRun(hs: seq<Hunk>, st: VState, n: nat, file: seq<string>): Verdict
    requires hs != [] && 1 <= n <= |file| + 1
    decreases |file| + 1 - n
  {
    if n > |file| then Checked(false, st.validhunks)
    else
      match VLine(hs, st, n, file[n - 1])
      case Continue(st') => VRun(hs, st', n + 1, file)
      case Break(canpatch, valid) => Checked(canpatch, valid)
      case Raise => Raised
  }

  const VINIT := VState(0, [], 0, 0)

  /** `self.hunks[fileno][0]` raises when the file has no hunk. */
  function Verdicts(hs: seq<Hunk>, file: seq<string>): Verdict {
    if hs == [] then Raised else VRun(hs, VINIT, 1, file)
  }

  method Validate(file: seq<string>, hunks: seq<Hunk>) returns (r: Verdict)
    ensures r == Verdicts(hunks, file)
  {
    hide VRun, RStrip, Bare, OldLines;
    if hunks == [] {
      return Raised;
    }
    var hunkno, validhunks, hunklineno := 0, 0, 0;
    var hunk := hunks[0];
    var hunkfind: seq<string> := [];
    var lineno := 0;
    while lineno < |file|
      invariant 0 <= lineno <= |file|
      invariant hunk == Current(hunks, hunkno)
      invariant VRun(hunks, VState(hunkno, hunkfind, hunklineno, validhunks), lineno + 1, file) == Verdicts(hunks, file)
    {
      var line := file[lineno];
      lineno := lineno + 1;
      VRunUnfold(hunks, VState(hunkno, hunkfind, hunklineno, validhunks), lineno, file);
      if lineno < hunk.startsrc {
        continue;
      } else if lineno == hunk.startsrc {
        hunkfind := Bare(OldLines(hunk.text));
        hunklineno := 0;
      }
      if lineno < hunk.startsrc + |hunkfind| - 1 {
        if hunklineno >= |hunkfind| {
          return Raised;
        }
        if RStrip(line) == hunkfind[hunklineno] {
          hunklineno := hunklineno + 1;
        } else {
          hunkno := hunkno + 1;
          if hunkno < |hunks| {
            hunk := hunks[hunkno];
            continue;
          } else {
            return Checked(false, validhunks);
          }
        }
      }
      if lineno == hunk.startsrc + |hunkfind| - 1 {
        hunkno := hunkno + 1;
        validhunks := validhunks + 1;
        if hunkno < |hunks| {
          hunk := hunks[hunkno];
        } else if validhunks == |hunks| {
          return Checked(true, validhunks);
        }
      }
    }
    VRunEnd(hunks, VState(hunkno, hunkfind, hunklineno, validhunks), lineno + 1, file);
    return Checked(false, validhunks);
  }

  lemma VRunUnfold(hs: seq<Hunk>, st: VState, n: nat, file: seq<string>)
    requires hs != [] && 1 <= n <= |file|
    ensures VRun(hs, st, n, file) ==
            match VLine(hs, st, n, file[n - 1])
            case Continue(st') => VRun(hs, st', n + 1, file)
            case Break(canpatch, valid) => Checked(canpatch, valid)
            case Raise => Raised
  {
  }

  lemma VRunEnd(hs: seq<Hunk>, st: VState, n: nat, file: seq<string>)
    requires hs != [] && n == |file| + 1
    ensures VRun(hs, st, n, file) == Checked(false, st.validhunks)
  {
  }

  // -------------------------------------------------------------------------
  // What the loop decides, for hunks that are in order and do not overlap

  predicate Ordered(c: nat, hs: seq<Hunk>) {
    (hs != [] ==> c <= Start(hs[0])) && forall i :: 0 < i < |hs| ==> End(hs[i - 1]) <= Start(hs[i])
  }

  /** The file reaches the last source line of the hunk and has all its source lines but the last. */
  predicate Passes(file: seq<string>, h: Hunk) {
    && h.startsrc >= 1 && h.linessrc >= 1 && End(h) <= |file|
    && forall k :: 0 <= k < h.linessrc - 1 ==> LineMatches(file, h, k)
  }

  predicate LineMatches(file: seq<string>, h: Hunk, k: nat) {
    Start(h) + k < |file| && k < |OldLines(h.text)| && RStrip(file[Start(h) + k]) == RStrip(OldLines(h.text)[k])
  }

  /** What the state promises about the final decision. */
  predicate Promise(hs: seq<Hunk>, st: VState, file: seq<string>) {
    && st.hunkno < |hs| && st.validhunks == st.hunkno
    && forall i :: st.hunkno <= i < |hs| ==> Passes(file, hs[i])
  }

  predicate Waiting(h: Hunk, st: VState, n: nat) {
    n <= h.startsrc
  }

  predicate Matching(h: Hunk, st: VState, n: nat, file: seq<string>) {
    && 1 <= h.startsrc < n < h.startsrc + h.linessrc
    && st.hunkfind == Bare(OldLines(h.text)) && st.hunklineno == n - h.startsrc
    && forall k :: 0 <= k < n - h.startsrc ==> LineMatches(file, h, k)
  }

  /** A hunk without source lines, or at line 0, is never left. */
  predicate Stuck(h: Hunk, st: VState, n: nat) {
    (h.startsrc == 0 || h.linessrc == 0) && h.startsrc < n && st.hunkfind == []
  }

  /** Every hunk has been passed or given up; nothing happens any more. */
  predicate Idle(h: Hunk, st: VState, n: nat) {
    h.startsrc < n && n > h.startsrc + |st.hunkfind| - 1
  }

  predicate Sound(hs: seq<Hunk>, st: VState, n: nat, file: seq<string>)
    requires hs != []
  {
    var h := Current(hs, st.hunkno);
    && st.validhunks <= st.hunkno <= |hs| && st.validhunks < |hs|
    && if st.hunkno < |hs| then Waiting(h, st, n) || Matching(h, st, n, file) || Stuck(h, st, n)
       else Idle(h, st, n)
  }

  /** Moving on to the next hunk after line `n`, which lies before the end of the current one. */
  lemma NextHunk(hs: seq<Hunk>, k: nat, n: nat)
    requires AllWellFormed(hs) && Ordered(0, hs) && k + 1 < |hs|
    requires 1 <= n <= End(hs[k]) && hs[k].linessrc >= 1
    ensures n + 1 <= hs[k + 1].startsrc
  {
    assert End(hs[k + 1 - 1]) <= Start(hs[k + 1]);
  }

  /** Looking at line `n` does not change what the state promises. */
  predicate KeepsPromise(hs: seq<Hunk>, st: VState, n: nat, file: seq<string>)
    requires hs != [] && 1 <= n <= |file|
  {
    match VLine(hs, st, n, file[n - 1])
    case Continue(st') => Sound(hs, st', n + 1, file) && (Promise(hs, st', file) <==> Promise(hs, st, file))
    case Break(canpatch, valid) => (canpatch <==> Promise(hs, st, file)) && (canpatch <==> valid == |hs|) && valid <= |hs|
    case Raise => false
  }

  lemma WaitingOrIdle(hs: seq<Hunk>, st: VState, n: nat, file: seq<string>)
    requires hs != [] && AllWellFormed(hs) && Ordered(0, hs) && 1 <= n <= |file| && Sound(hs, st, n, file)
    requires st.hunkno == |hs| || n < hs[st.hunkno].startsrc
    ensures KeepsPromise(hs, st, n, file)
  {
    hide RStrip, OldLines, Passes;
  }

  lemma WithoutSourceLines(hs: seq<Hunk>, st: VState, n: nat, file: seq<string>)
    requires hs != [] && AllWellFormed(hs) && Ordered(0, hs) && 1 <= n <= |file| && Sound(hs, st, n, file)
    requires st.hunkno < |hs| && n >= hs[st.hunkno].startsrc
    requires hs[st.hunkno].startsrc == 0 || hs[st.hunkno].linessrc == 0
    ensures KeepsPromise(hs, st, n, file)
  {
    hide RStrip, OldLines;
    var h := hs[st.hunkno];
    assert WellFormed(h);
    assert |Bare(OldLines(h.text))| == h.linessrc;
    assert !Passes(file, h);
  }

  /** What a line inside a hunk that has source lines does to the state. */
  lemma VLineInside(hs: seq<Hunk>, st: VState, n: nat, file: seq<string>)
    requires hs != [] && AllWellFormed(hs) && 1 <= n <= |file| && Sound(hs, st, n, file)
    requires st.hunkno < |hs| && n >= hs[st.hunkno].startsrc
    requires hs[st.hunkno].startsrc >= 1 && hs[st.hunkno].linessrc >= 1
    ensures var k, h := st.hunkno, hs[st.hunkno];
            var here := n - h.startsrc;
            var at := st.(hunkfind := Bare(OldLines(h.text)), hunklineno := here);
            here < h.linessrc && VLine(hs, st, n, file[n - 1]) ==
            if here == h.linessrc - 1 then
              var next := at.(hunkno := k + 1, validhunks := st.validhunks + 1);
              if k + 1 == |hs| && next.validhunks == |hs| then Break(true, next.validhunks) else Continue(next)
            else if LineMatches(file, h, here) then Continue(at.(hunklineno := here + 1))
            else if k + 1 < |hs| then Continue(at.(hunkno := k + 1))
            else Break(false, st.validhunks)
  {
    hide RStrip, OldLines;
    var h := hs[st.hunkno];
    assert WellFormed(h);
    assert |Bare(OldLines(h.text))| == h.linessrc;
    assert n < h.startsrc + h.linessrc ==>
           (LineMatches(file, h, n - h.startsrc) <==> RStrip(file[n - 1]) == Bare(OldLines(h.text))[n - h.startsrc]);
  }

  /** The lines before `n` in a hunk that is being matched are the ones it asks for. */
  lemma MatchedSoFar(hs: seq<Hunk>, st: VState, n: nat, file: seq<string>, k: nat)
    requires hs != [] && Sound(hs, st, n, file) && st.hunkno < |hs| && hs[st.hunkno].linessrc >= 1
    requires 1 <= hs[st.hunkno].startsrc <= hs[st.hunkno].startsrc + k < n
    ensures LineMatches(file, hs[st.hunkno], k)
  {
    hide LineMatches, Bare, OldLines;
  }

  /** A line inside a hunk that has source lines. */
  lemma InsideHunk(hs: seq<Hunk>, st: VState, n: nat, file: seq<string>)
    requires hs != [] && AllWellFormed(hs) && Ordered(0, hs) && 1 <= n <= |file| && Sound(hs, st, n, file)
    requires st.hunkno < |hs| && n >= hs[st.hunkno].startsrc
    requires hs[st.hunkno].startsrc >= 1 && hs[st.hunkno].linessrc >= 1
    ensures KeepsPromise(hs, st, n, file)
  {
    hide VLine, RStrip, OldLines, LineMatches, Bare;
    var k, h := st.hunkno, hs[st.hunkno];
    var here := n - h.startsrc;
    VLineInside(hs, st, n, file);
    forall j | 0 <= j < here
      ensures LineMatches(file, h, j)
    {
      MatchedSoFar(hs, st, n, file, j);
    }
    if k + 1 < |hs| {
      NextHunk(hs, k, n);
    }
    if here == h.linessrc - 1 {
      assert Passes(file, h);
    } else if !LineMatches(file, h, here) {
      assert !Passes(file, h);
    }
  }

  lemma StepSound(hs: seq<Hunk>, st: VState, n: nat, file: seq<string>)
    requires hs != [] && AllWellFormed(hs) && Ordered(0, hs)
    requires 1 <= n <= |file| && Sound(hs, st, n, file)
    ensures match VLine(hs, st, n, file[n - 1])
            case Continue(st') => Sound(hs, st', n + 1, file) && (Promise(hs, st', file) <==> Promise(hs, st, file))
            case Break(canpatch, valid) =>
              (canpatch <==> Promise(hs, st, file)) && (canpatch <==> valid == |hs|) && valid <= |hs|
            case Raise => false
  {
    hide VLine, Promise, Waiting, Matching, Stuck, Idle;
    if st.hunkno == |hs| || n < hs[st.hunkno].startsrc {
      WaitingOrIdle(hs, st, n, file);
    } else if hs[st.hunkno].startsrc == 0 || hs[st.hunkno].linessrc == 0 {
      WithoutSourceLines(hs, st, n, file);
    } else {
      InsideHunk(hs, st, n, file);
    }
  }

  lemma {:induction false} RunSound(hs: seq<Hunk>, st: VState, n: nat, file: seq<string>)
    requires hs != [] && AllWellFormed(hs) && Ordered(0, hs)
    requires 1 <= n <= |file| + 1 && Sound(hs, st, n, file)
    ensures var r := VRun(hs, st, n, file);
            r.Checked? && (r.canpatch <==> Promise(hs, st, file)) && (r.canpatch <==> r.validhunks == |hs|) &&
            r.validhunks <= |hs|
    decreases |file| + 1 - n
  {
    hide VLine, Bare, OldLines, VRun, LineMatches;
    if n <= |file| {
      VRunUnfold(hs, st, n, file);
      StepSound(hs, st, n, file);
      match VLine(hs, st, n, file[n - 1])
      case Continue(st') => RunSound(hs, st', n + 1, file);
      case Break(_, _) =>
    } else {
      VRunEnd(hs, st, n, file);
      if st.hunkno < |hs| {
        assert !Passes(file, hs[st.hunkno]);
      }
    }
  }

  /**
    The validator is exact for ordered, disjoint hunks: it says yes exactly when every hunk
    passes, a hunk without source lines never does, and the last source line is not compared.
   */
  lemma ValidatorExact(hs: seq<Hunk>, file: seq<string>)
    requires AllWellFormed(hs) && Ordered(0, hs)
    ensures var r := Verdicts(hs, file);
            (r.Raised? <==> hs == []) &&
            (r.Checked? ==> (r.canpatch <==> forall i :: 0 <= i < |hs| ==> Passes(file, hs[i])) &&
                            (r.canpatch <==> r.validhunks == |hs|) && r.validhunks <= |hs|)
  {
    hide VRun, Bare, OldLines, Passes;
    if hs != [] {
      assert Sound(hs, VINIT, 1, file);
      RunSound(hs, VINIT, 1, file);
    }
  }

  // -------------------------------------------------------------------------
  // Hunks that overlap the one before them

  /** `hs` with another body for hunk `i`. */
  function WithBody(hs: seq<Hunk>, i: nat, text: seq<string>): (r: seq<Hunk>)
    requires i < |hs|
    ensures |r| == |hs|
  {
    hs[i := hs[i].(text := text)]
  }

  /** Once the loop is past the first line of a hunk, the body of that hunk is not read any more. */
  lemma {:induction false} BodyNotReadLater(hs: seq<Hunk>, i: nat, text: seq<string>, st: VState, n: nat, file: seq<string>)
    requires i < |hs| && hs[i].startsrc < n && 1 <= n <= |file| + 1
    ensures VRun(WithBody(hs, i, text), st, n, file) == VRun(hs, st, n, file)
    decreases |file| + 1 - n
  {
    hide VRun, RStrip, Bare, OldLines;
    var hs' := WithBody(hs, i, text);
    if n > |file| {
      VRunEnd(hs, st, n, file);
      VRunEnd(hs', st, n, file);
    } else {
      VRunUnfold(hs, st, n, file);
      VRunUnfold(hs', st, n, file);
      assert VLine(hs', st, n, file[n - 1]) == VLine(hs, st, n, file[n - 1]);
      match VLine(hs, st, n, file[n - 1])
      case Continue(st') => BodyNotReadLater(hs, i, text, st', n + 1, file);
      case Break(_, _) =>
      case Raise =>
    }
  }

  /** As long as an earlier hunk is current, the body of hunk `i` is not read either. */
  lemma {:induction false} BodyNotRead(hs: seq<Hunk>, i: nat, text: seq<string>, st: VState, n: nat, file: seq<string>)
    requires 0 < i < |hs| && hs[i].startsrc <= hs[i - 1].startsrc && 1 <= n <= |file| + 1
    requires st.hunkno < i || hs[i].startsrc < n
    ensures VRun(WithBody(hs, i, text), st, n, file) == VRun(hs, st, n, file)
    decreases |file| + 1 - n
  {
    hide VRun, RStrip, Bare, OldLines;
    var hs' := WithBody(hs, i, text);
    if hs[i].startsrc < n {
      BodyNotReadLater(hs, i, text, st, n, file);
    } else if n > |file| {
      VRunEnd(hs, st, n, file);
      VRunEnd(hs', st, n, file);
    } else {
      VRunUnfold(hs, st, n, file);
      VRunUnfold(hs', st, n, file);
      assert VLine(hs', st, n, file[n - 1]) == VLine(hs, st, n, file[n - 1]);
      match VLine(hs, st, n, file[n - 1])
      case Continue(st') => BodyNotRead(hs, i, text, st', n + 1, file);
      case Break(_, _) =>
      case Raise =>
    }
  }

  /**
    For every list: a hunk that starts before the line at which it can become current, one
    past the start of the hunk before it, is never looked at.
   */
  lemma {:induction false} NeverLookedAt(hs: seq<Hunk>, i: nat, text: seq<string>, file: seq<string>)
    requires 0 < i < |hs| && hs[i].startsrc <= hs[i - 1].startsrc
    ensures Verdicts(WithBody(hs, i, text), file) == Verdicts(hs, file)
  {
    hide VRun;
    BodyNotRead(hs, i, text, VINIT, 1, file);
  }
}
