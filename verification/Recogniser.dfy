/** `check_patched`: does a file already contain the new side of every hunk? */
module Recogniser {
  import opened Text
  import opened Hunks
  import opened PatchStream
  import opened Format
  import opened Undo

  /** The lines stand in the file at index `c`, line terminators aside. */
  predicate Found(f: seq<string>, c: nat, lines: seq<string>) {
    c + |lines| <= |f| && forall k :: 0 <= k < |lines| ==> RStrip(f[c + k]) == RStrip(lines[k])
  }

  /** The search with `c` lines read: each block is looked for at its target line or, if later, right here. */
  predicate AllFound(f: seq<string>, hs: seq<Hunk>, c: nat)
    decreases |hs|
  {
    hs == [] ||
    var at := Max(c, TgtStart(hs[0]));
    Found(f, at, NewLines(hs[0].text)) && AllFound(f, hs[1..], at + |NewLines(hs[0].text)|)
  }

  /** The special case for new files. */
  predicate IsNewFile(f: seq<string>, hs: seq<Hunk>) {
    |hs| == 1 && hs[0].startsrc == 0 && NewLines(hs[0].text) != [] && Bare(f) == Bare(NewLines(hs[0].text))
  }

  predicate Recognised(f: seq<string>, hs: seq<Hunk>) {
    IsNewFile(f, hs) || (f != [] && AllFound(f, hs, 1))
  }

  // -------------------------------------------------------------------------
  // The function of the source

  class FileReader {
    const lines: seq<string>
    var pos: nat

    constructor (lines: seq<string>)
      ensures this.lines == lines && pos == 0
    {
      this.lines := lines;
      pos := 0;
    }

    /** `readline`, which returns the empty string at the end of the file. */
    method ReadLine() returns (line: string, eof: bool)
      requires pos <= |lines|
      modifies this
      ensures eof <==> old(pos) == |lines|
      ensures eof ==> pos == old(pos) && line == ""
      ensures !eof ==> pos == old(pos) + 1 && line == lines[old(pos)]
    {
      eof := pos == |lines|;
      line := "";
      if !eof {
        line := lines[pos];
        pos := pos + 1;
      }
    }
  }

  lemma FoundStep(f: seq<string>, c: nat, lines: seq<string>)
    requires lines != []
    ensures Found(f, c, lines) <==> c < |f| && RStrip(f[c]) == RStrip(lines[0]) && Found(f, c + 1, lines[1..])
  {
    hide RStrip;
    if c < |f| && RStrip(f[c]) == RStrip(lines[0]) && Found(f, c + 1, lines[1..]) {
      forall k | 0 <= k < |lines|
        ensures RStrip(f[c + k]) == RStrip(lines[k])
      {
        if k > 0 {
          assert RStrip(f[c + 1 + (k - 1)]) == RStrip(lines[1..][k - 1]);
        }
      }
    }
    if Found(f, c, lines) {
      forall k | 0 <= k < |lines[1..]|
        ensures RStrip(f[c + 1 + k]) == RStrip(lines[1..][k])
      {
        assert RStrip(f[c + (k + 1)]) == RStrip(lines[k + 1]);
      }
    }
  }

  /** The new-file test: the whole file is compared with the new lines. */
  method MatchWholeFile(fp: FileReader, hunklines: seq<string>) returns (same: bool)
    requires fp.pos == 0
    modifies fp
    ensures same <==> Bare(fp.lines) == Bare(hunklines)
  {
    hide RStrip;
    var i := 0;
    while i < |hunklines|
      invariant 0 <= i <= |hunklines| && fp.pos == i <= |fp.lines|
      invariant forall k :: 0 <= k < i ==> RStrip(fp.lines[k]) == RStrip(hunklines[k])
    {
      var srcline, eof := fp.ReadLine();
      if eof {
        assert |Bare(fp.lines)| < |Bare(hunklines)|;
        return false;
      }
      if RStrip(srcline) != RStrip(hunklines[i]) {
        assert Bare(fp.lines)[i] != Bare(hunklines)[i];
        return false;
      }
      i := i + 1;
    }
    var _, eof := fp.ReadLine();
    assert |Bare(fp.lines)| == |fp.lines| && |Bare(hunklines)| == |hunklines|;
    return eof;
  }

  /** The two inner loops for one hunk: skip to the target line, then compare the body. */
  method MatchHunk(fp: FileReader, lineno: nat, h: Hunk) returns (matched: bool, next: nat)
    requires BodyLines(h.text) && fp.pos == lineno && 1 <= lineno <= |fp.lines|
    modifies fp
    ensures var at := Max(lineno, TgtStart(h));
            (matched <==> Found(fp.lines, at, NewLines(h.text))) &&
            (matched ==> next == at + |NewLines(h.text)| && fp.pos == next <= |fp.lines|)
  {
    hide RStrip, Found, NewLines;
    ghost var at := Max(lineno, TgtStart(h));
    var f := fp.lines;
    next := lineno;
    while next < h.starttgt - 1
      invariant lineno <= next <= at && fp.pos == next <= |f|
    {
      var _, eof := fp.ReadLine();
      next := next + 1;
      if eof {
        assert !Found(f, at, NewLines(h.text)) by { FoundFits(f, at, NewLines(h.text)); }
        return false, next;
      }
    }
    var j := 0;
    assert h.text[0..] == h.text;
    while j < |h.text|
      invariant 0 <= j <= |h.text|
      invariant fp.pos == next
      invariant next <= |f|
      invariant next + |NewLines(h.text[j..])| == at + |NewLines(h.text)|
      invariant Found(f, at, NewLines(h.text)) <==> Found(f, next, NewLines(h.text[j..]))
    {
      var hline := h.text[j];
      assert BodyLine(hline);
      NewLinesUnfold(h.text, j);
      assert if IsNew(hline) then
               NewLines(h.text[j..])[0] == hline[1..] && NewLines(h.text[j..])[1..] == NewLines(h.text[j + 1..])
             else NewLines(h.text[j..]) == NewLines(h.text[j + 1..]);
      if hline[0] != '-' && hline[0] != '\\' {
        FoundStep(f, next, NewLines(h.text[j..]));
        var line, eof := fp.ReadLine();
        if eof || RStrip(line) != RStrip(hline[1..]) {
          return false, next;
        }
        next := next + 1;
      }
      j := j + 1;
    }
    FoundNothing(f, next, h.text[j..]);
    return true, next;
  }

  lemma NewLinesUnfold(text: seq<string>, j: nat)
    requires j < |text|
    ensures NewLines(text[j..]) == (if IsNew(text[j]) then [Tail(text[j])] else []) + NewLines(text[j + 1..])
  {
    assert text[j..][0] == text[j] && text[j..][1..] == text[j + 1..];
  }

  lemma FoundNothing(f: seq<string>, c: nat, text: seq<string>)
    requires text == [] && c <= |f|
    ensures NewLines(text) == [] && Found(f, c, NewLines(text))
  {
  }

  lemma FoundFits(f: seq<string>, c: nat, lines: seq<string>)
    ensures Found(f, c, lines) ==> c + |lines| <= |f|
  {
  }

  lemma AllFoundUnfold(f: seq<string>, hs: seq<Hunk>, i: nat, c: nat)
    requires i <= |hs|
    ensures i == |hs| ==> AllFound(f, hs[i..], c)
    ensures i < |hs| ==>
            var at := Max(c, TgtStart(hs[i]));
            AllFound(f, hs[i..], c) <==>
            Found(f, at, NewLines(hs[i].text)) && AllFound(f, hs[i + 1..], at + |NewLines(hs[i].text)|)
  {
    if i < |hs| {
      assert hs[i..][0] == hs[i] && hs[i..][1..] == hs[i + 1..];
    }
  }

  method CheckPatched(f: seq<string>, hunks: seq<Hunk>) returns (matched: bool)
    requires AllBodyLines(hunks)
    ensures matched <==> Recognised(f, hunks)
  {
    hide RStrip, Found, AllFound, NewLines, Bare;
    var fp := new FileReader(f);
    if |hunks| == 1 && hunks[0].startsrc == 0 {
      var hunklines := NewLines(hunks[0].text);
      if |hunklines| > 0 {
        var same := MatchWholeFile(fp, hunklines);
        if same {
          return true;
        }
        fp := new FileReader(f);
      }
    }
    var lineno := 1;
    var _, eof := fp.ReadLine();
    if eof {
      return false;
    }
    var hno := 0;
    assert hunks[0..] == hunks;
    while hno < |hunks|
      invariant 0 <= hno <= |hunks| && fp.lines == f && fresh(fp)
      invariant fp.pos == lineno && 1 <= lineno <= |f|
      invariant AllFound(f, hunks, 1) <==> AllFound(f, hunks[hno..], lineno)
    {
      AllFoundUnfold(f, hunks, hno, lineno);
      assert BodyLines(hunks[hno].text);
      matched, lineno := MatchHunk(fp, lineno, hunks[hno]);
      if !matched {
        return false;
      }
      hno := hno + 1;
    }
    AllFoundUnfold(f, hunks, hno, lineno);
    return true;
  }

  // -------------------------------------------------------------------------
  // The recogniser on the patcher's output

  /** The new side of every hunk stands at its target line. */
  predicate InPlace(f: seq<string>, hs: seq<Hunk>) {
    forall i :: 0 <= i < |hs| ==> Found(f, TgtStart(hs[i]), NewLines(hs[i].text))
  }

  /** From target index `t` on, the target blocks are in order. */
  predicate TgtOrdered(t: nat, hs: seq<Hunk>)
    decreases |hs|
  {
    hs == [] || (t <= TgtStart(hs[0]) && TgtOrdered(TgtStart(hs[0]) + hs[0].linestgt, hs[1..]))
  }

  /** How many new lines the hunks that follow one another without a gap from target index `t` have. */
  function RunLength(t: nat, hs: seq<Hunk>): nat
    decreases |hs|
  {
    if hs == [] || TgtStart(hs[0]) > t then 0
    else |NewLines(hs[0].text)| + RunLength(t + |NewLines(hs[0].text)|, hs[1..])
  }

  /** Each of the `k` lines from index `t` on equals its successor. */
  predicate Repeats(f: seq<string>, t: nat, k: nat) {
    forall j :: t <= j < t + k ==> SameAsNext(f, j)
  }

  predicate SameAsNext(f: seq<string>, j: nat) {
    j + 1 < |f| && RStrip(f[j]) == RStrip(f[j + 1])
  }

  lemma InPlaceUnfold(f: seq<string>, hs: seq<Hunk>)
    requires hs != []
    ensures InPlace(f, hs) <==> Found(f, TgtStart(hs[0]), NewLines(hs[0].text)) && InPlace(f, hs[1..])
  {
    hide Found;
    if InPlace(f, hs) {
      assert forall i :: 0 <= i < |hs[1..]| ==> hs[1..][i] == hs[i + 1];
    } else {
      var i :| 0 <= i < |hs| && !Found(f, TgtStart(hs[i]), NewLines(hs[i].text));
      assert i > 0 ==> hs[1..][i - 1] == hs[i];
    }
  }

  lemma TgtOrderedUnfold(t: nat, hs: seq<Hunk>)
    requires hs != [] && TgtOrdered(t, CanonicalAll(hs))
    ensures t <= FormatTgtStart(hs[0]) && TgtOrdered(FormatTgtStart(hs[0]) + hs[0].linestgt, CanonicalAll(hs[1..]))
  {
    CanonicalRest(hs);
  }

  lemma FoundEmpty(f: seq<string>, c: nat)
    ensures Found(f, c, []) <==> c <= |f|
  {
  }

  /** Searching from no later than the first target line finds exactly what is in place. */
  lemma {:induction false} FoundIffInPlace(f: seq<string>, hs: seq<Hunk>, c: nat, t: nat)
    requires AllWellFormed(hs) && TgtOrdered(t, CanonicalAll(hs)) && c <= t && c <= |f|
    ensures AllFound(f, hs, c) <==> InPlace(f, hs)
    decreases |hs|
  {
    hide Found, NewLines, TgtOrdered;
    if hs != [] {
      var h := hs[0];
      assert WellFormed(h);
      TgtOrderedUnfold(t, hs);
      InPlaceUnfold(f, hs);
      FoundEmpty(f, Max(c, TgtStart(h)));
      FoundEmpty(f, TgtStart(h));
      FoundFits(f, Max(c, TgtStart(h)), NewLines(h.text));
      if Found(f, Max(c, TgtStart(h)), NewLines(h.text)) {
        FoundIffInPlace(f, hs[1..], Max(c, TgtStart(h)) + h.linestgt, FormatTgtStart(h) + h.linestgt);
      }
    }
  }

  /** Looking one line late finds a block exactly when every line of it is followed by an equal one. */
  lemma FoundOneLate(f: seq<string>, t: nat, lines: seq<string>)
    requires Found(f, t, lines) && t + 1 <= |f|
    ensures Found(f, t + 1, lines) <==> Repeats(f, t, |lines|)
  {
    hide RStrip;
    if Found(f, t + 1, lines) {
      forall j | t <= j < t + |lines|
        ensures SameAsNext(f, j)
      {
        assert RStrip(f[t + (j - t)]) == RStrip(lines[j - t]);
        assert RStrip(f[t + 1 + (j - t)]) == RStrip(lines[j - t]);
      }
    }
    if Repeats(f, t, |lines|) {
      if lines != [] {
        assert SameAsNext(f, t + |lines| - 1);
      }
      forall k | 0 <= k < |lines|
        ensures RStrip(f[t + 1 + k]) == RStrip(lines[k])
      {
        assert SameAsNext(f, t + k);
        assert RStrip(f[t + k]) == RStrip(f[t + k + 1]);
      }
    }
  }

  lemma RepeatsSplit(f: seq<string>, t: nat, k: nat, m: nat)
    ensures Repeats(f, t, k + m) <==> Repeats(f, t, k) && Repeats(f, t + k, m)
  {
    hide SameAsNext;
  }

  lemma RepeatsZero(f: seq<string>, t: nat)
    ensures Repeats(f, t, 0)
  {
  }

  /** The hunks that follow one another without a gap from target index `t` are in place. */
  predicate RunInPlace(f: seq<string>, t: nat, hs: seq<Hunk>)
    decreases |hs|
  {
    hs == [] || FormatTgtStart(hs[0]) > t ||
    (Found(f, t, NewLines(hs[0].text)) && RunInPlace(f, t + hs[0].linestgt, hs[1..]))
  }

  /** Searching from one line past the first target line: the hunks of the first run must be there one line down. */
  lemma {:induction false} AllFoundOneLate(f: seq<string>, hs: seq<Hunk>, t: nat)
    requires AllWellFormed(hs) && TgtOrdered(t, CanonicalAll(hs)) && RunInPlace(f, t, hs) && t + 1 <= |f|
    ensures AllFound(f, hs, t + 1) <==> Repeats(f, t, RunLength(t, CanonicalAll(hs))) && InPlace(f, hs)
    decreases |hs|
  {
    hide Found, NewLines, Repeats, TgtOrdered;
    RepeatsZero(f, t);
    if hs != [] {
      var h := hs[0];
      assert WellFormed(h);
      TgtOrderedUnfold(t, hs);
      CanonicalRest(hs);
      if FormatTgtStart(h) > t {
        LaterOrdered(t, hs);
        FoundIffInPlace(f, hs, t + 1, t + 1);
      } else {
        RunOneLate(f, hs, t);
      }
    }
  }

  lemma LaterOrdered(t: nat, hs: seq<Hunk>)
    requires hs != [] && TgtOrdered(t, CanonicalAll(hs)) && FormatTgtStart(hs[0]) > t
    ensures TgtOrdered(t + 1, CanonicalAll(hs))
  {
    CanonicalRest(hs);
  }

  lemma RunOneLate(f: seq<string>, hs: seq<Hunk>, t: nat)
    requires hs != [] && AllWellFormed(hs) && TgtOrdered(t, CanonicalAll(hs)) && RunInPlace(f, t, hs) && t + 1 <= |f|
    requires FormatTgtStart(hs[0]) == t
    ensures AllFound(f, hs, t + 1) <==> Repeats(f, t, RunLength(t, CanonicalAll(hs))) && InPlace(f, hs)
    decreases |hs|, 0
  {
    hide Found, NewLines, Repeats, TgtOrdered, AllFound, RunInPlace, RunLength, CanonicalAll, InPlace;
    var lines := NewLines(hs[0].text);
    TgtOrderedUnfold(t, hs);
    RunUnfold(f, t, hs);
    InPlaceUnfold(f, hs);
    FoundOneLate(f, t, lines);
    FoundFits(f, t + 1, lines);
    RepeatsSplit(f, t, |lines|, RunLength(t + |lines|, CanonicalAll(hs[1..])));
    if Found(f, t + 1, lines) {
      AllFoundOneLate(f, hs[1..], t + |lines|);
    }
  }

  lemma RunUnfold(f: seq<string>, t: nat, hs: seq<Hunk>)
    requires hs != [] && AllWellFormed(hs) && FormatTgtStart(hs[0]) == t && RunInPlace(f, t, hs) && t + 1 <= |f|
    ensures var lines, rest := NewLines(hs[0].text), hs[1..];
            && |lines| == hs[0].linestgt && AllWellFormed(rest)
            && Found(f, t, lines) && RunInPlace(f, t + |lines|, rest) && Found(f, TgtStart(hs[0]), lines)
            && RunLength(t, CanonicalAll(hs)) == |lines| + RunLength(t + |lines|, CanonicalAll(rest))
            && (AllFound(f, hs, t + 1) <==> Found(f, t + 1, lines) && AllFound(f, rest, t + 1 + |lines|))
  {
    hide Found, NewLines;
    assert WellFormed(hs[0]);
    CanonicalRest(hs);
    FoundEmpty(f, TgtStart(hs[0]));
  }

  // -------------------------------------------------------------------------
  // The patcher puts every new side in place, save where it inserts one line early

  lemma RepeatsIsAllAre(f: seq<string>, v: nat, lines: seq<string>)
    requires Found(f, v, lines) && v + |lines| < |f|
    ensures Repeats(f, v, |lines|) <==> AllAre(lines, f[v + |lines|])
  {
    hide RStrip;
    var l := f[v + |lines|];
    assert forall k :: 0 <= k < |lines| ==> RStrip(f[v + k]) == RStrip(lines[k]);
    if AllAre(lines, l) {
      forall j | v <= j < v + |lines|
        ensures SameAsNext(f, j)
      {
        assert RStrip(f[v + (j - v)]) == RStrip(lines[j - v]) == RStrip(l);
        if j + 1 < v + |lines| {
          assert RStrip(f[v + (j + 1 - v)]) == RStrip(lines[j + 1 - v]) == RStrip(l);
        }
      }
    }
    if Repeats(f, v, |lines|) {
      var k := |lines|;
      while k > 0
        invariant 0 <= k <= |lines|
        invariant RStrip(f[v + k]) == RStrip(l)
        invariant forall i :: k <= i < |lines| ==> RStrip(lines[i]) == RStrip(l)
      {
        k := k - 1;
        assert SameAsNext(f, v + k);
      }
    }
  }

  /** A block that was put one line early is found at its target line exactly when it consists of the line it jumped over. */
  lemma FoundIfItFits(out: seq<string>, v: nat, lines: seq<string>, left: seq<string>, s: string)
    requires v <= |out| && out[v..] == lines + left && left != [] && RStrip(left[0]) == RStrip(s)
    ensures Found(out, v + 1, lines) <==> AllAre(lines, s)
  {
    hide RStrip;
    assert |out| == v + |out[v..]|;
    forall k | 0 <= k < |lines|
      ensures out[v + k] == lines[k]
    {
      assert out[v..][k] == lines[k];
    }
    assert out[v + |lines|] == out[v..][|lines|] == left[0];
    FoundOneLate(out, v, lines);
    RepeatsIsAllAre(out, v, lines);
  }

  /** What the file holds after the first settled hunk. */
  lemma SettledRest(src: seq<string>, out: seq<string>, t: nat, o: nat, hs: seq<Hunk>)
    requires hs != [] && AllWellFormed(hs) && Placed(|src|, t, Settled(t, hs)) && o <= |out|
    requires out[o..] == From(src, t, Settled(t, hs))
    ensures var at, next := Max(t, Start(hs[0])), Max(t, Start(hs[0])) + hs[0].linessrc;
            var v := o + (at - t);
            && at <= |src| && Placed(|src|, next, Settled(next, hs[1..])) && v + hs[0].linestgt <= |out|
            && out[v..] == NewLines(hs[0].text) + From(src, next, Settled(next, hs[1..]))
            && out[v + hs[0].linestgt..] == From(src, next, Settled(next, hs[1..]))
  {
    hide From, Settled, NewLines, Placed, Start;
    var h := hs[0];
    var at, next := Max(t, Start(h)), Max(t, Start(h)) + h.linessrc;
    SettledFrom(src, t, hs);
    assert WellFormed(h);
    var left := From(src, next, Settled(next, hs[1..]));
    PrefixOfConcat(out, o, src[t..at], NewLines(h.text), left);
    AfterPrefix(out, o, src[t..at], NewLines(h.text) + left);
    assert (src[t..at] + NewLines(h.text)) + left == src[t..at] + (NewLines(h.text) + left);
  }

  lemma AfterPrefix<T>(out: seq<T>, o: nat, a: seq<T>, b: seq<T>)
    requires o <= |out|
    ensures out[o..] == a + b ==> o + |a| <= |out| && out[o + |a|..] == b
  {
    if out[o..] == a + b {
      assert |out| == o + |out[o..]|;
      assert out[o + |a|..] == out[o..][|a|..];
    }
  }

  lemma FoundHere(out: seq<string>, v: nat, lines: seq<string>, left: seq<string>)
    requires v <= |out| && out[v..] == lines + left
    ensures Found(out, v, lines)
  {
    hide RStrip;
    assert |out| == v + |out[v..]|;
    forall k | 0 <= k < |lines|
      ensures out[v + k] == lines[k]
    {
      assert out[v..][k] == lines[k];
    }
  }

  /** The new sides are in place exactly when every insertion put one line early fits. */
  lemma {:induction false} InPlaceIffJumpsFit(src: seq<string>, out: seq<string>, c: nat, t: nat, delta: int, hs: seq<Hunk>)
    requires AllWellFormed(hs) && Placed(|src|, c, CanonicalAll(hs)) && Numbered(CanonicalAll(hs), delta)
    requires t <= c <= t + 1 && Placed(|src|, t, Settled(t, hs)) && 0 <= t + delta <= |out|
    requires out[t + delta..] == From(src, t, Settled(t, hs))
    ensures InPlace(out, hs) <==> JumpsFit(src, t, hs)
    decreases |hs|
  {
    hide From, Settled, NewLines, Placed, Start, FormatStart, FormatTgtStart, TgtStart, Found, JumpsFit, AllAre,
         CanonicalAll, Numbered, InPlace;
    if hs == [] {
      NothingInPlace(out, src, t, hs);
    } else {
      var h, rest := hs[0], hs[1..];
      var at, p := Max(t, Start(h)), FormatStart(h);
      var at', c', delta' := at + h.linessrc, p + h.linessrc, delta + h.linestgt - h.linessrc;
      NumberedRest(hs, delta);
      FormatFrom(src, c, hs);
      EarlyByOne(t, c, h);
      SettledRest(src, out, t, t + delta, hs);
      InPlaceIffJumpsFit(src, out, c', at', delta', rest);
      InPlaceUnfold(out, hs);
      JumpsFitUnfold(src, t, hs);
      if JumpsFit(src, at', rest) {
        assert WellFormed(h);
        PlacedBounds(|src|, c', CanonicalAll(rest));
        HunkInPlace(src, out, at, delta, h, rest);
      }
    }
  }

  lemma NothingInPlace(out: seq<string>, src: seq<string>, t: nat, hs: seq<Hunk>)
    requires hs == []
    ensures InPlace(out, hs) && JumpsFit(src, t, hs)
  {
  }

  /** One settled hunk, when what follows it is what the format means. */
  lemma HunkInPlace(src: seq<string>, out: seq<string>, at: nat, delta: int, h: Hunk, rest: seq<Hunk>)
    requires at <= FormatStart(h) <= at + 1 && FormatStart(h) + h.linessrc <= |src|
    requires at < FormatStart(h) ==> h.linessrc == 0
    requires WellFormed(h) && FormatTgtStart(h) == FormatStart(h) + delta && 0 <= at + delta <= |out|
    requires Placed(|src|, FormatStart(h) + h.linessrc, CanonicalAll(rest))
    requires Placed(|src|, at + h.linessrc, Settled(at + h.linessrc, rest)) && JumpsFit(src, at + h.linessrc, rest)
    requires out[at + delta..] == NewLines(h.text) + From(src, at + h.linessrc, Settled(at + h.linessrc, rest))
    ensures Found(out, TgtStart(h), NewLines(h.text)) <==>
            (at < FormatStart(h) ==> at < |src| && AllAre(NewLines(h.text), src[at]))
  {
    hide From, Settled, NewLines, Placed, Found, JumpsFit, AllAre, CanonicalAll, SameLines;
    var lines, left := NewLines(h.text), From(src, at + h.linessrc, Settled(at + h.linessrc, rest));
    assert |out| == at + delta + |out[at + delta..]|;
    if h.linestgt == 0 {
      assert lines == [];
      FoundEmpty(out, TgtStart(h));
      if at < FormatStart(h) {
        NothingToAgree(lines, src[at]);
      }
    } else if at == FormatStart(h) {
      FoundHere(out, at + delta, lines, left);
    } else {
      NextLine(src, at, rest);
      FoundIfItFits(out, at + delta, lines, left, src[at]);
    }
  }

  lemma NothingToAgree(lines: seq<string>, s: string)
    requires lines == []
    ensures AllAre(lines, s)
  {
  }

  /** What follows an insertion put one line early, when the rest fits, is the line it jumped over. */
  lemma NextLine(src: seq<string>, at: nat, rest: seq<Hunk>)
    requires at + 1 <= |src| && Placed(|src|, at + 1, CanonicalAll(rest))
    requires Placed(|src|, at, Settled(at, rest)) && JumpsFit(src, at, rest)
    ensures var left := From(src, at, Settled(at, rest)); left != [] && RStrip(left[0]) == RStrip(src[at])
  {
    hide From, Settled, RStrip;
    var left := From(src, at, Settled(at, rest));
    var wanted := src[at..at + 1] + From(src, at + 1, CanonicalAll(rest));
    SettledAgainstFormat(src, at + 1, at, rest);
    BareLength(left);
    BareLength(wanted);
    BareAt(left, 0);
    BareAt(wanted, 0);
  }

  /** The hunks of a run settle in place. */
  lemma {:induction false} RunIsInPlace(src: seq<string>, out: seq<string>, c: nat, delta: int, hs: seq<Hunk>)
    requires AllWellFormed(hs) && Placed(|src|, c, CanonicalAll(hs)) && Numbered(CanonicalAll(hs), delta)
    requires Placed(|src|, c, Settled(c, hs)) && 0 <= c + delta <= |out|
    requires out[c + delta..] == From(src, c, Settled(c, hs))
    ensures RunInPlace(out, c + delta, hs)
    decreases |hs|
  {
    hide From, Settled, NewLines, Placed, FormatTgtStart, Found, CanonicalAll, Numbered;
    if hs != [] {
      var h, rest := hs[0], hs[1..];
      NumberedRest(hs, delta);
      FormatFrom(src, c, hs);
      SettledRest(src, out, c, c + delta, hs);
      if FormatTgtStart(h) <= c + delta {
        EarlyByOne(c, c, h);
        FoundHere(out, c + delta, NewLines(h.text), From(src, c + h.linessrc, Settled(c + h.linessrc, rest)));
        RunIsInPlace(src, out, c + h.linessrc, delta + h.linestgt - h.linessrc, rest);
      }
    }
  }

  lemma {:induction false} TargetsOrdered(n: nat, c: nat, delta: int, hs: seq<Hunk>)
    requires Placed(n, c, CanonicalAll(hs)) && Numbered(CanonicalAll(hs), delta) && c + delta >= 0
    ensures TgtOrdered(c + delta, CanonicalAll(hs))
    decreases |hs|
  {
    if hs != [] {
      CanonicalRest(hs);
      TargetsOrdered(n, FormatStart(hs[0]) + hs[0].linessrc, delta + hs[0].linestgt - hs[0].linessrc, hs[1..]);
    }
  }

  // -------------------------------------------------------------------------
  // Line terminators do not matter

  lemma FoundBare(a: seq<string>, b: seq<string>, c: nat, lines: seq<string>)
    requires Bare(a) == Bare(b)
    ensures Found(a, c, lines) <==> Found(b, c, lines)
  {
    hide RStrip;
    assert |a| == |Bare(a)| == |Bare(b)| == |b|;
    assert forall i :: 0 <= i < |a| ==> RStrip(a[i]) == Bare(a)[i] == RStrip(b[i]);
  }

  lemma {:induction false} AllFoundBare(a: seq<string>, b: seq<string>, hs: seq<Hunk>, c: nat)
    requires Bare(a) == Bare(b)
    ensures AllFound(a, hs, c) <==> AllFound(b, hs, c)
    decreases |hs|
  {
    hide Found, Bare, NewLines;
    BareLength(a);
    BareLength(b);
    if hs != [] {
      FoundBare(a, b, Max(c, TgtStart(hs[0])), NewLines(hs[0].text));
      AllFoundBare(a, b, hs[1..], Max(c, TgtStart(hs[0])) + |NewLines(hs[0].text)|);
    }
  }

  lemma RepeatsBare(a: seq<string>, b: seq<string>, t: nat, k: nat)
    requires Bare(a) == Bare(b)
    ensures Repeats(a, t, k) <==> Repeats(b, t, k)
  {
    hide RStrip;
    assert |a| == |Bare(a)| == |Bare(b)| == |b|;
    assert forall i :: 0 <= i < |a| ==> RStrip(a[i]) == Bare(a)[i] == RStrip(b[i]);
    assert forall j: nat :: SameAsNext(a, j) <==> SameAsNext(b, j);
  }

  // -------------------------------------------------------------------------
  // The recogniser on the patcher's output

  /**
    The recogniser accepts what the patcher wrote in exactly two cases. The whole file is the
    new side of a new-file hunk. Or every insertion put one line early fits, and the hunks that
    start at target line 1, if any, consist of one line which the file repeats below them.
   */
  lemma {:induction false} RecognisedAfterPatch(src: seq<string>, hs: seq<Hunk>)
    requires AllWellFormed(hs) && Placed(|src|, 0, CanonicalAll(hs)) && Numbered(CanonicalAll(hs), 0)
    requires SlashesAtEnd(|src|, Settled(0, hs))
    ensures var out := Stream(src, 0, hs);
            Recognised(out, hs) <==>
            (|hs| == 1 && hs[0].startsrc == 0 && hs[0].linestgt > 0 && End(hs[0]) == |src|) ||
            (out != [] && JumpsFit(src, 0, hs) && Repeats(out, 0, RunLength(0, CanonicalAll(hs))))
  {
    hide Stream, From, Splice, AllFound, Bare, NewLines, Repeats, Settled, SlashesAtEnd, JumpsFit, Placed, Numbered,
         CanonicalAll, TgtOrdered, InPlace, RunInPlace;
    SettledPlaced(|src|, 0, 0, hs);
    var out, ref := Stream(src, 0, hs), Splice(src, Settled(0, hs));
    PatchIsSettledSplice(src, hs);
    FromIsSplice(src, Settled(0, hs));
    assert ref[0..] == ref;
    BareLength(out);
    BareLength(ref);
    AllFoundBare(out, ref, hs, 1);
    RepeatsBare(out, ref, 0, RunLength(0, CanonicalAll(hs)));
    InPlaceIffJumpsFit(src, ref, 0, 0, 0, hs);
    RunIsInPlace(src, ref, 0, 0, hs);
    TargetsOrdered(|src|, 0, 0, hs);
    if ref != [] {
      AllFoundOneLate(ref, hs, 0);
    }
    if |hs| == 1 && hs[0].startsrc == 0 {
      NewFileAfterPatch(src, hs, ref);
    }
  }

  lemma NewFileAfterPatch(src: seq<string>, hs: seq<Hunk>, out: seq<string>)
    requires |hs| == 1 && AllWellFormed(hs) && Placed(|src|, 0, Settled(0, hs)) && hs[0].startsrc == 0
    requires out == From(src, 0, Settled(0, hs))
    ensures Bare(out) == Bare(NewLines(hs[0].text)) <==> End(hs[0]) == |src|
  {
    hide From, Bare, NewLines, Settled;
    var h := hs[0];
    SettledFrom(src, 0, hs);
    NoHunks(src, 0, h.linessrc, hs[1..]);
    FromNil(src, h.linessrc, []);
    PlacedBounds(|src|, h.linessrc, []);
    assert out == NewLines(h.text) + src[h.linessrc..];
    BareLength(out);
    BareLength(NewLines(h.text));
    assert End(h) == |src| ==> out == NewLines(h.text);
  }

  /** For hunks in target order, the first below line 1, the recogniser looks at exactly their target lines. */
  lemma {:induction false} RecogniserExact(f: seq<string>, hs: seq<Hunk>)
    requires hs != [] && AllWellFormed(hs) && TgtOrdered(1, CanonicalAll(hs)) && hs[0].startsrc > 0
    ensures Recognised(f, hs) <==> f != [] && InPlace(f, hs)
  {
    hide AllFound, InPlace;
    if f != [] {
      FoundIffInPlace(f, hs, 1, 1);
    }
  }

  /** In particular a patch that starts below line 1 is recognised exactly when it was applied as the format means it. */
  lemma {:induction false} RecognisedBelowLineOne(src: seq<string>, hs: seq<Hunk>)
    requires AllWellFormed(hs) && Placed(|src|, 0, CanonicalAll(hs)) && Numbered(CanonicalAll(hs), 0)
    requires SlashesAtEnd(|src|, Settled(0, hs)) && hs != [] && FormatTgtStart(hs[0]) > 0
    ensures Recognised(Stream(src, 0, hs), hs) <==> JumpsFit(src, 0, hs)
  {
    hide Stream, Splice, From, Bare, JumpsFit, Placed, SlashesAtEnd, Settled, Repeats;
    var out := Stream(src, 0, hs);
    RecognisedAfterPatch(src, hs);
    CanonicalRest(hs);
    RepeatsZero(out, 0);
    NumberedRest(hs, 0);
    PatchNotEmpty(src, hs);
  }

  lemma PatchNotEmpty(src: seq<string>, hs: seq<Hunk>)
    requires AllWellFormed(hs) && Placed(|src|, 0, CanonicalAll(hs))
    requires SlashesAtEnd(|src|, Settled(0, hs)) && hs != [] && FormatStart(hs[0]) > 0
    ensures Stream(src, 0, hs) != []
  {
    hide Stream, From, SlashesAtEnd, Settled, Growth, CanonicalAll, Placed;
    SettledPlaced(|src|, 0, 0, hs);
    StreamSettled(src, 0, 0, hs);
    PatchLength(src, Settled(0, hs));
    SettledGrowth(0, hs);
    CanonicalGrowth(hs);
    CanonicalWellFormed(hs);
    FromLength(src, 0, CanonicalAll(hs));
    FormatFrom(src, 0, hs);
  }

  lemma BareAt(a: seq<string>, i: nat)
    requires i < |a|
    ensures |Bare(a)| == |a| && Bare(a)[i] == RStrip(a[i])
  {
  }
}
