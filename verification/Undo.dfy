/** Patching with the reversed hunks: when it gives the source back. */
module Undo {
  import opened Text
  import opened Hunks
  import opened PatchStream
  import opened Format
  import opened LineEnds

  lemma ReverseWellFormed(hs: seq<Hunk>)
    requires AllWellFormed(hs)
    ensures AllWellFormed(ReverseAll(hs))
    ensures forall i :: 0 <= i < |hs| ==> Slashes(ReverseAll(hs)[i].text) == Slashes(hs[i].text)
    ensures forall i :: 0 <= i < |hs| ==> NewLines(ReverseAll(hs)[i].text) == OldLines(hs[i].text)
  {
    forall i | 0 <= i < |hs|
      ensures WellFormed(ReverseAll(hs)[i]) && Slashes(ReverseAll(hs)[i].text) == Slashes(hs[i].text)
      ensures NewLines(ReverseAll(hs)[i].text) == OldLines(hs[i].text)
    {
      assert WellFormed(hs[i]);
      ReverseTextSides(hs[i].text);
    }
  }

  lemma ReverseRest(hs: seq<Hunk>)
    requires hs != []
    ensures ReverseAll(hs)[0] == Reverse(hs[0]) && ReverseAll(hs)[1..] == ReverseAll(hs[1..])
  {
  }

  /** Numbered target positions are in order and fit the patched file. */
  lemma {:induction false} ReversePlaced(n: nat, c: nat, delta: int, hs: seq<Hunk>)
    requires AllWellFormed(hs) && Placed(n, c, hs) && Numbered(hs, delta) && c + delta >= 0
    ensures n + Growth(hs) + delta >= 0
    ensures Placed(n + Growth(hs) + delta, c + delta, ReverseAll(hs))
    ensures TouchesEnd(n, c, hs) ==> TouchesEnd(n + Growth(hs) + delta, c + delta, ReverseAll(hs))
    decreases |hs|
  {
    if hs != [] {
      var h := hs[0];
      ReverseRest(hs);
      assert End(Reverse(h)) == End(h) + (delta + h.linestgt - h.linessrc);
      ReversePlaced(n, End(h), delta + h.linestgt - h.linessrc, hs[1..]);
    }
  }

  lemma {:induction false} ReverseSlashesAtEnd(n: nat, c: nat, delta: int, hs: seq<Hunk>)
    requires AllWellFormed(hs) && Placed(n, c, hs) && Numbered(hs, delta) && c + delta >= 0
    requires SlashesAtEnd(n, hs)
    ensures n + Growth(hs) + delta >= 0
    ensures SlashesAtEnd(n + Growth(hs) + delta, ReverseAll(hs))
    decreases |hs|
  {
    ReversePlaced(n, c, delta, hs);
    if hs != [] {
      var h := hs[0];
      ReverseRest(hs);
      ReverseWellFormed(hs);
      var delta' := delta + h.linestgt - h.linessrc;
      assert End(Reverse(h)) == End(h) + delta';
      ReverseSlashesAtEnd(n, End(h), delta', hs[1..]);
      ReversePlaced(n, End(h), delta', hs[1..]);
    }
  }

  /** The source with every block a hunk claims overwritten by the old side of that hunk. */
  function Restored(src: seq<string>, c: nat, hs: seq<Hunk>): seq<string>
    requires Placed(|src|, c, hs)
    decreases |hs|
  {
    if hs == [] then src[c..]
    else
      PlacedBounds(|src|, c, hs);
      src[c..Start(hs[0])] + OldLines(hs[0].text) + Restored(src, End(hs[0]), hs[1..])
  }

  lemma RestoredUnfold(src: seq<string>, c: nat, hs: seq<Hunk>)
    requires hs != [] && Placed(|src|, c, hs) && c <= Start(hs[0]) <= |src|
    ensures Restored(src, c, hs) ==
            (src[c..Start(hs[0])] + OldLines(hs[0].text)) + Restored(src, End(hs[0]), hs[1..])
  {
  }

  lemma ReversedFirst(hs: seq<Hunk>)
    requires hs != [] && AllWellFormed(hs)
    ensures var r := ReverseAll(hs);
            && r[1..] == ReverseAll(hs[1..]) && Start(r[0]) == TgtStart(hs[0]) && r[0].linessrc == hs[0].linestgt
            && NewLines(r[0].text) == OldLines(hs[0].text)
  {
    hide OldLines, NewLines;
    ReverseRest(hs);
    assert WellFormed(hs[0]);
    ReverseTextSides(hs[0].text);
  }

  lemma NumberedFirst(n: nat, c: nat, delta: int, hs: seq<Hunk>)
    requires hs != [] && AllWellFormed(hs) && Placed(n, c, hs) && Numbered(hs, delta)
    ensures TgtStart(hs[0]) == Start(hs[0]) + delta && Numbered(hs[1..], delta + hs[0].linestgt - hs[0].linessrc)
    ensures c <= Start(hs[0]) && Placed(n, End(hs[0]), hs[1..]) && End(hs[0]) <= n && AllWellFormed(hs[1..])
  {
    PlacedBounds(n, c, hs);
  }

  /** What the patched file holds up to the end of the first new side, and after it. */
  lemma PatchedFirst(src: seq<string>, out: seq<string>, c: nat, o: nat, hs: seq<Hunk>)
    requires hs != [] && AllWellFormed(hs) && Placed(|src|, c, hs) && o <= |out| && out[o..] == From(src, c, hs)
    ensures var s := Start(hs[0]);
            var o' := o + (s - c) + hs[0].linestgt;
            && c <= s <= |src| && Placed(|src|, End(hs[0]), hs[1..]) && o' <= |out|
            && out[o..o + (s - c)] == src[c..s] && out[o'..] == From(src, End(hs[0]), hs[1..])
  {
    hide From, NewLines;
    PlacedBounds(|src|, c, hs);
    FromUnfold(src, c, hs);
    assert WellFormed(hs[0]);
    PrefixOfConcat(out, o, src[c..Start(hs[0])], NewLines(hs[0].text), From(src, End(hs[0]), hs[1..]));
  }

  /** Undoing the reference patch overwrites every block with the old side. */
  lemma {:induction false} FromReversed(src: seq<string>, out: seq<string>, c: nat, delta: int, hs: seq<Hunk>)
    requires AllWellFormed(hs) && Placed(|src|, c, hs) && Numbered(hs, delta) && 0 <= c + delta <= |out|
    requires out[c + delta..] == From(src, c, hs)
    ensures |out| == |src| + Growth(hs) + delta
    ensures Placed(|out|, c + delta, ReverseAll(hs))
    ensures From(out, c + delta, ReverseAll(hs)) == Restored(src, c, hs)
    decreases |hs|
  {
    hide From, OldLines, NewLines, Restored, Growth, ReverseAll, Placed, Numbered, Start, TgtStart;
    FromLength(src, c, hs);
    assert |out| == c + delta + |out[c + delta..]|;
    ReversePlaced(|src|, c, delta, hs);
    PlacedBounds(|src|, c, hs);
    if hs == [] {
      ReverseNothing(hs);
      FromNil(out, c + delta, ReverseAll(hs));
      FromNil(src, c, hs);
      RestoredNil(src, c, hs);
    } else {
      NumberedFirst(|src|, c, delta, hs);
      PatchedFirst(src, out, c, c + delta, hs);
      ReversedFirst(hs);
      FromReversed(src, out, End(hs[0]), delta + hs[0].linestgt - hs[0].linessrc, hs[1..]);
      ReadFirst(out, c + delta, ReverseAll(hs));
      RestoredUnfold(src, c, hs);
    }
  }

  lemma ReverseNothing(hs: seq<Hunk>)
    requires hs == []
    ensures ReverseAll(hs) == []
  {
  }

  lemma ReadFirst(out: seq<string>, o: nat, r: seq<Hunk>)
    requires r != [] && Placed(|out|, o, r)
    ensures o <= Start(r[0]) <= |out| && Placed(|out|, Start(r[0]) + r[0].linessrc, r[1..])
    ensures From(out, o, r) ==
            (out[o..Start(r[0])] + NewLines(r[0].text)) + From(out, Start(r[0]) + r[0].linessrc, r[1..])
  {
    hide From, NewLines;
    PlacedBounds(|out|, o, r);
    FromUnfold(out, o, r);
  }

  lemma PrefixOfConcat<T>(out: seq<T>, at: nat, a: seq<T>, b: seq<T>, c: seq<T>)
    requires at <= |out| && out[at..] == (a + b) + c
    ensures at + |a| + |b| <= |out|
    ensures out[at..at + |a|] == a
    ensures out[at + |a| + |b|..] == c
  {
    assert |out| == at + |out[at..]|;
    assert out[at..at + |a|] == out[at..][..|a|];
    assert out[at + |a| + |b|..] == out[at..][|a| + |b|..];
  }

  /** Overwriting with the old sides changes nothing exactly when the source had them. */
  lemma {:induction false} RestoredIsSource(src: seq<string>, c: nat, hs: seq<Hunk>)
    requires AllWellFormed(hs) && Placed(|src|, c, hs)
    ensures c <= |src|
    ensures Bare(Restored(src, c, hs)) == Bare(src[c..]) <==> Matches(src, hs)
    decreases |hs|
  {
    hide Restored, OldLines, Bare;
    PlacedBounds(|src|, c, hs);
    if hs == [] {
      RestoredNil(src, c, hs);
    } else {
      var h, rest := hs[0], hs[1..];
      var s, e := Start(h), End(h);
      assert WellFormed(h);
      RestoredIsSource(src, e, rest);
      RestoredUnfold(src, c, hs);
      assert src[c..] == (src[c..s] + src[s..e]) + src[e..];
      BareConcat(src[c..s] + OldLines(h.text), Restored(src, e, rest));
      BareConcat(src[c..s], OldLines(h.text));
      BareConcat(src[c..s] + src[s..e], src[e..]);
      BareConcat(src[c..s], src[s..e]);
      BareLength(src[c..s]);
      BareLength(src[s..e]);
      BareLength(OldLines(h.text));
      ConcatInjective(Bare(src[c..s]) + Bare(OldLines(h.text)), Bare(Restored(src, e, rest)),
                      Bare(src[c..s]) + Bare(src[s..e]), Bare(src[e..]));
      ConcatInjective(Bare(src[c..s]), Bare(OldLines(h.text)), Bare(src[c..s]), Bare(src[s..e]));
      MatchesUnfold(src, hs);
    }
  }

  lemma RestoredNil(src: seq<string>, c: nat, hs: seq<Hunk>)
    requires hs == [] && c <= |src|
    ensures Restored(src, c, hs) == src[c..]
  {
  }

  lemma MatchesUnfold(src: seq<string>, hs: seq<Hunk>)
    requires hs != []
    ensures Matches(src, hs) <==> HunkMatches(src, hs[0]) && Matches(src, hs[1..])
  {
    if HunkMatches(src, hs[0]) && Matches(src, hs[1..]) {
      forall i | 0 <= i < |hs|
        ensures HunkMatches(src, hs[i])
      {
        assert i > 0 ==> hs[i] == hs[1..][i - 1];
      }
    }
    if Matches(src, hs) {
      assert forall i :: 0 <= i < |hs[1..]| ==> hs[1..][i] == hs[i + 1];
    }
  }

  /** On the reference: undoing the patch gives the source back exactly when every hunk matched it. */
  lemma {:induction false} ReferenceUndo(src: seq<string>, hs: seq<Hunk>)
    requires AllWellFormed(hs) && Placed(|src|, 0, hs) && Numbered(hs, 0)
    ensures Placed(|Splice(src, hs)|, 0, ReverseAll(hs))
    ensures Bare(Splice(Splice(src, hs), ReverseAll(hs))) == Bare(src) <==> Matches(src, hs)
  {
    hide From, Splice, Restored, Matches, Bare;
    var ref := Splice(src, hs);
    FromIsSplice(src, hs);
    assert ref[0..] == ref && src[0..] == src;
    FromReversed(src, ref, 0, 0, hs);
    FromIsSplice(ref, ReverseAll(hs));
    RestoredIsSource(src, 0, hs);
  }

  /** A file patched with the reversed hunks. */
  function Unpatch(file: seq<string>, hs: seq<Hunk>): seq<string>
    requires AllWellFormed(hs)
  {
    ReverseWellFormed(hs);
    Stream(file, 0, ReverseAll(hs))
  }

  // -------------------------------------------------------------------------
  // What the reversed hunks do when the tool applies them to its own output

  /**
    Between two hunks, with `c` source lines behind: reading and writing may be in step; a line,
    number `line` of the source, may be held back because a deletion was put back before it; or
    the output may still hold a line that an insertion jumped over.
   */
  datatype Lag = InStep | Held(line: int) | Shifted

  predicate SameLine(src: seq<string>, i: int, j: int) {
    0 <= i < |src| && 0 <= j < |src| && RStrip(src[i]) == RStrip(src[j])
  }

  /** The source has the block at index `p`. */
  predicate StandsAt(src: seq<string>, block: seq<string>, p: int) {
    0 <= p && p + |block| <= |src| && SameLines(src[p..p + |block|], block)
  }

  /** A deletion that leaves no line is put back one line early, unless the line before it is dealt with by another hunk. */
  predicate PutBackEarly(c: nat, lag: Lag, h: Hunk) {
    h.linestgt == 0 && h.starttgt > 0 && (FormatStart(h) > c || lag.Held?)
  }

  /** An insertion jumps over the line it is meant to follow, unless that line belongs to the hunk before it. */
  predicate Jumped(c: nat, lag: Lag, h: Hunk) {
    h.linessrc == 0 && h.startsrc > 0 && (h.startsrc > c || lag.Shifted?)
  }

  function FirstOf(lines: seq<string>): seq<string> {
    if lines == [] then [] else [lines[0]]
  }

  predicate HeldFits(src: seq<string>, c: nat, lag: Lag) {
    lag.Held? ==> SameLine(src, c - 1, lag.line)
  }

  /** What one hunk asks of the source. */
  predicate HunkFits(src: seq<string>, c: nat, lag: Lag, h: Hunk) {
    var p := FormatStart(h);
    if Jumped(c, lag, h) then p > c ==> HeldFits(src, c, lag) && StandsAt(src, FirstOf(NewLines(h.text)), p - 1)
    else if PutBackEarly(c, lag, h) then (p > c ==> HeldFits(src, c, lag)) && StandsAt(src, OldLines(h.text), p - 1)
    else HeldFits(src, c, lag) && StandsAt(src, OldLines(h.text), p)
  }

  function LagAfter(c: nat, lag: Lag, h: Hunk): Lag {
    var p := FormatStart(h);
    if Jumped(c, lag, h) then if p > c && h.linestgt == 0 then InStep else Shifted
    else if PutBackEarly(c, lag, h) then if p > c then Held(p - 1) else lag
    else InStep
  }

  function LinesAfter(c: nat, lag: Lag, h: Hunk): nat {
    var p := FormatStart(h);
    if Jumped(c, lag, h) && p > c && h.linestgt == 0 then p - 1 else p + h.linessrc
  }

  /**
    The source is restored from index `c` on. A deletion that is put back early must find its
    old side one line up, and the line it jumps over is written after the run of such deletions,
    so it must equal the last line of the run. Of an insertion that jumped, the first line stays
    and the line jumped over is removed in its place, so these two must be equal.
   */
  predicate UndoFits(src: seq<string>, c: nat, lag: Lag, hs: seq<Hunk>)
    decreases |hs|
  {
    if hs == [] then HeldFits(src, c, lag)
    else HunkFits(src, c, lag, hs[0]) && UndoFits(src, LinesAfter(c, lag, hs[0]), LagAfter(c, lag, hs[0]), hs[1..])
  }

  lemma UndoFitsUnfold(src: seq<string>, c: nat, lag: Lag, hs: seq<Hunk>)
    requires hs != []
    ensures UndoFits(src, c, lag, hs) <==>
            HunkFits(src, c, lag, hs[0]) && UndoFits(src, LinesAfter(c, lag, hs[0]), LagAfter(c, lag, hs[0]), hs[1..])
  {
  }

  function Behind(lag: Lag): nat {
    if lag.Held? then 1 else 0
  }

  function Ahead(lag: Lag): nat {
    if lag.Shifted? then 1 else 0
  }

  /** With `c` source lines and `o` output lines behind: the output from there on is what the tool wrote. */
  ghost predicate Follows(src: seq<string>, out: seq<string>, c: nat, o: nat, lag: Lag, hs: seq<Hunk>) {
    && c <= |src| && o <= |out| && Placed(|src|, c, CanonicalAll(hs))
    && (lag.Held? ==> HoldsLine(src, out, c, o, lag.line))
    && Ahead(lag) <= c && Ahead(lag) <= o
    && Placed(|src|, c - Ahead(lag), Settled(c - Ahead(lag), hs))
    && out[o - Ahead(lag)..] == From(src, c - Ahead(lag), Settled(c - Ahead(lag), hs))
  }

  predicate HoldsLine(src: seq<string>, out: seq<string>, c: nat, o: nat, held: int) {
    o <= |out| && o > 0 && c > 0 && 0 <= held < |src| && out[o - 1] == src[held]
  }

  lemma SplitInThree(a: seq<string>, b: seq<string>, t: seq<string>, a': seq<string>, b': seq<string>, t': seq<string>)
    requires |a| == |a'| && |b| == |b'|
    ensures SameLines((a + b) + t, (a' + b') + t') <==> SameLines(a, a') && SameLines(b, b') && SameLines(t, t')
  {
    hide Bare;
    BareConcat(a + b, t);
    BareConcat(a, b);
    BareConcat(a' + b', t');
    BareConcat(a', b');
    BareLength(a);
    BareLength(a');
    BareLength(b);
    BareLength(b');
    ConcatInjective(Bare(a) + Bare(b), Bare(t), Bare(a') + Bare(b'), Bare(t'));
    ConcatInjective(Bare(a), Bare(b), Bare(a'), Bare(b'));
  }

  /** The lines between two hunks, with a held line before them. */
  lemma GapAgrees(src: seq<string>, out: seq<string>, c: nat, o: nat, lag: Lag, len: nat)
    requires c + len <= |src| && o + len <= |out| && out[o..o + len] == src[c..c + len]
    requires lag.Held? ==> HoldsLine(src, out, c, o, lag.line)
    ensures Behind(lag) <= c && Behind(lag) <= o
    ensures SameLines(out[o - Behind(lag)..o + len], src[c - Behind(lag)..c + len]) <==> HeldFits(src, c, lag)
  {
    hide RStrip, SameLines;
    if lag.Held? {
      assert out[o - 1..o + len] == [src[lag.line]] + src[c..c + len];
      assert src[c - 1..c + len] == [src[c - 1]] + src[c..c + len];
      OneLineBefore(src[lag.line], src[c - 1], src[c..c + len]);
    } else {
      Reflexive(src[c..c + len]);
    }
  }

  lemma OneLineBefore(a: string, b: string, lines: seq<string>)
    ensures SameLines([a] + lines, [b] + lines) <==> RStrip(a) == RStrip(b)
  {
    hide RStrip;
    BareConcat([a], lines);
    BareConcat([b], lines);
    assert Bare([a]) == [RStrip(a)] && Bare([b]) == [RStrip(b)];
    ConcatInjective([RStrip(a)], Bare(lines), [RStrip(b)], Bare(lines));
  }

  /** The same up to `k` lines before `p`. */
  lemma BeforeBlock(src: seq<string>, out: seq<string>, c: nat, o: nat, lag: Lag, p: nat, k: nat)
    requires c <= p <= |src| && o + (p - c) <= |out| && out[o..o + (p - c)] == src[c..p]
    requires lag.Held? ==> HoldsLine(src, out, c, o, lag.line)
    requires k <= 1 && c - Behind(lag) <= p - k && Behind(lag) <= c && Behind(lag) <= o
    ensures SameLines(out[o - Behind(lag)..o + (p - c) - k], src[c - Behind(lag)..p - k]) <==>
            (k == 1 && p == c) || HeldFits(src, c, lag)
  {
    hide SameLines, SameLine, HeldFits;
    if k == 1 && p == c {
      assert out[o - Behind(lag)..o + (p - c) - k] == [] == src[c - Behind(lag)..p - k];
      Reflexive(src[c - Behind(lag)..p - k]);
    } else {
      var len := p - k - c;
      assert out[o..o + len] == out[o..o + (p - c)][..len];
      assert src[c..c + len] == src[c..p][..len];
      GapAgrees(src, out, c, o, lag, len);
    }
  }

  /** One block put back, `k` lines early: the lines before it, the block, and what follows. */
  lemma PutBack(src: seq<string>, out: seq<string>, c: nat, o: nat, lag: Lag, p: nat, k: nat, block: seq<string>,
                left: seq<string>)
    requires c <= p && p + |block| <= |src| && o + (p - c) <= |out| && out[o..o + (p - c)] == src[c..p]
    requires lag.Held? ==> HoldsLine(src, out, c, o, lag.line)
    requires k <= 1 && c - Behind(lag) <= p - k && Behind(lag) <= c && Behind(lag) <= o
    ensures SameLines((out[o - Behind(lag)..o + (p - c) - k] + block) + left, src[c - Behind(lag)..]) <==>
            && ((k == 1 && p == c) || HeldFits(src, c, lag))
            && StandsAt(src, block, p - k) && SameLines(left, src[p - k + |block|..])
  {
    hide SameLines, SameLine, HeldFits;
    var e := Behind(lag);
    var q := p - k + |block|;
    BeforeBlock(src, out, c, o, lag, p, k);
    CutTwice(src, c - e, p - k, q);
    SplitInThree(out[o - e..o + (p - c) - k], block, left, src[c - e..p - k], src[p - k..q], src[q..]);
    Symmetric(block, src[p - k..q]);
  }

  lemma Symmetric(a: seq<string>, b: seq<string>)
    ensures SameLines(a, b) <==> SameLines(b, a)
  {
  }

  lemma Reflexive(a: seq<string>)
    ensures SameLines(a, a)
  {
  }

  lemma CutTwice(s: seq<string>, a: nat, b: nat, c: nat)
    requires a <= b <= c <= |s|
    ensures s[a..] == (s[a..b] + s[b..c]) + s[c..]
  {
  }

  function Early(c: nat, lag: Lag, h: Hunk): nat {
    if Jumped(c, lag, h) then 1 else 0
  }

  lemma WhereWritten(c: nat, lag: Lag, h: Hunk)
    requires Ahead(lag) <= c <= FormatStart(h)
    ensures Early(c, lag, h) <= FormatStart(h) && c - Ahead(lag) <= FormatStart(h) - Early(c, lag, h)
    ensures Max(c - Ahead(lag), Start(h)) == FormatStart(h) - Early(c, lag, h)
  {
  }

  /** Where the tool writes the first hunk, and what is left of its output after it. */
  lemma WrittenFirst(src: seq<string>, out: seq<string>, c: nat, o: nat, lag: Lag, hs: seq<Hunk>)
    requires hs != [] && AllWellFormed(hs) && Follows(src, out, c, o, lag, hs)
    ensures var h, p, j := hs[0], FormatStart(hs[0]), Early(c, lag, hs[0]);
            && c <= p && p + h.linessrc <= |src| && Placed(|src|, p + h.linessrc, CanonicalAll(hs[1..]))
            && j <= p && c - Ahead(lag) <= p - j && WrittenOut(src, out, c - Ahead(lag), o - Ahead(lag), p - j, hs)
  {
    hide From, NewLines, OldLines, CanonicalAll, Placed, Settled, HoldsLine, Start, FormatStart, Jumped, Early, WrittenOut,
         WellFormed;
    var h, t := hs[0], c - Ahead(lag);
    FormatFrom(src, c, hs);
    PlacedBounds(|src|, FormatStart(h) + h.linessrc, CanonicalAll(hs[1..]));
    WhereWritten(c, lag, h);
    WrittenAt(src, out, t, o - Ahead(lag), hs);
  }

  /** The first hunk is written with `at` lines taken; `o` and `t` lines are behind. */
  ghost predicate WrittenOut(src: seq<string>, out: seq<string>, t: nat, o: nat, at: nat, hs: seq<Hunk>)
    requires hs != []
  {
    var q, next := o + (at - t), at + hs[0].linessrc;
    && t <= at <= |src| && q + hs[0].linestgt <= |out|
    && out[o..q] == src[t..at]
    && out[q..q + hs[0].linestgt] == NewLines(hs[0].text)
    && Placed(|src|, next, Settled(next, hs[1..]))
    && out[q + hs[0].linestgt..] == From(src, next, Settled(next, hs[1..]))
  }

  lemma WrittenAt(src: seq<string>, out: seq<string>, t: nat, o: nat, hs: seq<Hunk>)
    requires hs != [] && AllWellFormed(hs) && Placed(|src|, t, Settled(t, hs))
    requires o <= |out| && out[o..] == From(src, t, Settled(t, hs))
    ensures WrittenOut(src, out, t, o, Max(t, Start(hs[0])), hs)
  {
    hide From, NewLines, OldLines, Placed, Settled, Start;
    var h, at := hs[0], Max(t, Start(hs[0]));
    assert WellFormed(h);
    SettledFrom(src, t, hs);
    var rest := From(src, at + h.linessrc, Settled(at + h.linessrc, hs[1..]));
    PrefixOfConcat(out, o, src[t..at], NewLines(h.text), rest);
    MiddleOfConcat(out, o, src[t..at], NewLines(h.text), rest);
  }

  lemma MiddleOfConcat<T>(out: seq<T>, at: nat, a: seq<T>, b: seq<T>, c: seq<T>)
    requires at <= |out| && out[at..] == (a + b) + c
    ensures at + |a| + |b| <= |out| && out[at + |a|..at + |a| + |b|] == b
  {
    PrefixOfConcat(out, at, a, b, c);
    assert out[at + |a|..at + |a| + |b|] == out[at..][|a|..|a| + |b|];
  }

  /** A hunk that did not jump: the lines before it are the source's. */
  lemma InPlaceGap(src: seq<string>, out: seq<string>, c: nat, o: nat, lag: Lag, hs: seq<Hunk>)
    requires hs != [] && AllWellFormed(hs) && Follows(src, out, c, o, lag, hs) && !Jumped(c, lag, hs[0])
    ensures var h, p := hs[0], FormatStart(hs[0]);
            && c <= p && p + h.linessrc <= |src| && o + (p - c) + h.linestgt <= |out|
            && out[o..o + (p - c)] == src[c..p]
            && Follows(src, out, p + h.linessrc, o + (p - c) + h.linestgt, InStep, hs[1..])
            && (h.linestgt == 0 && p > c ==>
                HoldsLine(src, out, p + h.linessrc, o + (p - c) + h.linestgt, p - 1))
  {
    hide From, NewLines, OldLines, CanonicalAll, Placed, Settled;
    var p := FormatStart(hs[0]);
    WrittenFirst(src, out, c, o, lag, hs);
    assert out[o..o + (p - c)] == out[o - Ahead(lag)..o + (p - c)][Ahead(lag)..];
    assert src[c..p] == src[c - Ahead(lag)..p][Ahead(lag)..];
    if p > c {
      assert out[o..o + (p - c)][p - c - 1] == src[c..p][p - c - 1];
    }
  }

  /** After such a hunk. */
  lemma InPlaceFollows(src: seq<string>, out: seq<string>, c: nat, o: nat, lag: Lag, hs: seq<Hunk>)
    requires hs != [] && AllWellFormed(hs) && Follows(src, out, c, o, lag, hs) && !Jumped(c, lag, hs[0])
    ensures var h := hs[0];
            var c' := LinesAfter(c, lag, h);
            Follows(src, out, c', o + (c' - c) + h.linestgt - h.linessrc, LagAfter(c, lag, h), hs[1..])
  {
    hide From, NewLines, OldLines, CanonicalAll, Placed, Settled;
    InPlaceGap(src, out, c, o, lag, hs);
  }

  /** A hunk that jumped: the lines up to the one it jumped over, and the first line written. */
  lemma JumpGap(src: seq<string>, out: seq<string>, c: nat, o: nat, lag: Lag, hs: seq<Hunk>)
    requires hs != [] && AllWellFormed(hs) && Follows(src, out, c, o, lag, hs) && Jumped(c, lag, hs[0])
    ensures var h, p, first := hs[0], FormatStart(hs[0]), FirstOf(NewLines(hs[0].text));
            && c <= p <= |src| && o + (p - c) + h.linestgt <= |out| + 1
            && (p > c ==> o + (p - 1 - c) + |first| <= |out| && out[o..o + (p - 1 - c)] == src[c..p - 1] &&
                          out[o + (p - 1 - c)..o + (p - 1 - c) + |first|] == first)
  {
    hide From, NewLines, OldLines, CanonicalAll, Placed, Settled;
    var h, p := hs[0], FormatStart(hs[0]);
    assert WellFormed(h);
    WrittenFirst(src, out, c, o, lag, hs);
    if p > c {
      var q := o + (p - 1 - c);
      assert out[o..q] == out[o - Ahead(lag)..q][Ahead(lag)..];
      assert src[c..p - 1] == src[c - Ahead(lag)..p - 1][Ahead(lag)..];
      if h.linestgt > 0 {
        assert out[q] == out[q..q + h.linestgt][0];
      }
    }
  }

  lemma JumpFollows(src: seq<string>, out: seq<string>, c: nat, o: nat, lag: Lag, hs: seq<Hunk>)
    requires hs != [] && AllWellFormed(hs) && Follows(src, out, c, o, lag, hs) && Jumped(c, lag, hs[0])
    ensures var h := hs[0];
            var c' := LinesAfter(c, lag, h);
            Follows(src, out, c', o + (c' - c) + h.linestgt - h.linessrc, LagAfter(c, lag, h), hs[1..])
  {
    hide From, NewLines, OldLines, CanonicalAll, Settled, Placed;
    var h, p := hs[0], FormatStart(hs[0]);
    assert WellFormed(h);
    WrittenFirst(src, out, c, o, lag, hs);
    RoomLeft(src, p, hs[1..]);
    if p > c && h.linestgt == 0 {
      PlacedEarlier(|src|, p - 1, p, CanonicalAll(hs[1..]));
    }
  }

  /** What the tool writes from one line before `p` on is not empty. */
  lemma RoomLeft(src: seq<string>, p: nat, hs: seq<Hunk>)
    requires AllWellFormed(hs) && p > 0 && Placed(|src|, p, CanonicalAll(hs)) && Placed(|src|, p - 1, Settled(p - 1, hs))
    ensures From(src, p - 1, Settled(p - 1, hs)) != []
  {
    hide From, CanonicalAll, Settled, Placed, Growth;
    CanonicalWellFormed(hs);
    SettledWellFormed(p - 1, hs);
    FromLength(src, p, CanonicalAll(hs));
    FromLength(src, p - 1, Settled(p - 1, hs));
    CanonicalGrowth(hs);
    SettledGrowth(p - 1, hs);
  }

  lemma PlacedEarlier(n: nat, c: nat, d: nat, hs: seq<Hunk>)
    requires c <= d && Placed(n, d, hs)
    ensures Placed(n, c, hs)
  {
    PlacedBounds(n, d, hs);
  }

  lemma NumberedRest(hs: seq<Hunk>, delta: int)
    requires hs != [] && Numbered(CanonicalAll(hs), delta) && AllWellFormed(hs)
    ensures FormatTgtStart(hs[0]) == FormatStart(hs[0]) + delta && AllWellFormed(hs[1..])
    ensures Numbered(CanonicalAll(hs[1..]), delta + hs[0].linestgt - hs[0].linessrc)
  {
    CanonicalRest(hs);
  }

  lemma UndoNothing(src: seq<string>, out: seq<string>, c: nat, o: nat, lag: Lag, hs: seq<Hunk>)
    requires hs == [] && Follows(src, out, c, o, lag, hs)
    ensures Behind(lag) <= c && Behind(lag) <= o && Settled(o - Behind(lag), ReverseAll(hs)) == []
    ensures SameLines(From(out, o - Behind(lag), []), src[c - Behind(lag)..]) <==> UndoFits(src, c, lag, hs)
  {
    hide SameLines, HeldFits, From, Placed, CanonicalAll, Settled, ReverseAll;
    NoHunks(src, 0, c - Ahead(lag), hs);
    ReverseNothing(hs);
    FromNil(src, c - Ahead(lag), []);
    TailsAgree(src, out, c, o, lag);
    NoHunks(src, 0, o - Behind(lag), []);
    FromNil(out, o - Behind(lag), []);
  }

  /** The lines after the last hunk. */
  lemma TailsAgree(src: seq<string>, out: seq<string>, c: nat, o: nat, lag: Lag)
    requires Ahead(lag) <= c <= |src| && Ahead(lag) <= o <= |out| && out[o - Ahead(lag)..] == src[c - Ahead(lag)..]
    requires lag.Held? ==> HoldsLine(src, out, c, o, lag.line)
    ensures Behind(lag) <= c && Behind(lag) <= o
    ensures SameLines(out[o - Behind(lag)..], src[c - Behind(lag)..]) <==> HeldFits(src, c, lag)
  {
    hide SameLines, HeldFits;
    var e, n := Behind(lag), |src| - c;
    SameTail(src, out, c, o, Ahead(lag));
    GapAgrees(src, out, c, o, lag, n);
    assert out[o - e..o + n] == out[o - e..] && src[c - e..c + n] == src[c - e..];
  }

  lemma SameTail<T>(a: seq<T>, b: seq<T>, i: nat, j: nat, k: nat)
    requires k <= i <= |a| && k <= j <= |b| && b[j - k..] == a[i - k..]
    ensures |b| - j == |a| - i && b[j..j + (|a| - i)] == a[i..i + (|a| - i)]
  {
    assert |b| == j - k + |b[j - k..]|;
    assert b[j..] == b[j - k..][k..] == a[i - k..][k..] == a[i..];
    assert b[j..j + (|a| - i)] == b[j..] && a[i..i + (|a| - i)] == a[i..];
  }

  /** The reversed hunks settle inside the patched file. */
  lemma ReversedPlaced(src: seq<string>, out: seq<string>, c: nat, delta: int, lag: Lag, hs: seq<Hunk>)
    requires AllWellFormed(hs) && Numbered(CanonicalAll(hs), delta) && 0 <= c + delta
    requires Follows(src, out, c, c + delta, lag, hs)
    ensures Behind(lag) <= c <= |src| && Behind(lag) <= c + delta
    ensures Placed(|out|, c + delta - Behind(lag), Settled(c + delta - Behind(lag), ReverseAll(hs)))
  {
    hide From, Growth, Settled, CanonicalAll, ReverseAll, Placed, Numbered, AllWellFormed;
    var f, t := CanonicalAll(hs), c - Ahead(lag);
    CanonicalWellFormed(hs);
    SettledWellFormed(t, hs);
    FromLength(src, t, Settled(t, hs));
    SettledGrowth(t, hs);
    CanonicalGrowth(hs);
    assert |out| == t + delta + |out[t + delta..]|;
    ReversePlaced(|src|, c, delta, f);
    CanonicalReverse(hs);
    SettledPlaced(|out|, c + delta, c + delta - Behind(lag), ReverseAll(hs));
  }

  /** The first reversed hunk where it settles. */
  lemma ReversedFrom(out: seq<string>, u: nat, hs: seq<Hunk>)
    requires hs != [] && AllWellFormed(hs) && Placed(|out|, u, Settled(u, ReverseAll(hs)))
    ensures var at := Max(u, TgtStart(hs[0]));
            var next := at + hs[0].linestgt;
            at <= |out| && Placed(|out|, next, Settled(next, ReverseAll(hs[1..]))) &&
            From(out, u, Settled(u, ReverseAll(hs))) ==
            (out[u..at] + OldLines(hs[0].text)) + From(out, next, Settled(next, ReverseAll(hs[1..])))
  {
    hide *;
    ReversedFirst(hs);
    ReadAs(out, u, ReverseAll(hs), hs[0]);
  }

  /** The first of the hunks `r`, which is `h` read backwards. */
  lemma ReadAs(out: seq<string>, u: nat, r: seq<Hunk>, h: Hunk)
    requires r != [] && Placed(|out|, u, Settled(u, r))
    requires Start(r[0]) == TgtStart(h) && r[0].linessrc == h.linestgt && NewLines(r[0].text) == OldLines(h.text)
    ensures var at := Max(u, TgtStart(h));
            var next := at + h.linestgt;
            at <= |out| && Placed(|out|, next, Settled(next, r[1..])) &&
            From(out, u, Settled(u, r)) == (out[u..at] + OldLines(h.text)) + From(out, next, Settled(next, r[1..]))
  {
    hide From, Settled, OldLines, NewLines, Placed, Start, TgtStart;
    SettledFrom(out, u, r);
  }

  /** How early a hunk that did not jump is put back, and that the lines before it are there. */
  lemma EarlyOrInPlace(c: nat, o: nat, lag: Lag, h: Hunk)
    requires c <= FormatStart(h) && FormatTgtStart(h) == o + (FormatStart(h) - c) && (lag.Held? ==> o > 0 && c > 0)
    ensures var k := if PutBackEarly(c, lag, h) then 1 else 0;
            Max(o - Behind(lag), TgtStart(h)) == FormatTgtStart(h) - k && c - Behind(lag) <= FormatStart(h) - k &&
            (k == 1 ==> h.linestgt == 0)
  {
  }

  /** A hunk that did not jump, put back by the tool; `left` follows it. */
  lemma PutBackInPlace(src: seq<string>, out: seq<string>, c: nat, o: nat, lag: Lag, hs: seq<Hunk>, left: seq<string>)
    requires hs != [] && AllWellFormed(hs) && Follows(src, out, c, o, lag, hs) && !Jumped(c, lag, hs[0])
    requires c <= FormatStart(hs[0]) && FormatTgtStart(hs[0]) == o + (FormatStart(hs[0]) - c)
    ensures var h, u := hs[0], o - Behind(lag);
            var at, c', lag' := Max(u, TgtStart(h)), LinesAfter(c, lag, h), LagAfter(c, lag, h);
            && 0 <= u <= at <= |out| && 0 <= c' - Behind(lag') <= |src| && Behind(lag) <= c
            && at + h.linestgt == o + (c' - c) + h.linestgt - h.linessrc - Behind(lag')
            && (SameLines((out[u..at] + OldLines(h.text)) + left, src[c - Behind(lag)..]) <==>
                HunkFits(src, c, lag, h) && SameLines(left, src[c' - Behind(lag')..]))
  {
    hide From, NewLines, OldLines, CanonicalAll, Placed, Settled, SameLines, SameLine, HeldFits, StandsAt;
    var h, p := hs[0], FormatStart(hs[0]);
    var k := if PutBackEarly(c, lag, h) then 1 else 0;
    InPlaceGap(src, out, c, o, lag, hs);
    EarlyOrInPlace(c, o, lag, h);
    assert WellFormed(h);
    PutBack(src, out, c, o, lag, p, k, OldLines(h.text), left);
  }

  /** A hunk that jumped, taken out by the tool. */
  lemma TakeOutJumped(src: seq<string>, out: seq<string>, c: nat, o: nat, lag: Lag, hs: seq<Hunk>, left: seq<string>)
    requires hs != [] && AllWellFormed(hs) && Follows(src, out, c, o, lag, hs) && Jumped(c, lag, hs[0])
    requires c <= FormatStart(hs[0]) && FormatTgtStart(hs[0]) == o + (FormatStart(hs[0]) - c)
    ensures var h, u := hs[0], o - Behind(lag);
            var at, c', lag' := Max(u, TgtStart(h)), LinesAfter(c, lag, h), LagAfter(c, lag, h);
            && 0 <= u <= at <= |out| && 0 <= c' - Behind(lag') <= |src| && Behind(lag) <= c
            && at + h.linestgt == o + (c' - c) + h.linestgt - h.linessrc - Behind(lag')
            && (SameLines((out[u..at] + OldLines(h.text)) + left, src[c - Behind(lag)..]) <==>
                HunkFits(src, c, lag, h) && SameLines(left, src[c' - Behind(lag')..]))
  {
    hide From, CanonicalAll, Placed, Settled, SameLines, SameLine, HeldFits, StandsAt, NewLines, OldLines;
    var h, p, first := hs[0], FormatStart(hs[0]), FirstOf(NewLines(hs[0].text));
    assert WellFormed(h);
    JumpGap(src, out, c, o, lag, hs);
    var u := o - Behind(lag);
    var at := Max(u, TgtStart(h));
    assert OldLines(h.text) == [];
    if p == c {
      assert (out[u..at] + OldLines(h.text)) + left == left;
    } else {
      PutBack(src, out, c, o, lag, p - 1, 0, first, left);
      assert out[u..at] + OldLines(h.text) == out[u..o + (p - 1 - c)] + first;
    }
  }

  /** One hunk undone by the tool. */
  lemma UnpatchStep(src: seq<string>, out: seq<string>, c: nat, o: nat, lag: Lag, hs: seq<Hunk>, left: seq<string>)
    requires hs != [] && AllWellFormed(hs) && Follows(src, out, c, o, lag, hs)
    requires c <= FormatStart(hs[0]) && FormatTgtStart(hs[0]) == o + (FormatStart(hs[0]) - c)
    ensures var h, u := hs[0], o - Behind(lag);
            var at, c', lag' := Max(u, TgtStart(h)), LinesAfter(c, lag, h), LagAfter(c, lag, h);
            var o' := o + (c' - c) + h.linestgt - h.linessrc;
            && 0 <= u <= at <= |out| && 0 <= c' - Behind(lag') <= |src| && Behind(lag) <= c
            && at + h.linestgt == o' - Behind(lag') && 0 <= o' && Follows(src, out, c', o', lag', hs[1..])
            && (SameLines((out[u..at] + OldLines(h.text)) + left, src[c - Behind(lag)..]) <==>
                HunkFits(src, c, lag, h) && SameLines(left, src[c' - Behind(lag')..]))
  {
    hide From, NewLines, OldLines, CanonicalAll, Placed, Settled, HoldsLine, Start, FormatStart, Jumped, Follows, SameLines,
         WellFormed, AllWellFormed, HunkFits, LinesAfter, LagAfter, FormatTgtStart, TgtStart;
    if Jumped(c, lag, hs[0]) {
      JumpFollows(src, out, c, o, lag, hs);
      TakeOutJumped(src, out, c, o, lag, hs, left);
    } else {
      InPlaceFollows(src, out, c, o, lag, hs);
      PutBackInPlace(src, out, c, o, lag, hs, left);
    }
  }

  /** Undoing what the tool wrote gives the source from index `c` on exactly when every hunk fits. */
  lemma {:induction false} UnpatchFrom(src: seq<string>, out: seq<string>, c: nat, delta: int, lag: Lag, hs: seq<Hunk>)
    requires AllWellFormed(hs) && Numbered(CanonicalAll(hs), delta) && 0 <= c + delta
    requires Follows(src, out, c, c + delta, lag, hs)
    ensures Behind(lag) <= c <= |src| && Behind(lag) <= c + delta
    ensures var u := c + delta - Behind(lag);
            var r := Settled(u, ReverseAll(hs));
            Placed(|out|, u, r) && (SameLines(From(out, u, r), src[c - Behind(lag)..]) <==> UndoFits(src, c, lag, hs))
    decreases |hs|
  {
    hide From, Settled, OldLines, NewLines, SameLines, SameLine, HunkFits, UndoFits, PutBackEarly, FormatStart, Follows,
         FormatTgtStart, Numbered, CanonicalAll, ReverseAll, Placed, TgtStart, LinesAfter, LagAfter, Behind;
    var u := c + delta - Behind(lag);
    ReversedPlaced(src, out, c, delta, lag, hs);
    if hs == [] {
      UndoNothing(src, out, c, c + delta, lag, hs);
    } else {
      var h, rest, c', lag' := hs[0], hs[1..], LinesAfter(c, lag, hs[0]), LagAfter(c, lag, hs[0]);
      NumberedRest(hs, delta);
      InOrder(src, out, c, c + delta, lag, hs);
      var next := Max(u, TgtStart(h)) + h.linestgt;
      ReversedFrom(out, u, hs);
      var left := From(out, next, Settled(next, ReverseAll(rest)));
      UnpatchStep(src, out, c, c + delta, lag, hs, left);
      UnpatchFrom(src, out, c', delta + h.linestgt - h.linessrc, lag', rest);
      UndoFitsUnfold(src, c, lag, hs);
    }
  }

  lemma InOrder(src: seq<string>, out: seq<string>, c: nat, o: nat, lag: Lag, hs: seq<Hunk>)
    requires hs != [] && Follows(src, out, c, o, lag, hs)
    ensures c <= FormatStart(hs[0])
  {
    hide From, Settled;
    CanonicalRest(hs);
  }

  lemma {:induction false} ReversedGrowth(hs: seq<Hunk>)
    ensures Growth(ReverseAll(hs)) == -Growth(hs)
  {
    if hs != [] {
      ReverseRest(hs);
      ReversedGrowth(hs[1..]);
    }
  }

  lemma UnpatchLength(src: seq<string>, out: seq<string>, hs: seq<Hunk>)
    requires AllWellFormed(hs) && Placed(|out|, 0, Settled(0, ReverseAll(hs))) && |out| == |src| + Growth(hs)
    requires Bare(Unpatch(out, hs)) == Bare(src)
    ensures SlashesAtEnd(|out|, Settled(0, ReverseAll(hs)))
  {
    hide Stream, From, SlashesAtEnd, Settled, Bare, Growth, Placed, ReverseAll;
    var r := ReverseAll(hs);
    ReverseWellFormed(hs);
    StreamSettled(out, 0, 0, r);
    PatchLength(out, Settled(0, r));
    SettledGrowth(0, r);
    ReversedGrowth(hs);
    BareLength(Unpatch(out, hs));
    BareLength(src);
  }

  lemma StreamLength(src: seq<string>, hs: seq<Hunk>)
    requires AllWellFormed(hs) && Placed(|src|, 0, CanonicalAll(hs)) && SlashesAtEnd(|src|, Settled(0, hs))
    ensures |Stream(src, 0, hs)| == |src| + Growth(hs)
  {
    hide Stream, SlashesAtEnd, Settled, CanonicalAll, Placed, Growth;
    SettledPlaced(|src|, 0, 0, hs);
    SettledWellFormed(0, hs);
    StreamSettled(src, 0, 0, hs);
    PatchLength(src, Settled(0, hs));
    SettledGrowth(0, hs);
  }

  lemma FollowsAtStart(src: seq<string>, hs: seq<Hunk>)
    requires Placed(|src|, 0, CanonicalAll(hs))
    ensures Placed(|src|, 0, Settled(0, hs)) && Follows(src, Splice(src, Settled(0, hs)), 0, 0, InStep, hs)
  {
    hide Splice, From, Settled, CanonicalAll, Placed;
    SettledPlaced(|src|, 0, 0, hs);
    var ref := Splice(src, Settled(0, hs));
    FromIsSplice(src, Settled(0, hs));
    assert ref[0..] == ref;
  }

  /**
    Patching and then patching with the reversed hunks gives the source back exactly when `\` lines
    come last on the way back too, seen from where the hunks settle, and every hunk fits.
   */
  lemma {:induction false} UndoIffFits(src: seq<string>, hs: seq<Hunk>)
    requires AllWellFormed(hs) && Placed(|src|, 0, CanonicalAll(hs)) && Numbered(CanonicalAll(hs), 0)
    requires SlashesAtEnd(|src|, Settled(0, hs))
    ensures Bare(Unpatch(Stream(src, 0, hs), hs)) == Bare(src) <==>
            SlashesAtEnd(|Stream(src, 0, hs)|, Settled(0, ReverseAll(hs))) && UndoFits(src, 0, InStep, hs)
  {
    hide Stream, From, Splice, SlashesAtEnd, Settled, Bare, UndoFits, Growth, Numbered, Placed, ReverseAll, CanonicalAll,
         Follows;
    var out, s, r := Stream(src, 0, hs), Settled(0, ReverseAll(hs)), ReverseAll(hs);
    FollowsAtStart(src, hs);
    var ref := Splice(src, Settled(0, hs));
    assert src[0..] == src;
    PatchIsSettledSplice(src, hs);
    UnpatchFrom(src, ref, 0, 0, InStep, hs);
    BareLength(out);
    BareLength(ref);
    FromBare(ref, out, 0, s);
    FromIsSplice(out, s);
    ReverseWellFormed(hs);
    PatchIsSettledSplice(out, r);
    StreamLength(src, hs);
    if Bare(Unpatch(out, hs)) == Bare(src) {
      UnpatchLength(src, out, hs);
    }
  }

  /** Every insertion with a source line before it to jump over begins with a copy of that line. */
  predicate FirstLinesFit(src: seq<string>, c: nat, hs: seq<Hunk>)
    decreases |hs|
  {
    hs == [] ||
    var h := hs[0];
    && (h.linessrc == 0 && h.startsrc > c ==> StandsAt(src, FirstOf(NewLines(h.text)), h.startsrc - 1))
    && FirstLinesFit(src, FormatStart(h) + h.linessrc, hs[1..])
  }

  lemma FirstLinesFitUnfold(src: seq<string>, c: nat, hs: seq<Hunk>)
    requires hs != []
    ensures FirstLinesFit(src, c, hs) <==>
            var h := hs[0];
            (h.linessrc == 0 && h.startsrc > c ==> StandsAt(src, FirstOf(NewLines(h.text)), h.startsrc - 1)) &&
            FirstLinesFit(src, FormatStart(h) + h.linessrc, hs[1..])
  {
  }

  /** If every hunk leaves a line, none is put back early. */
  lemma LeavesALine(src: seq<string>, c: nat, lag: Lag, h: Hunk)
    requires WellFormed(h) && h.linestgt > 0 && !lag.Held? && c <= FormatStart(h) && FormatStart(h) + h.linessrc <= |src|
    ensures !LagAfter(c, lag, h).Held? && LinesAfter(c, lag, h) == FormatStart(h) + h.linessrc
    ensures HunkFits(src, c, lag, h) <==>
            HunkMatches(src, Canonical(h)) &&
            (h.linessrc == 0 && h.startsrc > c ==> StandsAt(src, FirstOf(NewLines(h.text)), h.startsrc - 1))
  {
    hide Bare, OldLines, NewLines;
    var p := FormatStart(h);
    if h.linessrc == 0 {
      assert OldLines(h.text) == [];
      assert src[p..p] == [];
      Reflexive(src[p..p]);
    }
  }

  lemma {:induction false} FitsIffMatches(src: seq<string>, c: nat, lag: Lag, hs: seq<Hunk>)
    requires AllWellFormed(hs) && Placed(|src|, c, CanonicalAll(hs)) && !lag.Held?
    requires forall i :: 0 <= i < |hs| ==> hs[i].linestgt > 0
    ensures UndoFits(src, c, lag, hs) <==> Matches(src, CanonicalAll(hs)) && FirstLinesFit(src, c, hs)
    decreases |hs|
  {
    hide Placed, SameLines, HunkMatches, StandsAt, HunkFits, LagAfter, LinesAfter, OldLines, NewLines, WellFormed;
    if hs != [] {
      var h := hs[0];
      CanonicalRest(hs);
      PlacedFirst(|src|, c, CanonicalAll(hs));
      assert WellFormed(h);
      LeavesALine(src, c, lag, h);
      FitsIffMatches(src, LinesAfter(c, lag, h), LagAfter(c, lag, h), hs[1..]);
      MatchesUnfold(src, CanonicalAll(hs));
    }
  }

  lemma PlacedFirst(n: nat, c: nat, hs: seq<Hunk>)
    requires hs != [] && Placed(n, c, hs)
    ensures c <= Start(hs[0]) && End(hs[0]) <= n && Placed(n, End(hs[0]), hs[1..])
  {
    PlacedBounds(n, c, hs);
  }

  /** Insertions that the tool puts right are no obstacle. */
  lemma {:induction false} FittingJumpsBeginRight(src: seq<string>, c: nat, t: nat, hs: seq<Hunk>)
    requires Placed(|src|, c, CanonicalAll(hs)) && t <= c <= t + 1 && JumpsFit(src, t, hs)
    ensures FirstLinesFit(src, c, hs)
    decreases |hs|
  {
    hide NewLines, RStrip, AllAre, StandsAt, JumpsFit, Placed, FirstOf;
    if hs != [] {
      var h := hs[0];
      CanonicalRest(hs);
      PlacedFirst(|src|, c, CanonicalAll(hs));
      JumpsFitUnfold(src, t, hs);
      FittingJumpsBeginRight(src, FormatStart(h) + h.linessrc, Max(t, Start(h)) + h.linessrc, hs[1..]);
      if h.linessrc == 0 && h.startsrc > c {
        BeginsWith(src, NewLines(h.text), h.startsrc - 1);
      }
    }
  }

  lemma BeginsWith(src: seq<string>, lines: seq<string>, p: nat)
    requires p < |src| && AllAre(lines, src[p])
    ensures StandsAt(src, FirstOf(lines), p)
  {
    hide RStrip;
    if lines == [] {
      Reflexive(src[p..p]);
    } else {
      assert src[p..p + 1] == [src[p]];
      assert Bare([src[p]]) == [RStrip(src[p])] && Bare([lines[0]]) == [RStrip(lines[0])];
    }
  }

  /**
    If every hunk leaves a line, the source comes back exactly when every hunk matched it and
    every insertion that jumped over a line begins with a copy of that line.
   */
  lemma {:induction false} UndoIffMatches(src: seq<string>, hs: seq<Hunk>)
    requires AllWellFormed(hs) && Placed(|src|, 0, CanonicalAll(hs)) && Numbered(CanonicalAll(hs), 0)
    requires SlashesAtEnd(|src|, Settled(0, hs))
    requires forall i :: 0 <= i < |hs| ==> hs[i].linestgt > 0
    ensures Bare(Unpatch(Stream(src, 0, hs), hs)) == Bare(src) <==>
            Matches(src, CanonicalAll(hs)) && FirstLinesFit(src, 0, hs)
  {
    hide Stream, SlashesAtEnd, Settled, Bare, UndoFits, Numbered, Placed, CanonicalAll, Matches, FirstLinesFit;
    UndoIffFits(src, hs);
    FitsIffMatches(src, 0, InStep, hs);
    ReversedSlashesAtEnd(src, hs);
  }

  lemma ReversedSlashesAtEnd(src: seq<string>, hs: seq<Hunk>)
    requires AllWellFormed(hs) && Placed(|src|, 0, CanonicalAll(hs)) && Numbered(CanonicalAll(hs), 0)
    requires SlashesAtEnd(|src|, Settled(0, hs))
    requires forall i :: 0 <= i < |hs| ==> hs[i].linestgt > 0
    ensures SlashesAtEnd(|Stream(src, 0, hs)|, Settled(0, ReverseAll(hs)))
  {
    hide Stream, SlashesAtEnd, Settled, Numbered, Placed, Growth;
    var f, r, n := CanonicalAll(hs), ReverseAll(hs), |Stream(src, 0, hs)|;
    CanonicalWellFormed(hs);
    StreamLength(src, hs);
    CanonicalGrowth(hs);
    SlashesAtFormatEnd(|src|, 0, 0, hs);
    ReversePlaced(|src|, 0, 0, f);
    ReverseSlashesAtEnd(|src|, 0, 0, f);
    CanonicalReverse(hs);
    SourceLinesAreFormat(r);
    AlikePlaced(n, 0, r, CanonicalAll(r));
    AlikeSlashesAtEnd(n, r, CanonicalAll(r));
    SourceLinesAreInPlace(n, 0, r);
    AlikeSlashesAtEnd(n, r, Settled(0, r));
  }

  // -------------------------------------------------------------------------
  // A `\` line in the middle costs a line for good

  lemma {:induction false} ShorterFile(a: seq<string>, b: seq<string>, c: nat, hs: seq<Hunk>)
    requires AllBodyLines(hs) && |a| <= |b|
    ensures |Stream(a, c, hs)| <= |Stream(b, c, hs)|
    decreases |hs|
  {
    hide Stream, Body, BodyEnd, BodyLines;
    if hs == [] {
      StreamNil(a, c, hs);
      StreamNil(b, c, hs);
    } else {
      StreamUnfold(a, c, hs);
      StreamUnfold(b, c, hs);
      BodySize(a, Max(c, Start(hs[0])), hs[0].text);
      BodySize(b, Max(c, Start(hs[0])), hs[0].text);
      ShorterFile(a, b, BodyEnd(Max(c, Start(hs[0])), hs[0].text), hs[1..]);
    }
  }

  lemma BodySize(src: seq<string>, c: nat, text: seq<string>)
    requires BodyLines(text)
    ensures |Body(src, c, text)| == |NewLines(text)|
  {
    hide Body, NewLines, Bare;
    BodyBare(src, c, text);
    BareLength(Body(src, c, text));
    BareLength(NewLines(text));
  }

  lemma ReverseTwice(hs: seq<Hunk>)
    requires AllWellFormed(hs)
    ensures ReverseAll(ReverseAll(hs)) == hs
  {
    forall i | 0 <= i < |hs|
      ensures ReverseAll(ReverseAll(hs))[i] == hs[i]
    {
      assert WellFormed(hs[i]);
      ReverseTextTwice(hs[i].text);
    }
  }

  lemma {:induction false} ReverseTextTwice(text: seq<string>)
    ensures ReverseText(ReverseText(text)) == text
  {
    if text != [] {
      ReverseTextTwice(text[1..]);
      assert ReverseText(text)[1..] == ReverseText(text[1..]);
      assert ReverseLine(ReverseLine(text[0])) == text[0];
    }
  }

  lemma {:induction false} NumberedBack(hs: seq<Hunk>, delta: int)
    requires Numbered(hs, delta)
    ensures Numbered(ReverseAll(hs), -delta)
    decreases |hs|
  {
    if hs != [] {
      ReverseRest(hs);
      NumberedBack(hs[1..], delta + hs[0].linestgt - hs[0].linessrc);
    }
  }

  /** The reversed hunks have their `\` lines at the end only if the hunks themselves have. */
  lemma ReversedSlashesBack(n: nat, hs: seq<Hunk>)
    requires AllWellFormed(hs) && Placed(n, 0, hs) && Numbered(hs, 0)
    ensures n + Growth(hs) >= 0
    ensures SlashesAtEnd(n + Growth(hs), ReverseAll(hs)) ==> SlashesAtEnd(n, hs)
  {
    hide SlashesAtEnd, Growth, Numbered, Placed, ReverseAll;
    ReversePlaced(n, 0, 0, hs);
    if SlashesAtEnd(n + Growth(hs), ReverseAll(hs)) {
      ReverseWellFormed(hs);
      NumberedBack(hs, 0);
      ReverseSlashesAtEnd(n + Growth(hs), 0, 0, ReverseAll(hs));
      ReverseTwice(hs);
      ReversedGrowth(hs);
    }
  }

  /** A source that comes back was patched with hunks whose `\` lines come last in the format's order. */
  lemma {:induction false} RestoredMeansSlashesLast(src: seq<string>, hs: seq<Hunk>)
    requires AllWellFormed(hs) && Placed(|src|, 0, CanonicalAll(hs)) && Numbered(CanonicalAll(hs), 0)
    requires Bare(Unpatch(Stream(src, 0, hs), hs)) == Bare(src)
    ensures SlashesAtEnd(|src|, CanonicalAll(hs))
  {
    hide Stream, From, Splice, SlashesAtEnd, Settled, Bare, Growth, Numbered, Placed, ReverseAll, CanonicalAll;
    var f, r, out, ref := CanonicalAll(hs), ReverseAll(hs), Stream(src, 0, hs), Splice(src, CanonicalAll(hs));
    CanonicalWellFormed(hs);
    CanonicalGrowth(hs);
    FromIsSplice(src, f);
    FromLength(src, 0, f);
    NoLonger(src, hs);
    ReverseWellFormed(hs);
    ShorterFile(out, ref, 0, r);
    ReversePlaced(|src|, 0, 0, f);
    CanonicalReverse(hs);
    SettledPlaced(|ref|, 0, 0, r);
    SettledWellFormed(0, r);
    StreamSettled(ref, 0, 0, r);
    PatchLength(ref, Settled(0, r));
    SettledGrowth(0, r);
    ReversedGrowth(hs);
    BareLength(Unpatch(out, hs));
    BareLength(src);
    SlashesAtFormatEnd(|ref|, 0, 0, r);
    ReversedSlashesBack(|src|, f);
  }

  lemma NoLonger(src: seq<string>, hs: seq<Hunk>)
    requires AllWellFormed(hs) && Placed(|src|, 0, CanonicalAll(hs))
    ensures |Stream(src, 0, hs)| <= |src| + Growth(hs)
  {
    hide Stream, SlashesAtEnd, Settled, CanonicalAll, Placed, Growth;
    SettledPlaced(|src|, 0, 0, hs);
    SettledWellFormed(0, hs);
    StreamSettled(src, 0, 0, hs);
    PatchLength(src, Settled(0, hs));
    SettledGrowth(0, hs);
  }

  /** The same down to the last byte, for a source with one terminator on every line. */
  lemma {:induction false} UndoExactly(src: seq<string>, hs: seq<Hunk>, nl: string)
    requires IsTerminator(nl) && Uniform(src, nl) && AllBodyLines(ReverseAll(hs))
    requires AllWellFormed(hs) && Placed(|src|, 0, CanonicalAll(hs)) && Numbered(CanonicalAll(hs), 0)
    requires SlashesAtEnd(|src|, Settled(0, hs)) && Uniform(RawLines(src, nl, hs), nl)
    ensures var out := Stream(src, 0, hs);
            Unpatch(out, hs) == src <==>
            SlashesAtEnd(|out|, Settled(0, ReverseAll(hs))) && UndoFits(src, 0, InStep, hs) &&
            Uniform(RawLines(out, nl, ReverseAll(hs)), nl)
  {
    hide Stream, Splice, SlashesAtEnd, Settled, Bare, UndoFits, Numbered, Placed, CanonicalAll, RawLines, Uniform;
    var out, r := Stream(src, 0, hs), ReverseAll(hs);
    UndoIffFits(src, hs);
    UniformHasOneTerminator(src, nl);
    InFile(|src|, hs);
    OutputKeepsTerminator(src, hs, nl);
    UniformHasOneTerminator(out, nl);
    ReversedInFile(src, hs);
    ReverseWellFormed(hs);
    OutputKeepsTerminator(out, r, nl);
    var back := Unpatch(out, hs);
    if Bare(back) == Bare(src) && Uniform(back, nl) {
      UniformEqual(back, src, nl);
    }
  }

  lemma UniformHasOneTerminator(src: seq<string>, nl: string)
    requires IsTerminator(nl) && Uniform(src, nl)
    ensures OneTerminator(src, nl) && !LastOpen(src)
  {
    hide RStrip;
    if src != [] && LastOpen(src) {
      OpenIsNotClosed(src[|src| - 1], nl);
    }
  }

  lemma InFile(n: nat, hs: seq<Hunk>)
    requires Placed(n, 0, CanonicalAll(hs))
    ensures forall i :: 0 <= i < |hs| ==> Start(hs[i]) <= n
  {
    PlacedBounds(n, 0, CanonicalAll(hs));
    forall i | 0 <= i < |hs|
      ensures Start(hs[i]) <= n
    {
      assert CanonicalAll(hs)[i] == Canonical(hs[i]);
    }
  }

  lemma ReversedInFile(src: seq<string>, hs: seq<Hunk>)
    requires AllWellFormed(hs) && Placed(|src|, 0, CanonicalAll(hs)) && Numbered(CanonicalAll(hs), 0)
    requires SlashesAtEnd(|src|, Settled(0, hs))
    ensures forall i :: 0 <= i < |hs| ==> Start(ReverseAll(hs)[i]) <= |Stream(src, 0, hs)|
  {
    hide Stream, SlashesAtEnd, Settled, Numbered, Placed, Growth;
    CanonicalWellFormed(hs);
    StreamLength(src, hs);
    CanonicalGrowth(hs);
    ReversePlaced(|src|, 0, 0, CanonicalAll(hs));
    CanonicalReverse(hs);
    InFile(|Stream(src, 0, hs)|, ReverseAll(hs));
  }
}
