/** The line terminators `patch_stream` writes: those of the source, whatever the patch uses. */
module LineEnds {
  import opened Text
  import opened Hunks
  import opened PatchStream
  import opened Format

  // -------------------------------------------------------------------------
  // Sources with one kind of terminator

  /** The line ends in `nl` and in nothing else. */
  predicate Closed(l: string, nl: string) {
    l == RStrip(l) + nl
  }

  /** The line has no terminator. */
  predicate Open(l: string) {
    l == RStrip(l)
  }

  /** All lines are ended by `nl`, save that the last one may have no terminator. */
  predicate OneTerminator(src: seq<string>, nl: string) {
    forall i :: 0 <= i < |src| ==> Closed(src[i], nl) || (i == |src| - 1 && Open(src[i]))
  }

  predicate LastOpen(src: seq<string>) {
    src != [] && Open(src[|src| - 1])
  }

  /** The first line shows which terminator the source has. */
  predicate Shows(src: seq<string>, nl: string) {
    src != [] && Closed(src[0], nl)
  }

  lemma AddOpen(e: Ends, l: string)
    requires Open(l)
    ensures e.Add(l) == e
  {
    LastOfSuffix(l, LF);
    LastOfSuffix(l, CRLF);
    LastOfSuffix(l, CR);
  }

  lemma LastOfSuffix(l: string, suffix: string)
    requires suffix != []
    ensures EndsWith(l, suffix) ==> l != [] && l[|l| - 1] == suffix[|suffix| - 1]
  {
    if EndsWith(l, suffix) {
      assert l[|l| - |suffix|..][|suffix| - 1] == l[|l| - 1];
    }
  }

  lemma OpenIsNotClosed(l: string, nl: string)
    requires IsTerminator(nl) && Open(l)
    ensures !Closed(l, nl)
  {
    assert |RStrip(l) + nl| > |RStrip(l)|;
  }

  lemma CountClosed(ls: seq<string>, nl: string)
    requires IsTerminator(nl) && Uniform(ls, nl) && ls != []
    ensures CountEnds(ls).Consistent() && CountEnds(ls).Newline() == nl
  {
    CountUniform(ls, nl);
  }

  /** Once the first line has been read, its terminator is the one detected. */
  lemma SeenAfterFirst(src: seq<string>, c: nat, nl: string)
    requires IsTerminator(nl) && OneTerminator(src, nl) && Shows(src, nl) && c > 0
    ensures SeenEnds(src, c).Consistent() && SeenEnds(src, c).Newline() == nl
  {
    hide CountEnds, Uniform, OneTerminator, LastOpen, IsTerminator, Closed;
    var n := Min(c, |src|);
    if n == |src| && LastOpen(src) {
      CountWithOpenLast(src, nl);
    } else {
      ClosedPrefix(src, n, nl);
      CountClosed(src[..n], nl);
    }
  }

  lemma CountWithOpenLast(src: seq<string>, nl: string)
    requires IsTerminator(nl) && OneTerminator(src, nl) && Shows(src, nl) && LastOpen(src)
    ensures CountEnds(src[..|src|]).Consistent() && CountEnds(src[..|src|]).Newline() == nl
  {
    hide CountEnds, Uniform, OneTerminator, LastOpen, IsTerminator, Closed, Open, Shows;
    var n := |src|;
    LastOpenIsLater(src, nl);
    ClosedPrefix(src, n - 1, nl);
    CountClosed(src[..n - 1], nl);
    LastIsOpen(src);
    AddOpen(CountEnds(src[..n - 1]), src[n - 1]);
    CountLast(src);
    WholeSlice(src);
  }

  lemma WholeSlice(src: seq<string>)
    ensures src[..|src|] == src
  {
  }

  lemma LastOpenIsLater(src: seq<string>, nl: string)
    requires IsTerminator(nl) && Shows(src, nl) && LastOpen(src)
    ensures |src| > 1
  {
    OpenIsNotClosed(src[|src| - 1], nl);
  }

  lemma LastIsOpen(src: seq<string>)
    requires LastOpen(src)
    ensures Open(src[|src| - 1])
  {
  }

  lemma ClosedPrefix(src: seq<string>, n: nat, nl: string)
    requires OneTerminator(src, nl) && n <= |src| && !(n == |src| && LastOpen(src))
    ensures Uniform(src[..n], nl)
  {
    hide RStrip;
  }

  lemma CountLast(ls: seq<string>)
    requires ls != []
    ensures CountEnds(ls) == CountEnds(ls[..|ls| - 1]).Add(ls[|ls| - 1])
  {
  }

  /** If the first line has no terminator there is nothing to detect. */
  lemma SeesNothing(src: seq<string>, c: nat, nl: string)
    requires OneTerminator(src, nl) && !Shows(src, nl)
    ensures !SeenEnds(src, c).Consistent()
  {
    hide RStrip;
    var ls := src[..Min(c, |src|)];
    if ls != [] {
      assert |src| == 1 && ls == [src[0]];
      CountLast(ls);
      AddOpen(NO_ENDS, src[0]);
    }
  }

  // -------------------------------------------------------------------------
  // Lines written as the patch has them

  /** The texts of the '+' lines a body starts with. */
  function LeadingPlus(text: seq<string>): seq<string>
    requires BodyLines(text)
  {
    if text == [] || text[0][0] != '+' then [] else [Tail(text[0])] + LeadingPlus(text[1..])
  }

  /** The lines written before any source line has been read. */
  function FirstLines(hs: seq<Hunk>): seq<string>
    requires AllBodyLines(hs)
  {
    if hs == [] || Start(hs[0]) > 0 then []
    else
      var lead := LeadingPlus(hs[0].text);
      if |lead| < |hs[0].text| then lead else lead + FirstLines(hs[1..])
  }

  function AllNew(hs: seq<Hunk>): seq<string> {
    if hs == [] then [] else NewLines(hs[0].text) + AllNew(hs[1..])
  }

  /** The lines of the patch written while no terminator is detected. */
  function RawLines(src: seq<string>, nl: string, hs: seq<Hunk>): seq<string>
    requires AllBodyLines(hs)
  {
    if Shows(src, nl) then FirstLines(hs) else AllNew(hs)
  }

  /** The last of `n` source lines is copied, not replaced. */
  predicate LastCopied(n: nat, c: nat, hs: seq<Hunk>)
    requires AllBodyLines(hs)
    decreases |hs|
  {
    if hs == [] then c < n
    else
      var at := Max(c, Start(hs[0]));
      (c < n <= at) || LastCopied(n, BodyEnd(at, hs[0].text), hs[1..])
  }

  lemma UniformConcat(a: seq<string>, b: seq<string>, nl: string)
    ensures Uniform(a + b, nl) <==> Uniform(a, nl) && Uniform(b, nl)
  {
    if Uniform(a + b, nl) {
      assert forall i :: 0 <= i < |a| ==> a[i] == (a + b)[i];
      assert forall i :: 0 <= i < |b| ==> b[i] == (a + b)[|a| + i];
    }
  }

  lemma UniformNil(nl: string)
    ensures Uniform([], nl)
  {
  }

  lemma ConvertUniform(src: seq<string>, c: nat, hline: string, nl: string)
    requires IsTerminator(nl) && OneTerminator(src, nl) && Shows(src, nl) && c > 0
    ensures Uniform([Convert(SeenEnds(src, c), hline)], nl)
  {
    hide SeenEnds;
    SeenAfterFirst(src, c, nl);
    RStripIdempotent(Tail(hline), nl);
  }

  lemma {:induction false} BodyUniform(src: seq<string>, c: nat, text: seq<string>, nl: string)
    requires IsTerminator(nl) && OneTerminator(src, nl) && Shows(src, nl) && BodyLines(text)
    ensures c > 0 ==> Uniform(Body(src, c, text), nl)
    ensures c == 0 ==> (Uniform(Body(src, c, text), nl) <==> Uniform(LeadingPlus(text), nl))
    decreases |text|
  {
    hide Body, SeenEnds, Uniform, RStrip, OneTerminator, Shows;
    UniformNil(nl);
    if text == [] {
      BodyNil(src, c, text);
    } else {
      BodyUnfold(src, c, text);
      var c' := if text[0][0] == '+' then c else c + 1;
      var line := if IsNew(text[0]) then [Convert(SeenEnds(src, c'), text[0])] else [];
      BodyUniform(src, c', text[1..], nl);
      UniformConcat(line, Body(src, c', text[1..]), nl);
      if c' > 0 {
        ConvertUniform(src, c', text[0], nl);
      } else {
        assert SeenEnds(src, 0) == NO_ENDS by { SeenNothing(src); }
        UniformConcat(line, LeadingPlus(text[1..]), nl);
      }
    }
  }

  lemma SeenNothing(src: seq<string>)
    ensures SeenEnds(src, 0) == NO_ENDS
  {
  }

  lemma {:induction false} BodyRaw(src: seq<string>, c: nat, text: seq<string>, nl: string)
    requires OneTerminator(src, nl) && !Shows(src, nl) && BodyLines(text)
    ensures Body(src, c, text) == NewLines(text)
    decreases |text|
  {
    hide Body, SeenEnds, OneTerminator, Shows;
    if text == [] {
      BodyNil(src, c, text);
    } else {
      BodyUnfold(src, c, text);
      var c' := if text[0][0] == '+' then c else c + 1;
      SeesNothing(src, c', nl);
      BodyRaw(src, c', text[1..], nl);
    }
  }

  lemma SliceUniform(src: seq<string>, lo: nat, hi: nat, nl: string)
    requires IsTerminator(nl) && OneTerminator(src, nl) && lo <= hi <= |src|
    ensures Uniform(src[lo..hi], nl) <==> !(LastOpen(src) && lo < hi == |src|)
  {
    hide RStrip;
    if LastOpen(src) && lo < hi == |src| {
      OpenIsNotClosed(src[hi - 1], nl);
      assert src[lo..hi][hi - 1 - lo] == src[hi - 1];
    } else {
      assert forall i :: 0 <= i < hi - lo ==> src[lo..hi][i] == src[lo + i];
    }
  }

  /** The lines copied before a hunk. */
  lemma SkipUniform(src: seq<string>, c: nat, at: nat, nl: string)
    requires IsTerminator(nl) && OneTerminator(src, nl) && (c < at ==> at <= |src|)
    ensures Uniform(Skip(src, c, at), nl) <==> !(LastOpen(src) && c < |src| <= at)
  {
    hide Uniform, LastOpen, OneTerminator;
    UniformNil(nl);
    if c < at {
      SkipIsSlice(src, c, at);
      SliceUniform(src, c, at, nl);
    }
  }

  lemma {:induction false} LeadingPlusReads(text: seq<string>)
    requires BodyLines(text)
    ensures |LeadingPlus(text)| <= |text|
    ensures |LeadingPlus(text)| == |text| <==> BodyEnd(0, text) == 0
  {
    if text != [] {
      assert BodyLine(text[0]);
      LeadingPlusReads(text[1..]);
    }
  }

  lemma BodyEndGrows(c: nat, text: seq<string>)
    requires BodyLines(text)
    ensures BodyEnd(c, text) >= c
  {
  }

  lemma RestUniform(src: seq<string>, c: nat, nl: string)
    requires IsTerminator(nl) && OneTerminator(src, nl)
    ensures Uniform(Stream(src, c, []), nl) <==> !(LastOpen(src) && c < |src|)
  {
    hide Uniform, LastOpen, OneTerminator;
    var m := Min(c, |src|);
    StreamNil(src, c, []);
    SliceUniform(src, m, |src|, nl);
    assert src[m..] == src[m..|src|];
  }

  lemma StreamParts(src: seq<string>, c: nat, hs: seq<Hunk>, nl: string)
    requires hs != [] && AllBodyLines(hs)
    ensures var at := Max(c, Start(hs[0]));
            Uniform(Stream(src, c, hs), nl) <==>
            Uniform(Skip(src, c, at), nl) && Uniform(Body(src, at, hs[0].text), nl) &&
            Uniform(Stream(src, BodyEnd(at, hs[0].text), hs[1..]), nl)
  {
    hide Stream, Body, Uniform, Skip, BodyEnd;
    var h, at := hs[0], Max(c, Start(hs[0]));
    StreamUnfold(src, c, hs);
    UniformConcat(Skip(src, c, at), Body(src, at, h.text), nl);
    UniformConcat(Written(src, c, h), Stream(src, BodyEnd(at, h.text), hs[1..]), nl);
  }

  lemma {:induction false} StreamUniform(src: seq<string>, c: nat, hs: seq<Hunk>, nl: string)
    requires IsTerminator(nl) && OneTerminator(src, nl) && Shows(src, nl)
    requires AllBodyLines(hs) && forall i :: 0 <= i < |hs| ==> Start(hs[i]) <= |src|
    ensures Uniform(Stream(src, c, hs), nl) <==>
            (c == 0 ==> Uniform(FirstLines(hs), nl)) && !(LastOpen(src) && LastCopied(|src|, c, hs))
    decreases |hs|
  {
    hide Uniform, Stream, BodyEnd, LeadingPlus, Skip, Body, OneTerminator, Shows, LastOpen;
    UniformNil(nl);
    if hs == [] {
      RestUniform(src, c, nl);
    } else {
      var h, rest := hs[0], hs[1..];
      var at := Max(c, Start(h));
      assert forall i :: 0 <= i < |rest| ==> rest[i] == hs[i + 1];
      StreamParts(src, c, hs, nl);
      SkipUniform(src, c, at, nl);
      BodyUniform(src, at, h.text, nl);
      StreamUniform(src, BodyEnd(at, h.text), rest, nl);
      if at == 0 {
        LeadingPlusReads(h.text);
        UniformConcat(LeadingPlus(h.text), FirstLines(rest), nl);
      } else {
        BodyEndGrows(at, h.text);
      }
    }
  }

  lemma {:induction false} StreamRaw(src: seq<string>, c: nat, hs: seq<Hunk>, nl: string)
    requires IsTerminator(nl) && OneTerminator(src, nl) && !Shows(src, nl)
    requires AllBodyLines(hs) && forall i :: 0 <= i < |hs| ==> Start(hs[i]) <= |src|
    ensures Uniform(Stream(src, c, hs), nl) <==> Uniform(AllNew(hs), nl) && !(LastOpen(src) && LastCopied(|src|, c, hs))
    decreases |hs|
  {
    hide Uniform, Stream, BodyEnd, NewLines, Skip, Body, OneTerminator, Shows, LastOpen;
    UniformNil(nl);
    if hs == [] {
      RestUniform(src, c, nl);
    } else {
      var h, rest := hs[0], hs[1..];
      var at := Max(c, Start(h));
      assert forall i :: 0 <= i < |rest| ==> rest[i] == hs[i + 1];
      StreamParts(src, c, hs, nl);
      SkipUniform(src, c, at, nl);
      BodyRaw(src, at, h.text, nl);
      StreamRaw(src, BodyEnd(at, h.text), rest, nl);
      UniformConcat(NewLines(h.text), AllNew(rest), nl);
    }
  }

  /**
    The output has the one terminator of the source on every line, whatever terminators the
    patch has, exactly when the lines written before it was detected have it too and a last
    line without one is replaced.
   */
  lemma {:induction false} OutputKeepsTerminator(src: seq<string>, hs: seq<Hunk>, nl: string)
    requires IsTerminator(nl) && OneTerminator(src, nl)
    requires AllBodyLines(hs) && forall i :: 0 <= i < |hs| ==> Start(hs[i]) <= |src|
    ensures Uniform(Stream(src, 0, hs), nl) <==>
            Uniform(RawLines(src, nl, hs), nl) && !(LastOpen(src) && LastCopied(|src|, 0, hs))
  {
    hide Stream, Uniform, OneTerminator, Shows, FirstLines, AllNew, LastCopied, LastOpen;
    if Shows(src, nl) {
      StreamUniform(src, 0, hs, nl);
    } else {
      StreamRaw(src, 0, hs, nl);
    }
  }

  // -------------------------------------------------------------------------
  // A last line without a terminator

  /** One of the hunks replaces the last of `n` lines. */
  predicate Covers(n: nat, hs: seq<Hunk>) {
    exists i :: 0 <= i < |hs| && Start(hs[i]) < n && n <= End(hs[i])
  }

  lemma CoversUnfold(n: nat, hs: seq<Hunk>)
    requires hs != []
    ensures Covers(n, hs) <==> (Start(hs[0]) < n && n <= End(hs[0])) || Covers(n, hs[1..])
  {
    if i :| 0 <= i < |hs| && Start(hs[i]) < n && n <= End(hs[i]) {
      assert i > 0 ==> hs[1..][i - 1] == hs[i];
    }
    if i :| 0 <= i < |hs[1..]| && Start(hs[1..][i]) < n && n <= End(hs[1..][i]) {
      assert hs[1..][i] == hs[i + 1];
    }
  }

  /** Hunks that reach the end of the file without a gap leave no line to copy. */
  lemma {:induction false} NothingCopied(n: nat, c: nat, d: nat, hs: seq<Hunk>)
    requires AllWellFormed(hs) && Placed(n, c, hs) && TouchesEnd(n, c, hs)
    ensures !LastCopied(n, c + d, hs) && (c < n ==> Covers(n, hs))
    decreases |hs|
  {
    hide Covers, OldLines, Slashes;
    if hs != [] {
      assert WellFormed(hs[0]);
      CoversUnfold(n, hs);
      PlacedBounds(n, c, hs);
      NothingCopied(n, End(hs[0]), d + Slashes(hs[0].text), hs[1..]);
    }
  }

  lemma {:induction false} CopiedUnlessCovered(n: nat, c: nat, hs: seq<Hunk>)
    requires AllWellFormed(hs) && Placed(n, c, hs) && SlashesAtEnd(n, hs)
    ensures LastCopied(n, c, hs) <==> c < n && !Covers(n, hs)
    decreases |hs|
  {
    hide Covers, OldLines, Slashes, TouchesEnd;
    PlacedBounds(n, c, hs);
    if hs == [] {
      NothingCovered(n);
    } else {
      var h := hs[0];
      assert WellFormed(h);
      CoversUnfold(n, hs);
      PlacedBounds(n, End(h), hs[1..]);
      CoveredOnce(n, End(h), hs[1..]);
      if Slashes(h.text) > 0 {
        NothingCopied(n, End(h), Slashes(h.text), hs[1..]);
      } else {
        CopiedUnlessCovered(n, End(h), hs[1..]);
      }
    }
  }

  lemma NothingCovered(n: nat)
    ensures !Covers(n, [])
  {
  }

  lemma CoveredOnce(n: nat, c: nat, hs: seq<Hunk>)
    requires Placed(n, c, hs)
    ensures c == n ==> !Covers(n, hs)
  {
    PlacedBounds(n, c, hs);
  }

  /** A hunk list inside the format's places never copies a last line and then inserts after it. */
  lemma {:induction false} LastComesLast(src: seq<string>, c: nat, hs: seq<Hunk>, nl: string)
    requires IsTerminator(nl) && OneTerminator(src, nl) && Shows(src, nl) && AllBodyLines(hs)
    requires forall i :: 0 <= i < |hs| ==> Start(hs[i]) < |src|
    requires c == 0 ==> Uniform(FirstLines(hs), nl)
    requires LastCopied(|src|, c, hs)
    ensures var out := Stream(src, c, hs);
            out != [] && out[|out| - 1] == src[|src| - 1] && Uniform(out[..|out| - 1], nl)
    decreases |hs|
  {
    hide Uniform, Stream, BodyEnd, LeadingPlus, Body, OneTerminator, Shows, LastOpen, Skip;
    var out := Stream(src, c, hs);
    if hs == [] {
      StreamNil(src, c, hs);
      SliceUniform(src, c, |src| - 1, nl);
      assert out[..|out| - 1] == src[c..|src| - 1];
    } else {
      var h, rest := hs[0], hs[1..];
      var at := Max(c, Start(h));
      assert forall i :: 0 <= i < |rest| ==> rest[i] == hs[i + 1];
      BodyUniform(src, at, h.text, nl);
      SkipUniform(src, c, at, nl);
      StreamUnfold(src, c, hs);
      if at == 0 {
        LeadingPlusReads(h.text);
        UniformConcat(LeadingPlus(h.text), FirstLines(rest), nl);
      } else {
        BodyEndGrows(at, h.text);
      }
      UniformConcat(Skip(src, c, at), Body(src, at, h.text), nl);
      LastComesLast(src, BodyEnd(at, h.text), rest, nl);
      var more := Stream(src, BodyEnd(at, h.text), rest);
      var w := Written(src, c, h);
      assert out == w + more && out[..|out| - 1] == w + more[..|more| - 1];
      UniformConcat(w, more[..|more| - 1], nl);
    }
  }

  lemma {:induction false} CopiedSettled(n: nat, c: nat, d: nat, hs: seq<Hunk>)
    requires AllWellFormed(hs)
    ensures AllWellFormed(Settled(c, hs)) && (LastCopied(n, c + d, Settled(c, hs)) <==> LastCopied(n, c + d, hs))
    decreases |hs|
  {
    hide Settled, OldLines, Slashes;
    SettledWellFormed(c, hs);
    if hs == [] {
      NoHunks([], 0, c, hs);
    } else {
      var h := hs[0];
      var c' := Max(c, Start(h)) + h.linessrc;
      assert WellFormed(h);
      SettledUnfold(c, hs);
      CopiedSettled(n, c', BodyEnd(Max(c + d, Start(h)), h.text) - c', hs[1..]);
    }
  }

  /** For hunks at the format's places: the last line is copied unless a hunk settles on it. */
  lemma CopiedUnlessSettledOn(n: nat, hs: seq<Hunk>)
    requires AllWellFormed(hs) && Placed(n, 0, CanonicalAll(hs)) && SlashesAtEnd(n, Settled(0, hs))
    ensures LastCopied(n, 0, hs) <==> 0 < n && !Covers(n, Settled(0, hs))
    ensures forall i :: 0 <= i < |hs| ==> Start(hs[i]) <= n && (0 < n ==> Start(hs[i]) < n)
  {
    hide Settled, SlashesAtEnd, LastCopied, Covers, Placed;
    SettledPlaced(n, 0, 0, hs);
    CopiedSettled(n, 0, 0, hs);
    CopiedUnlessCovered(n, 0, Settled(0, hs));
    PlacedBounds(n, 0, CanonicalAll(hs));
    forall i | 0 <= i < |hs|
      ensures Start(hs[i]) <= n && (0 < n ==> Start(hs[i]) < n)
    {
      assert CanonicalAll(hs)[i] == Canonical(hs[i]);
    }
  }

  /** A last line without a terminator gains one exactly when a hunk replaces it. */
  lemma {:induction false} LastLineGainsTerminator(src: seq<string>, hs: seq<Hunk>, nl: string)
    requires IsTerminator(nl) && OneTerminator(src, nl) && LastOpen(src)
    requires AllWellFormed(hs) && Placed(|src|, 0, CanonicalAll(hs)) && SlashesAtEnd(|src|, Settled(0, hs))
    requires Uniform(RawLines(src, nl, hs), nl)
    ensures Uniform(Stream(src, 0, hs), nl) <==> Covers(|src|, Settled(0, hs))
  {
    hide Stream, Uniform, OneTerminator, RawLines, Covers, LastCopied, SlashesAtEnd, Settled;
    CopiedUnlessSettledOn(|src|, hs);
    OutputKeepsTerminator(src, hs, nl);
  }

  /**
    Line by line: the output is the splice, every line ended by the terminator of the source,
    save a last line that has none and that no hunk replaces.
   */
  lemma {:induction false} PatchIsSpliceExactly(src: seq<string>, hs: seq<Hunk>, nl: string)
    requires IsTerminator(nl) && OneTerminator(src, nl) && Shows(src, nl)
    requires AllWellFormed(hs) && Placed(|src|, 0, CanonicalAll(hs))
    requires SlashesAtEnd(|src|, Settled(0, hs)) && JumpsFit(src, 0, hs)
    requires Uniform(FirstLines(hs), nl)
    ensures var out, wanted := Stream(src, 0, hs), Splice(src, CanonicalAll(hs));
            |out| == |wanted| && forall i :: 0 <= i < |wanted| ==>
              out[i] == RStrip(wanted[i]) +
                        if i == |wanted| - 1 && LastOpen(src) && !Covers(|src|, Settled(0, hs)) then [] else nl
  {
    hide Stream, Splice, RStrip, OneTerminator, FirstLines, Covers, LastCopied, SlashesAtEnd, Settled, JumpsFit;
    var out, wanted := Stream(src, 0, hs), Splice(src, CanonicalAll(hs));
    PatchIsFormatSplice(src, hs);
    CopiedUnlessSettledOn(|src|, hs);
    StreamUniform(src, 0, hs, nl);
    if LastOpen(src) && LastCopied(|src|, 0, hs) {
      LastComesLast(src, 0, hs, nl);
    }
    assert |out| == |Bare(out)| == |Bare(wanted)| == |wanted|;
    forall i | 0 <= i < |wanted|
      ensures out[i] == RStrip(wanted[i]) +
                        if i == |wanted| - 1 && LastOpen(src) && !Covers(|src|, Settled(0, hs)) then [] else nl
    {
      assert Bare(out)[i] == Bare(wanted)[i];
      if i < |out| - 1 {
        assert out[..|out| - 1][i] == out[i];
      }
    }
  }

  /** No line is written before one is read if the first hunk starts below line 1 or with a line that is read. */
  lemma NoFirstLines(hs: seq<Hunk>, nl: string)
    requires AllBodyLines(hs) && hs != []
    requires Start(hs[0]) > 0 || (hs[0].text != [] && hs[0].text[0] != [] && hs[0].text[0][0] != '+')
    ensures Uniform(FirstLines(hs), nl)
  {
    assert BodyLines(hs[0].text);
  }
}
