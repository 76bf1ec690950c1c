/** Where a hunk stands by the rules of the Diff -u format, and where `patch_stream` puts it. */
module Format {
  import opened Text
  import opened Hunks
  import opened PatchStream

  // -------------------------------------------------------------------------
  // The rules of the format

  /** A range of no lines names the line before it, so it starts after that line. */
  function FormatStart(h: Hunk): nat {
    if h.linessrc == 0 then h.startsrc else Start(h)
  }

  function FormatTgtStart(h: Hunk): nat {
    if h.linestgt == 0 then h.starttgt else TgtStart(h)
  }

  /** The hunk with its places written the way the tool counts. */
  function Canonical(h: Hunk): (r: Hunk)
    ensures Start(r) == FormatStart(h) && TgtStart(r) == FormatTgtStart(h)
    ensures r.text == h.text && r.linessrc == h.linessrc && r.linestgt == h.linestgt
  {
    h.(startsrc := FormatStart(h) + 1, starttgt := FormatTgtStart(h) + 1)
  }

  function CanonicalAll(hs: seq<Hunk>): (r: seq<Hunk>)
    ensures |r| == |hs|
  {
    seq(|hs|, i requires 0 <= i < |hs| => Canonical(hs[i]))
  }

  lemma CanonicalRest(hs: seq<Hunk>)
    requires hs != []
    ensures CanonicalAll(hs)[0] == Canonical(hs[0]) && CanonicalAll(hs)[1..] == CanonicalAll(hs[1..])
  {
  }

  lemma CanonicalWellFormed(hs: seq<Hunk>)
    requires AllWellFormed(hs)
    ensures AllWellFormed(CanonicalAll(hs))
  {
    forall i | 0 <= i < |hs|
      ensures WellFormed(CanonicalAll(hs)[i])
    {
      assert WellFormed(hs[i]);
    }
  }

  lemma CanonicalReverse(hs: seq<Hunk>)
    ensures ReverseAll(CanonicalAll(hs)) == CanonicalAll(ReverseAll(hs))
  {
  }

  // -------------------------------------------------------------------------
  // What the tool does with any list of hunks

  /** Where the copying loop stops with `c` lines taken: never before a line that is already taken. */
  function Settle(c: nat, h: Hunk): (r: Hunk)
    ensures Start(r) == Max(c, Start(h)) && r.text == h.text && r.linessrc == h.linessrc && r.linestgt == h.linestgt
  {
    h.(startsrc := Max(c, Start(h)) + 1)
  }

  function Settled(c: nat, hs: seq<Hunk>): (r: seq<Hunk>)
    ensures |r| == |hs|
    decreases |hs|
  {
    if hs == [] then []
    else [Settle(c, hs[0])] + Settled(Max(c, Start(hs[0])) + hs[0].linessrc, hs[1..])
  }

  lemma SettledUnfold(c: nat, hs: seq<Hunk>)
    requires hs != []
    ensures Settled(c, hs)[0] == Settle(c, hs[0])
    ensures Settled(c, hs)[1..] == Settled(Max(c, Start(hs[0])) + hs[0].linessrc, hs[1..])
  {
  }

  lemma {:induction false} SettledWellFormed(c: nat, hs: seq<Hunk>)
    requires AllWellFormed(hs)
    ensures AllWellFormed(Settled(c, hs))
    decreases |hs|
  {
    hide WellFormed;
    if hs != [] {
      var s := Settled(c, hs);
      assert WellFormed(s[0]) by { SettleWellFormed(c, hs[0]); }
      SettledWellFormed(Max(c, Start(hs[0])) + hs[0].linessrc, hs[1..]);
      forall i | 0 <= i < |s|
        ensures WellFormed(s[i])
      {
        assert i > 0 ==> s[i] == s[1..][i - 1];
      }
    }
  }

  lemma SettleWellFormed(c: nat, h: Hunk)
    requires WellFormed(h)
    ensures WellFormed(Settle(c, h))
  {
  }

  /** The stream does not change when every hunk is written where the loop puts it. */
  lemma {:induction false} StreamSettled(src: seq<string>, c: nat, d: nat, hs: seq<Hunk>)
    requires AllWellFormed(hs)
    ensures AllWellFormed(Settled(c, hs)) && Stream(src, c + d, Settled(c, hs)) == Stream(src, c + d, hs)
    decreases |hs|
  {
    hide Stream, Body, OldLines, Slashes, Settled;
    SettledWellFormed(c, hs);
    if hs == [] {
      StreamNil(src, c + d, hs);
      StreamNil(src, c + d, Settled(c, hs));
    } else {
      var h, s := hs[0], Settled(c, hs);
      var c' := Max(c, Start(h)) + h.linessrc;
      var d' := BodyEnd(Max(c + d, Start(h)), h.text) - c';
      assert WellFormed(h);
      SettledUnfold(c, hs);
      StreamUnfold(src, c + d, hs);
      StreamUnfold(src, c + d, s);
      StreamSettled(src, c', d', hs[1..]);
    }
  }

  /** For every list of hunks that stays inside the file, in order or not: the splice at the places where they settle. */
  lemma {:induction false} PatchIsSettledSplice(src: seq<string>, hs: seq<Hunk>)
    requires AllWellFormed(hs) && Placed(|src|, 0, Settled(0, hs))
    ensures Bare(Stream(src, 0, hs)) == Bare(Splice(src, Settled(0, hs))) <==> SlashesAtEnd(|src|, Settled(0, hs))
  {
    hide Stream, Splice, SlashesAtEnd, Settled;
    StreamSettled(src, 0, 0, hs);
    PatchIsSplice(src, Settled(0, hs));
  }

  lemma {:induction false} GrowthOf(hs: seq<Hunk>, hs': seq<Hunk>)
    requires |hs| == |hs'|
    requires forall i :: 0 <= i < |hs| ==> hs[i].linessrc == hs'[i].linessrc && hs[i].linestgt == hs'[i].linestgt
    ensures Growth(hs) == Growth(hs')
  {
    if hs != [] {
      GrowthOf(hs[1..], hs'[1..]);
    }
  }

  lemma CanonicalGrowth(hs: seq<Hunk>)
    ensures Growth(CanonicalAll(hs)) == Growth(hs)
  {
    GrowthOf(hs, CanonicalAll(hs));
  }

  lemma {:induction false} SettledGrowth(c: nat, hs: seq<Hunk>)
    ensures Growth(Settled(c, hs)) == Growth(hs)
    decreases |hs|
  {
    if hs != [] {
      SettledUnfold(c, hs);
      SettledGrowth(Max(c, Start(hs[0])) + hs[0].linessrc, hs[1..]);
    }
  }

  // -------------------------------------------------------------------------
  // The tool against the format

  predicate AllAre(lines: seq<string>, l: string) {
    forall i :: 0 <= i < |lines| ==> RStrip(lines[i]) == RStrip(l)
  }

  /** Every insertion put one line early consists of copies of the line it jumps over; `t` lines are taken. */
  predicate JumpsFit(src: seq<string>, t: nat, hs: seq<Hunk>)
    decreases |hs|
  {
    hs == [] ||
    var at := Max(t, Start(hs[0]));
    && (at < FormatStart(hs[0]) ==> at < |src| && AllAre(NewLines(hs[0].text), src[at]))
    && JumpsFit(src, at + hs[0].linessrc, hs[1..])
  }

  lemma JumpsFitUnfold(src: seq<string>, t: nat, hs: seq<Hunk>)
    requires hs != []
    ensures var at := Max(t, Start(hs[0]));
            JumpsFit(src, t, hs) <==>
            (at < FormatStart(hs[0]) ==> at < |src| && AllAre(NewLines(hs[0].text), src[at])) &&
            JumpsFit(src, at + hs[0].linessrc, hs[1..])
  {
  }

  /** A block before a line equals the block after it exactly when the block is made of that line. */
  lemma {:induction false} Commutes<T>(a: seq<T>, s: T, left: seq<T>, right: seq<T>)
    ensures a + left == [s] + a + right <==> (forall i :: 0 <= i < |a| ==> a[i] == s) && left == [s] + right
    decreases |a|
  {
    if a == [] {
      assert a + left == left && [s] + a + right == [s] + right;
    } else {
      var b := a[1..];
      assert a + left == [a[0]] + (b + left);
      assert a == [a[0]] + b;
      if a[0] == s {
        assert [s] + a + right == [s] + ([s] + b + right);
        ConcatInjective([s], b + left, [s], [s] + b + right);
        Commutes(b, s, left, right);
        assert forall i :: 0 < i < |a| ==> a[i] == b[i - 1];
      } else {
        assert (a + left)[0] != ([s] + a + right)[0];
      }
    }
  }

  /** Settled hunks are in order and inside the file when the format's are; they settle at most one line early. */
  lemma {:induction false} SettledPlaced(n: nat, c: nat, t: nat, hs: seq<Hunk>)
    requires Placed(n, c, CanonicalAll(hs)) && t <= c <= t + 1
    ensures Placed(n, t, Settled(t, hs))
    decreases |hs|
  {
    hide Settled;
    if hs == [] {
      assert Settled(t, hs) == [];
    } else {
      var h := hs[0];
      CanonicalRest(hs);
      SettledUnfold(t, hs);
      SettledPlaced(n, FormatStart(h) + h.linessrc, Max(t, Start(h)) + h.linessrc, hs[1..]);
    }
  }

  lemma BareConcat3(a: seq<string>, b: seq<string>, c: seq<string>)
    ensures Bare(a + (b + c)) == Bare(a) + (Bare(b) + Bare(c))
  {
    BareConcat(a, b + c);
    BareConcat(b, c);
  }

  /** Equal starts can be left out of a comparison. */
  lemma CancelStart(a: seq<string>, x: seq<string>, y: seq<string>)
    ensures Bare(a + x) == Bare(a + y) <==> Bare(x) == Bare(y)
  {
    BareConcat(a, x);
    BareConcat(a, y);
    ConcatInjective(Bare(a), Bare(x), Bare(a), Bare(y));
  }

  /** `Commutes` for lines up to terminators. */
  lemma BareCommutes(lines: seq<string>, s: string, left: seq<string>, right: seq<string>)
    ensures Bare(lines + left) == Bare([s] + (lines + right)) <==> AllAre(lines, s) && Bare(left) == Bare([s] + right)
  {
    hide RStrip;
    BareConcat(lines, left);
    BareConcat3([s], lines, right);
    BareConcat([s], right);
    assert Bare([s]) == [RStrip(s)];
    assert [RStrip(s)] + (Bare(lines) + Bare(right)) == [RStrip(s)] + Bare(lines) + Bare(right);
    Commutes(Bare(lines), RStrip(s), Bare(left), Bare(right));
    assert forall i :: 0 <= i < |lines| ==> Bare(lines)[i] == RStrip(lines[i]);
  }

  /** One hunk: settled in place, or one line early. */
  lemma SettledHunk(src: seq<string>, t: nat, c: nat, h: Hunk, left: seq<string>, right: seq<string>)
    requires t <= c <= t + 1 && c <= FormatStart(h) <= |src|
    ensures var at, p, n := Max(t, Start(h)), FormatStart(h), NewLines(h.text);
            p - 1 <= at <= p && (at < p ==> h.linessrc == 0) &&
            (Bare((src[t..at] + n) + left) == Bare(src[t..c] + ((src[c..p] + n) + right)) <==>
             (at < p ==> AllAre(n, src[at])) && Bare(left) == Bare(src[at..p] + right))
  {
    hide Bare, AllAre;
    var at, p, n := Max(t, Start(h)), FormatStart(h), NewLines(h.text);
    hide NewLines;
    assert (src[t..at] + n) + left == src[t..at] + (n + left);
    assert src[t..c] + ((src[c..p] + n) + right) == src[t..at] + (src[at..p] + (n + right));
    CancelStart(src[t..at], n + left, src[at..p] + (n + right));
    if at == p {
      assert src[at..p] + (n + right) == n + right && src[at..p] + right == right;
      CancelStart(n, left, right);
    } else {
      assert src[at..p] == [src[at]];
      BareCommutes(n, src[at], left, right);
    }
  }

  /** The first hunk where it settles, and what follows it. */
  lemma SettledFrom(src: seq<string>, t: nat, hs: seq<Hunk>)
    requires hs != [] && Placed(|src|, t, Settled(t, hs))
    ensures var at, next := Max(t, Start(hs[0])), Max(t, Start(hs[0])) + hs[0].linessrc;
            at <= |src| && Placed(|src|, next, Settled(next, hs[1..])) &&
            From(src, t, Settled(t, hs)) ==
            (src[t..at] + NewLines(hs[0].text)) + From(src, next, Settled(next, hs[1..]))
  {
    hide From, Settled, NewLines;
    SettledUnfold(t, hs);
    PlacedBounds(|src|, t, Settled(t, hs));
    FromUnfold(src, t, Settled(t, hs));
  }

  /** The first hunk where the format has it, and what follows it. */
  lemma FormatFrom(src: seq<string>, c: nat, hs: seq<Hunk>)
    requires hs != [] && Placed(|src|, c, CanonicalAll(hs))
    ensures var p, next := FormatStart(hs[0]), FormatStart(hs[0]) + hs[0].linessrc;
            c <= p <= |src| && Placed(|src|, next, CanonicalAll(hs[1..])) &&
            From(src, c, CanonicalAll(hs)) ==
            (src[c..p] + NewLines(hs[0].text)) + From(src, next, CanonicalAll(hs[1..]))
  {
    hide From, NewLines;
    CanonicalRest(hs);
    PlacedBounds(|src|, c, CanonicalAll(hs));
    FromUnfold(src, c, CanonicalAll(hs));
  }

  lemma EarlyByOne(t: nat, c: nat, h: Hunk)
    requires t <= c <= t + 1 && c <= FormatStart(h)
    ensures var at := Max(t, Start(h)); at <= FormatStart(h) <= at + 1 && (at < FormatStart(h) ==> h.linessrc == 0)
  {
  }

  /**
    With `t` lines taken where the format is at line `c`: what follows is the format's file
    exactly when every insertion put one line early fits.
   */
  lemma {:induction false} SettledAgainstFormat(src: seq<string>, c: nat, t: nat, hs: seq<Hunk>)
    requires Placed(|src|, c, CanonicalAll(hs)) && t <= c <= t + 1 && c <= |src|
    ensures Placed(|src|, t, Settled(t, hs))
    ensures Bare(From(src, t, Settled(t, hs))) == Bare(src[t..c] + From(src, c, CanonicalAll(hs))) <==> JumpsFit(src, t, hs)
    decreases |hs|
  {
    hide From, Settled, JumpsFit, Bare, AllAre, NewLines, CanonicalAll, Placed, Start, FormatStart;
    SettledPlaced(|src|, c, t, hs);
    if hs == [] {
      NoHunks(src, c, t, hs);
    } else {
      var h := hs[0];
      var at, p := Max(t, Start(h)), FormatStart(h);
      SettledFrom(src, t, hs);
      FormatFrom(src, c, hs);
      EarlyByOne(t, c, h);
      var left, right := From(src, at + h.linessrc, Settled(at + h.linessrc, hs[1..])),
                         From(src, p + h.linessrc, CanonicalAll(hs[1..]));
      SettledHunk(src, t, c, h, left, right);
      PlacedBounds(|src|, p + h.linessrc, CanonicalAll(hs[1..]));
      SettledAgainstFormat(src, p + h.linessrc, at + h.linessrc, hs[1..]);
      assert src[at + h.linessrc..p + h.linessrc] == src[at..p] by {
        if at == p {
          assert src[at + h.linessrc..p + h.linessrc] == [] == src[at..p];
        }
      }
      JumpsFitUnfold(src, t, hs);
    }
  }

  lemma NoHunks(src: seq<string>, c: nat, t: nat, hs: seq<Hunk>)
    requires hs == []
    ensures CanonicalAll(hs) == [] && Settled(t, hs) == []
    ensures t <= c <= |src| ==>
            From(src, t, Settled(t, hs)) == src[t..c] + From(src, c, CanonicalAll(hs)) && JumpsFit(src, t, hs)
  {
  }

  /**
    The streaming patcher writes the file the format means exactly when '\' lines come last,
    seen from where the hunks settle, and every insertion put one line early fits.
   */
  lemma {:induction false} PatchIsFormatSplice(src: seq<string>, hs: seq<Hunk>)
    requires AllWellFormed(hs) && Placed(|src|, 0, CanonicalAll(hs))
    ensures Bare(Stream(src, 0, hs)) == Bare(Splice(src, CanonicalAll(hs))) <==>
            SlashesAtEnd(|src|, Settled(0, hs)) && JumpsFit(src, 0, hs)
  {
    hide Stream, Splice, From, SlashesAtEnd, Settled, JumpsFit, Bare, Growth;
    var f, s := CanonicalAll(hs), Settled(0, hs);
    CanonicalWellFormed(hs);
    SettledWellFormed(0, hs);
    SettledAgainstFormat(src, 0, 0, hs);
    assert src[0..0] + From(src, 0, f) == From(src, 0, f);
    FromIsSplice(src, f);
    FromIsSplice(src, s);
    PatchIsSettledSplice(src, hs);
    StreamSettled(src, 0, 0, hs);
    PatchLength(src, s);
    SettledGrowth(0, hs);
    GrowthOf(hs, f);
    FromLength(src, 0, f);
    BareLength(Stream(src, 0, hs));
    BareLength(Splice(src, f));
  }

  lemma BareLength(a: seq<string>)
    ensures |Bare(a)| == |a|
  {
  }

  /** Hunks with a source line never jump. */
  lemma {:induction false} SourceLinesDoNotJump(src: seq<string>, c: nat, hs: seq<Hunk>)
    requires Placed(|src|, c, CanonicalAll(hs)) && forall i :: 0 <= i < |hs| ==> hs[i].linessrc > 0
    ensures JumpsFit(src, c, hs)
    decreases |hs|
  {
    hide AllAre;
    if hs != [] {
      CanonicalRest(hs);
      assert forall i :: 0 <= i < |hs[1..]| ==> hs[1..][i] == hs[i + 1];
      SourceLinesDoNotJump(src, End(hs[0]), hs[1..]);
    }
  }

  // -------------------------------------------------------------------------
  // Lists that differ only in how they write the same places

  predicate Alike(a: seq<Hunk>, b: seq<Hunk>) {
    |a| == |b| &&
    forall i :: 0 <= i < |a| ==> Start(a[i]) == Start(b[i]) && a[i].linessrc == b[i].linessrc && a[i].text == b[i].text
  }

  lemma {:induction false} AlikePlaced(n: nat, c: nat, a: seq<Hunk>, b: seq<Hunk>)
    requires Alike(a, b)
    ensures Placed(n, c, a) <==> Placed(n, c, b)
    decreases |a|
  {
    if a != [] {
      AlikePlaced(n, End(a[0]), a[1..], b[1..]);
    }
  }

  lemma {:induction false} AlikeTouchesEnd(n: nat, c: nat, a: seq<Hunk>, b: seq<Hunk>)
    requires Alike(a, b)
    ensures TouchesEnd(n, c, a) <==> TouchesEnd(n, c, b)
    decreases |a|
  {
    if a != [] {
      AlikeTouchesEnd(n, End(a[0]), a[1..], b[1..]);
    }
  }

  lemma {:induction false} AlikeSlashesAtEnd(n: nat, a: seq<Hunk>, b: seq<Hunk>)
    requires Alike(a, b)
    ensures SlashesAtEnd(n, a) <==> SlashesAtEnd(n, b)
    decreases |a|
  {
    if a != [] {
      AlikeTouchesEnd(n, End(a[0]), a[1..], b[1..]);
      AlikeSlashesAtEnd(n, a[1..], b[1..]);
    }
  }

  /** Hunks with a source line stand where the format has them. */
  lemma SourceLinesAreFormat(hs: seq<Hunk>)
    requires forall i :: 0 <= i < |hs| ==> hs[i].linessrc > 0
    ensures Alike(hs, CanonicalAll(hs))
  {
  }

  /** And they settle there. */
  lemma {:induction false} SourceLinesAreInPlace(n: nat, c: nat, hs: seq<Hunk>)
    requires Placed(n, c, hs) && forall i :: 0 <= i < |hs| ==> hs[i].linessrc > 0
    ensures Alike(hs, Settled(c, hs))
    decreases |hs|
  {
    hide Settled;
    if hs == [] {
      assert Settled(c, hs) == [] by { NoHunks([], 0, c, hs); }
    } else {
      var s := Settled(c, hs);
      SettledUnfold(c, hs);
      SourceLinesAreInPlace(n, End(hs[0]), hs[1..]);
      forall i | 0 <= i < |hs|
        ensures Start(hs[i]) == Start(s[i]) && hs[i].linessrc == s[i].linessrc && hs[i].text == s[i].text
      {
        assert i > 0 ==> hs[i] == hs[1..][i - 1] && s[i] == s[1..][i - 1];
      }
    }
  }

  /** A hunk that settles early is followed by the line it jumps over. */
  lemma {:induction false} SettledTouchesEnd(n: nat, c: nat, t: nat, hs: seq<Hunk>)
    requires Placed(n, c, CanonicalAll(hs)) && t <= c <= t + 1 && c <= n && TouchesEnd(n, t, Settled(t, hs))
    ensures t == c && TouchesEnd(n, c, CanonicalAll(hs))
    decreases |hs|
  {
    hide Settled;
    if hs == [] {
      NoHunks([], c, t, hs);
    } else {
      CanonicalRest(hs);
      SettledUnfold(t, hs);
      PlacedBounds(n, c, CanonicalAll(hs));
      SettledTouchesEnd(n, FormatStart(hs[0]) + hs[0].linessrc, Max(t, Start(hs[0])) + hs[0].linessrc, hs[1..]);
    }
  }

  lemma {:induction false} SlashesAtFormatEnd(n: nat, c: nat, t: nat, hs: seq<Hunk>)
    requires Placed(n, c, CanonicalAll(hs)) && t <= c <= t + 1 && SlashesAtEnd(n, Settled(t, hs))
    ensures SlashesAtEnd(n, CanonicalAll(hs))
    decreases |hs|
  {
    hide Settled, TouchesEnd;
    if hs != [] {
      var h := hs[0];
      CanonicalRest(hs);
      SettledUnfold(t, hs);
      PlacedBounds(n, c, CanonicalAll(hs));
      var c', t' := FormatStart(h) + h.linessrc, Max(t, Start(h)) + h.linessrc;
      SlashesAtFormatEnd(n, c', t', hs[1..]);
      if Slashes(h.text) > 0 {
        SettledTouchesEnd(n, c', t', hs[1..]);
      }
    }
  }
}
