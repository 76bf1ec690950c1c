/** `PatchInfo.apply` for one existing file: validator, recogniser and patcher together. */
module Engine {
  import opened Text
  import opened Hunks
  import opened PatchStream
  import opened Format
  import opened Undo
  import Validator
  import Recogniser

  /** What `apply` does to a file: fails, writes new contents, or only prints a message. */
  datatype Report = IndexError | Patched(contents: seq<string>) | AlreadyPatched | Different

  function Decide(file: seq<string>, hs: seq<Hunk>): Report
    requires AllBodyLines(hs)
  {
    match Validator.Verdicts(hs, file)
    case Raised => IndexError
    case Checked(canpatch, valid) =>
      if canpatch then Patched(Stream(file, 0, hs))
      else if valid < |hs| then (if Recogniser.Recognised(file, hs) then AlreadyPatched else Different)
      else Different
  }

  method ApplyToFile(file: seq<string>, hunks: seq<Hunk>) returns (r: Report)
    requires AllBodyLines(hunks)
    ensures r == Decide(file, hunks)
  {
    var verdict := Validator.Validate(file, hunks);
    if verdict.Raised? {
      return IndexError;
    }
    r := Different;
    if verdict.validhunks < |hunks| {
      var already := Recogniser.CheckPatched(file, hunks);
      if already {
        r := AlreadyPatched;
      }
    }
    if verdict.canpatch {
      var contents := Patch(file, hunks);
      r := Patched(contents);
    }
  }

  predicate AllPass(file: seq<string>, hs: seq<Hunk>) {
    forall i :: 0 <= i < |hs| ==> Validator.Passes(file, hs[i])
  }

  /** The one source line the validator does not look at. */
  predicate LastLineMatches(file: seq<string>, h: Hunk) {
    h.linessrc >= 1 && Validator.LineMatches(file, h, h.linessrc - 1)
  }

  lemma OrderedRest(c: nat, hs: seq<Hunk>)
    requires hs != [] && Validator.Ordered(c, hs)
    ensures c <= Start(hs[0]) && Validator.Ordered(End(hs[0]), hs[1..])
  {
    forall i | 0 < i < |hs[1..]|
      ensures End(hs[1..][i - 1]) <= Start(hs[1..][i])
    {
      assert End(hs[i + 1 - 1]) <= Start(hs[i + 1]);
    }
    if |hs| > 1 {
      assert End(hs[1 - 1]) <= Start(hs[1]);
    }
  }

  lemma {:induction false} PassingHunksArePlaced(file: seq<string>, c: nat, hs: seq<Hunk>)
    requires c <= |file| && Validator.Ordered(c, hs) && AllPass(file, hs)
    ensures Placed(|file|, c, hs)
    decreases |hs|
  {
    hide Validator.LineMatches;
    if hs != [] {
      OrderedRest(c, hs);
      assert Validator.Passes(file, hs[0]);
      assert forall i :: 0 <= i < |hs[1..]| ==> hs[1..][i] == hs[i + 1];
      PassingHunksArePlaced(file, End(hs[0]), hs[1..]);
    }
  }

  /** `apply` rewrites a file exactly when every hunk passes. */
  lemma {:induction false} PatchedIffAllPass(file: seq<string>, hs: seq<Hunk>)
    requires hs != [] && AllWellFormed(hs) && Validator.Ordered(0, hs)
    ensures Decide(file, hs).Patched? <==> AllPass(file, hs)
  {
    hide Stream, Validator.Verdicts, Validator.Passes, Recogniser.Recognised;
    Validator.ValidatorExact(hs, file);
  }

  /** It ends in an error exactly when there is no hunk. */
  lemma {:induction false} ErrorIffNoHunks(file: seq<string>, hs: seq<Hunk>)
    requires AllWellFormed(hs) && Validator.Ordered(0, hs)
    ensures Decide(file, hs) == IndexError <==> hs == []
  {
    hide Stream, Validator.Verdicts, Validator.Passes, Recogniser.Recognised;
    Validator.ValidatorExact(hs, file);
  }

  /** Hunks that all pass have a source line each, stand where the format has them and settle there. */
  lemma PassingHunksAreInPlace(file: seq<string>, hs: seq<Hunk>)
    requires AllWellFormed(hs) && Validator.Ordered(0, hs) && AllPass(file, hs)
    ensures Placed(|file|, 0, CanonicalAll(hs)) && JumpsFit(file, 0, hs)
    ensures SlashesAtEnd(|file|, Settled(0, hs)) <==> SlashesAtEnd(|file|, hs)
    ensures SlashesAtEnd(|file|, CanonicalAll(hs)) <==> SlashesAtEnd(|file|, hs)
  {
    hide Placed, Settled, JumpsFit, SlashesAtEnd;
    PassingHunksArePlaced(file, 0, hs);
    forall i | 0 <= i < |hs|
      ensures hs[i].linessrc > 0
    {
      assert Validator.Passes(file, hs[i]);
    }
    SourceLinesAreFormat(hs);
    AlikePlaced(|file|, 0, hs, CanonicalAll(hs));
    AlikeSlashesAtEnd(|file|, hs, CanonicalAll(hs));
    SourceLinesAreInPlace(|file|, 0, hs);
    AlikeSlashesAtEnd(|file|, hs, Settled(0, hs));
    SourceLinesDoNotJump(file, 0, hs);
  }

  /** When it does it writes the file the format means exactly when '\' lines come last. */
  lemma {:induction false} ApplyWritesSplice(file: seq<string>, hs: seq<Hunk>)
    requires AllWellFormed(hs) && Validator.Ordered(0, hs) && Decide(file, hs).Patched?
    ensures Placed(|file|, 0, CanonicalAll(hs))
    ensures Bare(Decide(file, hs).contents) == Bare(Splice(file, CanonicalAll(hs))) <==> SlashesAtEnd(|file|, hs)
  {
    hide Stream, Splice, Validator.Verdicts, Validator.Passes, Bare, Recogniser.Recognised, Settled, SlashesAtEnd;
    Validator.ValidatorExact(hs, file);
    PassingHunksAreInPlace(file, hs);
    PatchIsFormatSplice(file, hs);
  }

  /** For any list of hunks: what it writes is the splice at the places where the hunks settle. */
  lemma {:induction false} ApplyWritesSettledSplice(file: seq<string>, hs: seq<Hunk>)
    requires AllWellFormed(hs) && Decide(file, hs).Patched? && Placed(|file|, 0, Settled(0, hs))
    ensures Bare(Decide(file, hs).contents) == Bare(Splice(file, Settled(0, hs))) <==>
            SlashesAtEnd(|file|, Settled(0, hs))
  {
    hide Stream, Splice, Validator.Verdicts, Bare, Recogniser.Recognised, Settled, SlashesAtEnd;
    PatchIsSettledSplice(file, hs);
  }

  lemma PassAndLastIsMatch(file: seq<string>, h: Hunk)
    requires WellFormed(h) && Validator.Passes(file, h)
    ensures HunkMatches(file, h) <==> LastLineMatches(file, h)
  {
    hide RStrip, OldLines;
    var a, b := file[Start(h)..End(h)], OldLines(h.text);
    if HunkMatches(file, h) {
      assert Bare(a)[h.linessrc - 1] == Bare(b)[h.linessrc - 1];
    }
    if LastLineMatches(file, h) {
      forall k | 0 <= k < h.linessrc
        ensures Bare(a)[k] == Bare(b)[k]
      {
        assert Validator.LineMatches(file, h, k);
      }
      assert Bare(a) == Bare(b);
    }
  }

  /**
    After `apply` has rewritten a file, the reversed hunks restore it exactly when no `\` line cost
    it a line, in either direction, and every hunk fits.
   */
  lemma {:induction false} ApplyUndoneIffFits(file: seq<string>, hs: seq<Hunk>)
    requires hs != [] && AllWellFormed(hs) && Validator.Ordered(0, hs)
    requires Decide(file, hs).Patched? && Numbered(CanonicalAll(hs), 0)
    ensures var out := Decide(file, hs).contents;
            Bare(Unpatch(out, hs)) == Bare(file) <==>
            SlashesAtEnd(|file|, hs) && SlashesAtEnd(|out|, Settled(0, ReverseAll(hs))) && UndoFits(file, 0, InStep, hs)
  {
    hide Stream, Validator.Verdicts, Validator.Passes, Bare, Recogniser.Recognised, Unpatch, Settled, SlashesAtEnd,
         UndoFits, JumpsFit, Placed, CanonicalAll, Numbered;
    PatchedIffAllPass(file, hs);
    PassingHunksAreInPlace(file, hs);
    if SlashesAtEnd(|file|, hs) {
      UndoIffFits(file, hs);
    } else if Bare(Unpatch(Stream(file, 0, hs), hs)) == Bare(file) {
      RestoredMeansSlashesLast(file, hs);
    }
  }

  /** If every hunk leaves a line, that is when the source lines that were not checked match. */
  lemma {:induction false} ApplyUndoneIffLastLinesMatch(file: seq<string>, hs: seq<Hunk>)
    requires hs != [] && AllWellFormed(hs) && Validator.Ordered(0, hs)
    requires Decide(file, hs).Patched? && Numbered(CanonicalAll(hs), 0)
    requires forall i :: 0 <= i < |hs| ==> hs[i].linestgt > 0
    ensures Bare(Unpatch(Decide(file, hs).contents, hs)) == Bare(file) <==>
            SlashesAtEnd(|file|, hs) && forall i :: 0 <= i < |hs| ==> LastLineMatches(file, hs[i])
  {
    hide Stream, Validator.Verdicts, Validator.Passes, Bare, Recogniser.Recognised, HunkMatches,
         LastLineMatches, Unpatch, Settled, SlashesAtEnd, JumpsFit, Placed, Numbered, FirstLinesFit;
    PatchedIffAllPass(file, hs);
    PassingHunksAreInPlace(file, hs);
    if SlashesAtEnd(|file|, hs) {
      UndoIffMatches(file, hs);
      FittingJumpsBeginRight(file, 0, 0, hs);
    } else if Bare(Unpatch(Stream(file, 0, hs), hs)) == Bare(file) {
      RestoredMeansSlashesLast(file, hs);
    }
    forall i | 0 <= i < |hs|
      ensures HunkMatches(file, CanonicalAll(hs)[i]) <==> LastLineMatches(file, hs[i])
    {
      PassAndLastIsMatch(file, hs[i]);
      SameMatch(file, hs[i]);
    }
  }

  lemma SameMatch(file: seq<string>, h: Hunk)
    requires Validator.Passes(file, h)
    ensures HunkMatches(file, Canonical(h)) <==> HunkMatches(file, h)
  {
  }

  /**
    Applying the same patch again: the file it wrote is rewritten once more exactly when every
    hunk still passes on it. If not, it is reported as already patched exactly when the hunks
    that start at target line 1, if any, consist of one line which the file repeats below them.
   */
  lemma {:induction false} ApplyAgainExactly(file: seq<string>, hs: seq<Hunk>)
    requires hs != [] && AllWellFormed(hs) && Validator.Ordered(0, hs)
    requires Decide(file, hs).Patched?
    requires Numbered(CanonicalAll(hs), 0) && SlashesAtEnd(|file|, hs)
    ensures var out := Decide(file, hs).contents;
            match Decide(out, hs)
            case IndexError => false
            case Patched(_) => AllPass(out, hs)
            case AlreadyPatched => !AllPass(out, hs) && OneLateFits(out, hs)
            case Different => !AllPass(out, hs) && !OneLateFits(out, hs)
  {
    hide Stream, Splice, Validator.Verdicts, Bare, Recogniser.Recognised, Recogniser.Repeats, Recogniser.RunLength,
         Settled, SlashesAtEnd, JumpsFit;
    PatchedIffAllPass(file, hs);
    PassingHunksAreInPlace(file, hs);
    assert Validator.Passes(file, hs[0]);
    Recogniser.RecognisedAfterPatch(file, hs);
    Validator.ValidatorExact(hs, Decide(file, hs).contents);
  }

  predicate OneLateFits(out: seq<string>, hs: seq<Hunk>) {
    out != [] && Recogniser.Repeats(out, 0, Recogniser.RunLength(0, CanonicalAll(hs)))
  }

  /** In particular the output of a patch that starts below target line 1 is never reported as different. */
  lemma {:induction false} ApplyAgain(file: seq<string>, hs: seq<Hunk>)
    requires hs != [] && AllWellFormed(hs) && Validator.Ordered(0, hs)
    requires Decide(file, hs).Patched?
    requires Numbered(CanonicalAll(hs), 0) && SlashesAtEnd(|file|, hs) && FormatTgtStart(hs[0]) > 0
    ensures !Decide(Decide(file, hs).contents, hs).Different?
  {
    hide Stream, Splice, Validator.Verdicts, Validator.Passes, Bare, Recogniser.Recognised, Settled, SlashesAtEnd, JumpsFit;
    PatchedIffAllPass(file, hs);
    PassingHunksAreInPlace(file, hs);
    Recogniser.RecognisedBelowLineOne(file, hs);
    Validator.ValidatorExact(hs, Decide(file, hs).contents);
  }

  // -------------------------------------------------------------------------
  // The unchecked last line at work

  /** A hunk whose only source line is its last one passes on every file that is long enough. */
  lemma OneLineHunkAlwaysPasses(file: seq<string>, h: Hunk)
    requires h.linessrc == 1 && 1 <= h.startsrc <= |file|
    ensures Validator.Passes(file, h)
  {
  }

  /** So a patch of one such hunk is always applied, and makes the file longer every time it adds a line. */
  lemma OneLinePatchIsApplied(file: seq<string>, h: Hunk)
    requires WellFormed(h) && h.linessrc == 1 && 1 <= h.startsrc <= |file| && Slashes(h.text) == 0
    ensures AllBodyLines([h]) && Decide(file, [h]).Patched?
    ensures |Decide(file, [h]).contents| == |file| + h.linestgt - 1
  {
    hide Stream, Splice, Validator.Verdicts, Validator.Passes, Bare, Recogniser.Recognised, Slashes, OldLines, NewLines;
    var hs := [h];
    assert hs[1..] == [];
    assert BodyLines(h.text);
    OneLineHunkAlwaysPasses(file, h);
    PatchedIffAllPass(file, hs);
    PatchLength(file, hs);
  }

  /** A patch that adds a line after its only context line adds it once more on every run. */
  lemma AppliedTwice()
    ensures var hs := [Hunk(2, 1, 2, 2, [" b\n", "+c\n"])];
            AllWellFormed(hs) &&
            Decide(["a\n", "b\n"], hs).Patched? &&
            Decide(Decide(["a\n", "b\n"], hs).contents, hs).Patched? &&
            |Decide(Decide(["a\n", "b\n"], hs).contents, hs).contents| == 4
  {
    hide Decide, AllBodyLines;
    var h := Hunk(2, 1, 2, 2, [" b\n", "+c\n"]);
    assert h.text[1..] == ["+c\n"] && h.text[1..][1..] == [];
    assert WellFormed(h) && Slashes(h.text) == 0;
    var file := ["a\n", "b\n"];
    OneLinePatchIsApplied(file, h);
    OneLinePatchIsApplied(Decide(file, [h]).contents, h);
  }
}
