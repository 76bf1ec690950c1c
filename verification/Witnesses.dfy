/** One concrete input beside each exact condition: what goes wrong where it does not hold. */
module Witnesses {
  import opened Text
  import opened Hunks
  import opened PatchStream
  import opened Format
  import opened Undo
  import opened LineEnds
  import Recogniser
  import Engine
  import Spelling
  import Validator
  import Popup
  import CrashHost
  import CrashKeys
  import Parser
  import opened Printer
  import RoundTrip
  import PopupGeometry
  import Records
  import MimeWriter
  import Multipart

  // -------------------------------------------------------------------------
  // Reading short lines

  lemma LineOf(c: char)
    requires !IsEol(c)
    ensures RStrip([c, '\n']) == [c] && Closed([c, '\n'], LF)
  {
    RStripUnique([c], LF);
    assert [c] + LF == [c, '\n'];
  }

  lemma ThreeLines()
    ensures OneTerminator(["a\n", "b\n", "c\n"], LF) && Shows(["a\n", "b\n", "c\n"], LF)
    ensures RStrip("x\n") == "x"
  {
    LineOf('a');
    LineOf('b');
    LineOf('c');
    LineOf('x');
  }

  // -------------------------------------------------------------------------
  // The patch tool

  lemma SlashBody()
    ensures var text := ["-b\n", "\\ No newline at end of file\n", "+x\n"];
            && BodyLines(text) && OldLines(text) == ["b\n"] && NewLines(text) == ["x\n"] && Slashes(text) == 1
            && Body(["a\n", "b\n", "c\n"], 1, text) == ["x\n"]
  {
    var src, text := ["a\n", "b\n", "c\n"], ["-b\n", "\\ No newline at end of file\n", "+x\n"];
    hide SeenEnds, RStrip;
    ThreeLines();
    SeenAfterFirst(src, 3, LF);
    assert text[1..] == [text[1], text[2]] && text[1..][1..] == [text[2]] && text[1..][1..][1..] == [];
    BodyUnfold(src, 1, text);
    BodyUnfold(src, 2, text[1..]);
    BodyUnfold(src, 3, text[1..][1..]);
    assert Tail("+x\n") == "x\n" && Tail("-b\n") == "b\n";
    assert Convert(SeenEnds(src, 3), "+x\n") == "x" + LF == "x\n";
  }

  /** `apply` accepts a patch whose `\` line then costs the file its last line. */
  lemma SlashLosesALine()
    ensures var hs := [Hunk(2, 1, 2, 1, ["-b\n", "\\ No newline at end of file\n", "+x\n"])];
            AllWellFormed(hs) && Engine.Decide(["a\n", "b\n", "c\n"], hs) == Engine.Patched(["a\n", "x\n"])
  {
    var file, h := ["a\n", "b\n", "c\n"], Hunk(2, 1, 2, 1, ["-b\n", "\\ No newline at end of file\n", "+x\n"]);
    var hs := [h];
    hide Body, OldLines, NewLines, Slashes, RStrip, Validator.Verdicts, Bare;
    SlashBody();
    assert hs[1..] == [];
    assert AllWellFormed(hs);
    Engine.OneLineHunkAlwaysPasses(file, h);
    Engine.PatchedIffAllPass(file, hs);
    StreamUnfold(file, 0, hs);
    StreamNil(file, 3, []);
    SkipIsSlice(file, 0, 1);
    assert file[0..1] == ["a\n"] && file[3..] == [];
  }

  /** A file with "\r\n" gets a line with "\n" when the patch writes before it reads. */
  lemma RawFirstLine()
    ensures Stream(["a\r\n"], 0, [Hunk(1, 1, 1, 2, ["+x\n", " a\n"])])[0] == "x\n"
  {
    var src, h := ["a\r\n"], Hunk(1, 1, 1, 2, ["+x\n", " a\n"]);
    hide RStrip;
    assert [h][1..] == [] && h.text[1..] == [" a\n"];
    StreamUnfold(src, 0, [h]);
    BodyUnfold(src, 0, h.text);
    SeenNothing(src);
    assert Tail("+x\n") == "x\n";
  }

  lemma MixedBody()
    ensures var src, text := ["a\n", "b\r\n"], [" b\r\n", "+x\r\n"];
            BodyLines(text) && Body(src, 1, text) == ["b\r\n", "x\r\n"] && BodyEnd(1, text) == 2
  {
    var src, text := ["a\n", "b\r\n"], [" b\r\n", "+x\r\n"];
    hide Convert, Spelling.HasKind, SeenEnds, Body, CountEnds;
    assert text[1..] == ["+x\r\n"] && text[1..][1..] == [];
    BodyUnfold(src, 1, text);
    BodyUnfold(src, 2, text[1..]);
    BodyNil(src, 2, []);
    AllRead(src);
    TwoKinds();
    Spelling.MixedIsVerbatim(src, LF, CRLF, " b\r\n");
    Spelling.MixedIsVerbatim(src, LF, CRLF, "+x\r\n");
    assert Tail(" b\r\n") == "b\r\n" && Tail("+x\r\n") == "x\r\n";
  }

  lemma AllRead(src: seq<string>)
    ensures SeenEnds(src, |src|) == CountEnds(src)
  {
    assert src[..|src|] == src;
  }

  /** The stream of one hunk that lies inside the file. */
  lemma OneHunkStream(src: seq<string>, h: Hunk)
    requires BodyLines(h.text) && Start(h) <= |src| && BodyEnd(Start(h), h.text) <= |src|
    ensures Stream(src, 0, [h]) ==
            src[0..Start(h)] + Body(src, Start(h), h.text) + src[BodyEnd(Start(h), h.text)..]
  {
    hide Stream, Body, BodyEnd, BodyLines, Skip;
    assert [h][1..] == [];
    StreamUnfold(src, 0, [h]);
    SkipIsSlice(src, 0, Start(h));
    StreamNil(src, BodyEnd(Start(h), h.text), []);
  }

  /** A file with two kinds of terminators keeps both; the new line is written as it stands in the patch. */
  lemma MixedEndsAreKept()
    ensures AllBodyLines([Hunk(2, 1, 2, 2, [" b\r\n", "+x\r\n"])])
    ensures Stream(["a\n", "b\r\n"], 0, [Hunk(2, 1, 2, 2, [" b\r\n", "+x\r\n"])]) == ["a\n", "b\r\n", "x\r\n"]
  {
    var src, h := ["a\n", "b\r\n"], Hunk(2, 1, 2, 2, [" b\r\n", "+x\r\n"]);
    MixedBody();
    hide Stream, Body, BodyEnd, BodyLines;
    OneHunkStream(src, h);
    assert src[0..1] == ["a\n"] && src[2..] == [];
  }

  lemma TwoKinds()
    ensures Spelling.HasKind(["a\n", "b\r\n"], LF) && Spelling.HasKind(["a\n", "b\r\n"], CRLF)
  {
    var src := ["a\n", "b\r\n"];
    assert src[0][1..] == "\n" && src[1][1..] == "\r\n";
    assert Spelling.EndedBy(src[0], LF) && Spelling.EndedBy(src[1], CRLF);
  }

  lemma OverlapBodies()
    ensures var a, b := [" a\n", " b\n", " c\n"], [" x\n", " y\n"];
            Bare(OldLines(a)) == ["a", "b", "c"] && OldLines(b) == ["x\n", "y\n"]
    ensures Bare(["a\n", "b\n", "z\n", "c\n", "e\n"]) == ["a", "b", "z", "c", "e"] && RStrip("x\n") == "x"
  {
    var a, b := [" a\n", " b\n", " c\n"], [" x\n", " y\n"];
    hide RStrip;
    assert a[1..] == [" b\n", " c\n"] && a[1..][1..] == [" c\n"] && a[1..][1..][1..] == [];
    assert b[1..] == [" y\n"] && b[1..][1..] == [];
    assert Tail(" a\n") == "a\n" && Tail(" b\n") == "b\n" && Tail(" c\n") == "c\n";
    assert Tail(" x\n") == "x\n" && Tail(" y\n") == "y\n";
    LineOf('a');
    LineOf('b');
    LineOf('c');
    LineOf('e');
    LineOf('x');
    LineOf('z');
    assert OldLines(a) == ["a\n", "b\n", "c\n"];
  }

  /** Two overlapping hunks: the second is never compared, and the file is accepted. */
  lemma OverlapIsAccepted()
    ensures var hs := [Hunk(1, 3, 1, 3, [" a\n", " b\n", " c\n"]), Hunk(3, 2, 3, 2, [" x\n", " y\n"])];
            var file := ["a\n", "b\n", "z\n", "c\n", "e\n"];
            Validator.Verdicts(hs, file) == Validator.Checked(true, 2) && !Validator.Passes(file, hs[1])
  {
    var hs := [Hunk(1, 3, 1, 3, [" a\n", " b\n", " c\n"]), Hunk(3, 2, 3, 2, [" x\n", " y\n"])];
    var file := ["a\n", "b\n", "z\n", "c\n", "e\n"];
    hide RStrip, OldLines, Bare, Validator.VRun;
    OverlapBodies();
    BareLines(file);
    var find := ["a", "b", "c"];
    Validator.VRunUnfold(hs, Validator.VINIT, 1, file);
    Validator.VRunUnfold(hs, Validator.VState(0, find, 1, 0), 2, file);
    Validator.VRunUnfold(hs, Validator.VState(0, find, 2, 0), 3, file);
    Validator.VRunUnfold(hs, Validator.VState(1, find, 2, 1), 4, file);
    Validator.VRunUnfold(hs, Validator.VState(1, find, 3, 1), 5, file);
    assert !Validator.LineMatches(file, hs[1], 0);
  }

  lemma BareLines(file: seq<string>)
    ensures |Bare(file)| == |file| && forall i :: 0 <= i < |file| ==> RStrip(file[i]) == Bare(file)[i]
  {
  }

  lemma ErrorBodies()
    ensures Bare(OldLines([" a\n", " b\n", " c\n", " d\n"])) == ["a", "b", "c", "d"]
    ensures Bare(["a\n", "b\n", "c\n", "x\n", "d\n", "e\n"]) == ["a", "b", "c", "x", "d", "e"]
  {
    var text := [" a\n", " b\n", " c\n", " d\n"];
    hide RStrip;
    assert text[1..] == [" b\n", " c\n", " d\n"] && text[1..][1..] == [" c\n", " d\n"];
    assert text[1..][1..][1..] == [" d\n"] && text[1..][1..][1..][1..] == [];
    assert Tail(" a\n") == "a\n" && Tail(" b\n") == "b\n" && Tail(" c\n") == "c\n" && Tail(" d\n") == "d\n";
    LineOf('a');
    LineOf('b');
    LineOf('c');
    LineOf('d');
    LineOf('e');
    LineOf('x');
    assert OldLines(text) == ["a\n", "b\n", "c\n", "d\n"];
  }

  const TOO_OFTEN := [Hunk(1, 4, 1, 4, [" a\n", " b\n", " c\n", " d\n"]), Hunk(4, 1, 4, 1, [" x\n"])]
  const SIX_LINES := ["a\n", "b\n", "c\n", "x\n", "d\n", "e\n"]
  const FOUND := ["a", "b", "c", "d"]

  /** The first hunk is passed at line 4, with its last line not compared. */
  lemma FirstIsPassed()
    ensures Validator.VRun(TOO_OFTEN, Validator.VINIT, 1, SIX_LINES) ==
            Validator.VRun(TOO_OFTEN, Validator.VState(1, FOUND, 3, 1), 5, SIX_LINES)
  {
    hide RStrip, OldLines, Bare, Validator.VRun;
    ErrorBodies();
    BareLines(SIX_LINES);
    Validator.VRunUnfold(TOO_OFTEN, Validator.VINIT, 1, SIX_LINES);
    Validator.VRunUnfold(TOO_OFTEN, Validator.VState(0, FOUND, 1, 0), 2, SIX_LINES);
    Validator.VRunUnfold(TOO_OFTEN, Validator.VState(0, FOUND, 2, 0), 3, SIX_LINES);
    Validator.VRunUnfold(TOO_OFTEN, Validator.VState(0, FOUND, 3, 0), 4, SIX_LINES);
  }

  /** Its lines are then still compared for the second one, and run out. */
  lemma LinesRunOut()
    ensures Validator.VRun(TOO_OFTEN, Validator.VState(1, FOUND, 3, 1), 5, SIX_LINES) == Validator.Raised
  {
    hide RStrip, OldLines, Bare, Validator.VRun;
    ErrorBodies();
    BareLines(SIX_LINES);
    Validator.VRunUnfold(TOO_OFTEN, Validator.VState(1, FOUND, 3, 1), 5, SIX_LINES);
    Validator.VRunUnfold(TOO_OFTEN, Validator.VState(1, FOUND, 4, 1), 6, SIX_LINES);
  }

  /** Two overlapping hunks on which the validator ends in an error. */
  lemma OverlapIsAnError()
    ensures Validator.Verdicts(TOO_OFTEN, SIX_LINES) == Validator.Raised
  {
    hide Validator.VRun;
    FirstIsPassed();
    LinesRunOut();
  }

  lemma LineOneBody()
    ensures Body(["a\n", "b\n"], 0, ["-a\n", "+c\n"]) == ["c\n"] && BodyEnd(0, ["-a\n", "+c\n"]) == 1
    ensures NewLines(["-a\n", "+c\n"]) == ["c\n"] && BodyLines(["-a\n", "+c\n"])
  {
    var src, text := ["a\n", "b\n"], ["-a\n", "+c\n"];
    hide RStrip, SeenEnds, Body;
    LineOf('a');
    LineOf('b');
    LineOf('c');
    SeenAfterFirst(src, 1, LF);
    assert text[1..] == ["+c\n"] && text[1..][1..] == [];
    assert Tail("+c\n") == "c\n" && Tail("-a\n") == "a\n" && "c" + LF == "c\n";
    BodyUnfold(src, 0, text);
    BodyUnfold(src, 1, text[1..]);
    BodyNil(src, 1, []);
  }

  lemma LineOneReplaced()
    ensures AllBodyLines([Hunk(1, 1, 1, 1, ["-a\n", "+c\n"])])
    ensures Stream(["a\n", "b\n"], 0, [Hunk(1, 1, 1, 1, ["-a\n", "+c\n"])]) == ["c\n", "b\n"]
  {
    var src, h := ["a\n", "b\n"], Hunk(1, 1, 1, 1, ["-a\n", "+c\n"]);
    LineOneBody();
    hide RStrip, SeenEnds, Body, Stream, BodyEnd, BodyLines, Convert;
    assert [h][1..] == [];
    StreamUnfold(src, 0, [h]);
    StreamNil(src, 1, []);
    assert src[1..] == ["b\n"];
  }

  lemma NotFound(out: seq<string>, p: nat, lines: seq<string>, k: nat)
    requires k < |lines| && p + k < |out| && RStrip(out[p + k]) != RStrip(lines[k])
    ensures !Recogniser.Found(out, p, lines)
  {
  }

  /** Replacing line 1 of a two-line file is not recognised afterwards. */
  lemma LineOneNotRecognised()
    ensures var src, hs := ["a\n", "b\n"], [Hunk(1, 1, 1, 1, ["-a\n", "+c\n"])];
            AllBodyLines(hs) && !Recogniser.Recognised(Stream(src, 0, hs), hs)
  {
    var hs, out := [Hunk(1, 1, 1, 1, ["-a\n", "+c\n"])], ["c\n", "b\n"];
    LineOneBody();
    LineOneReplaced();
    hide RStrip, Stream, NewLines, Body, BodyEnd, Bare;
    LineOf('b');
    LineOf('c');
    assert out[1] == ['b', '\n'] && "c\n" == ['c', '\n'];
    assert RStrip(out[1]) == ['b'] && RStrip("c\n") == ['c'];
    var lines := ["c\n"];
    NotFound(out, 1, lines, 0);
    assert NewLines(hs[0].text) == lines;
  }

  /** `-1,0` means after line 1; the tool inserts before it. */
  lemma InsertionOneLineEarly()
    ensures var src, hs := ["a\n", "b\n"], [Hunk(1, 0, 2, 1, ["+x\n"])];
            && Stream(src, 0, hs) == ["x\n", "a\n", "b\n"]
            && Placed(2, 0, CanonicalAll(hs)) && Splice(src, CanonicalAll(hs)) == ["a\n", "x\n", "b\n"]
  {
    var src, h := ["a\n", "b\n"], Hunk(1, 0, 2, 1, ["+x\n"]);
    hide RStrip;
    assert [h][1..] == [] && h.text[1..] == [];
    StreamUnfold(src, 0, [h]);
    BodyUnfold(src, 0, h.text);
    SeenNothing(src);
    assert Tail("+x\n") == "x\n";
    StreamNil(src, 0, []);
    var f := CanonicalAll([h]);
    assert f == [Canonical(h)] && f[1..] == [];
    assert NewLines(h.text) == ["x\n"];
    FromIsSplice(src, f);
    FromUnfold(src, 0, f);
    FromNil(src, 1, []);
    assert src[0..1] == ["a\n"] && src[1..] == ["b\n"];
  }

  /** A deletion that leaves no line, numbered as the format has it, is put back before the line it came after. */
  lemma DeletionPutBackEarly()
    ensures var src, hs := ["a\n", "b\n"], [Hunk(2, 1, 1, 0, ["-b\n"])];
            && AllWellFormed(hs) && Stream(src, 0, hs) == ["a\n"] && Unpatch(["a\n"], hs) == ["b\n", "a\n"]
  {
    var src, h := ["a\n", "b\n"], Hunk(2, 1, 1, 0, ["-b\n"]);
    hide RStrip;
    assert [h][1..] == [] && h.text[1..] == [];
    assert Tail("-b\n") == "b\n";
    assert OldLines(h.text) == ["b\n"] && NewLines(h.text) == [];
    StreamUnfold(src, 0, [h]);
    BodyUnfold(src, 1, h.text);
    StreamNil(src, 2, []);
    SkipIsSlice(src, 0, 1);
    assert src[0..1] == ["a\n"];
    var r := Reverse(h);
    assert ReverseLine("-b\n") == "+b\n" by {
      assert "-b\n"[1..] == "b\n";
    }
    assert ReverseText(h.text[1..]) == [];
    assert r.text == ["+b\n"] && r.text[1..] == [];
    assert ReverseAll([h])[0] == r && ReverseAll([h]) == [r] && [r][1..] == [];
    ReverseWellFormed([h]);
    StreamUnfold(["a\n"], 0, [r]);
    BodyUnfold(["a\n"], 0, r.text);
    SeenNothing(["a\n"]);
    assert Tail("+b\n") == "b\n";
    StreamNil(["a\n"], 0, []);
  }

  lemma TwoLineInsertion()
    ensures var text := ["+a\n", "+x\n"];
            && BodyLines(text) && OldLines(text) == [] && NewLines(text) == ["a\n", "x\n"] && Slashes(text) == 0
            && RStrip("a\n") == "a" && RStrip("x\n") == "x"
  {
    var text := ["+a\n", "+x\n"];
    hide RStrip;
    assert text[1..] == ["+x\n"] && text[1..][1..] == [];
    assert Tail("+a\n") == "a\n" && Tail("+x\n") == "x\n";
    LineOf('a');
    LineOf('x');
  }

  lemma NothingToJump(src: seq<string>, t: nat)
    ensures JumpsFit(src, t, []) && FirstLinesFit(src, t + 1, [])
  {
  }

  /** The conditions for a patch of one insertion. */
  lemma OneInsertion(src: seq<string>, h: Hunk)
    requires WellFormed(h) && h.linessrc == 0 && 0 < h.startsrc <= |src| && Slashes(h.text) == 0
    ensures JumpsFit(src, 0, [h]) <==> AllAre(NewLines(h.text), src[h.startsrc - 1])
    ensures FirstLinesFit(src, 0, [h]) <==> StandsAt(src, FirstOf(NewLines(h.text)), h.startsrc - 1)
    ensures SlashesAtEnd(|src|, Settled(0, [h])) && Matches(src, CanonicalAll([h]))
  {
    hide AllAre, StandsAt, FirstOf, RStrip, NewLines, OldLines, Settled, JumpsFit, FirstLinesFit;
    assert [h][1..] == [];
    JumpsFitUnfold(src, 0, [h]);
    NothingToJump(src, h.startsrc - 1);
    FirstLinesFitUnfold(src, 0, [h]);
    SettledUnfold(0, [h]);
    assert OldLines(h.text) == [] && src[h.startsrc..h.startsrc] == [];
  }

  lemma OneInsertionIsPlaced(n: nat, h: Hunk)
    requires WellFormed(h) && h.linessrc == 0 && 0 < h.startsrc <= n && h.starttgt == h.startsrc + 1 && h.linestgt > 0
    ensures AllWellFormed([h]) && Placed(n, 0, CanonicalAll([h])) && Numbered(CanonicalAll([h]), 0)
  {
    hide WellFormed;
    assert CanonicalAll([h]) == [Canonical(h)] && [Canonical(h)][1..] == [];
  }

  /** It is right when all its lines, and undone when its first line, equal the line it jumps over. */
  lemma OneInsertionExactly(src: seq<string>, h: Hunk)
    requires WellFormed(h) && h.linessrc == 0 && 0 < h.startsrc <= |src| && Slashes(h.text) == 0
    requires h.starttgt == h.startsrc + 1 && h.linestgt > 0
    ensures AllWellFormed([h]) && Placed(|src|, 0, CanonicalAll([h]))
    ensures Bare(Stream(src, 0, [h])) == Bare(Splice(src, CanonicalAll([h]))) <==>
            AllAre(NewLines(h.text), src[h.startsrc - 1])
    ensures Bare(Unpatch(Stream(src, 0, [h]), [h])) == Bare(src) <==>
            StandsAt(src, FirstOf(NewLines(h.text)), h.startsrc - 1)
  {
    hide *;
    OneInsertionIsPlaced(|src|, h);
    OneInsertion(src, h);
    PatchIsFormatSplice(src, [h]);
    UndoIffMatches(src, [h]);
  }

  /** An insertion put in the wrong place is undone all the same if its first line is the one it jumped over. */
  lemma WrongInsertionIsUndone()
    ensures var src, hs := ["a\n", "b\n"], [Hunk(1, 0, 2, 2, ["+a\n", "+x\n"])];
            && AllWellFormed(hs) && Placed(2, 0, CanonicalAll(hs))
            && Bare(Stream(src, 0, hs)) != Bare(Splice(src, CanonicalAll(hs)))
            && Bare(Unpatch(Stream(src, 0, hs), hs)) == Bare(src)
  {
    var src, h := ["a\n", "b\n"], Hunk(1, 0, 2, 2, ["+a\n", "+x\n"]);
    hide Stream, Splice, Unpatch, Bare, Placed, StandsAt, OldLines, NewLines, BodyLines, FirstOf, RStrip, Slashes;
    TwoLineInsertion();
    OneInsertionExactly(src, h);
    assert NewLines(h.text)[1] == "x\n" && src[0] == "a\n";
    assert !AllAre(NewLines(h.text), src[0]);
    BeginsWithFirst(src, "a\n", ["a\n", "x\n"]);
  }

  lemma BeginsWithFirst(src: seq<string>, l: string, lines: seq<string>)
    requires src != [] && src[0] == l && lines != [] && lines[0] == l
    ensures StandsAt(src, FirstOf(lines), 0)
  {
    assert src[0..1] == [l] == FirstOf(lines);
  }

  const DASHED := HunkText(Hunk(1, 1, 0, 0, ["--- x\n"]), true, false, " @@\n", [])
  const DASHED_FILE := FileText("f", "\n", "f", "\n", [], [DASHED])

  lemma DashedHunk()
    ensures ValidHunk(DASHED) && !Tame(DASHED)
  {
    var text := ["--- x\n"];
    assert text[1..] == [];
    assert OldLines(text) == [Tail("--- x\n")] && NewLines(text) == [];
    assert WellFormed(DASHED.hunk);
  }

  lemma DashedIsValid()
    ensures ValidFile(DASHED_FILE) && Parser.MatchName("--- x\n").Some?
  {
    DashedHunk();
    Parser.NamelessExactly("--- x\n");
    hide ValidHunk, Parser.MatchName;
  }

  lemma DashedLines()
    ensures PrintFiles([DASHED_FILE]) == PrintNames(DASHED_FILE) + ([PrintHeader(DASHED)] + DASHED.hunk.text)
  {
    hide PrintHeader, PrintNames;
    var f := DASHED_FILE;
    assert [f][1..] == [] && f.hunks[1..] == [];
    assert PrintHunks(f.hunks) == PrintHunk(DASHED) + [];
    assert PrintHunk(DASHED) == [PrintHeader(DASHED)] + DASHED.hunk.text + [];
  }

  /** A patch that ends with such a hunk is refused. */
  lemma EndsLikeAName(f: FileText, t: HunkText)
    requires ValidFile(f) && ValidHunk(t) && !Tame(t)
    ensures Parser.Parse(PrintNames(f) + ([PrintHeader(t)] + t.hunk.text)) == Parser.Failed
  {
    hide PrintNames, PrintHeader, Parser.Run, Parser.Step, ValidFile, ValidHunk, Parser.MatchName, Parser.Strip;
    Parser.InitInv();
    var lines := [PrintHeader(t)] + t.hunk.text;
    NamesRun(Parser.INIT, f);
    Parser.RunKeepsInv(Parser.INIT, PrintNames(f));
    var s := Parser.Run(Parser.INIT, PrintNames(f)).st;
    Parser.RunConcat(Parser.INIT, PrintNames(f), lines);
    RoundTrip.ReadBody(s, t);
  }

  /** A hunk that removes the line "-- x" ends like a file header, and the patch is refused. */
  lemma RemovedDashesRefused()
    ensures ValidFiles([DASHED_FILE]) && Parser.Parse(PrintFiles([DASHED_FILE])) == Parser.Failed
  {
    hide PrintFiles, PrintNames, PrintHeader, Parser.Parse, ValidFile, ValidHunk;
    DashedIsValid();
    DashedLines();
    ValidHunksOf(DASHED_FILE);
    assert DASHED_FILE.hunks[0] == DASHED;
    assert LastLine(DASHED.hunk) == "--- x\n";
    EndsLikeAName(DASHED_FILE, DASHED);
  }

  lemma ValidHunksOf(f: FileText)
    requires ValidFile(f)
    ensures forall i :: 0 <= i < |f.hunks| ==> ValidHunk(f.hunks[i])
  {
  }

  const ONE_LINE := HunkText(Hunk(1, 1, 1, 1, ["-x\n", "+y\n"]), true, true, " @@\n", [])
  const WITH_HUNK := FileText("b", "\n", "b", "\t", [], [ONE_LINE])
  const PROPERTIES := FileText("a", "\n", "a", "\t", ["\n"], [])
  const BARE_NAMES := FileText("a", "\n", "a", "\t", [], [])

  lemma OneLineIsValid()
    ensures ValidHunk(ONE_LINE) && Tame(ONE_LINE)
  {
    var text := ["-x\n", "+y\n"];
    assert text[1..] == ["+y\n"] && text[1..][1..] == [];
    assert OldLines(text) == [Tail("-x\n")] && NewLines(text) == [Tail("+y\n")];
    assert WellFormed(ONE_LINE.hunk);
  }

  lemma PropertyFilesAreValid()
    ensures ValidFile(WITH_HUNK) && ValidFile(PROPERTIES) && ValidFile(BARE_NAMES)
    ensures CleanFile(WITH_HUNK) && EndsWell(WITH_HUNK) && CleanFile(PROPERTIES) && !CleanFile(BARE_NAMES)
  {
    OneLineIsValid();
    hide ValidHunk, Tame;
    assert Quiet("\n");
  }

  /** A file of which only properties change, then one with a hunk: an empty row and a row of one hunk. */
  lemma PropertiesThenHunk()
    ensures Parser.Parse(PrintFiles([PROPERTIES, WITH_HUNK])) == Parser.Parsed(["a", "b"], ["a", "b"], [[], [ONE_LINE.hunk]])
  {
    hide PrintFiles, Parser.Parse, ValidFile, CleanFile, EndsWell;
    var fs := [PROPERTIES, WITH_HUNK];
    PropertyFilesAreValid();
    assert RoundTrip.Unambiguous(fs) by { NothingAmbiguous(); }
    assert [] + PrintFiles(fs) == PrintFiles(fs);
    TwoRows(fs[0], fs[1]);
    assert Plain([ONE_LINE]) == [ONE_LINE.hunk] && Plain([]) == [];
    RoundTrip.ParseInvertsPrintExactly([], fs);
  }

  lemma TwoRows(a: FileText, b: FileText)
    ensures SourceNames([a, b]) == [a.srcname, b.srcname] && TargetNames([a, b]) == [TargetName(a), TargetName(b)]
    ensures AllHunks([a, b]) == [Plain(a.hunks), Plain(b.hunks)]
  {
  }

  lemma NothingAmbiguous()
    ensures !RoundTrip.Ambiguous(ONE_LINE)
  {
  }

  /** Without the empty line the names of the second file are used up in looking for a hunk of the first. */
  lemma SecondFileLost()
    ensures Parser.Parse(PrintFiles([BARE_NAMES, WITH_HUNK])) != Parser.Parsed(["a", "b"], ["a", "b"], [[], [ONE_LINE.hunk]])
  {
    hide PrintFiles, Parser.Parse, ValidFile, CleanFile, EndsWell;
    var fs := [BARE_NAMES, WITH_HUNK];
    PropertyFilesAreValid();
    assert RoundTrip.Unambiguous(fs) by { NothingAmbiguous(); }
    assert [] + PrintFiles(fs) == PrintFiles(fs);
    TwoRows(fs[0], fs[1]);
    assert Plain([ONE_LINE]) == [ONE_LINE.hunk] && Plain([]) == [];
    assert !CleanFile(fs[0]);
    RoundTrip.ParseInvertsPrintExactly([], fs);
  }

  // -------------------------------------------------------------------------
  // The crash handler, the popup and the crash keys

  /** Of two pairs of descriptors only the second is closed. */
  lemma FirstPairForgotten()
    ensures var ctrl := [CrashHost.Rights([1, 2]), CrashHost.Rights([3, 4])];
            CrashHost.Accounted(CrashHost.Handle(ctrl, true, CrashHost.None)) == [3, 4]
  {
    var ctrl := [CrashHost.Rights([1, 2]), CrashHost.Rights([3, 4])];
    assert ctrl[1..] == [CrashHost.Rights([3, 4])] && ctrl[1..][1..] == [];
  }

  /** Clearing the datalist takes its separator away; an update without clearing keeps it. */
  lemma SeparatorCleared()
    ensures var rows := [Popup.SEPARATOR_ROW];
            |Popup.Updated(Popup.Updated(rows, [], []), ["x"], [""])| == 1 && |Popup.Updated(rows, ["x"], [""])| == 2
  {
  }

  /** A key of three characters where two fit: set stores it cut, and clear does not find it. */
  lemma ClearDoesNothing()
    ensures var t := CrashKeys.SetKey(CrashKeys.Table([], map[]), CrashKeys.Truncate("abc", 2), "v");
            CrashKeys.ClearKey(t, "abc") == t && t.latest.Keys == {"ab"}
  {
    assert CrashKeys.Truncate("abc", 2) == "ab";
  }

  /** A bold title is cut in a popup that was measured with it in the plain font. */
  lemma BoldTitleIsCut()
    ensures var m := PopupGeometry.Measure(10, 8, 0, false, -1);
            var width := PopupGeometry.PlainRow(m, 1);
            && PopupGeometry.IsDesiredWidth([m], 1, 0, width)
            && !PopupGeometry.Uncut(m, PopupGeometry.RowWidths(m, 1, width))
  {
    var m := PopupGeometry.Measure(10, 8, 0, false, -1);
    assert [m][0] == m;
    PopupGeometry.ElisionIsRight(m, 1, PopupGeometry.PlainRow(m, 1));
  }

  /** A value that holds the delimiter line is not read back. */
  lemma DelimiterInValue()
    ensures var rs := [Records.Record("n", Multipart.Delimiter("B"))];
            Multipart.ReadParts(MimeWriter.Parts(rs, "B"), "B") != Records.Some(rs)
  {
    var d := Multipart.Delimiter("B");
    var rs := [Records.Record("n", d)];
    assert d <= d + d;
    assert d != [];
    assert !Multipart.Readable(rs[0], "B");
    Multipart.PartsAreReadBackExactly(rs, "B");
  }
}
