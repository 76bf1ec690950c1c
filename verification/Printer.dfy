/** The text of a unified diff, and the proof that the parser reads it back. */
module Printer {
  import opened Hunks
  import opened Decimal
  import opened Parser

  /** A hunk as it stands in a patch. `quiet` are lines after the body that the parser skips. */
  datatype HunkText = HunkText(hunk: Hunk, shortsrc: bool, shorttgt: bool, section: string, quiet: seq<string>)

  /**
    A file as it stands in a patch. The tails are line ends or a tab followed by a time stamp.
    `notes` are lines in place of hunks, as for a file of which only properties change.
   */
  datatype FileText = FileText(srcname: string, srctail: string, tgtname: string, tgttail: string, notes: seq<string>,
                               hunks: seq<HunkText>)

  function PrintRange(start: nat, lines: nat, short: bool): string {
    Digits(start) + if short then "" else "," + Digits(lines)
  }

  function PrintHeader(t: HunkText): string {
    AT + PrintRange(t.hunk.startsrc, t.hunk.linessrc, t.shortsrc) +
    (PLUS + PrintRange(t.hunk.starttgt, t.hunk.linestgt, t.shorttgt) + t.section)
  }

  function PrintHunk(t: HunkText): seq<string> {
    [PrintHeader(t)] + t.hunk.text + t.quiet
  }

  function PrintHunks(ts: seq<HunkText>): seq<string> {
    if ts == [] then [] else PrintHunk(ts[0]) + PrintHunks(ts[1..])
  }

  function PrintNames(f: FileText): seq<string> {
    [DASHES + (f.srcname + f.srctail), PLUSES + (f.tgtname + f.tgttail)]
  }

  function PrintFile(f: FileText): seq<string> {
    PrintNames(f) + (f.notes + PrintHunks(f.hunks))
  }

  function PrintFiles(fs: seq<FileText>): seq<string> {
    if fs == [] then [] else PrintFile(fs[0]) + PrintFiles(fs[1..])
  }

  // -------------------------------------------------------------------------
  // Which texts are unified diffs

  /** A line the parser passes over while it waits for the next hunk or file. */
  predicate Quiet(line: string) {
    !(DASHES <= line) && MatchHeader(line).None?
  }

  predicate AllQuiet(lines: seq<string>) {
    forall i :: 0 <= i < |lines| ==> Quiet(lines[i])
  }

  /** A short range stands for one line; the section text must not run into the last number. */
  predicate ValidHeader(t: HunkText) {
    && (t.shortsrc ==> t.hunk.linessrc == 1) && (t.shorttgt ==> t.hunk.linestgt == 1)
    && (t.section == [] || (!IsDigit(t.section[0]) && t.section[0] != ','))
  }

  function LastLine(h: Hunk): string {
    if h.text == [] then [] else h.text[|h.text| - 1]
  }

  /** The body has the declared lines, and its last line is one of them. */
  predicate ValidBody(h: Hunk) {
    WellFormed(h) && h.text != [] && !IsSlash(LastLine(h))
  }

  predicate ValidHunk(t: HunkText) {
    ValidHeader(t) && ValidBody(t.hunk) && AllQuiet(t.quiet)
  }

  /** The last line does not look like the first line of a file header. */
  predicate Tame(t: HunkText) {
    !(DASHES <= LastLine(t.hunk))
  }

  /** It does, but there is no file name on it. */
  predicate Nameless(t: HunkText) {
    DASHES <= LastLine(t.hunk) && MatchName(LastLine(t.hunk)).None?
  }

  predicate ValidHunks(ts: seq<HunkText>) {
    forall i :: 0 <= i < |ts| ==> ValidHunk(ts[i])
  }

  /** Only the last hunk may end like a file header, and then without a name. */
  predicate CleanHunks(ts: seq<HunkText>) {
    forall i :: 0 <= i < |ts| ==> Tame(ts[i]) || (i == |ts| - 1 && Nameless(ts[i]))
  }

  predicate NoTab(s: string) {
    forall i :: 0 <= i < |s| ==> s[i] != '\t'
  }

  predicate AllSpace(s: string) {
    forall i :: 0 <= i < |s| ==> IsSpace(s[i])
  }

  /** A name survives `strip`. What follows is a tab and anything, or just white space without a tab. */
  predicate ValidName(name: string, tail: string) {
    && name != [] && NoTab(name)
    && ((tail != [] && tail[0] == '\t') || NoTab(tail))
  }

  predicate ValidFile(f: FileText) {
    && ValidName(f.srcname, f.srctail) && !IsSpace(f.srcname[0]) && !IsSpace(f.srcname[|f.srcname| - 1])
    && ((f.srctail != [] && f.srctail[0] == '\t') || AllSpace(f.srctail))
    && ValidName(f.tgtname, f.tgttail)
    && (f.hunks == [] || f.notes == []) && AllQuiet(f.notes) && ValidHunks(f.hunks)
  }

  predicate ValidFiles(fs: seq<FileText>) {
    forall i :: 0 <= i < |fs| ==> ValidFile(fs[i])
  }

  function LastHunk(f: FileText): HunkText
    requires f.hunks != []
  {
    f.hunks[|f.hunks| - 1]
  }

  /** A file without hunks needs a line after its names, or the next file header is used up in looking for a hunk. */
  predicate CleanFile(f: FileText) {
    CleanHunks(f.hunks) && (f.hunks == [] ==> f.notes != [])
  }

  /** The file has hunks and does not end like a file header. */
  predicate EndsWell(f: FileText) {
    f.hunks != [] && Tame(LastHunk(f))
  }

  /** The patches the parser reads back: all files are clean, and the last one ends well. */
  predicate Clean(fs: seq<FileText>)
  {
    && (forall i :: 0 <= i < |fs| ==> CleanFile(fs[i]))
    && (fs != [] ==> EndsWell(fs[|fs| - 1]))
  }

  function SourceNames(fs: seq<FileText>): (r: seq<string>)
    ensures |r| == |fs|
  {
    seq(|fs|, i requires 0 <= i < |fs| => fs[i].srcname)
  }

  /** Target names are not stripped, so without a tab they keep what follows them on the line. */
  function TargetName(f: FileText): string {
    if f.tgttail != [] && f.tgttail[0] == '\t' then f.tgtname else f.tgtname + f.tgttail
  }

  function TargetNames(fs: seq<FileText>): (r: seq<string>)
    ensures |r| == |fs|
  {
    seq(|fs|, i requires 0 <= i < |fs| => TargetName(fs[i]))
  }

  function Plain(ts: seq<HunkText>): (r: seq<Hunk>)
    ensures |r| == |ts|
  {
    seq(|ts|, i requires 0 <= i < |ts| => ts[i].hunk)
  }

  function AllHunks(fs: seq<FileText>): (r: seq<seq<Hunk>>)
    ensures |r| == |fs|
  {
    seq(|fs|, i requires 0 <= i < |fs| => Plain(fs[i].hunks))
  }

  // -------------------------------------------------------------------------
  // The regular expressions read what was printed

  lemma ReadRange(start: nat, lines: nat, short: bool, rest: string)
    requires short ==> lines == 1
    requires rest == [] || (!IsDigit(rest[0]) && rest[0] != ',')
    ensures Range(PrintRange(start, lines, short) + rest) == Some((start, lines, rest))
  {
    hide DigitRun, Digits, Value;
    var s := PrintRange(start, lines, short) + rest;
    var mid := (if short then "" else "," + Digits(lines)) + rest;
    assert s == Digits(start) + mid;
    ReadBack(start, mid);
    if !short {
      assert mid[0] == ',' && mid[1..] == Digits(lines) + rest;
      ReadBack(lines, rest);
    } else {
      assert mid == rest;
    }
  }

  lemma ReadHeader(t: HunkText)
    requires ValidHeader(t)
    ensures MatchHeader(PrintHeader(t)) ==
            Some(Header(t.hunk.startsrc, t.hunk.linessrc, t.hunk.starttgt, t.hunk.linestgt))
  {
    hide Range, PrintRange;
    var h := t.hunk;
    var right := PrintRange(h.starttgt, h.linestgt, t.shorttgt) + t.section;
    var line := PrintHeader(t);
    var left := PrintRange(h.startsrc, h.linessrc, t.shortsrc) + (PLUS + right);
    assert line == AT + left && line[4..] == left;
    assert (PLUS + right)[0] == ' ' && (PLUS + right)[2..] == right;
    assert PLUS + PrintRange(h.starttgt, h.linestgt, t.shorttgt) + t.section == PLUS + right;
    ReadRange(h.startsrc, h.linessrc, t.shortsrc, PLUS + right);
    ReadRange(h.starttgt, h.linestgt, t.shorttgt, t.section);
  }

  lemma {:induction false} ReadBeforeTab(name: string, tail: string)
    requires NoTab(name)
    ensures BeforeTab(name + tail) == name + BeforeTab(tail)
  {
    if name == [] {
      assert name + tail == tail;
    } else {
      assert (name + tail)[1..] == name[1..] + tail;
      ReadBeforeTab(name[1..], tail);
    }
  }

  lemma {:induction false} BeforeTabAll(s: string)
    requires NoTab(s)
    ensures BeforeTab(s) == s
  {
    if s != [] {
      BeforeTabAll(s[1..]);
    }
  }

  lemma ReadName(marks: string, name: string, tail: string)
    requires |marks| == 4 && ValidName(name, tail)
    ensures MatchName(marks + (name + tail)) ==
            Some(if tail != [] && tail[0] == '\t' then name else name + tail)
  {
    var line := marks + (name + tail);
    assert line[4..] == name + tail;
    ReadBeforeTab(name, tail);
    if !(tail != [] && tail[0] == '\t') {
      BeforeTabAll(tail);
    }
    assert name + [] == name;
  }

  lemma {:induction false} StripTail(name: string, tail: string)
    requires name != [] && !IsSpace(name[|name| - 1]) && AllSpace(tail)
    ensures StripRight(name + tail) == name
  {
    var s := name + tail;
    if tail == [] {
      assert s == name;
    } else {
      assert s[|s| - 1] == tail[|tail| - 1];
      assert s[..|s| - 1] == name + tail[..|tail| - 1];
      StripTail(name, tail[..|tail| - 1]);
    }
  }

  lemma StripBoth(name: string, tail: string)
    requires name != [] && !IsSpace(name[0]) && !IsSpace(name[|name| - 1]) && AllSpace(tail)
    ensures Strip(name + tail) == name
  {
    hide StripRight;
    StripTail(name, tail);
  }

  /** What the line with the source name holds before a tab, and what `strip` takes off it. */
  function NameOnLine(f: FileText): string {
    if f.srctail != [] && f.srctail[0] == '\t' then f.srcname else f.srcname + f.srctail
  }

  lemma StripsToName(f: FileText)
    requires ValidFile(f)
    ensures Strip(NameOnLine(f)) == f.srcname
  {
    hide Strip, ValidHunks, ValidName;
    assert f.srcname != [] by { NameNotEmpty(f); }
    if f.srctail != [] && f.srctail[0] == '\t' {
      StripBoth(f.srcname, []);
      assert f.srcname + [] == f.srcname;
    } else {
      StripBoth(f.srcname, f.srctail);
    }
  }

  lemma NameNotEmpty(f: FileText)
    requires ValidFile(f)
    ensures f.srcname != [] && ValidName(f.srcname, f.srctail)
  {
  }

  lemma ReadSourceName(f: FileText)
    requires ValidFile(f)
    ensures var m := MatchName(DASHES + (f.srcname + f.srctail));
            m.Some? && Strip(m.value) == f.srcname
  {
    hide ValidFile, Strip, MatchName, ValidName;
    NameNotEmpty(f);
    ReadName(DASHES, f.srcname, f.srctail);
    StripsToName(f);
  }

  // -------------------------------------------------------------------------
  // The states the parser goes through

  predicate Holds(st: State, source: seq<string>, target: seq<string>, hunks: seq<seq<Hunk>>) {
    st.source == source && st.target == target && st.hunks == hunks
  }

  lemma RunOne(st: State, line: string, rest: seq<string>)
    requires Inv(st) && Step(st, line).Running?
    ensures Inv(Step(st, line).st)
    ensures Run(st, [line] + rest) == Run(Step(st, line).st, rest)
  {
    hide Step, Inv;
    StepKeepsInv(st, line);
    assert ([line] + rest)[0] == line && ([line] + rest)[1..] == rest;
  }

  lemma NotAHeader(line: string)
    requires DASHES <= line || BodyLine(line)
    ensures MatchHeader(line).None?
  {
    assert line[0] != AT[0];
  }

  lemma {:induction false} PreambleRun(st: State, lines: seq<string>)
    requires Inv(st) && st.header && forall i :: 0 <= i < |lines| ==> !(DASHES <= lines[i])
    ensures Run(st, lines) == Running(st)
  {
    if lines != [] {
      assert Step(st, lines[0]) == Running(st);
      PreambleRun(st, lines[1..]);
    }
  }

  lemma {:induction false} QuietRun(st: State, lines: seq<string>)
    requires Inv(st) && (st.hunkskip || st.header) && AllQuiet(lines)
    ensures Run(st, lines) == Running(st)
  {
    hide MatchHeader;
    if lines != [] {
      assert Quiet(lines[0]);
      assert Step(st, lines[0]) == Running(st);
      QuietRun(st, lines[1..]);
    }
  }

  lemma NamesRun(st: State, f: FileText)
    requires Inv(st) && (st.header || st.hunkskip || st.filenames) && ValidFile(f)
    ensures var r := Run(st, PrintNames(f));
            r.Running? && r.st.hunkhead && r.st.nextfileno == st.nextfileno + 1 &&
            Holds(r.st, st.source + [f.srcname], st.target + [TargetName(f)], st.hunks + [[]])
  {
    hide MatchHeader, MatchName, Strip, ValidName, ValidHunk;
    var l1, l2 := DASHES + (f.srcname + f.srctail), PLUSES + (f.tgtname + f.tgttail);
    assert DASHES <= l1 && PLUSES <= l2;
    assert !(DASHES <= l2) by { assert l2[0] == '+'; }
    NotAHeader(l1);
    ReadSourceName(f);
    ReadName(PLUSES, f.tgtname, f.tgttail);
    var s1 := Step(st, l1).st;
    assert s1.filenames && Holds(s1, st.source + [f.srcname], st.target, st.hunks);
    RunOne(st, l1, [l2]);
    RunOne(s1, l2, []);
    assert [l1] + [l2] == [l1, l2] && [l2] + [] == [l2];
  }

  /** Lines in place of the first hunk send the parser back to looking for a file. */
  lemma NotesRun(st: State, notes: seq<string>)
    requires Inv(st) && st.hunkhead && AllQuiet(notes)
    ensures var r := Run(st, notes);
            r.Running? && Inv(r.st) && r.st.nextfileno == st.nextfileno &&
            (if notes == [] then r.st.hunkhead else r.st.header) && Holds(r.st, st.source, st.target, st.hunks)
  {
    hide MatchHeader, OneRegion, StoredWellFormed, BodyCounts;
    if notes == [] {
      RunNil(st);
    } else {
      assert Quiet(notes[0]) && [notes[0]] + notes[1..] == notes;
      NoteStep(st, notes[0]);
      RunOne(st, notes[0], notes[1..]);
      assert forall i :: 0 <= i < |notes[1..]| ==> notes[1..][i] == notes[i + 1];
      QuietRun(Step(st, notes[0]).st, notes[1..]);
    }
  }

  lemma NoteStep(st: State, line: string)
    requires Inv(st) && st.hunkhead && Quiet(line)
    ensures Step(st, line) == Running(st.(hunkhead := false, header := true))
  {
    hide MatchHeader;
  }

  lemma HeaderStep(st: State, t: HunkText)
    requires Inv(st) && (st.hunkhead || st.hunkskip) && ValidHeader(t)
    ensures var r := Step(st, PrintHeader(t));
            r.Running? && r.st.hunkbody && r.st.nextfileno == st.nextfileno &&
            r.st.info == t.hunk.(text := []) && Holds(r.st, st.source, st.target, st.hunks)
  {
    hide MatchHeader, PrintHeader, ValidHeader;
    ReadHeader(t);
  }

  lemma {:induction false} OldConcat(a: seq<string>, b: seq<string>)
    ensures OldLines(a + b) == OldLines(a) + OldLines(b)
  {
    hide IsOld;
    if a == [] {
      assert a + b == b;
    } else {
      assert (a + b)[0] == a[0] && (a + b)[1..] == a[1..] + b;
      OldConcat(a[1..], b);
    }
  }

  lemma {:induction false} NewConcat(a: seq<string>, b: seq<string>)
    ensures NewLines(a + b) == NewLines(a) + NewLines(b)
  {
    hide IsNew;
    if a == [] {
      assert a + b == b;
    } else {
      assert (a + b)[0] == a[0] && (a + b)[1..] == a[1..] + b;
      NewConcat(a[1..], b);
    }
  }

  lemma SidesConcat(a: seq<string>, b: seq<string>)
    ensures OldLines(a + b) == OldLines(a) + OldLines(b)
    ensures NewLines(a + b) == NewLines(a) + NewLines(b)
  {
    OldConcat(a, b);
    NewConcat(a, b);
  }

  /** As long as lines are missing the counters are not both at the declared values. */
  lemma PrefixIncomplete(text: seq<string>, k: nat)
    requires BodyLines(text) && k <= |text| && text != [] && !IsSlash(text[|text| - 1])
    ensures |OldLines(text[..k])| <= |OldLines(text)| && |NewLines(text[..k])| <= |NewLines(text)|
    ensures k < |text| ==>
            |OldLines(text[..k])| < |OldLines(text)| || |NewLines(text[..k])| < |NewLines(text)|
  {
    hide OldLines, NewLines;
    assert text == text[..k] + text[k..];
    SidesConcat(text[..k], text[k..]);
    if k < |text| {
      var last := text[|text| - 1];
      assert BodyLine(last);
      assert text[k..] == text[k..|text| - 1] + [last];
      SidesConcat(text[k..|text| - 1], [last]);
      OneLineSides(last);
    }
  }

  lemma OneLineSides(l: string)
    ensures |OldLines([l])| == (if IsOld(l) then 1 else 0) && |NewLines([l])| == (if IsNew(l) then 1 else 0)
  {
    assert [l][1..] == [];
  }

  /** The region after the last line of a body, and the source names then. */
  predicate Landed(st: State, source: seq<string>, last: string) {
    if !(DASHES <= last) then st.hunkskip && st.source == source
    else match MatchName(last)
      case None => st.header && st.source == source
      case Some(name) => st.filenames && st.source == source + [Strip(name)]
  }

  /** The body region takes the line, and stores the hunk after the last one. */
  lemma BodyTurn(st: State, h: Hunk, k: nat)
    requires Inv(st) && st.hunkbody && ValidBody(h) && k < |h.text| && st.info == h.(text := h.text[..k])
    ensures var line := h.text[k];
            BodyLine(line) && 0 < st.nextfileno == |st.hunks| == |st.hunkends| &&
            StageBody(st, line) ==
            Running(if k + 1 < |h.text| then TakeLine(st, line) else StoreHunk(TakeLine(st, line)))
  {
    hide OldLines, NewLines, AllWellFormed;
    var line := h.text[k];
    var text := h.text[..k] + [line];
    assert text == h.text[..k + 1];
    assert BodyLine(line);
    TextGrows(h.text[..k], line);
    PrefixIncomplete(h.text, k + 1);
    assert k + 1 == |h.text| ==> text == h.text;
  }

  /** Inside a body the later regions do nothing. */
  lemma BodyGoesOn(st: State, line: string)
    requires OneRegion(st) && st.hunkbody
    ensures StageHeader(st, line) == st && StageNames(StageSkip(st, line), line) == (st, false)
    ensures StageHead(st, line) == st
  {
  }

  /** After the last line of a body the same line is looked at again. */
  lemma BodyIsOver(st: State, line: string)
    requires OneRegion(st) && st.hunkskip && MatchHeader(line).None?
    ensures var (after, done) := StageNames(StageSkip(st, line), line);
            && !done && StageHead(after, line) == after && Landed(after, st.source, line)
            && after.nextfileno == st.nextfileno && after.target == st.target && after.hunks == st.hunks
  {
    hide MatchHeader, MatchName, Strip;
  }

  /** A line of a body that is not the last one, with `k` lines of it read before. */
  lemma BodyStepInside(st: State, h: Hunk, k: nat)
    requires Inv(st) && st.hunkbody && ValidBody(h) && k + 1 < |h.text| && st.info == h.(text := h.text[..k])
    ensures Step(st, h.text[k]) == Running(TakeLine(st, h.text[k]))
    ensures TakeLine(st, h.text[k]).info == h.(text := h.text[..k + 1])
  {
    hide StageHeader, StageBody, StageSkip, StageNames, StageHead, ValidBody, BodyCounts, StoredWellFormed, MatchHeader;
    var line := h.text[k];
    BodyTurn(st, h, k);
    BodyGoesOn(st, line);
    assert h.text[..k] + [line] == h.text[..k + 1];
    BodyGoesOn(TakeLine(st, line), line);
  }

  /** The last line of a body. */
  lemma BodyStepLast(st: State, h: Hunk, k: nat)
    requires Inv(st) && st.hunkbody && ValidBody(h) && k + 1 == |h.text| && st.info == h.(text := h.text[..k])
    ensures var r, f := Step(st, h.text[k]), st.nextfileno - 1;
            r.Running? && r.st.nextfileno == st.nextfileno && 0 <= f < |st.hunks| &&
            Landed(r.st, st.source, LastLine(h)) &&
            Holds(r.st, r.st.source, st.target, st.hunks[f := st.hunks[f] + [h]])
  {
    hide StageHeader, StageBody, StageSkip, StageNames, StageHead, Landed, ValidBody, BodyCounts, StoredWellFormed,
         MatchHeader;
    var line := h.text[k];
    BodyTurn(st, h, k);
    BodyGoesOn(st, line);
    assert h.text[..k] + [line] == h.text;
    NotAHeader(line);
    BodyIsOver(StoreHunk(TakeLine(st, line)), line);
  }

  /** One line of a body. */
  lemma BodyStep(st: State, h: Hunk, k: nat)
    requires Inv(st) && st.hunkbody && ValidBody(h) && k < |h.text| && st.info == h.(text := h.text[..k])
    ensures var r := Step(st, h.text[k]);
            var f := st.nextfileno - 1;
            r.Running? && r.st.nextfileno == st.nextfileno && 0 <= f < |st.hunks| &&
            if k + 1 < |h.text| then
              r.st.hunkbody && r.st.info == h.(text := h.text[..k + 1]) && Holds(r.st, st.source, st.target, st.hunks)
            else
              Landed(r.st, st.source, LastLine(h)) &&
              Holds(r.st, r.st.source, st.target, st.hunks[f := st.hunks[f] + [h]])
  {
    hide Step, Landed, ValidBody, BodyCounts, StoredWellFormed;
    if k + 1 < |h.text| {
      BodyStepInside(st, h, k);
    } else {
      BodyStepLast(st, h, k);
    }
  }

  lemma {:induction false} BodyRun(st: State, h: Hunk, k: nat)
    requires Inv(st) && st.hunkbody && ValidBody(h) && k < |h.text| && st.info == h.(text := h.text[..k])
    ensures var r := Run(st, h.text[k..]);
            var f := st.nextfileno - 1;
            r.Running? && Landed(r.st, st.source, LastLine(h)) &&
            r.st.nextfileno == st.nextfileno && 0 <= f < |st.hunks| &&
            Holds(r.st, r.st.source, st.target, st.hunks[f := st.hunks[f] + [h]])
    decreases |h.text| - k
  {
    hide Step, ValidBody, Landed, OneRegion, StoredWellFormed, BodyCounts;
    BodyStep(st, h, k);
    assert h.text[k..] == [h.text[k]] + h.text[k + 1..];
    RunOne(st, h.text[k], h.text[k + 1..]);
    if k + 1 < |h.text| {
      BodyRun(Step(st, h.text[k]).st, h, k + 1);
    }
  }

  lemma HunkRun(st: State, t: HunkText)
    requires Inv(st) && (st.hunkhead || st.hunkskip) && ValidHunk(t) && (Tame(t) || Nameless(t))
    ensures var r := Run(st, PrintHunk(t));
            var f := st.nextfileno - 1;
            r.Running? && Inv(r.st) && (if Tame(t) then r.st.hunkskip else r.st.header) &&
            r.st.nextfileno == st.nextfileno && 0 <= f < |st.hunks| &&
            Holds(r.st, st.source, st.target, st.hunks[f := st.hunks[f] + [t.hunk]])
  {
    hide Step, PrintHeader, ValidHeader, OneRegion, StoredWellFormed, BodyCounts, Run;
    var h := t.hunk;
    HeaderStep(st, t);
    var s1 := Step(st, PrintHeader(t)).st;
    assert PrintHunk(t) == [PrintHeader(t)] + (h.text + t.quiet);
    RunOne(st, PrintHeader(t), h.text + t.quiet);
    assert h.text[..0] == [] && h.text[0..] == h.text;
    BodyRun(s1, h, 0);
    RunConcat(s1, h.text, t.quiet);
    QuietRun(Run(s1, h.text).st, t.quiet);
  }

  lemma {:induction false} HunksRun(st: State, ts: seq<HunkText>)
    requires Inv(st) && (st.hunkhead || st.hunkskip) && ValidHunks(ts) && CleanHunks(ts)
    ensures var r := Run(st, PrintHunks(ts));
            var f := st.nextfileno - 1;
            r.Running? && Inv(r.st) &&
            (if ts == [] then r.st == st else if Tame(ts[|ts| - 1]) then r.st.hunkskip else r.st.header) &&
            r.st.nextfileno == st.nextfileno && 0 <= f < |st.hunks| &&
            Holds(r.st, st.source, st.target, st.hunks[f := st.hunks[f] + Plain(ts)])
    decreases |ts|
  {
    hide PrintHunk, ValidHunk, Tame, Nameless, OneRegion, StoredWellFormed, BodyCounts, Run;
    var f := st.nextfileno - 1;
    if ts == [] {
      RunNil(st);
      assert st.hunks[f] + Plain(ts) == st.hunks[f];
    } else {
      HunkRun(st, ts[0]);
      var s1 := Run(st, PrintHunk(ts[0])).st;
      RunConcat(st, PrintHunk(ts[0]), PrintHunks(ts[1..]));
      assert forall i :: 0 <= i < |ts[1..]| ==> ts[1..][i] == ts[i + 1];
      assert Plain(ts) == [ts[0].hunk] + Plain(ts[1..]);
      if ts[1..] == [] {
        RunNil(s1);
        assert Plain(ts) == [ts[0].hunk];
      } else {
        HunksRun(s1, ts[1..]);
        assert (st.hunks[f] + [ts[0].hunk]) + Plain(ts[1..]) == st.hunks[f] + Plain(ts);
      }
    }
  }

  lemma RunNil(st: State)
    requires Inv(st)
    ensures Run(st, []) == Running(st)
  {
  }

  lemma FileRun(st: State, f: FileText)
    requires Inv(st) && (st.header || st.hunkskip) && ValidFile(f) && CleanFile(f)
    ensures var r := Run(st, PrintFile(f));
            r.Running? && Inv(r.st) && (if EndsWell(f) then r.st.hunkskip else r.st.header) &&
            Holds(r.st, st.source + [f.srcname], st.target + [TargetName(f)], st.hunks + [Plain(f.hunks)])
  {
    hide PrintHunks, PrintNames, ValidHunk, ValidName, Tame, CleanHunks, OneRegion, StoredWellFormed, BodyCounts, Run, Plain;
    NamesRun(st, f);
    RunKeepsInv(st, PrintNames(f));
    var s1 := Run(st, PrintNames(f)).st;
    RunConcat(st, PrintNames(f), f.notes + PrintHunks(f.hunks));
    RunConcat(s1, f.notes, PrintHunks(f.hunks));
    NotesRun(s1, f.notes);
    var s2 := Run(s1, f.notes).st;
    if f.hunks == [] {
      assert PrintHunks(f.hunks) == [] && Plain(f.hunks) == [] by { NothingPrinted(f.hunks); }
      RunNil(s2);
    } else {
      HunksRun(s2, f.hunks);
      assert [] + Plain(f.hunks) == Plain(f.hunks);
      assert (st.hunks + [[]])[|st.hunks| := [] + Plain(f.hunks)] == st.hunks + [Plain(f.hunks)];
    }
  }

  lemma NothingPrinted(ts: seq<HunkText>)
    requires ts == []
    ensures PrintHunks(ts) == [] && Plain(ts) == []
  {
  }

  lemma CleanRest(fs: seq<FileText>)
    requires fs != [] && ValidFiles(fs)
    ensures ValidFiles(fs[1..])
    ensures if fs[1..] == [] then Clean(fs) <==> CleanFile(fs[0]) && EndsWell(fs[0])
            else Clean(fs) <==> CleanFile(fs[0]) && Clean(fs[1..])
  {
    hide CleanFile, EndsWell;
    assert forall i :: 0 <= i < |fs[1..]| ==> fs[1..][i] == fs[i + 1];
    if fs[1..] != [] && CleanFile(fs[0]) && Clean(fs[1..]) {
      forall i | 0 <= i < |fs|
        ensures CleanFile(fs[i])
      {
        assert i > 0 ==> fs[i] == fs[1..][i - 1];
      }
    }
  }

  lemma RowsUnfold(fs: seq<FileText>)
    requires fs != []
    ensures SourceNames(fs) == [fs[0].srcname] + SourceNames(fs[1..])
    ensures TargetNames(fs) == [TargetName(fs[0])] + TargetNames(fs[1..])
    ensures AllHunks(fs) == [Plain(fs[0].hunks)] + AllHunks(fs[1..])
  {
  }

  lemma {:induction false} FilesRun(st: State, fs: seq<FileText>)
    requires Inv(st) && (st.header || st.hunkskip) && ValidFiles(fs) && Clean(fs)
    ensures var r := Run(st, PrintFiles(fs));
            r.Running? && (if fs == [] then r.st == st else r.st.hunkskip) &&
            Holds(r.st, st.source + SourceNames(fs), st.target + TargetNames(fs), st.hunks + AllHunks(fs))
    decreases |fs|
  {
    hide PrintFile, ValidFile, CleanFile, Clean, EndsWell, Inv, Run, SourceNames, TargetNames, AllHunks;
    if fs == [] {
      RunNil(st);
      assert SourceNames(fs) == [] && TargetNames(fs) == [] && AllHunks(fs) == [];
    } else {
      CleanRest(fs);
      FileRun(st, fs[0]);
      var s1 := Run(st, PrintFile(fs[0])).st;
      RunConcat(st, PrintFile(fs[0]), PrintFiles(fs[1..]));
      RowsUnfold(fs);
      if fs[1..] == [] {
        RunNil(s1);
        assert SourceNames(fs[1..]) == [] && TargetNames(fs[1..]) == [] && AllHunks(fs[1..]) == [];
      } else {
        FilesRun(s1, fs[1..]);
      }
    }
  }
}
