/** Exactly which printed patches the parser reads back. */
module RoundTrip {
  import opened Hunks
  import opened Parser
  import opened Printer

  // -------------------------------------------------------------------------
  // What a run has gathered: names, rows and hunks

  /** How many hunks have been stored. */
  function Filled(rows: seq<seq<Hunk>>): nat {
    if rows == [] then 0 else Filled(rows[..|rows| - 1]) + |rows[|rows| - 1]|
  }

  lemma FilledEmptyRow(rows: seq<seq<Hunk>>, row: seq<Hunk>)
    ensures Filled(rows + [row]) == Filled(rows) + |row|
  {
    assert (rows + [row])[..|rows|] == rows;
  }

  lemma FilledOneMore(rows: seq<seq<Hunk>>, h: Hunk)
    requires rows != []
    ensures var f := |rows| - 1; Filled(rows[f := rows[f] + [h]]) == Filled(rows) + 1
  {
    var f := |rows| - 1;
    assert rows[f := rows[f] + [h]][..f] == rows[..f];
  }

  /** Outside a body. */
  predicate AtRest(st: State) {
    Inv(st) && !st.hunkbody
  }

  /** As many hunks as before, and no fewer names. */
  predicate OnlyNames(st: State, st': State) {
    AtRest(st') && Filled(st'.hunks) == Filled(st.hunks) && |st'.source| >= |st.source|
  }

  lemma RestStep(st: State, line: string)
    requires AtRest(st) && MatchHeader(line).None?
    ensures Step(st, line).Running? && OnlyNames(st, Step(st, line).st)
  {
    hide MatchHeader, MatchName, Strip, StoredWellFormed, BodyCounts, Filled;
    StepKeepsInv(st, line);
    FilledEmptyRow(st.hunks, []);
  }

  /** Lines that are no hunk headers never lead into a body. */
  lemma {:induction false} RestRun(st: State, lines: seq<string>)
    requires AtRest(st) && forall i :: 0 <= i < |lines| ==> MatchHeader(lines[i]).None?
    ensures Run(st, lines).Running? && OnlyNames(st, Run(st, lines).st)
    decreases |lines|
  {
    hide MatchHeader, Step, Inv, Filled;
    if lines != [] {
      RestStep(st, lines[0]);
      RestRun(Step(st, lines[0]).st, lines[1..]);
    }
  }

  // -------------------------------------------------------------------------
  // One hunk

  /** The hunk ends like a source name and is followed by a target name: the two can be read as a file. */
  predicate Ambiguous(t: HunkText) {
    !Tame(t) && !Nameless(t) && t.quiet != [] && PLUSES <= t.quiet[0]
  }

  /** A printed hunk where the parser looks for no hunk: its header is passed over, and so is its body. */
  lemma HunkIgnored(st: State, t: HunkText)
    requires AtRest(st) && !st.hunkhead && !st.hunkskip && ValidHunk(t)
    ensures Run(st, PrintHunk(t)).Running? && OnlyNames(st, Run(st, PrintHunk(t)).st)
  {
    hide PrintHeader, ValidHeader, MatchHeader, Run, Inv, AllWellFormed;
    var line, rest := PrintHeader(t), t.hunk.text + t.quiet;
    assert PrintHunk(t) == [line] + rest;
    assert Inv(st) && (st.header || st.filenames) by { NotInAHunk(st); }
    HeaderIgnored(st, t);
    RunOne(st, line, rest);
    forall i | 0 <= i < |rest|
      ensures MatchHeader(rest[i]).None?
    {
      if i < |t.hunk.text| {
        assert rest[i] == t.hunk.text[i] && BodyLine(t.hunk.text[i]);
        NotAHeader(rest[i]);
      } else {
        assert rest[i] == t.quiet[i - |t.hunk.text|] && Quiet(t.quiet[i - |t.hunk.text|]);
      }
    }
    RestRun(Step(st, line).st, rest);
  }

  lemma NotInAHunk(st: State)
    requires AtRest(st) && !st.hunkhead && !st.hunkskip
    ensures st.header || st.filenames
  {
  }

  lemma HeaderIgnored(st: State, t: HunkText)
    requires AtRest(st) && (st.header || st.filenames)
    ensures Step(st, PrintHeader(t)).Running? && OnlyNames(st, Step(st, PrintHeader(t)).st)
  {
    var line := PrintHeader(t);
    assert line[0] == '@';
    hide MatchHeader, MatchName, Strip, StoredWellFormed, BodyCounts, PrintHeader;
    StepKeepsInv(st, line);
  }

  /** After the last line of a body, from where that line has led. */
  predicate AfterBody(st: State, st': State, t: HunkText) {
    && AtRest(st') && |st'.source| >= |st.source| && Filled(st'.hunks) == Filled(st.hunks) + 1
    && (Tame(t) ==> st'.hunkskip) && (Nameless(t) ==> st'.header)
    && (if Tame(t) || Nameless(t) then |st'.source| == |st.source| && |st'.hunks| == |st.hunks|
        else |st'.source| > |st.source| && (!Ambiguous(t) ==> |st'.hunks| == |st.hunks|))
  }

  /** Reading the header and the body of one hunk. */
  lemma ReadBody(st: State, t: HunkText)
    requires AtRest(st) && (st.hunkhead || st.hunkskip) && ValidHunk(t)
    ensures var r := Run(st, [PrintHeader(t)] + t.hunk.text);
            r.Running? && Inv(r.st) && Landed(r.st, st.source, LastLine(t.hunk)) &&
            |r.st.hunks| == |st.hunks| && Filled(r.st.hunks) == Filled(st.hunks) + 1
  {
    hide Run, Step, PrintHeader, ValidHeader, Landed, StoredWellFormed, BodyCounts, WellFormed, OneRegion, Filled;
    HeaderStep(st, t);
    StepKeepsInv(st, PrintHeader(t));
    var s1 := Step(st, PrintHeader(t)).st;
    RunOne(st, PrintHeader(t), t.hunk.text);
    assert t.hunk.text[..0] == [] && t.hunk.text[0..] == t.hunk.text;
    BodyRun(s1, t.hunk, 0);
    RunKeepsInv(s1, t.hunk.text);
    FilledOneMore(st.hunks, t.hunk);
  }

  /** The quiet lines after a hunk. */
  lemma QuietAfter(st: State, s: State, t: HunkText)
    requires AtRest(st) && Inv(s) && Landed(s, st.source, LastLine(t.hunk)) && AllQuiet(t.quiet)
    requires |s.hunks| == |st.hunks| && Filled(s.hunks) == Filled(st.hunks) + 1
    ensures Run(s, t.quiet).Running? && AfterBody(st, Run(s, t.quiet).st, t)
  {
    hide Run, MatchHeader, MatchName, Strip, StoredWellFormed, BodyCounts, Filled, LastLine;
    if Tame(t) || Nameless(t) {
      QuietRun(s, t.quiet);
    } else {
      assert s.filenames && |s.source| == |st.source| + 1;
      forall i | 0 <= i < |t.quiet|
        ensures MatchHeader(t.quiet[i]).None?
      {
        assert Quiet(t.quiet[i]);
      }
      RestRun(s, t.quiet);
      if t.quiet == [] {
        RunNil(s);
      } else if !Ambiguous(t) {
        NameWithoutTarget(s, t.quiet);
      }
    }
  }

  /** A source name that no target name follows adds no row. */
  lemma NameWithoutTarget(s: State, lines: seq<string>)
    requires Inv(s) && s.filenames && lines != [] && AllQuiet(lines) && !(PLUSES <= lines[0])
    ensures Run(s, lines) == Running(s.(filenames := false, header := true))
  {
    hide MatchHeader, StoredWellFormed, BodyCounts;
    var s1 := s.(filenames := false, header := true);
    assert Quiet(lines[0]);
    assert Step(s, lines[0]) == Running(s1);
    assert [lines[0]] + lines[1..] == lines;
    RunOne(s, lines[0], lines[1..]);
    assert forall i :: 0 <= i < |lines[1..]| ==> lines[1..][i] == lines[i + 1];
    QuietRun(s1, lines[1..]);
  }

  lemma HunkRead(st: State, t: HunkText)
    requires AtRest(st) && (st.hunkhead || st.hunkskip) && ValidHunk(t)
    ensures Run(st, PrintHunk(t)).Running? && AfterBody(st, Run(st, PrintHunk(t)).st, t)
  {
    hide Run, PrintHeader, Landed, Inv, Filled, AfterBody, ValidHeader, ValidBody;
    ReadBody(st, t);
    var lines := [PrintHeader(t)] + t.hunk.text;
    RunConcat(st, lines, t.quiet);
    QuietAfter(st, Run(st, lines).st, t);
  }

  // -------------------------------------------------------------------------
  // The hunks of a file: every one of them counts, or the count stays behind for good

  predicate NoneAmbiguous(ts: seq<HunkText>) {
    forall i :: 0 <= i < |ts| ==> !Ambiguous(ts[i])
  }

  /** What reading hunks leads to; if all are stored, surplus names give away the ones that are not clean. */
  predicate HunksLead(st: State, st': State, ts: seq<HunkText>) {
    && AtRest(st') && |st'.source| >= |st.source| && Filled(st'.hunks) <= Filled(st.hunks) + |ts|
    && (Filled(st'.hunks) == Filled(st.hunks) + |ts| ==>
        && (ts != [] ==> st.hunkhead || st.hunkskip)
        && (NoneAmbiguous(ts) ==> |st'.hunks| == |st.hunks|)
        && (|st'.source| == |st.source| ==>
            CleanHunks(ts) && |st'.hunks| == |st.hunks| && (ts != [] && st'.hunkskip ==> Tame(ts[|ts| - 1]))))
  }

  lemma CleanUnfold(ts: seq<HunkText>)
    requires ts != []
    ensures CleanHunks(ts) <==> if ts[1..] == [] then Tame(ts[0]) || Nameless(ts[0]) else Tame(ts[0]) && CleanHunks(ts[1..])
    ensures NoneAmbiguous(ts) <==> !Ambiguous(ts[0]) && NoneAmbiguous(ts[1..])
  {
    hide Tame, Nameless, Ambiguous;
    var rest := ts[1..];
    assert forall i :: 0 <= i < |rest| ==> rest[i] == ts[i + 1];
    assert forall i :: 0 < i < |ts| ==> ts[i] == rest[i - 1];
  }

  lemma {:induction false} HunksEffect(st: State, ts: seq<HunkText>)
    requires AtRest(st) && ValidHunks(ts)
    ensures Run(st, PrintHunks(ts)).Running? && HunksLead(st, Run(st, PrintHunks(ts)).st, ts)
    decreases |ts|
  {
    hide Run, PrintHunk, PrintHunks, ValidHunk, Inv, Filled, Tame, Nameless, Ambiguous, CleanHunks, NoneAmbiguous;
    if ts == [] {
      NothingPrinted(ts);
      RunNil(st);
      NothingUnclean(ts);
    } else {
      var t, rest := ts[0], ts[1..];
      assert ValidHunk(t) && ValidHunks(rest) by { ValidUnfold(ts); }
      HunksUnfold(ts);
      RunConcat(st, PrintHunk(t), PrintHunks(rest));
      if st.hunkhead || st.hunkskip {
        HunkRead(st, t);
      } else {
        HunkIgnored(st, t);
      }
      var s1 := Run(st, PrintHunk(t)).st;
      HunksEffect(s1, rest);
      if rest == [] {
        NothingPrinted(rest);
        RunNil(s1);
      }
      CleanUnfold(ts);
      LeadOn(st, s1, Run(s1, PrintHunks(rest)).st, ts);
    }
  }

  lemma NothingUnclean(ts: seq<HunkText>)
    requires ts == []
    ensures CleanHunks(ts) && NoneAmbiguous(ts)
  {
  }

  lemma ValidUnfold(ts: seq<HunkText>)
    requires ts != [] && ValidHunks(ts)
    ensures ValidHunk(ts[0]) && ValidHunks(ts[1..])
  {
    hide ValidHunk;
    assert forall i :: 0 <= i < |ts[1..]| ==> ts[1..][i] == ts[i + 1];
  }

  lemma HunksUnfold(ts: seq<HunkText>)
    requires ts != []
    ensures PrintHunks(ts) == PrintHunk(ts[0]) + PrintHunks(ts[1..])
  {
  }

  lemma LeadOn(st: State, s1: State, s2: State, ts: seq<HunkText>)
    requires ts != [] && HunksLead(s1, s2, ts[1..]) && (ts[1..] == [] ==> s1 == s2)
    requires if st.hunkhead || st.hunkskip then AfterBody(st, s1, ts[0]) else OnlyNames(st, s1)
    requires CleanHunks(ts) <==>
             if ts[1..] == [] then Tame(ts[0]) || Nameless(ts[0]) else Tame(ts[0]) && CleanHunks(ts[1..])
    requires NoneAmbiguous(ts) <==> !Ambiguous(ts[0]) && NoneAmbiguous(ts[1..])
    ensures HunksLead(st, s2, ts)
  {
    hide Filled, StoredWellFormed, BodyCounts, Tables, Tame, Nameless, Ambiguous, CleanHunks, NoneAmbiguous;
  }

  // -------------------------------------------------------------------------
  // Files

  function HunkCount(fs: seq<FileText>): nat {
    if fs == [] then 0 else |fs[0].hunks| + HunkCount(fs[1..])
  }

  predicate AllHaveHunks(fs: seq<FileText>) {
    forall i :: 0 <= i < |fs| ==> fs[i].hunks != []
  }

  predicate Unambiguous(fs: seq<FileText>) {
    forall i :: 0 <= i < |fs| ==> NoneAmbiguous(fs[i].hunks)
  }

  /** What reading a file leads to, if all its hunks are stored. Only a file without hunks can be missed altogether. */
  predicate FileLeads(st: State, st': State, f: FileText) {
    if st.hunkhead then f.hunks == [] && |st'.source| == |st.source| && |st'.hunks| == |st.hunks|
    else
      && |st'.source| > |st.source| && (NoneAmbiguous(f.hunks) ==> |st'.hunks| == |st.hunks| + 1)
      && (|st'.source| == |st.source| + 1 ==>
          && |st'.hunks| == |st.hunks| + 1 && CleanHunks(f.hunks)
          && (st'.hunkhead || CleanFile(f)) && (st'.hunkskip ==> EndsWell(f)))
  }

  /** Where a hunk is looked for, the header of a file is used up. */
  lemma NamesMissed(st: State, f: FileText)
    requires AtRest(st) && st.hunkhead && ValidFile(f)
    ensures Run(st, PrintNames(f)) == Running(st.(hunkhead := false, header := true))
  {
    hide MatchHeader, StoredWellFormed, BodyCounts, ValidFile;
    var l1, l2 := DASHES + (f.srcname + f.srctail), PLUSES + (f.tgtname + f.tgttail);
    var s1 := st.(hunkhead := false, header := true);
    assert DASHES <= l1;
    NotAHeader(l1);
    assert Step(st, l1) == Running(s1);
    StepKeepsInv(st, l1);
    assert !(DASHES <= l2) by { assert l2[0] == '+'; }
    assert Step(s1, l2) == Running(s1);
    RunOne(st, l1, [l2]);
    RunOne(s1, l2, []);
    RunNil(s1);
    assert [l1] + [l2] == PrintNames(f) && [l2] + [] == [l2];
  }

  lemma FileMissed(st: State, f: FileText)
    requires AtRest(st) && st.hunkhead && ValidFile(f)
    ensures var r := Run(st, PrintFile(f));
            r.Running? && AtRest(r.st) && Filled(r.st.hunks) <= Filled(st.hunks) + |f.hunks| &&
            |r.st.source| >= |st.source| && (Filled(r.st.hunks) == Filled(st.hunks) + |f.hunks| ==> FileLeads(st, r.st, f))
  {
    hide Run, PrintHunks, PrintNames, ValidHunk, ValidName, Filled, StoredWellFormed, BodyCounts, CleanHunks, NoneAmbiguous,
         Tame;
    NamesMissed(st, f);
    var s1 := st.(hunkhead := false, header := true);
    RunConcat(st, PrintNames(f), f.notes + PrintHunks(f.hunks));
    RunConcat(s1, f.notes, PrintHunks(f.hunks));
    QuietRun(s1, f.notes);
    HunksEffect(s1, f.hunks);
    if f.hunks == [] {
      NothingPrinted(f.hunks);
      RunNil(s1);
    }
  }

  lemma FileRead(st: State, f: FileText)
    requires AtRest(st) && !st.hunkhead && ValidFile(f)
    ensures var r := Run(st, PrintFile(f));
            r.Running? && AtRest(r.st) && Filled(r.st.hunks) <= Filled(st.hunks) + |f.hunks| &&
            |r.st.source| >= |st.source| && (Filled(r.st.hunks) == Filled(st.hunks) + |f.hunks| ==> FileLeads(st, r.st, f))
  {
    hide Run, PrintHunks, PrintNames, ValidHunk, ValidName, Filled, StoredWellFormed, BodyCounts, CleanHunks, NoneAmbiguous,
         Tame;
    NamesRun(st, f);
    RunKeepsInv(st, PrintNames(f));
    FilledEmptyRow(st.hunks, []);
    var s1 := Run(st, PrintNames(f)).st;
    RunConcat(st, PrintNames(f), f.notes + PrintHunks(f.hunks));
    RunConcat(s1, f.notes, PrintHunks(f.hunks));
    NotesRun(s1, f.notes);
    var s2 := Run(s1, f.notes).st;
    HunksEffect(s2, f.hunks);
    if f.hunks == [] {
      NothingPrinted(f.hunks);
      RunNil(s2);
      NothingUnclean(f.hunks);
    }
  }

  /**
    What reading files leads to. Never are more hunks stored than printed. If all are stored and
    there are as many names and rows as files, every file is clean, save that a last one without
    hunks may lack its line.
   */
  predicate FilesLead(st: State, st': State, fs: seq<FileText>) {
    && AtRest(st') && |st'.source| >= |st.source| && Filled(st'.hunks) <= Filled(st.hunks) + HunkCount(fs)
    && (Filled(st'.hunks) == Filled(st.hunks) + HunkCount(fs) ==>
        && (AllHaveHunks(fs) ==> |st'.source| >= |st.source| + |fs|)
        && (Unambiguous(fs) ==> |st'.hunks| <= |st.hunks| + |fs|)
        && (Unambiguous(fs) && |st'.hunks| == |st.hunks| + |fs| ==> |st'.source| >= |st.source| + |fs|)
        && (|st'.source| == |st.source| + |fs| && |st'.hunks| == |st.hunks| + |fs| && fs != [] ==>
            !st.hunkhead && (st'.hunkskip ==> Clean(fs))))
  }

  lemma FilesUnfold(fs: seq<FileText>)
    requires fs != []
    ensures PrintFiles(fs) == PrintFile(fs[0]) + PrintFiles(fs[1..])
  {
    hide PrintFile;
  }

  lemma HaveHunksUnfold(fs: seq<FileText>)
    requires fs != []
    ensures AllHaveHunks(fs) <==> fs[0].hunks != [] && AllHaveHunks(fs[1..])
  {
    assert forall i :: 0 <= i < |fs[1..]| ==> fs[1..][i] == fs[i + 1];
    assert forall i :: 0 < i < |fs| ==> fs[i] == fs[1..][i - 1];
  }

  lemma UnambiguousUnfold(fs: seq<FileText>)
    requires fs != []
    ensures Unambiguous(fs) <==> NoneAmbiguous(fs[0].hunks) && Unambiguous(fs[1..])
  {
    hide NoneAmbiguous;
    assert forall i :: 0 <= i < |fs[1..]| ==> fs[1..][i] == fs[i + 1];
    assert forall i :: 0 < i < |fs| ==> fs[i] == fs[1..][i - 1];
  }

  lemma {:induction false} FilesEffect(st: State, fs: seq<FileText>)
    requires AtRest(st) && ValidFiles(fs) && (AllHaveHunks(fs) || Unambiguous(fs))
    ensures Run(st, PrintFiles(fs)).Running? && FilesLead(st, Run(st, PrintFiles(fs)).st, fs)
    decreases |fs|
  {
    hide Run, PrintFile, PrintFiles, ValidFile, Inv, Filled, FileLeads, CleanFile, EndsWell, AllHaveHunks, Unambiguous,
         NoneAmbiguous, Clean;
    if fs == [] {
      NoFiles();
      RunNil(st);
    } else {
      var f, rest := fs[0], fs[1..];
      assert ValidFile(f);
      FilesUnfold(fs);
      HaveHunksUnfold(fs);
      UnambiguousUnfold(fs);
      CleanRest(fs);
      if st.hunkhead {
        FileMissed(st, f);
      } else {
        FileRead(st, f);
      }
      var s1 := Run(st, PrintFile(f)).st;
      RunConcat(st, PrintFile(f), PrintFiles(rest));
      FilesEffect(s1, rest);
      if rest == [] {
        NoFiles();
        RunNil(s1);
      }
      FilesOn(st, s1, Run(s1, PrintFiles(rest)).st, fs);
    }
  }

  lemma FilesOn(st: State, s1: State, s2: State, fs: seq<FileText>)
    requires fs != [] && FilesLead(s1, s2, fs[1..]) && AtRest(s1) && |s1.source| >= |st.source|
    requires Filled(s1.hunks) <= Filled(st.hunks) + |fs[0].hunks|
    requires Filled(s1.hunks) == Filled(st.hunks) + |fs[0].hunks| ==> FileLeads(st, s1, fs[0])
    requires AllHaveHunks(fs) || Unambiguous(fs)
    requires AllHaveHunks(fs) <==> fs[0].hunks != [] && AllHaveHunks(fs[1..])
    requires Unambiguous(fs) <==> NoneAmbiguous(fs[0].hunks) && Unambiguous(fs[1..])
    requires if fs[1..] == [] then s1 == s2 && (Clean(fs) <==> CleanFile(fs[0]) && EndsWell(fs[0]))
             else Clean(fs) <==> CleanFile(fs[0]) && Clean(fs[1..])
    ensures FilesLead(st, s2, fs)
  {
    hide Filled, CleanFile, EndsWell, AllHaveHunks, Unambiguous, NoneAmbiguous, Clean, CleanHunks, Tables, StoredWellFormed,
         BodyCounts;
    CountUnfold(fs);
    hide HunkCount;
    EndingWellIsClean(fs[0]);
  }

  lemma CountUnfold(fs: seq<FileText>)
    requires fs != []
    ensures HunkCount(fs) == |fs[0].hunks| + HunkCount(fs[1..])
  {
  }

  lemma EndingWellIsClean(f: FileText)
    ensures EndsWell(f) && CleanHunks(f.hunks) ==> CleanFile(f)
  {
  }

  lemma {:induction false} AllFilled(fs: seq<FileText>)
    ensures Filled(AllHunks(fs)) == HunkCount(fs)
    decreases |fs|
  {
    hide Plain;
    if fs == [] {
      assert AllHunks(fs) == [];
    } else {
      var rows := AllHunks(fs);
      AllFilled(fs[1..]);
      RowsUnfold(fs);
      FilledCons(Plain(fs[0].hunks), AllHunks(fs[1..]));
    }
  }

  lemma {:induction false} FilledCons(row: seq<Hunk>, rows: seq<seq<Hunk>>)
    ensures Filled([row] + rows) == |row| + Filled(rows)
    decreases |rows|
  {
    var all := [row] + rows;
    if rows == [] {
      assert all[..0] == [];
    } else {
      FilledCons(row, rows[..|rows| - 1]);
      assert all[..|all| - 1] == [row] + rows[..|rows| - 1];
    }
  }

  /**
    Parsing a printed patch gives back its names, headers and bodies exactly when the patch is
    clean; a file without hunks gets an empty row. A patch without a file, and one whose last
    file has no hunks or ends like a file header, is an error.
   */
  lemma ParseInvertsPrintExactly(preamble: seq<string>, fs: seq<FileText>)
    requires ValidFiles(fs) && forall i :: 0 <= i < |preamble| ==> !(DASHES <= preamble[i])
    requires AllHaveHunks(fs) || Unambiguous(fs)
    ensures Parse(preamble + PrintFiles(fs)) == Parsed(SourceNames(fs), TargetNames(fs), AllHunks(fs)) <==>
            fs != [] && Clean(fs)
  {
    hide PrintFiles, Run, ValidFiles, Clean, SourceNames, TargetNames, AllHunks, Filled, AllHaveHunks, Unambiguous;
    InitInv();
    PreambleRun(INIT, preamble);
    RunConcat(INIT, preamble, PrintFiles(fs));
    FilesEffect(INIT, fs);
    AllFilled(fs);
    assert Filled(INIT.hunks) == 0 by { NothingFilled(); }
    assert [] + SourceNames(fs) == SourceNames(fs) && [] + TargetNames(fs) == TargetNames(fs);
    assert [] + AllHunks(fs) == AllHunks(fs);
    if fs == [] {
      assert PrintFiles(fs) == [] by { NoFiles(); }
      RunNil(INIT);
    } else if Clean(fs) {
      FilesRun(INIT, fs);
    }
  }

  lemma NothingFilled()
    ensures Filled([]) == 0
  {
  }

  lemma NoFiles()
    ensures PrintFiles([]) == []
  {
  }
}
