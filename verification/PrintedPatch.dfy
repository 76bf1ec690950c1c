/** From the text of a patch to the contents of the files: the parser and `apply` together. */
module PrintedPatch {
  import opened Text
  import opened Hunks
  import opened PatchStream
  import opened Format
  import opened Parser
  import opened Printer
  import opened RoundTrip
  import Validator
  import Engine

  lemma PrintedHunksAreWellFormed(ts: seq<HunkText>)
    requires ValidHunks(ts)
    ensures AllWellFormed(Plain(ts)) && AllBodyLines(Plain(ts))
  {
    forall k | 0 <= k < |ts|
      ensures WellFormed(Plain(ts)[k])
    {
      assert ValidHunk(ts[k]);
    }
  }

  /** What `apply` does to one file on row `i` of a patch it has read. */
  function Applied(patch: Parser.Result, i: nat, file: seq<string>): Engine.Report
    requires patch.Parsed? && i < |patch.hunks| && AllBodyLines(patch.hunks[i])
  {
    Engine.Decide(file, patch.hunks[i])
  }

  /**
    Reading a printed patch and applying row `i` to a file rewrites it exactly when every hunk
    printed for that row passes, and what is written is the splice of those hunks. A file
    without hunks has an empty row, for which `apply` ends in an error.
   */
  lemma ReadAndApplied(preamble: seq<string>, fs: seq<FileText>, i: nat, file: seq<string>)
    requires ValidFiles(fs) && Clean(fs) && (AllHaveHunks(fs) || Unambiguous(fs))
    requires i < |fs| && Validator.Ordered(0, Plain(fs[i].hunks))
    requires forall k :: 0 <= k < |preamble| ==> !(DASHES <= preamble[k])
    ensures var r := Parse(preamble + PrintFiles(fs));
            r.Parsed? && i < |r.source| == |r.hunks| && r.source[i] == fs[i].srcname && AllBodyLines(r.hunks[i])
    ensures var report := Applied(Parse(preamble + PrintFiles(fs)), i, file);
            var hs := Plain(fs[i].hunks);
            && (report == Engine.IndexError <==> hs == [])
            && (report.Patched? <==> hs != [] && Engine.AllPass(file, hs))
            && (report.Patched? ==>
                Placed(|file|, 0, CanonicalAll(hs)) &&
                (Bare(report.contents) == Bare(Splice(file, CanonicalAll(hs))) <==> SlashesAtEnd(|file|, hs)))
  {
    hide Parse, PrintFiles, ValidFiles, Clean, Engine.Decide, Engine.AllPass, Splice, SlashesAtEnd, Bare, AllWellFormed,
         AllBodyLines, ValidHunks, AllHunks, SourceNames, TargetNames, Plain, AllHaveHunks, Unambiguous;
    var hs := Plain(fs[i].hunks);
    Row(fs, i);
    PrintedHunksAreWellFormed(fs[i].hunks);
    ParseInvertsPrintExactly(preamble, fs);
    Engine.ErrorIffNoHunks(file, hs);
    if hs != [] {
      Engine.PatchedIffAllPass(file, hs);
      if Engine.AllPass(file, hs) {
        Engine.ApplyWritesSplice(file, hs);
      }
    }
  }

  lemma Row(fs: seq<FileText>, i: nat)
    requires ValidFiles(fs) && i < |fs|
    ensures AllHunks(fs)[i] == Plain(fs[i].hunks) && SourceNames(fs)[i] == fs[i].srcname
    ensures ValidHunks(fs[i].hunks) && fs != []
  {
    assert ValidFile(fs[i]);
  }
}
