# Patches, crash reports, a popup and a registry

This project models five parts of the repository in Dafny and proves what they promise, on all
inputs, all runs or all reachable states. Code that updates state step by step is modelled as
methods on classes or as loops, each proved against a specification function; the theorems are
lemmas about those functions.

**The unified-diff engine** (`tools/patch_util.py`). A file is a sequence of lines that keep their
terminators.

- `Text`, `Hunks`: lines, line ends, hunks, their two sides, and the reference meaning of a patch
  (`Splice`, which replaces blocks from the bottom up).
- `PatchStream`, `Format`, `LineEnds`, `Spelling`, `Undo`: `patch_stream`, what it computes and how that
  compares with what the Diff -u format means, which terminators it writes, for files with one kind and
  for any mixture, and when the reversed hunks restore the source.
- `Validator`: the loop of `apply` that decides whether a file can be patched.
- `Recogniser`: `check_patched`.
- `Engine`: `apply` for one existing file, the three together.
- `Parser`, `PatchInfo`: `parse_stream`, first as a state machine over lines, then on objects with
  lists that are shared by shallow copies.
- `Printer`, `RoundTrip`, `Strays`, `PrintedPatch`: the text of a multi-file diff, exactly which texts the
  parser reads back, what lines that belong to no file do, and the way from the text of a patch to the
  contents of a file.

A hunk is placed by the rules of the format (POSIX.1-2017, `diff`, "Diff -u Output Format"): a range of
no lines starts after the line it names. `Format.Canonical` writes a hunk so, and `Format.Settled`
says where the copying loop of the tool really puts it.

**The crash writers** (`src/breakpad_linux.cc`). `Decimal` and `Numbers` hold the number printers,
`Records` the length-prefixed format, its reader and the chunking of long values, `MimeWriter` the
gather buffer of pointers into memory that its callers go on using, `Multipart` a reader for the
parts it writes, and `CrashReporterWriter` the writer built on it.

**The crash handshake** (`NonBrowserCrashHandler` there, and `src/crash_handler_host_linux.cc`).
`CrashHost` is what one message makes the receiver do; `Handshake` is the whole protocol, with any
number of crashing processes, the two threads of the browser, and processes that send messages of
their own making; `Service` is when every crashing process gets its dump and its answer.

**The autofill popup** (`src/browser/autofill_popup_controller_impl.cc`). `Popup` has the three
parallel lists and the selection, `PopupCursor` what the cursor keys do, `PopupGeometry` the row
rectangles, the search for a row, and the widths of the texts, and `PopupDrawing` where the view
(`src/browser/autofill_popup_view_views.cc`) then puts them.

**Slot and id tables**. `CrashKeys` is the dynamic crash-key table of `src/breakpad_win.cc`;
`ObjectRegistry` is the object registry of `src/api/object_manager.cc`, which
`src/api/dispatcher_host.cc` repeats without delayed destruction, and `ObjectFates` the life of one id in it.

## What turned out to be false, and when it holds

The code is modelled as it is. Where a promise fails, the exact condition is proved; the lemma named
after the semicolon, most of them in `Witnesses`, gives an input.

- A `\` line makes the patcher read a source line (lines 524-526), which then is lost. The output
  is the splice if and only if `\` lines stand where no unpatched source line follows
  (`PatchIsSplice`; `SlashLosesALine`).
- An insertion is put one line before the place its `-N,0` names, unless a hunk ends there. The output
  is the file the format means if and only if, besides, every such insertion consists of copies of
  the line it jumps over (`PatchIsFormatSplice`; `InsertionOneLineEarly`).
- Undoing a patch: a deletion that leaves no line is put back one line early, and of an insertion that
  jumped the line jumped over is removed and the first line stays. `UndoIffFits` says exactly when the
  source comes back (`DeletionPutBackEarly`; `WrongInsertionIsUndone`, where it comes back although
  the patch went wrong).
- Lines written before anything was read keep the terminators of the patch, because none was
  detected yet (`OutputKeepsTerminator`; `RawFirstLine`). A last line without a terminator gains one
  if and only if a hunk replaces it (`LastLineGainsTerminator`).
- The validator never compares the last source line of a hunk (lines 368 and 382), so a patch may
  be applied to a file it does not match. It can be undone if and only if those lines match
  (`ApplyUndoneIffLastLinesMatch`), and a hunk with one context line can be applied again and again
  (`OneLinePatchIsApplied`; `AppliedTwice`).
- A hunk that starts before the line at which it becomes the current one is never compared with the
  file (`BodyNotReadLater`, `NeverLookedAt`; `OverlapIsAccepted`). That `apply` rewrites a file if and
  only if all hunks pass therefore holds for ordered, disjoint hunks only.
- Once lines with two kinds of terminators have been read, lines are written as they stand in the patch
  (`PatchIsSpelled`, `MixedPatchIsSplice`; `MixedEndsAreKept`).
- On overlapping hunks the validator may also end in an error (`OverlapIsAnError`); on ordered, disjoint
  ones it does so only without hunks (`ErrorIffNoHunks`).
- A hunk without source lines never validates (`Passes` in `ValidatorExact`).
- The recogniser reads line 1 before it starts, so hunks at target line 1 are looked for one line
  late (`RecognisedAfterPatch`; `LineOneNotRecognised`).
- A hunk body whose last line starts like a file header is also taken for one (lines 188-214), and
  the end of such a patch is an error through the unknown name `filename` (line 307). The printed
  patches that are read back are characterised by `ParseInvertsPrintExactly` (`RemovedDashesRefused`).
  Target names are not stripped (line 260), source names are (line 231).
- A file without hunks gets an empty row, if a line that is no hunk header follows its names; without one,
  the names of the next file are used up (`ParseInvertsPrintExactly`, `PropertiesThenHunk`; `SecondFileLost`).
  A source name without a target stays in the list of names (`StrayNameStays`).
- Row `i` of the hunks stands under source name `i` for all `i`, as `apply` takes for granted, if and only if
  there are as many source names as targets (`RowsLineUp`).
- Setting `["invalid"]` on a hunk (lines 174 and 184) raises a `TypeError`, so a malformed body ends
  the parse (`StepRaisesExactly`, `RunRaisesExactly`); the "skipping invalid hunk" mode the comments
  speak of is never entered that way. The tests `nextfileno in self.source` compare a number with
  strings and never hold, and `nextfileno-1 not in self.hunks` always holds.
- A dump added with `AddItem` to the file of records is read as records if and only if it happens to be
  some (`DecodeWithTail`, `WriteDump`).
- The parts of a multipart body are read back if and only if no name and no data looks as if it ended
  early (`PartsAreReadBackExactly`; `DelimiterInValue`).
- A dump is requested only for a message with pairs of descriptors, credentials, an inode and a holder
  (`DumpIsRequestedExactly`); if that is so for every crashing process and every byte is delivered, all are
  served (`EveryCrasherIsServed`). A crashing process whose message fails reads end-of-file.
- Two headers with descriptors in one message make the receiver forget the first pair;
  `HandlerAccountsExactly` says exactly which messages are fully accounted for (`FirstPairForgotten`).
- Clearing the datalist and filling it again may remove a separator that filling alone would keep
  (`LastUpdateWins`; `SeparatorCleared`). An update does not move the selection;
  `UpdateKeepsSelection` says exactly when it stays proper, `SelectionNamesTheSameRow` when it stays on the
  same row, and `KeysRepairSelection` how a key repairs it (`UpdateMayLeaveASeparatorSelected`).
- The popup is measured with every value in the plain font, so bold titles and italic warnings may be cut
  (`ElisionIsRight`, `DesiredWidthLeavesWhole`; `BoldTitleIsCut`).
- `ClearCrashKeyValueImpl` looks up the key before truncation, so it only undoes a set of a key that
  needed none (`ClearUndoesSetExactly`; `ClearDoesNothing`).
- An object id that is used twice can cost a manager its object (`CreateIsDisjointExactly`;
  `ReuseLosesAnObject`).

## Model

| member | source | states |
|---|---|---|
| PatchStream.SourceReader.GetLine | tools/patch_util.py:499-512 | One call reads the next line, or the empty string at the end, and adds its terminator to the statistics. |
| PatchStream.SkipTo | tools/patch_util.py:518-520 | Copies the source from where the reader stands up to the line before the hunk, and nothing if it is past it. |
| PatchStream.PatchBody | tools/patch_util.py:522-538 | Writes exactly the new side of a body, in the terminator detected so far, and leaves the reader one line further for every line that is not a `+` line. |
| PatchStream.Patch | tools/patch_util.py:483-541 | The streaming loop writes exactly the stream that `PatchIsSplice` and the lemmas below are about. |
| PatchStream.StreamAgainstFrom | tools/patch_util.py:515-541 | Started any number of lines ahead, the stream never has more lines than the reference, and has as many exactly when no read-ahead eats an unpatched line. |
| PatchStream.PatchIsSplice | tools/patch_util.py:515-541 | For ordered, disjoint, well-formed hunks, at the lines where the tool counts them, the output is the splice, terminators aside, if and only if `\` lines come last. |
| PatchStream.PatchLength | tools/patch_util.py:515-541 | The output is never longer than the source plus the sum of target minus source counts, and as long if and only if `\` lines come last. |
| Format.PatchIsSettledSplice | tools/patch_util.py:515-541 | For any list of hunks that stays inside the file, in order or not, the output is the splice at the places where the hunks settle if and only if `\` lines come last there. |
| Format.SettledAgainstFormat | tools/patch_util.py:518-538 | With the tool at most one line behind the format, what follows is the same file if and only if every insertion put one line early consists of copies of the line it jumps over. |
| Format.PatchIsFormatSplice | tools/patch_util.py:515-541 | The output is the file the format means if and only if `\` lines come last, seen from where the hunks settle, and every insertion put one line early consists of copies of the line it jumps over. |
| Format.SourceLinesDoNotJump | tools/patch_util.py:518-520 | Hunks with a source line are never put early. |
| Witnesses.SlashLosesALine | tools/patch_util.py:524-526 | `apply` accepts a patch whose `\` line then costs a three-line file its last line. |
| Witnesses.InsertionOneLineEarly | tools/patch_util.py:518-536 | `-1,0` puts a line before line 1 where the format means after it. |
| LineEnds.OutputKeepsTerminator | tools/patch_util.py:498-538 | For any source with at most one kind of terminator, also an empty one or one whose last line has none, the output has only that terminator if and only if the lines written before it was detected have it and no last line without one is copied. |
| LineEnds.LastLineGainsTerminator | tools/patch_util.py:498-538 | A last line without a terminator gains one if and only if a hunk replaces it. |
| LineEnds.PatchIsSpliceExactly | tools/patch_util.py:515-541 | Line by line, the output is the file the format means, every line ended by the terminator of the source, save a last line that has none and that no hunk replaces. |
| Witnesses.RawFirstLine | tools/patch_util.py:529-536 | A file with CR LF line ends gets a line that ends in LF when the patch writes before it reads. |
| Spelling.ConvertIsSpelled | tools/patch_util.py:499-538 | What is written for a hunk line depends on the lines read alone: its text with their terminator if they have one kind, the line as it stands in the patch if they have none or more. |
| Spelling.MixedIsVerbatim | tools/patch_util.py:534-538 | After lines ended by two different terminators a hunk line is written character for character. |
| Spelling.OneKindIsUsed | tools/patch_util.py:534-536 | After lines ended by one kind of terminator a hunk line is its text with that terminator. |
| Spelling.PatchIsSpelled | tools/patch_util.py:498-541 | For a file with any terminators whatever, the output byte by byte, if every `\` line comes when the file has been read to its end. |
| Spelling.MixedPatchIsSplice | tools/patch_util.py:498-541 | If two kinds of terminators come before the first hunk, the output is the splice character for character if and only if `\` lines come last. |
| Witnesses.MixedEndsAreKept | tools/patch_util.py:534-538 | A file with LF and CR LF keeps both, and the added line is written as it stands in the patch. |
| Undo.FromReversed | tools/patch_util.py:515-541 | The reversed hunks, applied at their target positions, overwrite every block of the source with the old side of its hunk. |
| Undo.ReferenceUndo | tools/patch_util.py:515-541 | On the reference, undoing a patch gives the source back if and only if every hunk matched it. |
| Undo.UnpatchFrom | tools/patch_util.py:515-541 | Whatever the tool wrote, in step with the source, with a line held back, or with a line jumped over: undoing it gives the rest of the source if and only if every remaining hunk fits. |
| Undo.UndoIffFits | tools/patch_util.py:483-541 | Patching and then patching with the reversed hunks gives the source back, terminators aside, if and only if `\` lines come last on the way back too and every hunk fits: a deletion put back early finds its lines one line up, and an insertion that jumped begins with the line it jumped over. |
| Undo.UndoIffMatches | tools/patch_util.py:483-541 | If every hunk leaves a line, that is if and only if every hunk matched the source and every insertion that jumped over a line begins with a copy of it. |
| Undo.FittingJumpsBeginRight | tools/patch_util.py:518-536 | Insertions that the tool puts right are no obstacle to undoing them. |
| Undo.RestoredMeansSlashesLast | tools/patch_util.py:524-526 | A source that comes back was patched with hunks whose `\` lines come last: a line lost on the way is never regained. |
| Undo.UndoExactly | tools/patch_util.py:483-541 | Byte for byte, for a source with one terminator on every line, the empty one included, if the patch wrote only that terminator: undone if and only if the same hunks fit and the lines the way back writes first have that terminator. |
| Witnesses.DeletionPutBackEarly | tools/patch_util.py:518-536 | A deletion numbered `-2,1 +1,0` is put back before line 1 instead of after it. |
| Witnesses.OneInsertionExactly | tools/patch_util.py:483-541 | A patch of one insertion is right if and only if all its lines, and undone if and only if its first line, equal the line it jumps over. |
| Witnesses.WrongInsertionIsUndone | tools/patch_util.py:483-541 | An insertion that went wrong is undone all the same. |
| Validator.Validate | tools/patch_util.py:348-396 | The loop over file and hunks ends with the decision of the specified run, or with an IndexError when there is no hunk. |
| Validator.StepSound | tools/patch_util.py:356-391 | Whatever line is looked at, whether the file will be accepted does not change: the state always knows which hunks have passed and how much of the current one has matched. |
| Validator.ValidatorExact | tools/patch_util.py:348-396 | For ordered, disjoint hunks the file is accepted if and only if it reaches the last source line of every hunk and has all its source lines but the last; a hunk without source lines is never accepted. |
| Validator.BodyNotReadLater | tools/patch_util.py:356-391 | For any list of hunks and any state of the loop: from a line on that lies below the start of a hunk, the body of that hunk has no say in the verdict. |
| Validator.NeverLookedAt | tools/patch_util.py:356-391 | So the verdict does not depend on the body of a hunk that starts no lower than the one before it, in any list. |
| Witnesses.OverlapIsAccepted | tools/patch_util.py:356-391 | Of two overlapping hunks the second does not match, and the file is accepted. |
| Witnesses.OverlapIsAnError | tools/patch_util.py:356-391 | On two other overlapping hunks the validator ends in an error. |
| Recogniser.MatchWholeFile | tools/patch_util.py:434-446 | The new-file test holds if and only if the file is exactly the new side, terminators aside. |
| Recogniser.MatchHunk | tools/patch_util.py:459-473 | One turn of the loop succeeds if and only if the new side stands at its target line, or where the reader already is if that is later. |
| Recogniser.CheckPatched | tools/patch_util.py:426-479 | The function returns true if and only if every new side is found in turn, or the new-file case applies. |
| Recogniser.RecogniserExact | tools/patch_util.py:451-479 | For hunks in target order below line 1 the recogniser accepts a file if and only if every new side is at its target line. |
| Recogniser.InPlaceIffJumpsFit | tools/patch_util.py:483-541 | What the tool wrote holds every new side at its target line if and only if every insertion put early fits. |
| Recogniser.RecognisedAfterPatch | tools/patch_util.py:426-541 | The recogniser accepts what the patcher wrote if and only if it is a new file, or every insertion put early fits and the lines of the hunks that start at target line 1, if any, repeat one line down. |
| Recogniser.RecognisedBelowLineOne | tools/patch_util.py:426-541 | The output of a patch whose first target line is 2 or more is recognised if and only if every insertion put early fits. |
| Witnesses.LineOneNotRecognised | tools/patch_util.py:451-473 | Replacing line 1 of a two-line file is not recognised afterwards. |
| Engine.ApplyToFile | tools/patch_util.py:348-416 | Validator, recogniser and patcher together report an error, write the stream, or print one of two messages, as decided by the file and the hunks. |
| Engine.PassingHunksArePlaced | tools/patch_util.py:348-391 | Ordered, disjoint hunks that all pass lie inside the file. |
| Engine.PatchedIffAllPass | tools/patch_util.py:348-416 | For ordered, disjoint hunks, `apply` rewrites a file if and only if every hunk passes. |
| Engine.PassingHunksAreInPlace | tools/patch_util.py:348-391 | Such hunks have a source line each, so they stand where the format has them and none is put early. |
| Engine.ErrorIffNoHunks | tools/patch_util.py:348-416 | With ordered, disjoint hunks `apply` ends in an error if and only if there is none. |
| Engine.ApplyWritesSplice | tools/patch_util.py:348-416 | For ordered, disjoint hunks, what `apply` writes is the file the format means, terminators aside, if and only if `\` lines come last; the hunks then lie inside the file. |
| Engine.ApplyWritesSettledSplice | tools/patch_util.py:348-416 | For any list of hunks that settles inside the file, what `apply` writes is the splice at the places where the hunks settle if and only if `\` lines come last there. |
| Engine.PassAndLastIsMatch | tools/patch_util.py:368-391 | A hunk that passes matches if and only if its last source line does, the one that is not compared. |
| Engine.ApplyUndoneIffFits | tools/patch_util.py:348-541 | After `apply` has rewritten a file with ordered, disjoint hunks, the reversed hunks restore it if and only if no `\` line cost it a line in either direction and every hunk fits. |
| Engine.ApplyUndoneIffLastLinesMatch | tools/patch_util.py:348-541 | If every hunk leaves a line, that is if and only if `\` lines come last and all unchecked last lines matched. |
| Engine.ApplyAgainExactly | tools/patch_util.py:348-479 | Applied to its own output, a patch rewrites it again if and only if every hunk still passes; if not, it is reported as already patched if and only if the lines of the hunks at target line 1, if any, repeat one line down. |
| Engine.ApplyAgain | tools/patch_util.py:348-479 | The output of a patch that starts below target line 1 is never reported as different. |
| Engine.OneLinePatchIsApplied | tools/patch_util.py:348-416 | A patch of one hunk with a single source line is applied to every file that is long enough, whatever the file holds, and makes it as much longer as the hunk says. |
| Engine.AppliedTwice | tools/patch_util.py:348-416 | A patch that adds a line after its only context line is applied a second time to its own output. |
| Parser.StepKeepsInv | tools/patch_util.py:142-304 | Every turn of the loop that does not raise keeps the invariant: one region flag, tables of equal length, as many source names or more, counters equal to the lines of the body, and stored hunks with exactly the declared lines. |
| Parser.RunKeepsInv | tools/patch_util.py:142-304 | The invariant holds after every prefix that does not raise. |
| Parser.RunConcat | tools/patch_util.py:142-304 | Parsing two pieces one after the other is parsing them together. |
| Parser.ParsedIsWellFormed | tools/patch_util.py:117-314 | A parse that succeeds gives one row of hunks a target, no more targets than sources, and hunks with exactly the declared line counts. |
| Parser.RowsLineUp | tools/patch_util.py:216-268 | Every target follows a source name of its own, in order, and row `i` of the hunks stands under source name `i` for all `i` if and only if there are as many sources as targets. |
| Parser.StepRaisesExactly | tools/patch_util.py:150-186 | A turn raises if and only if it is inside a body and the line is no body line or one more than the header declares. |
| Parser.RunRaisesExactly | tools/patch_util.py:142-304 | A run raises if and only if some prefix leads into a body and the next line does not belong there. |
| Parser.StripExactly | tools/patch_util.py:231-231 | `strip` takes white space off both ends, and all of it. |
| Parser.NamelessExactly | tools/patch_util.py:222-231 | A name line has no name if and only if nothing or a tab follows the marks. |
| Strays.StrayNameStays | tools/patch_util.py:216-268 | A source name that no target name follows stays in the list of names, and the rest is read as if it had not been there. |
| Strays.EndsAreCounted | tools/patch_util.py:150-189 | In every run the statistics of each file count the line ends of its stored hunks and of the body being read. |
| Strays.HunksAreNumbered | tools/patch_util.py:149-301 | In every run the hunk being read has the number of the place where it will be stored, so lines 174 and 184 subscript the hunk just appended. |
| PatchInfo.HunkInfo.Copy | tools/patch_util.py:78-79 | A copy is a new object with the same numbers and the very same list of lines. |
| PatchInfo.HunkInfo.Reset | tools/patch_util.py:285-296 | A new header gives the numbers and a new, empty list. |
| PatchInfo.PatchInfo.StoreCopy | tools/patch_util.py:173-189 | Storing a copy adds the hunk at the end of the row and disturbs no stored hunk. |
| PatchInfo.ParseLoop.BodyRegion | tools/patch_util.py:150-201 | The body block does what the state machine does, and raises exactly when it does. |
| PatchInfo.ParseLoop.SkipRegion | tools/patch_util.py:203-214 | The skip block leads to the next hunk header, to the next file header, or stays. |
| PatchInfo.ParseLoop.NamesRegion | tools/patch_util.py:216-268 | The file-name block does what the state machine does; its flag is the `continue`. |
| PatchInfo.ParseLoop.HeadRegion | tools/patch_util.py:271-304 | The header block starts a body with a list of its own or goes back to looking for files. |
| PatchInfo.PatchInfo.ParseStream | tools/patch_util.py:117-314 | The loop on objects raises if and only if the state machine fails, and otherwise stores exactly its names and hunks. |
| PatchInfo.PatchInfo.NoListShared | tools/patch_util.py:189-296 | Two stored hunks share their list of lines only if they are the same hunk, although the copies are shallow. |
| PrintedPatch.ReadAndApplied | tools/patch_util.py:117-541 | Reading a printed patch and applying a row of ordered, disjoint hunks to a file ends in an error if and only if the row is empty, else rewrites the file if and only if every hunk printed for that row passes, and what is written is the file the printed hunks mean if and only if `\` lines come last. |
| Printer.ReadRange | tools/patch_util.py:204-204 | A printed range, short or with its count, is read back with what follows it. |
| Printer.ReadSourceName | tools/patch_util.py:223-231 | A printed source name is read back, without its time stamp or trailing white space. |
| Printer.BodyRun | tools/patch_util.py:150-192 | A printed body is read to its end and no further, `\` lines and lines that look like headers included. |
| Printer.HunksRun | tools/patch_util.py:150-304 | Printed hunks are read back one by one, and the lines between them passed over. |
| Printer.NotesRun | tools/patch_util.py:271-283 | A line in place of the first hunk sends the parser back to looking for a file, and the row stays empty. |
| Printer.FilesRun | tools/patch_util.py:142-304 | Printed files are read back one by one. |
| RoundTrip.HunksEffect | tools/patch_util.py:142-304 | From any state outside a body, printed hunks are all stored or the count of hunks stays behind for good; if all are stored, no surplus name means that they are clean. |
| RoundTrip.FilesEffect | tools/patch_util.py:142-304 | Of printed files never more hunks are stored than printed; if all are, and there are as many names and rows as files, every file is clean. |
| RoundTrip.ParseInvertsPrintExactly | tools/patch_util.py:117-314 | Parsing a printed patch, with any preamble, gives back its names, headers and bodies, an empty row for a file without hunks, if and only if it has a file, the last one has hunks, a file without hunks has a line after its names, and no hunk ends like a file header (save a nameless one at the end of a file that is not the last). |
| Witnesses.RemovedDashesRefused | tools/patch_util.py:188-214 | A patch that removes the line `-- x` ends like a file header and is refused. |
| Witnesses.PropertiesThenHunk | tools/patch_util.py:271-283 | A file of which only properties change, then one with a hunk: two names each, an empty row and a row of one hunk. |
| Witnesses.SecondFileLost | tools/patch_util.py:271-283 | Without the line after the names, the second file is not read back. |
| Decimal.ReadBack | tools/patch_util.py:204-204 | A decimal numeral followed by something else than a digit is read back as its number. |
| Decimal.DigitsBounds | src/breakpad_linux.cc:142-153 | The numeral of a number is as short as can be. |
| Decimal.Uint64Digits | src/breakpad_linux.cc:128-128 | A 64-bit number has at most 20 digits, so 21 bytes hold them and a terminator. |
| Numbers.Uint64Len | src/breakpad_linux.cc:142-153 | The length is that of the shortest decimal numeral, at most 20. |
| Numbers.LowDigitsAll | src/breakpad_linux.cc:158-161 | The digits written from the last to the first are the numeral when the length is right. |
| Numbers.Uint64ToS | src/breakpad_linux.cc:158-161 | Writes the lowest digits of the number, which are its numeral when the length is right, and touches nothing else. |
| Numbers.WriteUint64Hex | src/breakpad_linux.cc:98-107 | Writes sixteen hexadecimal digits whose value is the number, and touches nothing else. |
| Records.DecodeInvertsEncode | src/breakpad_linux.cc:387-390 | A reader of the record format gives back names and data, whatever the data holds. |
| Records.DecodeExact | src/breakpad_linux.cc:387-390 | A list of records is read back if and only if no name has a colon in it. |
| Records.UniquelyDecodable | src/breakpad_linux.cc:387-390 | The bytes determine the records. |
| Records.DecodeWithTail | src/breakpad_linux.cc:387-390 | Bytes after the records are read on: the whole is a file of records if and only if those bytes are. |
| Records.NoColonNoRecord | src/breakpad_linux.cc:387-390 | Bytes without a colon are no record. |
| Records.ChunksJoin | src/breakpad_linux.cc:443-485 | Without stripping, the payloads of the chunks put together are the value. |
| Records.ChunkCount | src/breakpad_linux.cc:443-485 | There are as many chunks as the value needs at this size, rounded up, and none is longer. |
| Records.ChunkIsPiece | src/breakpad_linux.cc:333-357 | Chunk k is the k-th piece of the value, of full size save the last one; stripped, it is that piece without its trailing spaces. |
| Records.ChunkNames | src/breakpad_linux.cc:452-459 | Chunk k has number k + 1 modulo 2^32, as the 32-bit counter gives it. |
| Records.ChunkNamesDistinct | src/breakpad_linux.cc:452-475 | Two chunks of a value have the same name if and only if the counter came round between them. |
| Records.ChunkNamesNoColon | src/breakpad_linux.cc:474-475 | Numbering keeps names free of colons. |
| MimeWriter.MimeWriter.Flush | src/breakpad_linux.cc:262-266 | What is pending is written, with the contents the memory has now, and that is all that was added. |
| MimeWriter.MimeWriter.AddItem | src/breakpad_linux.cc:372-380 | An item is added after everything added before, through a flush when all 30 entries are taken. |
| MimeWriter.MimeWriter.AddPairData | src/breakpad_linux.cc:308-319 | Adds a form-data part with this name and value; only the memory of the caller becomes pending. |
| MimeWriter.MimeWriter.AddFileContents | src/breakpad_linux.cc:360-370 | Adds a file part with this header and contents. |
| MimeWriter.MimeWriter.AddItemWithoutTrailingSpaces | src/breakpad_linux.cc:382-385 | Adds the bytes without trailing spaces. |
| MimeWriter.MimeWriter.PrintNumber | src/breakpad_linux.cc:334-336 | The number buffer is only rewritten when no pending item refers to it, and then holds the numeral. |
| MimeWriter.MimeWriter.ChunkTurn | src/breakpad_linux.cc:333-357 | A turn writes one part and takes it off what is left to write; afterwards nothing is pending. |
| MimeWriter.MimeWriter.AddPairDataInChunks | src/breakpad_linux.cc:321-358 | What is added is the parts of the chunks in order, although each turn rewrites the number buffer; above the size limit nothing is added. |
| MimeWriter.LengthWithoutTrailingSpaces | src/breakpad_linux.cc:192-197 | The length of the bytes without trailing spaces. |
| Multipart.PartsAreReadBackExactly | src/breakpad_linux.cc:308-319 | The parts written are read back if and only if no name and no data looks as if it ended early. |
| Multipart.PartIsFormData | src/breakpad_linux.cc:308-319 | A part followed by the boundary, character by character, as a body of the type multipart/form-data has it. |
| Multipart.DelimiterAbsent | src/breakpad_linux.cc:297-300 | Data in which the delimiter line does not stand cannot end early, as section 5.1.1 of RFC 2046 asks. |
| Multipart.CleanPartsAreReadBack | src/breakpad_linux.cc:297-319 | Parts with names without quotes and data without the delimiter line are always read back. |
| Witnesses.DelimiterInValue | src/breakpad_linux.cc:297-319 | A value that holds the delimiter line is not read back. |
| CrashReporterWriter.CrashReporterWriter.AddPairData | src/breakpad_linux.cc:427-441 | Afterwards the file holds one record more, with this name and data, and nothing is pending. |
| CrashReporterWriter.CrashReporterWriter.AddPairDataInChunks | src/breakpad_linux.cc:443-485 | Afterwards the file holds the records of the chunks more; above the size limit none. |
| CrashReporterWriter.CrashReporterWriter.AddFileContents | src/breakpad_linux.cc:487-500 | Afterwards the file holds one record more, with the contents of the file. |
| CrashReporterWriter.CrashReporterWriter.FileIsReadBack | src/breakpad_linux.cc:387-500 | After any calls the file is read back as the records added, if and only if no name has a colon in it. |
| CrashReporterWriter.CrashReporterWriter.WriteDump | src/breakpad_linux.cc:1196-1202 | A dump added as an item and flushed is all the file holds, as it is. |
| CrashHost.WalkCounts | src/crash_handler_host_linux.cc:209-239 | The walk over the headers loses no descriptor if and only if no descriptor header follows an accepted pair, and only empty ones follow a refused one. |
| CrashHost.HandlerAccountsExactly | src/crash_handler_host_linux.cc:209-277 | Nothing is closed that was not received or closed twice, and every received descriptor is closed or handed on if and only if the message has one descriptor header, or a refused one and then only empty ones. |
| Witnesses.FirstPairForgotten | src/crash_handler_host_linux.cc:209-239 | Of two pairs of descriptors in one message only the second is closed. |
| CrashHost.WalkExactly | src/crash_handler_host_linux.cc:209-239 | The walk stops at the first header that does not bring exactly two descriptors, and else ends with the last pair and whether there were credentials. |
| CrashHost.DumpIsRequestedExactly | src/crash_handler_host_linux.cc:209-355 | A dump is requested if and only if all descriptor headers are pairs, there is one, there are credentials, the inode is found and the socket has a holder; then it is the dump of the holder, answered on the second descriptor of the last pair, and the first is closed. In every other case the rest of what was found is closed. |
| CrashHost.CrashHandlerHost.CloseAll | src/crash_handler_host_linux.cc:227-229 | Closes each of the descriptors once, in order. |
| CrashHost.CrashHandlerHost.OnFileCanReadWithoutBlocking | src/crash_handler_host_linux.cc:209-355 | Closes what the specification says, posts its task, and changes no other descriptor. |
| Handshake.ReceiveAccounts | src/crash_handler_host_linux.cc:209-277 | For a message with at most one descriptor header, every new descriptor is closed or goes to the posted task. |
| Handshake.NewTaskIsRight | src/crash_handler_host_linux.cc:258-279 | A task that holds the write end of a crashing process names that process. |
| Handshake.StepKeepsInv | src/crash_handler_host_linux.cc:209-437 | Every step of any process or thread keeps the invariant: the ledger of descriptors, tasks about the right process, a queue of proper messages, and answers only after dumps. |
| Handshake.RunKeepsInv | src/crash_handler_host_linux.cc:209-437 | The invariant holds in every interleaving. |
| Handshake.Safety | src/crash_handler_host_linux.cc:347-437 | In every run each received descriptor is either closed, once, or held by one pending task; a process is answered, and reads the byte, only after its dump was written. |
| Handshake.HostProgress | src/crash_handler_host_linux.cc:347-437 | While the browser has work left, one of its steps is possible, and every one of them leaves less work. |
| Handshake.HostRunIsBounded | src/crash_handler_host_linux.cc:347-437 | A run of browser steps is no longer than the work it takes off. |
| Handshake.NobodyIsLeftWaiting | src/breakpad_linux.cc:791-804 | When the browser has no work left, every descriptor has been closed exactly once, and the blocking read of every waiting process returns: the byte if it was answered, end-of-file if not. |
| Service.CrasherIsPosted | src/crash_handler_host_linux.cc:209-355 | If all goes well, the message of a crashing process leads to a task for that process on the write end of its socket. |
| Service.StepKeepsCared | src/crash_handler_host_linux.cc:209-437 | If all goes well, every step keeps the case of every crashing process in the queue, with a thread, or answered, and turns none away. |
| Service.EveryCrasherIsServed | src/crash_handler_host_linux.cc:209-437 | In every run in which all goes well, once the browser has no work left, every waiting process has been dumped and answered and reads the byte; none ever reads end-of-file. |
| Service.SettlingIsBounded | src/breakpad_linux.cc:727-805 | A run in which nobody else crashes or sends a message is no longer than what there was to do. |
| Service.SomebodyGoesOn | src/breakpad_linux.cc:727-805 | As long as anything is left to do in a run in which all goes well, some process or thread can go on, and well. |
| Service.EverybodyIsServed | src/breakpad_linux.cc:727-805 | In every run in which all goes well, once nothing is left to do, every process that could send its message has been dumped and answered and has read the byte. |
| Popup.Controller.UpdateDataListValues | src/browser/autofill_popup_controller_impl.cc:191-253 | The three lists stay of equal length and hold the rows of the specified update; the popup is hidden exactly when it is emptied of suggestions. |
| Popup.LastUpdateWins | src/browser/autofill_popup_controller_impl.cc:191-253 | Of two updates the last one counts, if and only if the first one put rows in or its clearing removed nothing the second would have kept. |
| Witnesses.SeparatorCleared | src/browser/autofill_popup_controller_impl.cc:191-253 | Clearing takes away a separator that an update without clearing keeps. |
| Popup.Controller.SetSelectedLine | src/browser/autofill_popup_controller_impl.cc:449-472 | The line is selected if it can be accepted, and no line if not. |
| Popup.Controller.SelectNextLine | src/browser/autofill_popup_controller_impl.cc:474-487 | The skipping loop selects the row that `NextExactly` describes, from any selection, even one beyond the list. |
| Popup.Controller.SelectPreviousLine | src/browser/autofill_popup_controller_impl.cc:489-502 | The skipping loop selects the row that `PreviousExactly` describes. |
| Popup.Controller.RemoveSelectedLine | src/browser/autofill_popup_controller_impl.cc:504-532 | Removes exactly the selected row from all three lists and clears the selection, or changes nothing. |
| PopupCursor.NextExactly | src/browser/autofill_popup_controller_impl.cc:474-487 | Down goes to the nearest acceptable row below, and from the last one to row 0 or to no selection. |
| PopupCursor.PreviousExactly | src/browser/autofill_popup_controller_impl.cc:489-502 | Up goes to the nearest acceptable row above, and from the first one to the last row or to no selection. |
| PopupCursor.UpUndoesDown | src/browser/autofill_popup_controller_impl.cc:474-502 | Up undoes down if and only if there is an acceptable row below or the last row is acceptable. |
| PopupCursor.DownUndoesUp | src/browser/autofill_popup_controller_impl.cc:474-502 | Down undoes up if and only if there is an acceptable row above, or the last row is not acceptable, or row 0 is. |
| PopupCursor.EveryRowIsReached | src/browser/autofill_popup_controller_impl.cc:474-487 | Down visits every acceptable row from any proper selection, or from none. |
| PopupCursor.SelectByKind | src/browser/autofill_popup_controller_impl.cc:449-472 | A separator, a warning or a title is never newly selected, and a row of any other kind always is. |
| PopupCursor.KeysSkipDecoration | src/browser/autofill_popup_controller_impl.cc:474-502 | Neither key moves the selection to a separator, a warning or a title, wherever it was. |
| PopupCursor.DownByKind | src/browser/autofill_popup_controller_impl.cc:474-487 | By kinds of items: down goes to the nearest row below that is no separator, warning or title, else to row 0 or to none. |
| PopupCursor.UpByKind | src/browser/autofill_popup_controller_impl.cc:489-502 | Up goes to the nearest such row above, else to the last row or to none. |
| PopupCursor.EverySelectableRowIsReached | src/browser/autofill_popup_controller_impl.cc:474-487 | Every row of such a kind is reached by pressing down often enough. |
| PopupCursor.RemovableKinds | src/browser/autofill_popup_controller_impl.cc:359-365 | Profiles and stored entries can be removed, and no other kind; what can be removed can be chosen. |
| PopupCursor.ShownForKinds | src/browser/autofill_popup_controller_impl.cc:560-571 | The popup is worth showing if and only if its first row is one of the kinds listed. |
| PopupCursor.KeysRepairSelection | src/browser/autofill_popup_controller_impl.cc:474-502 | From a selection left behind by an update, a key leads to a proper one, unless no row can be accepted and the key stays put. |
| PopupCursor.UpdateMovesRows | src/browser/autofill_popup_controller_impl.cc:191-253 | After an update the new rows come first, and every row below them is an old one, all moved by the same distance. |
| PopupCursor.UpdateKeepsSelection | src/browser/autofill_popup_controller_impl.cc:191-253 | The selection is proper after an update if and only if there is none, it falls on a new datalist row, or the old row that comes to stand there can be accepted. |
| PopupCursor.SelectionNamesTheSameRow | src/browser/autofill_popup_controller_impl.cc:191-342 | With distinct rows, a selected index below the new rows names the row it named before if and only if as many rows came as went. |
| PopupCursor.SelectionNamesAnEqualRow | src/browser/autofill_popup_controller_impl.cc:191-342 | In general it names a row equal to the one before if and only if the new row there, the separator, or the old row moved there is equal to it. |
| PopupCursor.UpdateMayLeaveASeparatorSelected | src/browser/autofill_popup_controller_impl.cc:191-253 | An update does not move the selection, which may then be on a separator. |
| PopupGeometry.GetRowBounds | src/browser/autofill_popup_controller_impl.cc:371-382 | The top of a row is the border plus the heights of the rows above, and its bottom the top of the next. |
| PopupGeometry.GetDesiredPopupHeight | src/browser/autofill_popup_controller_impl.cc:608-616 | The height is that of all rows and two borders. |
| PopupGeometry.RowsTile | src/browser/autofill_popup_controller_impl.cc:371-382 | The rectangles tile the popup without gaps, up to the lower border. |
| PopupGeometry.HeightsAdd | src/browser/autofill_popup_controller_impl.cc:548-553 | A separator is 1 pixel high and any other row 24. |
| PopupGeometry.LineFromY | src/browser/autofill_popup_controller_impl.cc:534-546 | The line is the first row that ends at or below the height, and the last row beyond all of them. |
| PopupGeometry.LinesAreOrdered | src/browser/autofill_popup_controller_impl.cc:534-546 | The line is unique and grows with the height. |
| PopupGeometry.LineInvertsBounds | src/browser/autofill_popup_controller_impl.cc:371-546 | Inside the popup the line at a height is a row if and only if the height is in its rectangle, the top edge excluded. |
| PopupGeometry.GetDesiredPopupWidth | src/browser/autofill_popup_controller_impl.cc:594-606 | The width is the least that is no smaller than the element and than every row. |
| PopupGeometry.SharesFit | src/browser/autofill_popup_controller_impl.cc:142-165 | Neither field gets more than its share, and both fit into the available width together. |
| PopupGeometry.ShareIsRounded | src/browser/autofill_popup_controller_impl.cc:156-165 | A field gets its share of the width to the pixel, rounded towards zero. |
| PopupGeometry.NothingIsCutExactly | src/browser/autofill_popup_controller_impl.cc:156-165 | A field with text gets at least its own width if and only if there is room for both texts. |
| PopupGeometry.ElideRows | src/browser/autofill_popup_controller_impl.cc:142-166 | The loop gives every row the widths of its own texts, and skips rows without text. |
| PopupGeometry.ElisionIsRight | src/browser/autofill_popup_controller_impl.cc:142-166 | A row is left whole if and only if the popup is as wide as the row as drawn; if there is room for text at all, it fits. |
| PopupGeometry.DesiredWidthLeavesWhole | src/browser/autofill_popup_controller_impl.cc:594-606 | In a popup of the desired width a bold or italic row is left whole if and only if the element or some row in the plain font is as wide as it is drawn; a plain row always is. |
| Witnesses.BoldTitleIsCut | src/browser/autofill_popup_controller_impl.cc:142-166 | A bold title wider than in the plain font is cut in a popup of the desired width. |
| PopupDrawing.DrawAutofillEntry | src/browser/autofill_popup_view_views.cc:68-124 | The view puts value, label and icon side by side, 3 pixels from the edges and 5 between label and icon, mirrored for right-to-left scripts. |
| PopupDrawing.NothingOverlaps | src/browser/autofill_popup_view_views.cc:68-124 | If anything is free, no part lies over another or outside the row. |
| PopupDrawing.RoomIsAccounted | src/browser/autofill_popup_controller_impl.cc:618-640 | What the controller takes off a row is exactly what the view needs, and 15 pixels between value and label if there is one. |
| PopupDrawing.TextsStayApart | src/browser/autofill_popup_controller_impl.cc:142-166 | Texts elided to the widths the controller gave them leave at least these 15 pixels free. |
| CrashKeys.CrashKeyTable.Reserve | src/breakpad_win.cc:310-320 | Afterwards the fixed entries are followed by 256 placeholders, and the table is empty. |
| CrashKeys.CrashKeyTable.SetCrashKeyValue | src/breakpad_win.cc:422-449 | The truncated key gets the truncated value, in the slot it has or in the next free one; a new key is refused when 256 are taken. Fixed entries do not change. |
| CrashKeys.CrashKeyTable.ClearCrashKeyValue | src/breakpad_win.cc:451-463 | The value of the key as it stands is emptied, if there is such a key. |
| CrashKeys.CrashKeyTable.SetPluginPath | src/breakpad_win.cc:184-210 | Adds the last 256 characters of the path in numbered chunks that fit a value. |
| CrashKeys.SlotsInOrder | src/breakpad_win.cc:310-320 | The slots hold the keys in the order they were first set with their values, contiguously after the unchanged fixed entries. |
| CrashKeys.SlotOf | src/breakpad_win.cc:437-444 | Every slot lies in the reserved block, and no two keys share one. |
| CrashKeys.InsertRepresents | src/breakpad_win.cc:439-448 | Taking the next free slot for a new key keeps the layout and adds the key at the end of the table. |
| CrashKeys.UpdateRepresents | src/breakpad_win.cc:444-448 | Writing the slot of a key changes the value of that key and of no other. |
| CrashKeys.RunIsBoundedMap | src/breakpad_win.cc:422-463 | In every run of calls, as cut to the limits, the table holds exactly the first 256 distinct keys set, each with what was last written to it. |
| CrashKeys.PluginPathExactly | src/breakpad_win.cc:184-210 | Of the last 256 characters of the path the pieces that fit a value are added, in order and numbered from 1, as many as are needed. |
| CrashKeys.RunFillsSlots | src/breakpad_win.cc:310-463 | The slots then hold these keys and values in order after the unchanged fixed entries, and placeholders after them. |
| CrashKeys.CutExactly | src/breakpad_win.cc:426-463 | A name and a value are stored as far as they fit with a terminator; what is cleared is looked up as it stands. |
| CrashKeys.CrashKeyTable.SlotsHoldLastWrites | src/breakpad_win.cc:310-463 | After any raw calls of set and clear on the table: the fixed entries unchanged, then the first 256 distinct truncated keys with the truncated values last written to them, then placeholders. |
| CrashKeys.ClearUndoesSetExactly | src/breakpad_win.cc:422-463 | Clearing a key after setting it empties its slot if and only if the key needed no truncation (or the value was empty); otherwise it does nothing. |
| Witnesses.ClearDoesNothing | src/breakpad_win.cc:422-463 | A key of three characters where two fit is stored cut, and a clear does not find it. |
| ObjectRegistry.StepKeepsSafe | src/api/object_manager.cc:57-135 | Every operation that keeps to the id discipline keeps ids in range, ownership sets disjoint, and every registered object owned by a live manager. |
| ObjectRegistry.RunKeepsSafe | src/api/object_manager.cc:57-135 | So does every run. |
| ObjectRegistry.EveryObjectHasOneOwner | src/api/object_manager.cc:57-135 | In every reachable state a registered object has exactly one live owner, and the id handed out next is unused. |
| ObjectRegistry.DeathRemovesOwn | src/api/object_manager.cc:65-71 | Destroying a manager removes its registered objects and nobody else's. |
| ObjectRegistry.CreateIsDisjointExactly | src/api/object_manager.cc:86-121 | A new object keeps ownership disjoint if and only if no other manager still lists its id. |
| ObjectRegistry.ReuseLosesAnObject | src/api/object_manager.cc:65-135 | An id used twice can cost a manager its object when another one is destroyed. |
| ObjectFates.EveryFateIsTold | src/api/object_manager.cc:57-135 | In every run an id is registered, and listed by a manager, exactly as the acts that concern it say, with the class of its type; acts about other ids make no difference, save the death of its manager and the clearing of the registry, which leaves the lists as they are. |
| ObjectFates.IdsAreCounted | src/api/object_manager.cc:81-84 | Ids are handed out one after the other: the latest is the number of ids handed out. |
| ObjectRegistry.HeldStaysResolvable | src/api/object_manager.cc:123-135 | Through any run that does not release it, destroy its owner or clear the registry, a held object stays resolvable, and is pending if and only if it was disposed of. |
| ObjectRegistry.ReleaseFreesDisposed | src/api/menu/menu_views.cc:127-137 | Letting go of a held object frees it if and only if it was disposed of meanwhile. |
| ObjectRegistry.HostDisposesAtOnce | src/api/dispatcher_host.cc:184-189 | In a run without held menus a manager disposes of an object exactly as a dispatcher host does, at once. |
| ObjectRegistry.Shared.AllocateId | src/api/object_manager.cc:81-84 | The id handed out is the next number. |
| ObjectRegistry.Shared.ClearObjectRegistry | src/api/object_manager.cc:73-75 | The registry is emptied; the ownership sets are left as they are. |
| ObjectRegistry.ObjectManager.OnAllocateObject | src/api/object_manager.cc:86-121 | The object is registered under its id with the class of its type, or the plain one, and its manager lists the id. |
| ObjectRegistry.ObjectManager.OnDeallocateObject | src/api/object_manager.cc:123-135 | A held object becomes pending and nothing else changes; any other is removed, and the id taken off the list of this manager. |
| ObjectRegistry.ObjectManager.MenuClosed | src/api/menu/menu_views.cc:135-137 | The hold ends, and an object disposed of meanwhile is removed now. |
| ObjectRegistry.ObjectManager.Destroy | src/api/object_manager.cc:65-71 | The loop over the ids removes exactly the registered ones of this manager. |

## Left out

- File, socket and process calls: opening, renaming, backing up and changing modes of files (`patch_hunks` and the end of `apply`), `WriteMinidump`, uploads, and the command line of the patch tool. What a call returns is a parameter where it matters.
- `PatchInfo.apply` over several files, its search for the file to patch, and the creation of a new file (lines 319-346).
- Messages and debug output, and the `invalid` flag, whose assignment raises.
- Engine.PatchedIffAllPass: needs hunks in ascending order without overlap, since it is false for others (`Witnesses.OverlapIsAccepted`); the same goes for Engine.ApplyWritesSplice, PrintedPatch.ReadAndApplied and the theorems about undoing and applying again. For any list there are `Validator.BodyNotReadLater` and `Engine.ApplyWritesSettledSplice`.
- Undo.UndoIffFits: speaks of patches that lost no line to a `\` line; of the others `Undo.RestoredMeansSlashesLast` says when they cannot be undone, and for what `apply` accepts `Engine.ApplyUndoneIffFits` has no such limit.
- Undo.UndoExactly: asks that the patch wrote only the terminator of the source, which `LineEnds.OutputKeepsTerminator` decides.
- Engine.ApplyAgainExactly: asks that `\` lines come last.
- Recogniser.RecognisedAfterPatch: asks that target numbers are the source numbers moved by the lines added so far, and that `\` lines come last.
- RoundTrip.ParseInvertsPrintExactly: where there are files without hunks, no hunk may end like a source name and be followed by a line like a target name, because such a text can be read in two ways. A body must end with one of its source or target lines; a `\` line after the last of them is passed over by the parser and belongs to the lines between hunks.
- Text mode: line ends are kept as they are in the file, as on POSIX systems.
- MimeWriter.MimeWriter.Flush: `sys_writev` is taken to write everything it is given.
- MimeWriter.MimeWriter.AddPairDataInChunks: a chunk size of 0 makes the loop endless and is excluded.
- MimeWriter.MimeWriter.PrintNumber: `my_uint_len` and `my_uitos` are not part of the repository; the 64-bit printers stand in for them.
- CrashReporterWriter.CrashReporterWriter.WriteDump: the dump is one item in memory that does not change meanwhile; reading it from its file is not modelled.
- CrashHost.CrashHandlerHost.OnFileCanReadWithoutBlocking: starts after the size checks; the early returns of lines 190-207 close no received descriptor and are not modelled, nor is the copying of the crash context.
- Handshake.NobodyIsLeftWaiting: messages carry at most one header with descriptors, other processes hold no end of the socket of a crashing process, and the search for the process at the other end of a socket finds the right one or none. The uploader thread and shutdown (`CrashDumpTask`, `WillDestroyCurrentMessageLoop`) come after the answer and are not modelled.
- Popup.Controller.SelectNextLine: needs a row; on an empty list the source reads past the end. `SelectPreviousLine` does so with a selection more than one row beyond the list.
- Callbacks, painting and placement of the popup; string widths, the border thickness and the numbers behind the item kinds are parameters or constructors of a type. Widths do not overflow.
- CrashKeys.CrashKeyTable.SetCrashKeyValue: the length limits of an entry are parameters, at least 1; they are not part of the repository.
- ObjectRegistry.ObjectManager.OnAllocateObject: the constructors of the objects and the handling of an id that is still registered (inside `IDMap`, not part of the repository) are not modelled.
- ObjectRegistry.ObjectManager.MenuClosed: the menu must still exist when it closes; a manager destroyed while its menu is on screen leaves `Menu::Popup` with a dangling object.
- ObjectRegistry.HostDisposesAtOnce: dispatcher hosts count ids from 1 after handing them out where managers count before, which gives the same ids; the map from views to hosts is not modelled.
- Android and AddressSanitizer variants, V8 bindings, package and manifest handling, `tools/payload.cc`, notification, clipboard, screen, shortcut and window code: platform calls, or only easy members.
