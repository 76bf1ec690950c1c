/** Which terminator the patcher puts on a line, told by the lines of the file alone, for any mixture of terminators. */
module Spelling {
  import opened Text
  import opened Hunks
  import opened PatchStream
  import opened Format

  // -------------------------------------------------------------------------
  // The terminators among the lines read

  /** The line ends in `nl`; the "\n" of "\r\n" does not count as one of its own. */
  predicate EndedBy(l: string, nl: string) {
    IsTerminator(nl) && EndsWith(l, nl) && (nl == LF ==> !EndsWith(l, CRLF))
  }

  predicate HasKind(lines: seq<string>, nl: string) {
    exists i :: 0 <= i < |lines| && EndedBy(lines[i], nl)
  }

  /** Lines are ended by `nl`, and none by anything else. */
  predicate OnlyKind(lines: seq<string>, nl: string) {
    && HasKind(lines, nl)
    && (nl == LF || !HasKind(lines, LF)) && (nl == CRLF || !HasKind(lines, CRLF)) && (nl == CR || !HasKind(lines, CR))
  }

  predicate Mixed(lines: seq<string>) {
    (HasKind(lines, LF) && HasKind(lines, CRLF)) || (HasKind(lines, LF) && HasKind(lines, CR)) ||
    (HasKind(lines, CRLF) && HasKind(lines, CR))
  }

  /** A line of a patch as it is written after these lines have been read. */
  function Spelled(read: seq<string>, text: string): string {
    if OnlyKind(read, LF) then RStrip(text) + LF
    else if OnlyKind(read, CRLF) then RStrip(text) + CRLF
    else if OnlyKind(read, CR) then RStrip(text) + CR
    else text
  }

  lemma OneMore(lines: seq<string>, l: string, nl: string)
    ensures HasKind(lines + [l], nl) <==> HasKind(lines, nl) || EndedBy(l, nl)
  {
    hide EndedBy;
    var all := lines + [l];
    assert all[|lines|] == l && forall i :: 0 <= i < |lines| ==> all[i] == lines[i];
  }

  /** A line is counted for the terminator it ends in, and for none if it has none. */
  lemma CountedOnce(e: Ends, l: string)
    ensures e.Add(l).lf == e.lf + if EndedBy(l, LF) then 1 else 0
    ensures e.Add(l).crlf == e.crlf + if EndedBy(l, CRLF) then 1 else 0
    ensures e.Add(l).cr == e.cr + if EndedBy(l, CR) then 1 else 0
  {
    hide EndsWith;
    EndsWithOne(l, LF, '\n');
    EndsWithOne(l, CR, '\r');
    EndsWithTwo(l);
  }

  lemma {:induction false} CountsAreKinds(lines: seq<string>)
    ensures var e := CountEnds(lines);
            && (e.lf != 0 <==> HasKind(lines, LF)) && (e.crlf != 0 <==> HasKind(lines, CRLF))
            && (e.cr != 0 <==> HasKind(lines, CR))
    decreases |lines|
  {
    hide HasKind, EndedBy;
    if lines == [] {
      NoKind();
    } else {
      var init, l := lines[..|lines| - 1], lines[|lines| - 1];
      assert lines == init + [l];
      CountsAreKinds(init);
      CountedOnce(CountEnds(init), l);
      OneMore(init, l, LF);
      OneMore(init, l, CRLF);
      OneMore(init, l, CR);
    }
  }

  lemma NoKind()
    ensures !HasKind([], LF) && !HasKind([], CRLF) && !HasKind([], CR)
  {
  }

  /** What the patcher writes for a hunk line, from the lines it has read and nothing else. */
  lemma ConvertIsSpelled(read: seq<string>, hline: string)
    ensures Convert(CountEnds(read), hline) == Spelled(read, Tail(hline))
  {
    hide HasKind, CountEnds, RStrip;
    CountsAreKinds(read);
  }

  /** After lines with two different terminators: character for character as it stands in the patch. */
  lemma MixedIsVerbatim(read: seq<string>, a: string, b: string, hline: string)
    requires HasKind(read, a) && HasKind(read, b) && a != b
    ensures Convert(CountEnds(read), hline) == Tail(hline)
  {
    ConvertIsSpelled(read, hline);
  }

  /** After lines with one terminator: the text with that terminator. */
  lemma OneKindIsUsed(read: seq<string>, nl: string, hline: string)
    requires OnlyKind(read, nl)
    ensures Convert(CountEnds(read), hline) == RStrip(Tail(hline)) + nl
  {
    ConvertIsSpelled(read, hline);
  }

  lemma MixedStays(src: seq<string>, a: nat, b: nat)
    requires a <= b && Mixed(src[..Min(a, |src|)])
    ensures Mixed(src[..Min(b, |src|)])
  {
    hide EndedBy;
    var x, y := src[..Min(a, |src|)], src[..Min(b, |src|)];
    assert forall i :: 0 <= i < |x| ==> x[i] == y[i];
  }

  // -------------------------------------------------------------------------
  // The whole stream, byte by byte

  /** The new side of a body as it is written when the hunk stands at line `t`. */
  function SpelledBody(src: seq<string>, t: nat, text: seq<string>): seq<string>
    decreases |text|
  {
    if text == [] then []
    else
      var t' := if IsOld(text[0]) then t + 1 else t;
      (if IsNew(text[0]) then [Spelled(src[..Min(t', |src|)], Tail(text[0]))] else []) + SpelledBody(src, t', text[1..])
  }

  /** `From` with every hunk line as it is written. */
  function FromSpelled(src: seq<string>, c: nat, hs: seq<Hunk>): seq<string>
    requires Placed(|src|, c, hs)
    decreases |hs|
  {
    if hs == [] then src[c..]
    else
      PlacedBounds(|src|, c, hs);
      src[c..Start(hs[0])] + SpelledBody(src, Start(hs[0]), hs[0].text) + FromSpelled(src, End(hs[0]), hs[1..])
  }

  lemma FromSpelledUnfold(src: seq<string>, c: nat, hs: seq<Hunk>)
    requires hs != [] && Placed(|src|, c, hs) && c <= Start(hs[0]) <= |src|
    ensures FromSpelled(src, c, hs) ==
            src[c..Start(hs[0])] + SpelledBody(src, Start(hs[0]), hs[0].text) + FromSpelled(src, End(hs[0]), hs[1..])
  {
  }

  /** Every '\' line of the body comes when the file has been read to its end. */
  predicate SlashesPastEnd(n: nat, t: nat, text: seq<string>)
    decreases |text|
  {
    text == [] ||
    ((IsSlash(text[0]) ==> t >= n) && SlashesPastEnd(n, if IsOld(text[0]) then t + 1 else t, text[1..]))
  }

  predicate AllSlashesPastEnd(n: nat, hs: seq<Hunk>) {
    forall i :: 0 <= i < |hs| ==> SlashesPastEnd(n, Start(hs[i]), hs[i].text)
  }

  lemma {:induction false} NoSlashes(n: nat, t: nat, text: seq<string>)
    requires Slashes(text) == 0
    ensures SlashesPastEnd(n, t, text)
    decreases |text|
  {
    if text != [] {
      NoSlashes(n, if IsOld(text[0]) then t + 1 else t, text[1..]);
    }
  }

  /** The reader is where the reference is, or both are at the end. */
  predicate SameReads(n: nat, c: nat, t: nat) {
    c == t || (c >= n && t >= n)
  }

  lemma {:induction false} BodyIsSpelled(src: seq<string>, c: nat, t: nat, text: seq<string>)
    requires BodyLines(text) && SameReads(|src|, c, t) && SlashesPastEnd(|src|, t, text)
    ensures Body(src, c, text) == SpelledBody(src, t, text)
    ensures SameReads(|src|, BodyEnd(c, text), t + |OldLines(text)|)
    decreases |text|
  {
    hide Body, SpelledBody, Convert, Spelled, SeenEnds;
    if text == [] {
      BodyNil(src, c, text);
      NothingSpelled(src, t, text);
    } else {
      var c', t' := if text[0][0] == '+' then c else c + 1, if IsOld(text[0]) then t + 1 else t;
      BodyUnfold(src, c, text);
      SpelledUnfold(src, t, text);
      BodyIsSpelled(src, c', t', text[1..]);
      SpelledHere(src, c', t', text[0]);
    }
  }

  lemma NothingSpelled(src: seq<string>, t: nat, text: seq<string>)
    requires text == []
    ensures SpelledBody(src, t, text) == []
  {
  }

  lemma SpelledUnfold(src: seq<string>, t: nat, text: seq<string>)
    requires text != []
    ensures var t' := if IsOld(text[0]) then t + 1 else t;
            SpelledBody(src, t, text) ==
            (if IsNew(text[0]) then [Spelled(src[..Min(t', |src|)], Tail(text[0]))] else []) +
            SpelledBody(src, t', text[1..])
  {
  }

  lemma SpelledHere(src: seq<string>, c: nat, t: nat, hline: string)
    requires SameReads(|src|, c, t)
    ensures Convert(SeenEnds(src, c), hline) == Spelled(src[..Min(t, |src|)], Tail(hline))
  {
    hide Convert, Spelled;
    ConvertIsSpelled(src[..Min(c, |src|)], hline);
  }

  /** With the reader at `c` where the reference is at `t`. */
  lemma {:induction false} StreamIsSpelled(src: seq<string>, c: nat, t: nat, hs: seq<Hunk>)
    requires AllWellFormed(hs) && Placed(|src|, t, hs) && SameReads(|src|, c, t) && c >= t
    requires AllSlashesPastEnd(|src|, hs)
    ensures Stream(src, c, hs) == FromSpelled(src, t, hs)
    decreases |hs|
  {
    hide Stream, FromSpelled, SpelledBody, Body, SlashesPastEnd, OldLines, NewLines, Slashes;
    PlacedBounds(|src|, t, hs);
    if hs == [] {
      StreamNil(src, c, hs);
      NothingLeft(src, t, hs);
    } else {
      var h := hs[0];
      var at := Max(c, Start(h));
      assert WellFormed(h);
      assert SlashesPastEnd(|src|, Start(h), h.text);
      StreamUnfold(src, c, hs);
      FromSpelledUnfold(src, t, hs);
      BodyIsSpelled(src, at, Start(h), h.text);
      GapIsCopied(src, c, t, Start(h));
      assert forall i :: 0 <= i < |hs[1..]| ==> hs[1..][i] == hs[i + 1];
      StreamIsSpelled(src, BodyEnd(at, h.text), End(h), hs[1..]);
    }
  }

  lemma NothingLeft(src: seq<string>, t: nat, hs: seq<Hunk>)
    requires hs == [] && t <= |src|
    ensures FromSpelled(src, t, hs) == src[t..]
  {
  }

  lemma GapIsCopied(src: seq<string>, c: nat, t: nat, start: nat)
    requires t <= start <= |src| && SameReads(|src|, c, t) && c >= t
    ensures Skip(src, c, Max(c, start)) == src[t..start]
  {
    if c == t {
      SkipIsSlice(src, t, start);
    }
  }

  /**
    For a file with any terminators whatever: the output byte by byte, if every '\' line comes
    when the file has been read to its end, as after "\ No newline at end of file".
   */
  lemma {:induction false} PatchIsSpelled(src: seq<string>, hs: seq<Hunk>)
    requires AllWellFormed(hs) && Placed(|src|, 0, Settled(0, hs)) && AllSlashesPastEnd(|src|, Settled(0, hs))
    ensures Stream(src, 0, hs) == FromSpelled(src, 0, Settled(0, hs))
  {
    hide Stream, FromSpelled, Settled;
    SettledWellFormed(0, hs);
    StreamSettled(src, 0, 0, hs);
    StreamIsSpelled(src, 0, 0, Settled(0, hs));
  }

  // -------------------------------------------------------------------------
  // A file whose terminators differ before the first hunk

  lemma {:induction false} MixedBody(src: seq<string>, c: nat, text: seq<string>)
    requires BodyLines(text) && Mixed(src[..Min(c, |src|)])
    ensures Body(src, c, text) == NewLines(text)
    decreases |text|
  {
    hide Body, Mixed, Convert, SeenEnds;
    if text == [] {
      BodyNil(src, c, text);
    } else {
      var c' := if text[0][0] == '+' then c else c + 1;
      BodyUnfold(src, c, text);
      MixedStays(src, c, c');
      MixedLine(src, c', text[0]);
      MixedBody(src, c', text[1..]);
    }
  }

  lemma MixedLine(src: seq<string>, c: nat, hline: string)
    requires Mixed(src[..Min(c, |src|)])
    ensures Convert(SeenEnds(src, c), hline) == Tail(hline)
  {
    hide HasKind, Convert;
    ConvertIsSpelled(src[..Min(c, |src|)], hline);
  }

  /** With the reader `d` lines ahead, where that does no harm. */
  lemma {:induction false} MixedStream(src: seq<string>, c: nat, d: nat, hs: seq<Hunk>)
    requires AllWellFormed(hs) && Placed(|src|, c, hs) && Harmless(|src|, c, d, hs)
    requires hs != [] ==> Mixed(src[..Min(Start(hs[0]), |src|)])
    ensures Stream(src, c + d, hs) == From(src, c, hs)
    decreases |hs|
  {
    hide Stream, From, Mixed, Harmless, Body, NewLines, OldLines, Slashes, Skip;
    PlacedBounds(|src|, c, hs);
    if hs == [] {
      AheadAtEnd(|src|, c, d);
      StreamNil(src, c + d, hs);
      FromNil(src, c, hs);
    } else {
      var h, rest := hs[0], hs[1..];
      var at := Max(c + d, Start(h));
      var d' := at - Start(h) + Slashes(h.text);
      assert WellFormed(h);
      HarmlessUnfold(|src|, c, d, hs);
      StreamUnfold(src, c + d, hs);
      FromUnfold(src, c, hs);
      MixedStays(src, Start(h), at);
      MixedBody(src, at, h.text);
      if d == 0 {
        SkipIsSlice(src, c, Start(h));
      } else {
        NothingSkipped(src, at);
      }
      if rest != [] {
        assert End(h) <= Start(rest[0]);
        MixedStays(src, Start(h), Start(rest[0]));
      }
      MixedStream(src, End(h), d', rest);
      assert BodyEnd(at, h.text) == End(h) + d';
    }
  }

  lemma NothingSkipped(src: seq<string>, c: nat)
    ensures Skip(src, c, c) == []
  {
  }

  lemma AheadAtEnd(n: nat, c: nat, d: nat)
    requires Harmless(n, c, d, [])
    ensures d == 0 || c == n
  {
  }

  /**
    If two kinds of terminators come before the first hunk, the output is the splice character
    for character exactly when '\' lines come last; no line changes its terminator.
   */
  lemma {:induction false} MixedPatchIsSplice(src: seq<string>, hs: seq<Hunk>)
    requires AllWellFormed(hs) && Placed(|src|, 0, Settled(0, hs))
    requires hs != [] ==> Mixed(src[..Min(Start(hs[0]), |src|)])
    ensures Stream(src, 0, hs) == Splice(src, Settled(0, hs)) <==> SlashesAtEnd(|src|, Settled(0, hs))
  {
    hide Stream, From, Splice, Settled, Mixed, Bare;
    var s := Settled(0, hs);
    PatchIsSettledSplice(src, hs);
    if SlashesAtEnd(|src|, s) {
      SettledWellFormed(0, hs);
      StreamSettled(src, 0, 0, hs);
      if hs != [] {
        SettledUnfold(0, hs);
      }
      MixedStream(src, 0, 0, s);
      FromIsSplice(src, s);
    }
  }
}
