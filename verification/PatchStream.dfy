/** `patch_stream`: the streaming patcher, and what it means. */
module PatchStream {
  import opened Text
  import opened Hunks

  // -------------------------------------------------------------------------
  // The stream as a function of the number of `get_line` calls made so far.
  // `srclineno` is always that number plus one, and the cursor and the line-end
  // statistics depend on it alone.

  function Min(a: nat, b: nat): nat {
    if a < b then a else b
  }

  /** What the `c`-th call of `readline` returns; the empty string at the end of the file. */
  function LineAt(src: seq<string>, c: nat): string {
    if c < |src| then src[c] else ""
  }

  function SeenEnds(src: seq<string>, c: nat): Ends {
    CountEnds(src[..Min(c, |src|)])
  }

  /** The text of a hunk line, with the terminator detected so far when there is exactly one. */
  function Convert(e: Ends, hline: string): string {
    if e.Consistent() then RStrip(Tail(hline)) + e.Newline() else Tail(hline)
  }

  function Skip(src: seq<string>, c: nat, upto: nat): (r: seq<string>)
    ensures |r| == if c < upto then upto - c else 0
    decreases upto - c
  {
    if c < upto then [LineAt(src, c)] + Skip(src, c + 1, upto) else []
  }

  function Body(src: seq<string>, c: nat, text: seq<string>): seq<string>
    requires BodyLines(text)
    decreases |text|
  {
    if text == [] then []
    else if text[0][0] == '-' || text[0][0] == '\\' then Body(src, c + 1, text[1..])
    else if text[0][0] == '+' then [Convert(SeenEnds(src, c), text[0])] + Body(src, c, text[1..])
    else [Convert(SeenEnds(src, c + 1), text[0])] + Body(src, c + 1, text[1..])
  }

  /** A body reads one source line for every line that is not a '+' line, the '\' lines included. */
  function BodyEnd(c: nat, text: seq<string>): nat
    requires BodyLines(text)
  {
    c + |OldLines(text)| + Slashes(text)
  }

  function Max(a: nat, b: nat): nat {
    if a < b then b else a
  }

  predicate AllBodyLines(hs: seq<Hunk>) {
    forall i :: 0 <= i < |hs| ==> BodyLines(hs[i].text)
  }

  /** All lines the generator yields once `c` lines have been read and the hunks `hs` are left. */
  function Stream(src: seq<string>, c: nat, hs: seq<Hunk>): seq<string>
    requires AllBodyLines(hs)
    decreases |hs|
  {
    if hs == [] then src[Min(c, |src|)..]
    else
      var at := Max(c, Start(hs[0]));
      assert BodyLines(hs[0].text);
      Skip(src, c, at) + Body(src, at, hs[0].text) + Stream(src, BodyEnd(at, hs[0].text), hs[1..])
  }

  lemma SeenEndsStep(src: seq<string>, c: nat)
    ensures SeenEnds(src, c + 1) == SeenEnds(src, c).Add(LineAt(src, c))
  {
    if c < |src| {
      assert src[..c + 1][..c] == src[..c];
    } else {
      assert src[..Min(c + 1, |src|)] == src[..Min(c, |src|)];
    }
  }

  lemma BodyUnfold(src: seq<string>, c: nat, text: seq<string>)
    requires text != [] && BodyLines(text)
    ensures BodyLine(text[0]) && BodyLines(text[1..])
    ensures var c' := if text[0][0] == '+' then c else c + 1;
            Body(src, c, text) ==
            (if IsNew(text[0]) then [Convert(SeenEnds(src, c'), text[0])] else []) + Body(src, c', text[1..]) &&
            BodyEnd(c, text) == BodyEnd(c', text[1..])
  {
    hide SeenEnds, Convert;
    assert BodyLine(text[0]);
  }

  lemma BodyNil(src: seq<string>, c: nat, text: seq<string>)
    requires text == []
    ensures BodyLines(text) && Body(src, c, text) == [] && BodyEnd(c, text) == c
  {
  }

  /** What the stream yields up to the end of one hunk. */
  function Written(src: seq<string>, c: nat, h: Hunk): seq<string>
    requires BodyLines(h.text)
  {
    Skip(src, c, Max(c, Start(h))) + Body(src, Max(c, Start(h)), h.text)
  }

  lemma StreamUnfold(src: seq<string>, c: nat, hs: seq<Hunk>)
    requires hs != [] && AllBodyLines(hs)
    ensures BodyLines(hs[0].text) && AllBodyLines(hs[1..])
    ensures Stream(src, c, hs) ==
            Written(src, c, hs[0]) + Stream(src, BodyEnd(Max(c, Start(hs[0])), hs[0].text), hs[1..])
  {
  }

  lemma StreamNil(src: seq<string>, c: nat, hs: seq<Hunk>)
    requires hs == []
    ensures AllBodyLines(hs) && Stream(src, c, hs) == src[Min(c, |src|)..]
  {
  }

  // -------------------------------------------------------------------------
  // The generator itself

  /** The input stream together with the statistics that `get_line` collects. */
  class SourceReader {
    const lines: seq<string>
    var pos: nat
    var lineends: Ends
    ghost var calls: nat

    ghost predicate Valid()
      reads this
    {
      pos == Min(calls, |lines|) && lineends == SeenEnds(lines, calls)
    }

    constructor (lines: seq<string>)
      ensures this.lines == lines && calls == 0 && Valid()
    {
      this.lines := lines;
      pos, lineends, calls := 0, NO_ENDS, 0;
    }

    method CountLineEnd(line: string)
      modifies this`lineends
      ensures lineends == old(lineends).Add(line)
    {
      if EndsWith(line, CRLF) {
        lineends := lineends.(crlf := lineends.crlf + 1);
      } else if EndsWith(line, LF) {
        lineends := lineends.(lf := lineends.lf + 1);
      } else if EndsWith(line, CR) {
        lineends := lineends.(cr := lineends.cr + 1);
      }
    }

    method GetLine() returns (line: string)
      requires Valid()
      modifies this
      ensures Valid() && calls == old(calls) + 1
      ensures line == LineAt(lines, old(calls))
    {
      line := "";
      if pos < |lines| {
        line := lines[pos];
        pos := pos + 1;
      }
      CountLineEnd(line);
      SeenEndsStep(lines, calls);
      calls := calls + 1;
    }

    /** `for line in instream: yield line`. */
    method Rest() returns (tail: seq<string>)
      requires Valid()
      ensures tail == lines[Min(calls, |lines|)..]
    {
      hide SeenEnds;
      tail := [];
      var i := pos;
      while i < |lines|
        invariant pos <= i <= |lines|
        invariant tail == lines[pos..i]
      {
        tail := tail + [lines[i]];
        i := i + 1;
      }
    }
  }

  /** The first inner loop: copy the lines before a hunk. */
  method SkipTo(instream: SourceReader, srclineno: nat, startsrc: nat) returns (out: seq<string>, lineno: nat)
    requires instream.Valid() && srclineno == instream.calls + 1
    modifies instream
    ensures instream.Valid() && lineno == instream.calls + 1
    ensures var at := Max(old(instream.calls), if startsrc == 0 then 0 else startsrc - 1);
            instream.calls == at && out == Skip(instream.lines, old(instream.calls), at)
  {
    hide SeenEnds;
    out, lineno := [], srclineno;
    ghost var c := instream.calls;
    ghost var at := Max(c, if startsrc == 0 then 0 else startsrc - 1);
    while lineno < startsrc
      invariant instream.Valid() && lineno == instream.calls + 1 && c <= instream.calls <= at
      invariant out + Skip(instream.lines, instream.calls, at) == Skip(instream.lines, c, at)
    {
      var line := instream.GetLine();
      out := out + [line];
      lineno := lineno + 1;
    }
  }

  /** The second inner loop: write one hunk body. */
  method PatchBody(instream: SourceReader, srclineno: nat, text: seq<string>) returns (out: seq<string>, lineno: nat)
    requires BodyLines(text)
    requires instream.Valid() && srclineno == instream.calls + 1
    modifies instream
    ensures instream.Valid() && lineno == instream.calls + 1
    ensures instream.calls == BodyEnd(old(instream.calls), text)
    ensures out == Body(instream.lines, old(instream.calls), text)
  {
    hide Body, BodyEnd, SeenEnds, RStrip, BodyLines;
    out, lineno := [], srclineno;
    ghost var c, src := instream.calls, instream.lines;
    assert text[0..] == text;
    var j := 0;
    while j < |text|
      invariant 0 <= j <= |text| && BodyLines(text[j..])
      invariant instream.Valid() && lineno == instream.calls + 1
      invariant BodyEnd(instream.calls, text[j..]) == BodyEnd(c, text)
      invariant out + Body(src, instream.calls, text[j..]) == Body(src, c, text)
    {
      var hline := text[j];
      assert text[j..][0] == hline && text[j..][1..] == text[j + 1..];
      BodyUnfold(src, instream.calls, text[j..]);
      j := j + 1;
      if hline[0] == '-' || hline[0] == '\\' {
        var _ := instream.GetLine();
        lineno := lineno + 1;
        continue;
      }
      if hline[0] != '+' {
        var _ := instream.GetLine();
        lineno := lineno + 1;
      }
      var line2write := hline[1..];
      if instream.lineends.Consistent() {
        out := out + [RStrip(line2write) + instream.lineends.Newline()];
      } else {
        out := out + [line2write];
      }
    }
    BodyNil(src, instream.calls, text[j..]);
  }

  method Patch(src: seq<string>, hunks: seq<Hunk>) returns (out: seq<string>)
    requires AllBodyLines(hunks)
    ensures out == Stream(src, 0, hunks)
  {
    hide Stream, Body, BodyEnd, Skip, SeenEnds, AllBodyLines, BodyLines;
    var instream := new SourceReader(src);
    var srclineno := 1;
    out := [];
    assert hunks[0..] == hunks;
    var i := 0;
    while i < |hunks|
      invariant 0 <= i <= |hunks| && AllBodyLines(hunks[i..])
      invariant instream.Valid() && instream.lines == src && fresh(instream)
      invariant srclineno == instream.calls + 1
      invariant out + Stream(src, instream.calls, hunks[i..]) == Stream(src, 0, hunks)
    {
      var h := hunks[i];
      assert hunks[i..][0] == h && hunks[i..][1..] == hunks[i + 1..];
      ghost var c, out0 := instream.calls, out;
      StreamUnfold(src, c, hunks[i..]);
      var part;
      part, srclineno := SkipTo(instream, srclineno, h.startsrc);
      out := out + part;
      part, srclineno := PatchBody(instream, srclineno, h.text);
      out := out + part;
      assert out == out0 + Written(src, c, h);
      i := i + 1;
    }
    var tail := instream.Rest();
    StreamNil(src, instream.calls, hunks[i..]);
    out := out + tail;
  }

  // -------------------------------------------------------------------------
  // Refinement of the reference meaning

  /** From index `c` on, the hunks touch one another and the last one ends the file. */
  predicate TouchesEnd(n: nat, c: nat, hs: seq<Hunk>)
    decreases |hs|
  {
    if hs == [] then c == n else Start(hs[0]) == c && TouchesEnd(n, End(hs[0]), hs[1..])
  }

  /** A '\' line only occurs where no unpatched source line follows, as after "\ No newline at end of file". */
  predicate SlashesAtEnd(n: nat, hs: seq<Hunk>) {
    hs == [] ||
    ((Slashes(hs[0].text) > 0 ==> TouchesEnd(n, End(hs[0]), hs[1..])) && SlashesAtEnd(n, hs[1..]))
  }

  /** Being `d` lines ahead at index `c`, with the hunks `hs` still to come, loses no source line. */
  predicate Harmless(n: nat, c: nat, d: nat, hs: seq<Hunk>) {
    (d == 0 || TouchesEnd(n, c, hs)) && SlashesAtEnd(n, hs)
  }

  lemma HarmlessUnfold(n: nat, c: nat, d: nat, hs: seq<Hunk>)
    requires hs != [] && c <= Start(hs[0])
    ensures var d' := Max(c + d, Start(hs[0])) - Start(hs[0]) + Slashes(hs[0].text);
            Harmless(n, c, d, hs) <==> (d == 0 || Start(hs[0]) == c) && Harmless(n, End(hs[0]), d', hs[1..])
  {
  }

  lemma {:induction false} BodyBare(src: seq<string>, c: nat, text: seq<string>)
    requires BodyLines(text)
    ensures Bare(Body(src, c, text)) == Bare(NewLines(text))
    decreases |text|
  {
    if text != [] {
      assert BodyLine(text[0]);
      var c' := if text[0][0] == '+' then c else c + 1;
      BodyBare(src, c', text[1..]);
      if IsNew(text[0]) {
        var e := SeenEnds(src, c');
        if e.Consistent() {
          RStripIdempotent(Tail(text[0]), e.Newline());
        }
        BareConcat([Convert(e, text[0])], Body(src, c', text[1..]));
        BareConcat([Tail(text[0])], NewLines(text[1..]));
        assert Bare([Convert(e, text[0])]) == Bare([Tail(text[0])]);
      }
    }
  }

  lemma {:induction false} SkipIsSlice(src: seq<string>, c: nat, upto: nat)
    requires c <= upto <= |src|
    ensures Skip(src, c, upto) == src[c..upto]
    decreases upto - c
  {
    if c < upto {
      SkipIsSlice(src, c + 1, upto);
    }
  }

  /** `a` never has more lines than `b`; it has as many exactly when `all` holds, and then the lines agree. */
  predicate Agrees(a: seq<string>, b: seq<string>, all: bool) {
    |a| <= |b| && (|a| == |b| <==> all) && (|a| == |b| ==> Bare(a) == Bare(b))
  }

  lemma AgreesConcat(a: seq<string>, b: seq<string>, all: bool, a': seq<string>, b': seq<string>, all': bool)
    requires Agrees(a, b, all) && Agrees(a', b', all')
    ensures Agrees(a + a', b + b', all && all')
  {
    BareConcat(a, a');
    BareConcat(b, b');
  }

  /** One hunk, starting `d` lines late: what the stream writes for it against what the reference does. */
  lemma HunkAgainstFrom(src: seq<string>, c: nat, d: nat, h: Hunk)
    requires WellFormed(h) && c <= Start(h) <= |src|
    ensures Agrees(Written(src, c + d, h), Wanted(src, c, h), d == 0 || Start(h) == c)
  {
    var at := Max(c + d, Start(h));
    BodyBare(src, at, h.text);
    assert |Body(src, at, h.text)| == |Bare(Body(src, at, h.text))| == |NewLines(h.text)|;
    if d == 0 || Start(h) == c {
      if d == 0 {
        SkipIsSlice(src, c, Start(h));
      }
      BareConcat(Skip(src, c + d, at), Body(src, at, h.text));
      BareConcat(src[c..Start(h)], NewLines(h.text));
    }
  }

  /**
    The stream, `d` lines ahead of where it should be, never yields more lines than the
    reference; it yields as many exactly when no read-ahead eats an unpatched line, and
    then it yields the same lines.
   */
  lemma {:induction false} StreamAgainstFrom(src: seq<string>, c: nat, d: nat, hs: seq<Hunk>)
    requires AllWellFormed(hs) && Placed(|src|, c, hs)
    ensures Agrees(Stream(src, c + d, hs), From(src, c, hs), Harmless(|src|, c, d, hs))
    decreases |hs|
  {
    hide Stream, From, Bare, Harmless, BodyLines;
    PlacedBounds(|src|, c, hs);
    if hs == [] {
      StreamBase(src, c, d);
    } else {
      var at := Max(c + d, Start(hs[0]));
      StreamAgainstFrom(src, End(hs[0]), at - Start(hs[0]) + Slashes(hs[0].text), hs[1..]);
      StreamStep(src, c, d, hs);
    }
  }

  lemma StreamBase(src: seq<string>, c: nat, d: nat)
    requires c <= |src|
    ensures Agrees(Stream(src, c + d, []), From(src, c, []), Harmless(|src|, c, d, []))
  {
  }

  lemma StreamStep(src: seq<string>, c: nat, d: nat, hs: seq<Hunk>)
    requires hs != [] && AllWellFormed(hs) && Placed(|src|, c, hs)
    requires c <= Start(hs[0]) && End(hs[0]) <= |src|
    requires var d' := Max(c + d, Start(hs[0])) - Start(hs[0]) + Slashes(hs[0].text);
             Agrees(Stream(src, End(hs[0]) + d', hs[1..]), From(src, End(hs[0]), hs[1..]),
                    Harmless(|src|, End(hs[0]), d', hs[1..]))
    ensures Agrees(Stream(src, c + d, hs), From(src, c, hs), Harmless(|src|, c, d, hs))
  {
    hide Stream, From, Bare, RStrip, Body, Skip;
    var h, rest := hs[0], hs[1..];
    var at := Max(c + d, Start(h));
    var d' := at - Start(h) + Slashes(h.text);
    assert WellFormed(h);
    HunkAgainstFrom(src, c, d, h);
    HarmlessUnfold(|src|, c, d, hs);
    StreamUnfold(src, c + d, hs);
    FromUnfold(src, c, hs);
    assert BodyEnd(at, h.text) == End(h) + d';
    AgreesConcat(Written(src, c + d, h), Wanted(src, c, h), d == 0 || Start(h) == c,
                 Stream(src, End(h) + d', rest), From(src, End(h), rest), Harmless(|src|, End(h), d', rest));
  }

  /** The streaming patcher computes the splice, up to line terminators, exactly when '\' lines come last. */
  lemma {:induction false} PatchIsSplice(src: seq<string>, hs: seq<Hunk>)
    requires AllWellFormed(hs) && Placed(|src|, 0, hs)
    ensures Bare(Stream(src, 0, hs)) == Bare(Splice(src, hs)) <==> SlashesAtEnd(|src|, hs)
  {
    hide Stream, From, Splice, TouchesEnd, SlashesAtEnd;
    StreamAgainstFrom(src, 0, 0, hs);
    FromIsSplice(src, hs);
    assert |Bare(Stream(src, 0, hs))| == |Stream(src, 0, hs)|;
    assert |Bare(Splice(src, hs))| == |Splice(src, hs)|;
  }

  /** It never writes more than the source and what the hunks add, and as much exactly when '\' lines come last. */
  lemma {:induction false} PatchLength(src: seq<string>, hs: seq<Hunk>)
    requires AllWellFormed(hs) && Placed(|src|, 0, hs)
    ensures |Stream(src, 0, hs)| <= |src| + Growth(hs)
    ensures |Stream(src, 0, hs)| == |src| + Growth(hs) <==> SlashesAtEnd(|src|, hs)
  {
    hide Stream, From, TouchesEnd, SlashesAtEnd;
    StreamAgainstFrom(src, 0, 0, hs);
    FromLength(src, 0, hs);
  }
}
