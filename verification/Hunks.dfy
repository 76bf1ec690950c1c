/** Hunks of a unified diff, their two sides, and the reference meaning of a list of hunks. */
module Hunks {
  import opened Text

  /** A parsed hunk: the numbers of `@@ -startsrc,linessrc +starttgt,linestgt @@` and the body lines. */
  datatype Hunk = Hunk(startsrc: nat, linessrc: nat, starttgt: nat, linestgt: nat, text: seq<string>)

  /** A line a hunk body may hold. */
  predicate BodyLine(l: string) {
    l != [] && (l[0] == '-' || l[0] == ' ' || l[0] == '+' || l[0] == '\\')
  }

  predicate BodyLines(text: seq<string>) {
    forall i :: 0 <= i < |text| ==> BodyLine(text[i])
  }

  predicate IsOld(l: string) {
    l != [] && (l[0] == '-' || l[0] == ' ')
  }

  predicate IsNew(l: string) {
    l != [] && (l[0] == '+' || l[0] == ' ')
  }

  predicate IsSlash(l: string) {
    l != [] && l[0] == '\\'
  }

  /** The source side of a body: its ' ' and '-' lines without the mark. */
  function OldLines(text: seq<string>): (r: seq<string>) {
    if text == [] then [] else (if IsOld(text[0]) then [Tail(text[0])] else []) + OldLines(text[1..])
  }

  /** The target side of a body: its ' ' and '+' lines without the mark. */
  function NewLines(text: seq<string>): (r: seq<string>) {
    if text == [] then [] else (if IsNew(text[0]) then [Tail(text[0])] else []) + NewLines(text[1..])
  }

  function Slashes(text: seq<string>): nat {
    if text == [] then 0 else (if IsSlash(text[0]) then 1 else 0) + Slashes(text[1..])
  }

  /** The body has exactly the line counts the header declares. */
  predicate WellFormed(h: Hunk) {
    BodyLines(h.text) && |OldLines(h.text)| == h.linessrc && |NewLines(h.text)| == h.linestgt
  }

  predicate AllWellFormed(hs: seq<Hunk>) {
    forall i :: 0 <= i < |hs| ==> WellFormed(hs[i])
  }

  /** Index of the first source line of a hunk, as the tool counts (line 0 and line 1 are the same place). */
  function Start(h: Hunk): nat {
    if h.startsrc == 0 then 0 else h.startsrc - 1
  }

  function End(h: Hunk): nat {
    Start(h) + h.linessrc
  }

  function TgtStart(h: Hunk): nat {
    if h.starttgt == 0 then 0 else h.starttgt - 1
  }

  /** From index `c` on, the hunks are in order, do not overlap and lie inside a file of `n` lines. */
  predicate Placed(n: nat, c: nat, hs: seq<Hunk>)
    decreases |hs|
  {
    if hs == [] then c <= n
    else c <= Start(hs[0]) && Placed(n, End(hs[0]), hs[1..])
  }

  /** The target numbers are the source numbers moved by the lines added so far. */
  predicate Numbered(hs: seq<Hunk>, delta: int)
    decreases |hs|
  {
    hs == [] || (TgtStart(hs[0]) == Start(hs[0]) + delta && Numbered(hs[1..], delta + hs[0].linestgt - hs[0].linessrc))
  }

  /** The source holds the old side of every hunk at its claimed place, line terminators aside. */
  predicate Matches(src: seq<string>, hs: seq<Hunk>) {
    forall i :: 0 <= i < |hs| ==> HunkMatches(src, hs[i])
  }

  predicate HunkMatches(src: seq<string>, h: Hunk) {
    End(h) <= |src| && Bare(src[Start(h)..End(h)]) == Bare(OldLines(h.text))
  }

  // -------------------------------------------------------------------------
  // Reversal

  function ReverseLine(l: string): string {
    if l == [] then l
    else if l[0] == '-' then "+" + l[1..]
    else if l[0] == '+' then "-" + l[1..]
    else l
  }

  function ReverseText(text: seq<string>): (r: seq<string>)
    ensures |r| == |text|
  {
    if text == [] then [] else [ReverseLine(text[0])] + ReverseText(text[1..])
  }

  function Reverse(h: Hunk): Hunk {
    Hunk(h.starttgt, h.linestgt, h.startsrc, h.linessrc, ReverseText(h.text))
  }

  function ReverseAll(hs: seq<Hunk>): (r: seq<Hunk>)
    ensures |r| == |hs|
  {
    seq(|hs|, i requires 0 <= i < |hs| => Reverse(hs[i]))
  }

  lemma {:induction false} ReverseTextSides(text: seq<string>)
    requires BodyLines(text)
    ensures BodyLines(ReverseText(text))
    ensures OldLines(ReverseText(text)) == NewLines(text)
    ensures NewLines(ReverseText(text)) == OldLines(text)
    ensures Slashes(ReverseText(text)) == Slashes(text)
  {
    if text != [] {
      ReverseTextSides(text[1..]);
      var l := text[0];
      assert BodyLine(l);
      assert Tail(ReverseLine(l)) == Tail(l);
      var r := ReverseText(text);
      assert r[0] == ReverseLine(l) && r[1..] == ReverseText(text[1..]);
    }
  }

  // -------------------------------------------------------------------------
  // Reference meaning: replace the blocks one at a time, the last hunk first,
  // so that no replacement moves a block that is still to be replaced.

  function Replace(src: seq<string>, h: Hunk): seq<string>
    requires End(h) <= |src|
  {
    src[..Start(h)] + NewLines(h.text) + src[End(h)..]
  }

  function Splice(src: seq<string>, hs: seq<Hunk>): seq<string>
    requires Placed(|src|, 0, hs)
    decreases |hs|
  {
    if hs == [] then src
    else
      var last := hs[|hs| - 1];
      PlacedInit(|src|, 0, hs);
      PlacedWeaken(Start(last), |src| - last.linessrc + |NewLines(last.text)|, 0, hs[..|hs| - 1]);
      Splice(Replace(src, last), hs[..|hs| - 1])
  }

  lemma {:induction false} PlacedInit(n: nat, c: nat, hs: seq<Hunk>)
    requires hs != [] && Placed(n, c, hs)
    ensures var last := hs[|hs| - 1];
            End(last) <= n && c <= Start(last) && Placed(Start(last), c, hs[..|hs| - 1])
    decreases |hs|
  {
    if |hs| > 1 {
      PlacedInit(n, End(hs[0]), hs[1..]);
      assert hs[1..][..|hs| - 2] == hs[..|hs| - 1][1..];
    }
  }

  lemma {:induction false} PlacedWeaken(m: nat, n: nat, c: nat, hs: seq<Hunk>)
    requires m <= n && Placed(m, c, hs)
    ensures Placed(n, c, hs)
    decreases |hs|
  {
    if hs != [] {
      PlacedWeaken(m, n, End(hs[0]), hs[1..]);
    }
  }

  /** The same file written left to right, from index `c` of the source. */
  function From(src: seq<string>, c: nat, hs: seq<Hunk>): seq<string>
    requires Placed(|src|, c, hs)
    decreases |hs|
  {
    if hs == [] then src[c..]
    else
      PlacedBounds(|src|, c, hs);
      src[c..Start(hs[0])] + NewLines(hs[0].text) + From(src, End(hs[0]), hs[1..])
  }

  /** The part of the file that ends with the new side of `h`. */
  function Wanted(src: seq<string>, c: nat, h: Hunk): seq<string>
    requires c <= Start(h) <= |src|
  {
    src[c..Start(h)] + NewLines(h.text)
  }

  lemma FromNil(src: seq<string>, c: nat, hs: seq<Hunk>)
    requires hs == [] && c <= |src|
    ensures From(src, c, hs) == src[c..]
  {
  }

  lemma FromUnfold(src: seq<string>, c: nat, hs: seq<Hunk>)
    requires hs != [] && Placed(|src|, c, hs) && c <= Start(hs[0]) <= |src|
    ensures From(src, c, hs) == Wanted(src, c, hs[0]) + From(src, End(hs[0]), hs[1..])
  {
  }

  lemma {:induction false} PlacedBounds(n: nat, c: nat, hs: seq<Hunk>)
    requires Placed(n, c, hs)
    ensures c <= n
    ensures hs != [] ==> End(hs[0]) <= n
    ensures forall i :: 0 <= i < |hs| ==> c <= Start(hs[i]) && End(hs[i]) <= n
    decreases |hs|
  {
    if hs != [] {
      PlacedBounds(n, End(hs[0]), hs[1..]);
      forall i | 0 <= i < |hs|
        ensures c <= Start(hs[i]) && End(hs[i]) <= n
      {
        if i > 0 {
          assert hs[i] == hs[1..][i - 1];
        }
      }
    }
  }

  /** Writing left to right gives the reference meaning. */
  lemma {:induction false} FromIsSplice(src: seq<string>, hs: seq<Hunk>)
    requires Placed(|src|, 0, hs)
    ensures From(src, 0, hs) == Splice(src, hs)
    decreases |hs|
  {
    if hs != [] {
      var last := hs[|hs| - 1];
      var init := hs[..|hs| - 1];
      PlacedInit(|src|, 0, hs);
      var src' := Replace(src, last);
      PlacedWeaken(Start(last), |src'|, 0, init);
      FromIsSplice(src', init);
      FromReplaceLast(src, 0, hs);
    }
  }

  lemma {:induction false} FromReplaceLast(src: seq<string>, c: nat, hs: seq<Hunk>)
    requires hs != [] && Placed(|src|, c, hs)
    ensures End(hs[|hs| - 1]) <= |src|
    ensures var src' := Replace(src, hs[|hs| - 1]);
            Placed(|src'|, c, hs[..|hs| - 1]) && From(src', c, hs[..|hs| - 1]) == From(src, c, hs)
    decreases |hs|
  {
    hide From, NewLines;
    var last := hs[|hs| - 1];
    PlacedInit(|src|, c, hs);
    PlacedBounds(|src|, c, hs);
    var src' := Replace(src, last);
    PlacedWeaken(Start(last), |src'|, c, hs[..|hs| - 1]);
    FromUnfold(src, c, hs);
    if |hs| == 1 {
      assert src'[c..] == Wanted(src, c, last) + src[End(last)..];
      FromNil(src, End(last), hs[1..]);
      FromNil(src', c, hs[..0]);
    } else {
      var init := hs[..|hs| - 1];
      FromReplaceLast(src, End(hs[0]), hs[1..]);
      assert hs[1..][..|hs| - 2] == init[1..];
      PlacedInit(|src|, End(hs[0]), hs[1..]);
      FromUnfold(src', c, init);
      assert Wanted(src', c, hs[0]) == Wanted(src, c, hs[0]) by {
        assert src'[c..Start(hs[0])] == src[c..Start(hs[0])];
      }
    }
  }

  /** `Splice` only looks at its source up to line terminators, as long as the result is read that way. */
  lemma {:induction false} FromBare(a: seq<string>, b: seq<string>, c: nat, hs: seq<Hunk>)
    requires Bare(a) == Bare(b) && Placed(|a|, c, hs)
    ensures |a| == |b|
    ensures Bare(From(a, c, hs)) == Bare(From(b, c, hs))
    decreases |hs|
  {
    assert |a| == |Bare(a)| == |Bare(b)| == |b|;
    PlacedBounds(|a|, c, hs);
    assert forall i :: 0 <= i < |a| ==> RStrip(a[i]) == Bare(a)[i] == RStrip(b[i]);
    if hs == [] {
      assert Bare(a[c..]) == Bare(b[c..]);
    } else {
      FromBare(a, b, End(hs[0]), hs[1..]);
      var s := Start(hs[0]);
      assert Bare(a[c..s]) == Bare(b[c..s]);
      BareConcat(a[c..s] + NewLines(hs[0].text), From(a, End(hs[0]), hs[1..]));
      BareConcat(b[c..s] + NewLines(hs[0].text), From(b, End(hs[0]), hs[1..]));
      BareConcat(a[c..s], NewLines(hs[0].text));
      BareConcat(b[c..s], NewLines(hs[0].text));
    }
  }

  /** The patched length is the source length plus what every hunk adds minus what it removes. */
  function Growth(hs: seq<Hunk>): int {
    if hs == [] then 0 else hs[0].linestgt - hs[0].linessrc + Growth(hs[1..])
  }

  lemma {:induction false} FromLength(src: seq<string>, c: nat, hs: seq<Hunk>)
    requires AllWellFormed(hs) && Placed(|src|, c, hs)
    ensures |From(src, c, hs)| == |src| - c + Growth(hs)
    decreases |hs|
  {
    PlacedBounds(|src|, c, hs);
    if hs != [] {
      FromLength(src, End(hs[0]), hs[1..]);
    }
  }
}
