/** Lines of text as the Python 2 code sees them: byte strings that keep their line terminator. */
module Text {

  const LF := "\n"
  const CRLF := "\r\n"
  const CR := "\r"

  predicate IsEol(c: char) {
    c == '\n' || c == '\r'
  }

  /** `s.rstrip("\r\n")`. */
  function RStrip(s: string): (r: string)
    ensures r <= s
    ensures r == [] || !IsEol(r[|r| - 1])
    ensures forall i :: |r| <= i < |s| ==> IsEol(s[i])
  {
    if s == [] || !IsEol(s[|s| - 1]) then s else RStrip(s[..|s| - 1])
  }

  /** `s[1:]`, which is defined on the empty string too. */
  function Tail(s: string): string {
    if s == [] then [] else s[1..]
  }

  predicate EndsWith(s: string, suffix: string) {
    |suffix| <= |s| && s[|s| - |suffix|..] == suffix
  }

  predicate IsTerminator(nl: string) {
    nl == LF || nl == CRLF || nl == CR
  }

  /** Every line of a file without its terminator: what the tool compares. */
  function Bare(ls: seq<string>): (r: seq<string>)
    ensures |r| == |ls|
    ensures forall i :: 0 <= i < |ls| ==> r[i] == RStrip(ls[i])
  {
    seq(|ls|, i requires 0 <= i < |ls| => RStrip(ls[i]))
  }

  /** All lines are terminated by `nl` and by nothing else. */
  predicate Uniform(ls: seq<string>, nl: string) {
    forall i :: 0 <= i < |ls| ==> ls[i] == RStrip(ls[i]) + nl
  }

  /** The same lines, terminators aside. */
  predicate SameLines(a: seq<string>, b: seq<string>) {
    Bare(a) == Bare(b)
  }

  lemma BareConcat(a: seq<string>, b: seq<string>)
    ensures Bare(a + b) == Bare(a) + Bare(b)
  {
  }

  /** `RStrip` is the only way to split a line into a text without trailing terminators and terminators. */
  lemma {:induction false} RStripUnique(s: string, eol: string)
    requires s == [] || !IsEol(s[|s| - 1])
    requires forall i :: 0 <= i < |eol| ==> IsEol(eol[i])
    ensures RStrip(s + eol) == s
  {
    if eol == [] {
      assert s + eol == s;
    } else {
      assert (s + eol)[..|s + eol| - 1] == s + eol[..|eol| - 1];
      RStripUnique(s, eol[..|eol| - 1]);
    }
  }

  lemma RStripIdempotent(s: string, nl: string)
    requires IsTerminator(nl)
    ensures RStrip(RStrip(s) + nl) == RStrip(s)
  {
    RStripUnique(RStrip(s), nl);
  }

  /** Two files with the same terminator that agree without terminators are equal. */
  lemma UniformEqual(a: seq<string>, b: seq<string>, nl: string)
    requires Uniform(a, nl) && Uniform(b, nl)
    requires Bare(a) == Bare(b)
    ensures a == b
  {
    forall i | 0 <= i < |a|
      ensures a[i] == b[i]
    {
      assert Bare(a)[i] == Bare(b)[i];
    }
  }

  lemma ConcatInjective<T>(a: seq<T>, b: seq<T>, c: seq<T>, d: seq<T>)
    requires |a| == |c|
    ensures a + b == c + d <==> a == c && b == d
  {
    if a + b == c + d {
      assert a == (a + b)[..|a|] == (c + d)[..|a|] == c;
      assert b == (a + b)[|a|..] == (c + d)[|a|..] == d;
    }
  }

  // -------------------------------------------------------------------------
  // Line-end statistics

  /** How many lines end in "\n" (alone), in "\r\n" and in "\r". */
  datatype Ends = Ends(lf: nat, crlf: nat, cr: nat) {

    /** The dictionary after one more line. */
    function Add(l: string): Ends {
      if EndsWith(l, CRLF) then this.(crlf := crlf + 1)
      else if EndsWith(l, LF) then this.(lf := lf + 1)
      else if EndsWith(l, CR) then this.(cr := cr + 1)
      else this
    }

    /** Exactly one kind of line end has been seen. */
    predicate Consistent() {
      (if lf != 0 then 1 else 0) + (if crlf != 0 then 1 else 0) + (if cr != 0 then 1 else 0) == 1
    }

    function Newline(): string
      requires Consistent()
    {
      if lf != 0 then LF else if crlf != 0 then CRLF else CR
    }
  }

  const NO_ENDS := Ends(0, 0, 0)

  function CountEnds(ls: seq<string>): Ends {
    if ls == [] then NO_ENDS else CountEnds(ls[..|ls| - 1]).Add(ls[|ls| - 1])
  }

  lemma AddLf(e: Ends, b: string)
    requires b == [] || !IsEol(b[|b| - 1])
    ensures e.Add(b + LF) == e.(lf := e.lf + 1)
  {
    hide EndsWith;
    var l := b + LF;
    assert l[|l| - 1] == '\n' && (|l| >= 2 ==> l[|l| - 2] == b[|b| - 1]);
    EndsWithOne(l, LF, '\n');
    EndsWithTwo(l);
  }

  lemma AddCrlf(e: Ends, b: string)
    ensures e.Add(b + CRLF) == e.(crlf := e.crlf + 1)
  {
    hide EndsWith;
    var l := b + CRLF;
    assert l[|l| - 1] == '\n' && l[|l| - 2] == '\r';
    EndsWithTwo(l);
  }

  lemma AddCr(e: Ends, b: string)
    ensures e.Add(b + CR) == e.(cr := e.cr + 1)
  {
    hide EndsWith;
    var l := b + CR;
    assert l[|l| - 1] == '\r';
    EndsWithOne(l, LF, '\n');
    EndsWithOne(l, CR, '\r');
    EndsWithTwo(l);
  }

  /** A line that ends in `nl` and in nothing else is counted for `nl`. */
  lemma AddEnded(e: Ends, b: string, nl: string)
    requires IsTerminator(nl) && (b == [] || !IsEol(b[|b| - 1]))
    ensures e.Add(b + nl) == if nl == LF then e.(lf := e.lf + 1) else if nl == CRLF then e.(crlf := e.crlf + 1)
                             else e.(cr := e.cr + 1)
  {
    hide EndsWith;
    if nl == LF {
      AddLf(e, b);
    } else if nl == CRLF {
      AddCrlf(e, b);
    } else {
      AddCr(e, b);
    }
  }

  lemma EndsWithOne(l: string, suffix: string, c: char)
    requires suffix == [c]
    ensures EndsWith(l, suffix) <==> l != [] && l[|l| - 1] == c
  {
    if l != [] {
      assert l[|l| - 1..] == [l[|l| - 1]];
    }
  }

  lemma EndsWithTwo(l: string)
    ensures EndsWith(l, CRLF) <==> |l| >= 2 && l[|l| - 2] == '\r' && l[|l| - 1] == '\n'
  {
    if |l| >= 2 {
      assert l[|l| - 2..] == [l[|l| - 2], l[|l| - 1]];
    }
  }

  /** In a uniform file the statistics name its terminator as soon as one line has been read. */
  lemma {:induction false} CountUniform(ls: seq<string>, nl: string)
    requires IsTerminator(nl) && Uniform(ls, nl)
    ensures var e := CountEnds(ls);
            e == if nl == LF then Ends(|ls|, 0, 0) else if nl == CRLF then Ends(0, |ls|, 0) else Ends(0, 0, |ls|)
  {
    hide RStrip, EndsWith;
    if ls != [] {
      var l := ls[|ls| - 1];
      assert l == RStrip(l) + nl;
      CountUniform(ls[..|ls| - 1], nl);
      AddEnded(CountEnds(ls[..|ls| - 1]), RStrip(l), nl);
    }
  }
}
