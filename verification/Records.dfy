/** The record format `<name>:<data length in decimal>:<data>`, its reader, and the chunking of values. */
module Records {
  import opened Decimal

  datatype Record = Record(name: string, data: string)
  datatype Option<T> = None | Some(value: T)

  const SEP: string := ":"

  function Encode(r: Record): string {
    r.name + (SEP + (Digits(|r.data|) + (SEP + r.data)))
  }

  function EncodeAll(rs: seq<Record>): string {
    if rs == [] then [] else Encode(rs[0]) + EncodeAll(rs[1..])
  }

  predicate NoColon(s: string) {
    forall i :: 0 <= i < |s| ==> s[i] != ':'
  }

  /** Up to the first colon, and what follows that colon. */
  function Cut(s: string): (r: Option<(string, string)>)
    ensures r.Some? ==> |r.value.1| < |s|
  {
    if s == [] then None
    else if s[0] == ':' then Some(([], s[1..]))
    else
      match Cut(s[1..])
      case None => None
      case Some((name, rest)) => Some(([s[0]] + name, rest))
  }

  /** A reader of the format: name, colon, number, colon, and as many characters as the number says. */
  function Decode(s: string): Option<seq<Record>>
    decreases |s|
  {
    if s == [] then Some([])
    else
      match Cut(s)
      case None => None
      case Some((name, s1)) =>
        match Cut(s1)
        case None => None
        case Some((number, s2)) =>
          if number == [] || !AllDigits(number) || Value(number) > |s2| then None
          else
            match Decode(s2[Value(number)..])
            case None => None
            case Some(rs) => Some([Record(name, s2[..Value(number)])] + rs)
  }

  lemma {:induction false} CutConcat(name: string, rest: string)
    requires NoColon(name)
    ensures Cut(name + (SEP + rest)) == Some((name, rest))
  {
    var s := name + (SEP + rest);
    if name == [] {
      assert s[0] == ':' && s[1..] == rest;
    } else {
      assert s[0] == name[0] && s[1..] == name[1..] + (SEP + rest);
      CutConcat(name[1..], rest);
      assert [name[0]] + name[1..] == name;
    }
  }

  lemma DigitsNoColon(n: nat)
    ensures NoColon(Digits(n))
  {
  }

  /** Bytes after the records are read on: the file as a whole is records exactly when those bytes are. */
  lemma {:induction false} DecodeWithTail(rs: seq<Record>, tail: string)
    requires forall i :: 0 <= i < |rs| ==> NoColon(rs[i].name)
    ensures Decode(EncodeAll(rs) + tail) ==
            match Decode(tail)
            case None => None
            case Some(more) => Some(rs + more)
  {
    hide Decode, Encode, EncodeAll, NoColon;
    if rs == [] {
      EncodeNothing(rs, tail);
      match Decode(tail)
      case None =>
      case Some(more) => assert rs + more == more;
    } else {
      EncodeFirst(rs, tail);
      DecodeOne(rs[0], EncodeAll(rs[1..]) + tail);
      DecodeWithTail(rs[1..], tail);
      match Decode(tail)
      case None =>
      case Some(more) => assert [rs[0]] + (rs[1..] + more) == rs + more;
    }
  }

  lemma EncodeNothing(rs: seq<Record>, tail: string)
    requires rs == []
    ensures EncodeAll(rs) + tail == tail
  {
  }

  lemma EncodeFirst(rs: seq<Record>, tail: string)
    requires rs != []
    ensures EncodeAll(rs) + tail == Encode(rs[0]) + (EncodeAll(rs[1..]) + tail)
  {
    hide Encode;
    assert EncodeAll(rs) == Encode(rs[0]) + EncodeAll(rs[1..]);
  }

  lemma DecodeOne(r: Record, rest: string)
    requires NoColon(r.name)
    ensures Decode(Encode(r) + rest) ==
            match Decode(rest)
            case None => None
            case Some(more) => Some([r] + more)
  {
    hide Digits, Value, Cut;
    var number := Digits(|r.data|);
    var s2 := r.data + rest;
    var s1 := number + (SEP + s2);
    assert Encode(r) + rest == r.name + (SEP + s1);
    CutConcat(r.name, s1);
    DigitsNoColon(|r.data|);
    CutConcat(number, s2);
    ValueOfDigits(|r.data|);
    assert s2[..|r.data|] == r.data && s2[|r.data|..] == rest;
  }

  /** Whatever the data holds, colons and digits included, the reader gives the records back. */
  lemma {:induction false} DecodeInvertsEncode(rs: seq<Record>)
    requires forall i :: 0 <= i < |rs| ==> NoColon(rs[i].name)
    ensures Decode(EncodeAll(rs)) == Some(rs)
  {
    DecodeWithTail(rs, []);
    assert EncodeAll(rs) + [] == EncodeAll(rs) && rs + [] == rs;
  }

  lemma {:induction false} CutName(s: string)
    ensures Cut(s).Some? ==> NoColon(Cut(s).value.0)
  {
    if s != [] && s[0] != ':' {
      CutName(s[1..]);
    }
  }

  lemma {:induction false} DecodedNames(s: string)
    ensures Decode(s).Some? ==> forall i :: 0 <= i < |Decode(s).value| ==> NoColon(Decode(s).value[i].name)
    decreases |s|
  {
    hide Cut, Value;
    CutName(s);
    if Decode(s).Some? && s != [] {
      var (name, s1) := Cut(s).value;
      var (number, s2) := Cut(s1).value;
      DecodedNames(s2[Value(number)..]);
    }
  }

  /** A list of records is read back exactly when no name has a colon in it. */
  lemma {:induction false} DecodeExact(rs: seq<Record>)
    ensures Decode(EncodeAll(rs)) == Some(rs) <==> forall i :: 0 <= i < |rs| ==> NoColon(rs[i].name)
  {
    DecodedNames(EncodeAll(rs));
    if forall i :: 0 <= i < |rs| ==> NoColon(rs[i].name) {
      DecodeInvertsEncode(rs);
    }
  }

  /** So the bytes determine the records. */
  lemma {:induction false} UniquelyDecodable(a: seq<Record>, b: seq<Record>)
    requires forall i :: 0 <= i < |a| ==> NoColon(a[i].name)
    requires forall i :: 0 <= i < |b| ==> NoColon(b[i].name)
    requires EncodeAll(a) == EncodeAll(b)
    ensures a == b
  {
    DecodeInvertsEncode(a);
    DecodeInvertsEncode(b);
  }

  /** A dump without a colon is not in the record format. */
  lemma {:induction false} NoColonNoRecord(s: string)
    requires s != [] && NoColon(s)
    ensures Decode(s).None?
  {
    NothingToCut(s);
  }

  lemma {:induction false} NothingToCut(s: string)
    requires NoColon(s)
    ensures Cut(s).None?
  {
    if s != [] {
      NothingToCut(s[1..]);
    }
  }

  lemma {:induction false} EncodeAllConcat(a: seq<Record>, b: seq<Record>)
    ensures EncodeAll(a + b) == EncodeAll(a) + EncodeAll(b)
  {
    if a == [] {
      assert a + b == b;
    } else {
      assert (a + b)[0] == a[0] && (a + b)[1..] == a[1..] + b;
      EncodeAllConcat(a[1..], b);
    }
  }

  // -------------------------------------------------------------------------
  // Chunks

  const UINT32_LIMIT: nat := 0x1_0000_0000

  function StripSpaces(s: string): (r: string)
    ensures r <= s
    ensures r == [] || r[|r| - 1] != ' '
    ensures forall i :: |r| <= i < |s| ==> s[i] == ' '
  {
    if s == [] || s[|s| - 1] != ' ' then s else StripSpaces(s[..|s| - 1])
  }

  function Payload(s: string, strip: bool): string {
    if strip then StripSpaces(s) else s
  }

  function ChunkLen(size: nat, length: nat): nat {
    if size < length then size else length
  }

  /** `++i` on an `unsigned`. */
  function Next(i: nat): (r: nat)
    ensures r < UINT32_LIMIT
  {
    (i + 1) % UINT32_LIMIT
  }

  /** The chunks of a value; `i` is the 32-bit counter before the first of them. */
  function Chunks(name: string, data: string, size: nat, strip: bool, i: nat): (rs: seq<Record>)
    requires size > 0 || data == []
    decreases |data|
  {
    if data == [] then []
    else
      var next := Next(i);
      var n := ChunkLen(size, |data|);
      [Record(name + Digits(next), Payload(data[..n], strip))] + Chunks(name, data[n..], size, strip, next)
  }

  lemma ChunksUnfold(name: string, data: string, size: nat, strip: bool, i: nat)
    requires data != [] && size > 0
    ensures var next := Next(i);
            var n := ChunkLen(size, |data|);
            0 < n <= |data| && Chunks(name, data, size, strip, i) ==
            [Record(name + Digits(next), Payload(data[..n], strip))] + Chunks(name, data[n..], size, strip, next)
  {
  }

  lemma NoChunks(name: string, data: string, size: nat, strip: bool, i: nat)
    requires data == []
    ensures Chunks(name, data, size, strip, i) == []
  {
  }

  function Join(rs: seq<Record>): string {
    if rs == [] then [] else rs[0].data + Join(rs[1..])
  }

  /** Without stripping the payloads put together are the value. */
  lemma {:induction false} ChunksJoin(name: string, data: string, size: nat, i: nat)
    requires size > 0
    ensures Join(Chunks(name, data, size, false, i)) == data
    decreases |data|
  {
    if data != [] {
      var n := ChunkLen(size, |data|);
      ChunksJoin(name, data[n..], size, Next(i));
      assert data == data[..n] + data[n..];
    }
  }

  /** `r` is `s` without its trailing spaces. */
  predicate IsTrimmed(r: string, s: string) {
    && r <= s && (forall i :: |r| <= i < |s| ==> s[i] == ' ')
    && (r == [] || r[|r| - 1] != ' ')
  }

  function Least(a: nat, b: nat): nat {
    if a <= b then a else b
  }

  lemma TimesOneMore(k: nat, size: nat)
    ensures (k + 1) * size == k * size + size && k * size >= 0
  {
  }

  /** So many pieces that the last one is not empty and they cover the value. */
  lemma {:induction false} ChunksCover(name: string, data: string, size: nat, strip: bool, i: nat)
    requires size > 0
    ensures var n := |Chunks(name, data, size, strip, i)|;
            |data| <= n * size && (data != [] ==> n > 0 && (n - 1) * size < |data|) && (data == [] ==> n == 0)
    decreases |data|
  {
    hide Chunks, Digits, Payload;
    if data == [] {
      NoChunks(name, data, size, strip, i);
    } else {
      var rest := data[ChunkLen(size, |data|)..];
      ChunksUnfold(name, data, size, strip, i);
      ChunksCover(name, rest, size, strip, Next(i));
      var m := |Chunks(name, rest, size, strip, Next(i))|;
      assert |Chunks(name, data, size, strip, i)| == m + 1;
      TimesOneMore(m, size);
      if rest != [] {
        TimesOneMore(m - 1, size);
      }
    }
  }

  lemma StepBelow(a: nat, b: nat, size: nat)
    requires a < b
    ensures a * size + size <= b * size
    decreases b
  {
    if a + 1 < b {
      StepBelow(a, b - 1, size);
      TimesOneMore(b - 1, size);
    } else {
      TimesOneMore(a, size);
    }
  }

  lemma QuotientIs(x: nat, n: nat, size: nat)
    requires n * size <= x < n * size + size
    ensures x / size == n
  {
    var q := x / size;
    assert q * size <= x < q * size + size;
    if q < n {
      StepBelow(q, n, size);
    } else if n < q {
      StepBelow(n, q, size);
    }
  }

  lemma RoundedUp(n: nat, length: nat, size: nat)
    requires size > 0 && length <= n * size && (length > 0 ==> n > 0 && (n - 1) * size < length) && (length == 0 ==> n == 0)
    ensures n == (length + size - 1) / size
  {
    if n > 0 {
      TimesOneMore(n - 1, size);
    }
    QuotientIs(length + size - 1, n, size);
  }

  /** Chunk `k` is the `k`-th piece of the value, of full size save the last one; stripped, without its trailing spaces. */
  lemma {:induction false} ChunkIsPiece(name: string, data: string, size: nat, strip: bool, i: nat, k: nat)
    requires size > 0 && k < |Chunks(name, data, size, strip, i)|
    ensures var lo, hi := k * size, Least((k + 1) * size, |data|);
            0 <= lo < hi <= |data| &&
            var chunk := Chunks(name, data, size, strip, i)[k].data;
            if strip then IsTrimmed(chunk, data[lo..hi]) else chunk == data[lo..hi]
    decreases |data|
  {
    hide Chunks, Digits, IsTrimmed;
    if data == [] {
      NoChunks(name, data, size, strip, i);
    } else {
      var n := ChunkLen(size, |data|);
      var rest := data[n..];
      ChunksUnfold(name, data, size, strip, i);
      if k == 0 {
        assert 0 * size == 0 && 1 * size == size;
        FirstPiece(data, n, strip);
      } else {
        ChunkIsPiece(name, rest, size, strip, Next(i), k - 1);
        TimesOneMore(k - 1, size);
        TimesOneMore(k, size);
        var lo, hi := (k - 1) * size, Least(k * size, |rest|);
        assert rest[lo..hi] == data[n + lo..n + hi];
      }
    }
  }

  lemma FirstPiece(data: string, n: nat, strip: bool)
    requires n <= |data|
    ensures if strip then IsTrimmed(Payload(data[..n], strip), data[0..n]) else Payload(data[..n], strip) == data[0..n]
  {
    assert data[..n] == data[0..n];
  }

  /** As many chunks as the value needs at this size, and no chunk is longer. */
  lemma {:induction false} ChunkCount(name: string, data: string, size: nat, strip: bool, i: nat)
    requires size > 0
    ensures |Chunks(name, data, size, strip, i)| == (|data| + size - 1) / size <= |data|
    ensures forall k :: 0 <= k < |Chunks(name, data, size, strip, i)| ==>
              |Chunks(name, data, size, strip, i)[k].data| <= size
  {
    hide Chunks;
    var n := |Chunks(name, data, size, strip, i)|;
    ChunksCover(name, data, size, strip, i);
    RoundedUp(n, |data|, size);
    if n > 0 {
      StepBelow(0, size, n - 1);
    }
    forall k | 0 <= k < n
      ensures |Chunks(name, data, size, strip, i)[k].data| <= size
    {
      ChunkIsPiece(name, data, size, strip, i, k);
      TimesOneMore(k, size);
    }
  }

  /** Chunks are numbered in order, by a counter of 32 bits. */
  lemma {:induction false} ChunkNames(name: string, data: string, size: nat, strip: bool, i: nat, k: nat)
    requires size > 0 && k < |Chunks(name, data, size, strip, i)|
    ensures Chunks(name, data, size, strip, i)[k].name == name + Digits((i + k + 1) % UINT32_LIMIT)
    decreases |data|
  {
    hide Chunks, Digits;
    if data == [] {
      NoChunks(name, data, size, strip, i);
    } else {
      ChunksUnfold(name, data, size, strip, i);
      if k > 0 {
        ChunkNames(name, data[ChunkLen(size, |data|)..], size, strip, Next(i), k - 1);
        assert (Next(i) + (k - 1) + 1) % UINT32_LIMIT == (i + k + 1) % UINT32_LIMIT;
      }
    }
  }

  lemma DigitsInjective(a: nat, b: nat)
    ensures Digits(a) == Digits(b) <==> a == b
  {
    ValueOfDigits(a);
    ValueOfDigits(b);
  }

  /** Two chunks of a value have the same name exactly when the counter came round between them. */
  lemma {:induction false} ChunkNamesDistinct(name: string, data: string, size: nat, strip: bool, k: nat, k': nat)
    requires size > 0 && k < k' < |Chunks(name, data, size, strip, 0)|
    ensures Chunks(name, data, size, strip, 0)[k].name == Chunks(name, data, size, strip, 0)[k'].name <==>
            (k' - k) % UINT32_LIMIT == 0
  {
    hide Chunks, Digits;
    var a, b := (k + 1) % UINT32_LIMIT, (k' + 1) % UINT32_LIMIT;
    ChunkNames(name, data, size, strip, 0, k);
    ChunkNames(name, data, size, strip, 0, k');
    DigitsInjective(a, b);
    assert name + Digits(a) == name + Digits(b) <==> Digits(a) == Digits(b) by {
      assert (name + Digits(a))[|name|..] == Digits(a) && (name + Digits(b))[|name|..] == Digits(b);
    }
    SameRemainder(k + 1, k' + 1, UINT32_LIMIT);
  }

  lemma Distribute(a: int, b: int, m: int)
    ensures (a - b) * m == a * m - b * m && (a + b) * m == a * m + b * m
  {
  }

  lemma RemainderIs(x: nat, q: nat, r: nat, m: nat)
    requires r < m && x == q * m + r
    ensures x % m == r
  {
    QuotientIs(x, q, m);
    assert x == (x / m) * m + x % m;
  }

  lemma Divided(x: nat, m: nat) returns (q: nat, r: nat)
    requires m > 0
    ensures x == q * m + r && r < m && r == x % m
  {
    q, r := x / m, x % m;
  }

  lemma SameThenZero(a: nat, b: nat, m: nat)
    requires a <= b && m > 0 && a % m == b % m
    ensures (b - a) % m == 0
  {
    var qa, ra := Divided(a, m);
    var qb, rb := Divided(b, m);
    DifferenceOf(a, qa, b, qb, ra, m);
  }

  lemma ZeroThenSame(a: nat, b: nat, m: nat)
    requires a <= b && m > 0 && (b - a) % m == 0
    ensures b % m == a % m
  {
    var qa, ra := Divided(a, m);
    var q, r := Divided(b - a, m);
    SumOf(a, qa, b, q, ra, m);
  }

  lemma SameRemainder(a: nat, b: nat, m: nat)
    requires a <= b && m > 0
    ensures a % m == b % m <==> (b - a) % m == 0
  {
    if a % m == b % m {
      SameThenZero(a, b, m);
    } else if (b - a) % m == 0 {
      ZeroThenSame(a, b, m);
    }
  }

  lemma DifferenceOf(a: nat, qa: nat, b: nat, qb: nat, r: nat, m: nat)
    requires a == qa * m + r && b == qb * m + r && a <= b && r < m
    ensures (b - a) % m == 0
  {
    Distribute(qb, qa, m);
    QuotientsGrow(qa, qb, m);
    RemainderIs(b - a, qb - qa, 0, m);
  }

  lemma SumOf(a: nat, qa: nat, b: nat, q: nat, r: nat, m: nat)
    requires a == qa * m + r && b - a == q * m && r < m
    ensures b % m == r
  {
    Distribute(qa, q, m);
    RemainderIs(b, qa + q, r, m);
  }

  lemma QuotientsGrow(a: nat, b: nat, m: nat)
    requires a * m <= b * m && m > 0
    ensures a <= b
  {
    if b < a {
      StepBelow(b, a, m);
    }
  }

  lemma {:induction false} ChunkNamesNoColon(name: string, data: string, size: nat, strip: bool, i: nat)
    requires NoColon(name) && (size > 0 || data == [])
    ensures var rs := Chunks(name, data, size, strip, i); forall k :: 0 <= k < |rs| ==> NoColon(rs[k].name)
    decreases |data|
  {
    hide Chunks, Digits;
    if data == [] {
      NoChunks(name, data, size, strip, i);
    } else {
      DigitsNoColon(Next(i));
      ChunksUnfold(name, data, size, strip, i);
      ChunkNamesNoColon(name, data[ChunkLen(size, |data|)..], size, strip, Next(i));
    }
  }
}
