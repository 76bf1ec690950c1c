/** The hand-written number printers of the crash handler. */
module Numbers {
  import opened Decimal

  const UINT64_LIMIT: nat := 0x1_0000_0000_0000_0000
  const UINT64_STRING_SIZE: nat := 21

  /** `my_uint64_len`: the number of digits of the shortest numeral, which leaves room for a terminator. */
  method Uint64Len(i: nat) returns (len: nat)
    requires i < UINT64_LIMIT
    ensures len == |Digits(i)| && 1 <= len < UINT64_STRING_SIZE
  {
    Uint64Digits(i);
    if i == 0 {
      return 1;
    }
    len := 0;
    var n := i;
    while n != 0
      invariant len + (if n == 0 then 0 else |Digits(n)|) == |Digits(i)|
    {
      len := len + 1;
      n := n / 10;
    }
  }

  /** The `n` lowest decimal digits of `i`. */
  function LowDigits(i: nat, n: nat): (s: string)
    ensures |s| == n
  {
    if n == 0 then [] else LowDigits(i / 10, n - 1) + [Digit(i % 10)]
  }

  lemma {:induction false} LowDigitsAll(i: nat)
    ensures LowDigits(i, |Digits(i)|) == Digits(i)
  {
    if i < 10 {
      assert LowDigits(i / 10, 0) == [];
    } else {
      LowDigitsAll(i / 10);
    }
  }

  /** `my_uint64tos`: digits from the last to the first, no terminator, nothing else touched. */
  method Uint64ToS(output: array<char>, i: nat, iLen: nat)
    requires iLen <= output.Length
    modifies output
    ensures output[..iLen] == LowDigits(i, iLen)
    ensures output[iLen..] == old(output[iLen..])
    ensures iLen == |Digits(i)| ==> output[..iLen] == Digits(i)
  {
    var index, n := iLen, i;
    while index != 0
      invariant 0 <= index <= iLen
      invariant LowDigits(i, iLen) == LowDigits(n, index) + output[index..iLen]
      invariant output[iLen..] == old(output[iLen..])
    {
      ghost var tail := output[index..iLen];
      output[index - 1] := ('0' as int + n % 10) as char;
      assert output[index - 1..iLen] == [Digit(n % 10)] + tail;
      index := index - 1;
      n := n / 10;
    }
    if iLen == |Digits(i)| {
      LowDigitsAll(i);
    }
  }

  // -------------------------------------------------------------------------

  const HEX: string := "0123456789abcdef"

  function HexDigitValue(c: char): nat {
    if '0' <= c <= '9' then c as int - '0' as int else if 'a' <= c <= 'f' then c as int - 'a' as int + 10 else 0
  }

  /** The number a hexadecimal numeral stands for. */
  function HexValue(s: string): nat {
    if s == [] then 0 else 16 * HexValue(s[..|s| - 1]) + HexDigitValue(s[|s| - 1])
  }

  function Pow16(k: nat): nat {
    if k == 0 then 1 else 16 * Pow16(k - 1)
  }

  /** `write_uint64_hex`: sixteen characters that stand for the number. */
  method WriteUint64Hex(output: array<char>, v: nat)
    requires output.Length >= 16 && v < UINT64_LIMIT
    modifies output
    ensures HexValue(output[..16]) == v
    ensures forall k :: 0 <= k < 16 ==> output[k] in HEX
    ensures output[16..] == old(output[16..])
  {
    hide HexValue, Pow16;
    Pow16Facts();
    var i: int, n: nat := 15, v;
    assert output[16..16] == [];
    while i >= 0
      invariant -1 <= i <= 15
      invariant forall k :: i < k < 16 ==> output[k] in HEX
      invariant n < Pow16(i + 1) && n * Pow16(15 - i) + HexValue(output[i + 1..16]) == v
      invariant output[16..] == old(output[16..])
      decreases i
    {
      ghost var tail := output[i + 1..16];
      output[i] := HEX[n % 16];
      assert output[i..16] == [HEX[n % 16]] + tail;
      HexStep(n, i, tail);
      i := i - 1;
      n := n / 16;
    }
    assert output[0..16] == output[..16];
  }

  lemma Pow16Facts()
    ensures Pow16(16) == UINT64_LIMIT && Pow16(0) == 1 && HexValue([]) == 0
  {
    assert Pow16(4) == 0x1_0000;
    assert Pow16(8) == 0x1_0000_0000;
    assert Pow16(12) == 0x1_0000_0000_0000;
  }

  /** Moving one digit from the number to the text keeps what both stand for. */
  lemma HexStep(n: nat, i: nat, tail: string)
    requires i <= 15 && |tail| == 15 - i && n < Pow16(i + 1)
    ensures n / 16 < Pow16(i)
    ensures (n / 16) * Pow16(15 - (i - 1)) + HexValue([HEX[n % 16]] + tail) == n * Pow16(15 - i) + HexValue(tail)
  {
    var d := HEX[n % 16];
    HexPrepend(d, tail);
    HexTable(n % 16);
    SplitTimes(n, Pow16(15 - i));
  }

  lemma SplitTimes(n: nat, p: nat)
    ensures n * p == (n / 16) * (16 * p) + (n % 16) * p
  {
    assert n == (n / 16) * 16 + n % 16;
    Distribute(n / 16, n % 16, p);
  }

  lemma Distribute(q: nat, r: nat, p: nat)
    ensures (q * 16 + r) * p == q * (16 * p) + r * p
  {
  }

  lemma Commute(d: nat, p: nat)
    ensures 16 * (d * p) == d * (16 * p)
  {
  }

  lemma HexTable(d: nat)
    requires d < 16
    ensures HexDigitValue(HEX[d]) == d
  {
  }

  lemma {:induction false} HexPrepend(c: char, s: string)
    ensures HexValue([c] + s) == HexDigitValue(c) * Pow16(|s|) + HexValue(s)
  {
    if s == [] {
      assert ([c] + s)[..0] == [] && [c] + s == [c];
    } else {
      var t, init := [c] + s, s[..|s| - 1];
      assert t[..|t| - 1] == [c] + init && t[|t| - 1] == s[|s| - 1];
      HexPrepend(c, init);
      Commute(HexDigitValue(c), Pow16(|init|));
    }
  }
}
