/** `MimeWriter`: a bounded gather buffer of pointers into memory that its callers go on using. */
module MimeWriter {
  import opened Decimal
  import opened Numbers
  import opened Records

  const RN: string := "\r\n"
  const FORM_DATA: string := "Content-Disposition: form-data; name=\""
  const QUOTE: string := "\""
  const DASHDASH: string := "--"
  const CONTENT_TYPE: string := "Content-Type: application/octet-stream"
  const IOV_CAPACITY: nat := 30
  const MAX_CRASH_CHUNK_SIZE: nat := 64

  /** One entry of the I/O vector: a string literal, or a piece of memory that may change. */
  datatype Iov = Lit(text: string) | Mem(base: array<char>, off: nat, len: nat)

  predicate InBounds(v: Iov) {
    v.Mem? ==> v.off + v.len <= v.base.Length
  }

  function Bytes(v: Iov): string
    requires InBounds(v)
    reads if v.Mem? then {v.base} else {}
  {
    match v
    case Lit(text) => text
    case Mem(base, off, len) => base[off..off + len]
  }

  ghost function Base(v: Iov): set<object> {
    if v.Mem? then {v.base} else {}
  }

  ghost function Bases(vs: seq<Iov>): set<object> {
    set i | 0 <= i < |vs| && vs[i].Mem? :: vs[i].base
  }

  /** What `writev` writes for a vector: the contents the memory has now. */
  function Gather(vs: seq<Iov>): string
    requires forall i :: 0 <= i < |vs| ==> InBounds(vs[i])
    reads Bases(vs)
  {
    if vs == [] then []
    else
      var last := |vs| - 1;
      Gather(vs[..last]) + Bytes(vs[last])
  }

  class MimeWriter {
    var out: string
    var iov: array<Iov>
    var iovIndex: nat
    const mimeBoundary: string

    /** Everything added so far, as it was when it was added. */
    ghost var added: string

    ghost function Pending(): set<object>
      reads this, iov
    {
      if iovIndex <= iov.Length then Bases(iov[..iovIndex]) else {}
    }

    /** What has been written followed by what is pending is what was added. */
    ghost predicate Valid()
      reads this, iov, Pending()
    {
      && iov.Length == IOV_CAPACITY && iovIndex <= IOV_CAPACITY
      && (forall i :: 0 <= i < iovIndex ==> InBounds(iov[i]))
      && out + Gather(iov[..iovIndex]) == added
    }

    constructor (mimeBoundary: string)
      ensures Valid() && fresh(iov) && out == added == [] && iovIndex == 0 && Pending() == {}
      ensures this.mimeBoundary == mimeBoundary
    {
      this.mimeBoundary := mimeBoundary;
      iov := new Iov[IOV_CAPACITY];
      iovIndex, out, added := 0, [], [];
    }

    method Flush()
      requires Valid()
      modifies this`out, this`iovIndex
      ensures Valid() && iovIndex == 0 && out == added && Pending() == {}
    {
      // sys_writev is taken to write everything.
      out := out + Gather(iov[..iovIndex]);
      iovIndex := 0;
    }

    method AddItem(v: Iov)
      requires Valid() && InBounds(v)
      modifies this, iov
      ensures Valid() && iov == old(iov) && added == old(added) + Bytes(v)
      ensures Pending() <= old(Pending()) + Base(v)
    {
      if iovIndex == IOV_CAPACITY {
        Flush();
      }
      Push(v);
    }

    method Push(v: Iov)
      requires Valid() && InBounds(v) && iovIndex < IOV_CAPACITY
      modifies this`iovIndex, this`added, iov
      ensures Valid() && added == old(added) + Bytes(v)
      ensures Pending() <= old(Pending()) + Base(v)
    {
      hide Gather;
      ghost var before := iov[..iovIndex];
      ghost var text, bytes := Gather(before), Bytes(v);
      MemoryIsNotVector(before, iov);
      iov[iovIndex] := v;
      assert iov[..iovIndex] == before;
      iovIndex := iovIndex + 1;
      added := added + Bytes(v);
      assert iov[..iovIndex] == before + [v];
      assert Gather(before) == text && Bytes(v) == bytes;
      GatherSnoc(before, v);
      assert out + (text + bytes) == (out + text) + bytes;
    }

    method AddString(text: string)
      requires Valid()
      modifies this, iov
      ensures Valid() && iov == old(iov) && added == old(added) + text && Pending() <= old(Pending())
    {
      hide Gather, Valid, Pending;
      AddItem(Lit(text));
    }

    method AddBoundary()
      requires Valid()
      modifies this, iov
      ensures Valid() && iov == old(iov) && added == old(added) + mimeBoundary + RN && Pending() <= old(Pending())
    {
      hide Gather, Valid, Pending;
      AddString(mimeBoundary);
      AddString(RN);
    }

    method AddEnd()
      requires Valid()
      modifies this, iov
      ensures Valid() && iov == old(iov) && Pending() <= old(Pending())
      ensures added == old(added) + mimeBoundary + DASHDASH + RN
    {
      hide Gather, Valid, Pending;
      AddString(mimeBoundary);
      AddString(DASHDASH);
      AddString(RN);
    }

    /** The quote after a name and the empty line before the value. */
    method AddNameEnd()
      requires Valid()
      modifies this, iov
      ensures Valid() && iov == old(iov) && added == old(added) + QUOTE + RN + RN && Pending() <= old(Pending())
    {
      hide Gather, Valid, Pending;
      AddString(QUOTE);
      AddString(RN);
      AddString(RN);
    }

    method AddPairData(msgType: Iov, msgData: Iov)
      requires Valid() && InBounds(msgType) && InBounds(msgData)
      modifies this, iov
      ensures Valid() && iov == old(iov) && Pending() <= old(Pending()) + Base(msgType) + Base(msgData)
      ensures added == old(added) + FORM_DATA + Bytes(msgType) + QUOTE + RN + RN + Bytes(msgData) + RN
    {
      hide Gather, Valid, Pending;
      AddString(FORM_DATA);
      AddItem(msgType);
      AddNameEnd();
      AddItem(msgData);
      AddString(RN);
    }

    method AddFileContents(filenameMsg: string, fileData: Iov)
      requires Valid() && InBounds(fileData)
      modifies this, iov
      ensures Valid() && iov == old(iov) && Pending() <= old(Pending()) + Base(fileData)
      ensures added == old(added) + FORM_DATA + filenameMsg + RN + CONTENT_TYPE + RN + RN + Bytes(fileData) + RN
    {
      hide Gather, Valid, Pending;
      AddString(FORM_DATA);
      AddString(filenameMsg);
      AddString(RN);
      AddString(CONTENT_TYPE);
      AddString(RN);
      AddString(RN);
      AddItem(fileData);
      AddString(RN);
    }

    method AddItemWithoutTrailingSpaces(base: array<char>, off: nat, len: nat)
      requires Valid() && off + len <= base.Length
      modifies this, iov
      ensures Valid() && iov == old(iov) && added == old(added) + StripSpaces(base[off..off + len])
      ensures Pending() <= old(Pending()) + {base}
    {
      hide Gather, StripSpaces;
      assert forall o :: o in Bases(iov[..iovIndex]) ==> allocated(o);
      var n := LengthWithoutTrailingSpaces(base, off, len);
      AddItem(Mem(base, off, n));
    }

    /** The header lines of a chunk; its number stands in a buffer of the caller. */
    method AddChunkHeader(msgType: Iov, num: array<char>, numLen: nat)
      requires Valid() && InBounds(msgType) && numLen <= num.Length
      modifies this, iov
      ensures Valid() && iov == old(iov)
      ensures added == old(added) + FORM_DATA + Bytes(msgType) + num[..numLen] + QUOTE + RN + RN
    {
      hide Gather, Valid, Pending;
      AddString(FORM_DATA);
      AddItem(msgType);
      AddItem(Mem(num, 0, numLen));
      assert num[0..0 + numLen] == num[..numLen];
      AddNameEnd();
    }

    /** One turn of the chunk loop. */
    method AddChunk(msgType: Iov, num: array<char>, numLen: nat, base: array<char>, off: nat, len: nat, strip: bool)
      requires Valid() && InBounds(msgType) && numLen <= num.Length && off + len <= base.Length
      modifies this, iov
      ensures Valid() && iov == old(iov) && iovIndex == 0 && Pending() == {}
      ensures added == old(added) + FORM_DATA + Bytes(msgType) + num[..numLen] + QUOTE + RN + RN +
                       Payload(base[off..off + len], strip) + RN + mimeBoundary + RN
    {
      hide Gather, StripSpaces, Valid, Pending, Payload, Bytes;
      AddChunkHeader(msgType, num, numLen);
      AddPayload(base, off, len, strip);
      AddChunkEnd();
    }

    /** The bytes of a chunk, stripped or as they are. */
    method AddPayload(base: array<char>, off: nat, len: nat, strip: bool)
      requires Valid() && off + len <= base.Length
      modifies this, iov
      ensures Valid() && iov == old(iov) && added == old(added) + Payload(base[off..off + len], strip)
    {
      hide Gather, StripSpaces, Valid, Pending;
      if strip {
        AddItemWithoutTrailingSpaces(base, off, len);
      } else {
        AddItem(Mem(base, off, len));
      }
    }

    method AddChunkEnd()
      requires Valid()
      modifies this, iov
      ensures Valid() && iov == old(iov) && iovIndex == 0 && Pending() == {}
      ensures added == old(added) + RN + mimeBoundary + RN
    {
      hide Gather, Valid, Pending;
      AddString(RN);
      AddBoundary();
      Flush();
    }

    /** The same with the number printed first, into memory that is not pending. */
    method AddNumberedChunk(msgType: Iov, num: array<char>, i: nat, base: array<char>, off: nat, len: nat, strip: bool)
      requires Valid() && InBounds(msgType) && off + len <= base.Length && i < UINT64_LIMIT
      requires num.Length == UINT64_STRING_SIZE && num !in Pending() && num != base && num as object !in Base(msgType)
      modifies this, iov, num
      ensures Valid() && iov == old(iov) && iovIndex == 0 && Pending() == {}
      ensures added == ChunkText(old(added), Bytes(msgType), Digits(i), Payload(base[off..off + len], strip), mimeBoundary)
    {
      hide Gather, StripSpaces, Valid, Pending, Digits;
      ghost var name, data := Bytes(msgType), base[off..off + len];
      var numLen := PrintNumber(num, i);
      assert Bytes(msgType) == name && base[off..off + len] == data;
      AddChunk(msgType, num, numLen, base, off, len, strip);
    }

    /** One turn of the chunk loop: a part is written and taken off what is left to write. */
    method ChunkTurn(msgType: Iov, num: array<char>, i: nat, base: array<char>, off: nat, left: nat, size: nat, strip: bool)
        returns (chunkLen: nat)
      requires Valid() && InBounds(msgType) && off + left <= base.Length && Next(i) < UINT64_LIMIT && left > 0 && size > 0
      requires num.Length == UINT64_STRING_SIZE && num !in Pending() && num != base && num as object !in Base(msgType)
      modifies this, iov, num
      ensures Valid() && iov == old(iov) && Pending() == {} && chunkLen == ChunkLen(size, left) <= left
      ensures var name := Bytes(msgType);
              added + Parts(Chunks(name, base[off + chunkLen..off + left], size, strip, Next(i)), mimeBoundary) ==
              old(added) + Parts(Chunks(name, base[off..off + left], size, strip, i), mimeBoundary)
    {
      hide Gather, Chunks, Parts, Valid, Pending, Digits, Payload, ChunkText, Next;
      ghost var name, data := Bytes(msgType), base[off..off + left];
      PartStep(added, name, data, size, strip, i, mimeBoundary);
      chunkLen := ChunkLen(size, left);
      assert data[..chunkLen] == base[off..off + chunkLen];
      assert data[chunkLen..] == base[off + chunkLen..off + left];
      AddNumberedChunk(msgType, num, Next(i), base, off, chunkLen, strip);
    }

    /** The chunk loop. */
    method AddChunks(msgType: Iov, num: array<char>, base: array<char>, off: nat, len: nat, chunkSize: nat, strip: bool)
      requires Valid() && InBounds(msgType) && off + len <= base.Length && chunkSize > 0
      requires num.Length == UINT64_STRING_SIZE && num !in Pending() && num != base && num as object !in Base(msgType)
      modifies this, iov, num
      ensures Valid() && iov == old(iov) && Pending() <= old(Pending())
      ensures added ==
              old(added) + Parts(Chunks(Bytes(msgType), base[off..off + len], chunkSize, strip, 0), mimeBoundary)
    {
      hide Gather, Chunks, Parts, Valid, Pending, Bytes, Next;
      ghost var name, end := Bytes(msgType), off + len;
      ghost var all := Chunks(name, base[off..end], chunkSize, strip, 0);
      var i: nat, done: nat, msgLength: nat := 0, 0, len;
      while msgLength != 0
        invariant done + msgLength == len && i < UINT32_LIMIT
        invariant Valid() && iov == old(iov) && Pending() <= old(Pending()) && Bytes(msgType) == name
        invariant added + Parts(Chunks(name, base[off + done..end], chunkSize, strip, i), mimeBoundary) ==
                  old(added) + Parts(all, mimeBoundary)
        decreases msgLength
      {
        var chunkLen := ChunkTurn(msgType, num, i, base, off + done, msgLength, chunkSize, strip);
        i := Next(i);
        done := done + chunkLen;
        msgLength := msgLength - chunkLen;
      }
      NoParts(name, base[off + done..end], chunkSize, strip, i, mimeBoundary);
    }

    /** A chunk size of zero would loop for ever; one above the limit adds nothing. */
    method AddPairDataInChunks(msgType: Iov, base: array<char>, off: nat, len: nat, chunkSize: nat, strip: bool)
      requires Valid() && InBounds(msgType) && off + len <= base.Length
      requires chunkSize > 0 || len == 0
      modifies this, iov
      ensures Valid() && iov == old(iov) && Pending() <= old(Pending())
      ensures var chunks := if chunkSize > MAX_CRASH_CHUNK_SIZE then []
                            else Chunks(Bytes(msgType), base[off..off + len], chunkSize, strip, 0);
              added == old(added) + Parts(chunks, mimeBoundary)
    {
      hide Gather, Valid, Pending;
      if chunkSize > MAX_CRASH_CHUNK_SIZE {
        return;
      }
      if len == 0 {
        NoParts(Bytes(msgType), base[off..off + len], chunkSize, strip, 0, mimeBoundary);
        return;
      }
      var num := NewBuffer();
      AddChunks(msgType, num, base, off, len, chunkSize, strip);
    }

    /** `char num[kUint64StringSize]`: scratch memory no pending item can refer to yet. */
    method NewBuffer() returns (num: array<char>)
      requires Valid()
      ensures Valid() && Pending() == old(Pending()) && fresh(num) && num !in Pending() && num.Length == UINT64_STRING_SIZE
    {
      hide Gather;
      ghost var pending := Pending();
      num := new char[UINT64_STRING_SIZE];
      assert num !in pending;
    }

    /** `my_uint_len` and `my_uitos`: rewrite the scratch memory, which must not be pending. */
    method PrintNumber(num: array<char>, i: nat) returns (numLen: nat)
      requires Valid() && num !in Pending() && num.Length == UINT64_STRING_SIZE && i < UINT64_LIMIT
      modifies num
      ensures Valid() && Pending() == old(Pending())
      ensures numLen < UINT64_STRING_SIZE && num[..numLen] == Digits(i)
    {
      hide Gather, Digits, LowDigits;
      numLen := Uint64Len(i);
      Uint64ToS(num, i, numLen);
    }
  }

  /** `LengthWithoutTrailingSpaces` */
  method LengthWithoutTrailingSpaces(base: array<char>, off: nat, len: nat) returns (n: nat)
    requires off + len <= base.Length
    ensures n <= len && base[off..off + n] == StripSpaces(base[off..off + len])
  {
    n := len;
    while n > 0 && base[off + n - 1] == ' '
      invariant n <= len && StripSpaces(base[off..off + n]) == StripSpaces(base[off..off + len])
    {
      assert base[off..off + n][..n - 1] == base[off..off + n - 1];
      n := n - 1;
    }
  }

  // -------------------------------------------------------------------------
  // The parts of a chunked value

  function Part(r: Record, boundary: string): string {
    FORM_DATA + r.name + QUOTE + RN + RN + r.data + RN + boundary + RN
  }

  function Parts(rs: seq<Record>, boundary: string): string {
    if rs == [] then [] else Part(rs[0], boundary) + Parts(rs[1..], boundary)
  }

  /** `before` with one more part written after it. */
  function ChunkText(before: string, name: string, number: string, data: string, boundary: string): string {
    before + FORM_DATA + name + number + QUOTE + RN + RN + data + RN + boundary + RN
  }

  lemma PartAppend(before: string, name: string, number: string, data: string, boundary: string, more: string)
    ensures ChunkText(before, name, number, data, boundary) + more ==
            before + (Part(Record(name + number, data), boundary) + more)
  {
  }

  /** Writing the next chunk takes its part off what is left to write. */
  lemma PartStep(before: string, name: string, left: string, size: nat, strip: bool, i: nat, boundary: string)
    requires left != [] && size > 0
    ensures var next := Next(i);
            var n := ChunkLen(size, |left|);
            n <= |left| &&
            before + Parts(Chunks(name, left, size, strip, i), boundary) ==
            ChunkText(before, name, Digits(next), Payload(left[..n], strip), boundary) +
            Parts(Chunks(name, left[n..], size, strip, next), boundary)
  {
    hide Chunks, Digits, Payload, Part, ChunkText;
    var next := Next(i);
    var n := ChunkLen(size, |left|);
    ChunksUnfold(name, left, size, strip, i);
    PartAppend(before, name, Digits(next), Payload(left[..n], strip), boundary,
               Parts(Chunks(name, left[n..], size, strip, next), boundary));
  }

  lemma NoParts(name: string, left: string, size: nat, strip: bool, i: nat, boundary: string)
    requires left == []
    ensures Parts(Chunks(name, left, size, strip, i), boundary) == []
  {
  }

  lemma MemoryIsNotVector(vs: seq<Iov>, iov: array<Iov>)
    ensures iov !in Bases(vs)
  {
  }

  lemma GatherSnoc(vs: seq<Iov>, v: Iov)
    requires InBounds(v) && forall i :: 0 <= i < |vs| ==> InBounds(vs[i])
    ensures forall i :: 0 <= i < |vs + [v]| ==> InBounds((vs + [v])[i])
    ensures Gather(vs + [v]) == Gather(vs) + Bytes(v)
  {
    assert (vs + [v])[..|vs|] == vs;
  }
}
