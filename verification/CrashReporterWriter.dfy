/** `CrashReporterWriter`: the same buffer, written in the length-prefixed record format. */
module CrashReporterWriter {
  import opened Decimal
  import opened Numbers
  import opened Records
  import opened MimeWriter

  /** `before` with a record written after it, item by item. */
  function RecordText(before: string, name: string, number: string, data: string): string {
    before + name + SEP + number + SEP + data
  }

  lemma Regroup(before: string, name: string, number: string, data: string)
    ensures RecordText(before, name, number, data) == before + (name + (SEP + (number + (SEP + data))))
  {
  }

  lemma RecordTextIsEncode(before: string, name: string, data: string)
    ensures RecordText(before, name, Digits(|data|), data) == before + Encode(Record(name, data))
  {
    Regroup(before, name, Digits(|data|), data);
  }

  /** The base class part is the field `w`, whose boundary is empty. */
  class CrashReporterWriter {
    const w: MimeWriter

    /** The records added so far. */
    ghost var records: seq<Record>

    /** The file holds the records, and nothing is left in the buffer. */
    ghost predicate Valid()
      reads this, w, w.iov, w.Pending()
    {
      && w.Valid() && w.mimeBoundary == [] && w.iovIndex == 0 && w.Pending() == {}
      && w.out == w.added == EncodeAll(records)
    }

    constructor ()
      ensures Valid() && fresh(w) && fresh(w.iov) && records == []
    {
      w := new MimeWriter([]);
      records := [];
    }

    /** The file is read back as the records, exactly when no name has a colon in it. */
    lemma FileIsReadBack()
      requires Valid()
      ensures Decode(w.out) == Some(records) <==> forall i :: 0 <= i < |records| ==> NoColon(records[i].name)
    {
      DecodeExact(records);
    }

    /** What `HandleCrashDump` does with a new writer: the dump is added as it is, with `AddItem`, and flushed. */
    method WriteDump(dumpData: Iov)
      requires Valid() && records == [] && InBounds(dumpData)
      modifies w, w.iov
      ensures w.Valid() && w.out == Bytes(dumpData) && w.iovIndex == 0
    {
      hide Gather, MimeWriter.Valid, MimeWriter.Pending, EncodeAll;
      ghost var d := Bytes(dumpData);
      NoRecords();
      w.AddItem(dumpData);
      w.Flush();
      assert Bytes(dumpData) == d;
    }

    method AddBoundary()
      requires Valid()
      ensures Valid() && records == old(records)
    {
    }

    method AddEnd()
      requires Valid()
      ensures Valid() && records == old(records)
    {
    }

    /** The items that follow the name of a record, and the flush. */
    method AddLengthAndData(number: array<char>, numberLen: nat, item: Iov)
      requires w.Valid() && InBounds(item) && numberLen <= number.Length
      modifies w, w.iov
      ensures w.Valid() && w.iov == old(w.iov) && w.iovIndex == 0 && w.Pending() == {} && w.out == w.added
      ensures w.added == old(w.added) + SEP + number[..numberLen] + SEP + Bytes(item)
    {
      hide Gather, MimeWriter.Valid, MimeWriter.Pending;
      w.AddString(SEP);
      w.AddItem(Mem(number, 0, numberLen));
      assert number[0..0 + numberLen] == number[..numberLen];
      w.AddString(SEP);
      w.AddItem(item);
      w.Flush();
    }

    method AddPairData(msgType: Iov, msgData: Iov)
      requires Valid() && InBounds(msgType) && InBounds(msgData) && |Bytes(msgData)| < UINT64_LIMIT
      modifies this, w, w.iov
      ensures Valid() && w.iov == old(w.iov)
      ensures records == old(records) + [Record(Bytes(msgType), Bytes(msgData))]
    {
      hide Gather, MimeWriter.Valid, MimeWriter.Pending, Digits, Encode, EncodeAll;
      ghost var n, d := Bytes(msgType), Bytes(msgData);
      var data := w.NewBuffer();
      var size := match msgData case Lit(text) => |text| case Mem(_, _, len) => len;
      var dataLen := w.PrintNumber(data, size);
      assert Bytes(msgType) == n && Bytes(msgData) == d;
      RecordTextIsEncode(w.added, n, d);
      EncodeOne(records, Record(n, d));
      w.AddItem(msgType);
      AddLengthAndData(data, dataLen, msgData);
      records := records + [Record(n, d)];
    }

    method AddFileContents(filenameMsg: string, fileData: Iov)
      requires Valid() && InBounds(fileData) && |Bytes(fileData)| < UINT64_LIMIT
      modifies this, w, w.iov
      ensures Valid() && w.iov == old(w.iov)
      ensures records == old(records) + [Record(filenameMsg, Bytes(fileData))]
    {
      hide Gather, MimeWriter.Valid, MimeWriter.Pending, Digits, Encode, EncodeAll;
      ghost var d := Bytes(fileData);
      var data := w.NewBuffer();
      var size := match fileData case Lit(text) => |text| case Mem(_, _, len) => len;
      var dataLen := w.PrintNumber(data, size);
      assert Bytes(fileData) == d;
      RecordTextIsEncode(w.added, filenameMsg, d);
      EncodeOne(records, Record(filenameMsg, d));
      w.AddString(filenameMsg);
      AddLengthAndData(data, dataLen, fileData);
      records := records + [Record(filenameMsg, d)];
    }

    /** The two numbers of a chunk, and how much of it is written. */
    method PrintChunkNumbers(num: array<char>, data: array<char>, i: nat, base: array<char>, off: nat, len: nat, strip: bool)
        returns (numLen: nat, dataLen: nat, writeLen: nat)
      requires Valid() && off + len <= base.Length && base.Length < UINT64_LIMIT && i < UINT64_LIMIT
      requires num.Length == data.Length == UINT64_STRING_SIZE && num != data && num != base && data != base
      modifies num, data
      ensures Valid() && numLen <= num.Length && dataLen <= data.Length && writeLen <= len
      ensures num[..numLen] == Digits(i) && data[..dataLen] == Digits(writeLen)
      ensures base[off..off + writeLen] == Payload(base[off..off + len], strip)
    {
      hide Gather, MimeWriter.Valid, MimeWriter.Pending, Digits, EncodeAll, StripSpaces;
      writeLen := len;
      if strip {
        writeLen := LengthWithoutTrailingSpaces(base, off, len);
      }
      assert w.Valid();
      numLen := w.PrintNumber(num, i);
      dataLen := w.PrintNumber(data, writeLen);
    }

    /** The six items of a chunk, and the flush. */
    method AddChunkItems(msgType: Iov, num: array<char>, numLen: nat, data: array<char>, dataLen: nat, item: Iov)
      requires w.Valid() && InBounds(msgType) && InBounds(item) && numLen <= num.Length && dataLen <= data.Length
      modifies w, w.iov
      ensures w.Valid() && w.iov == old(w.iov) && w.iovIndex == 0 && w.Pending() == {} && w.out == w.added
      ensures w.added == RecordText(old(w.added), Bytes(msgType) + num[..numLen], data[..dataLen], Bytes(item))
    {
      hide Gather, MimeWriter.Valid, MimeWriter.Pending;
      ghost var added, n, c := w.added, Bytes(msgType), num[..numLen];
      w.AddItem(msgType);
      w.AddItem(Mem(num, 0, numLen));
      assert num[0..0 + numLen] == c;
      assert (added + n) + c == added + (n + c);
      AddLengthAndData(data, dataLen, item);
    }

    /** One turn of the chunk loop, with the scratch memory for both numbers. */
    method ChunkTurn(msgType: Iov, num: array<char>, data: array<char>, i: nat,
                     base: array<char>, off: nat, len: nat, strip: bool)
      requires Valid() && InBounds(msgType) && off + len <= base.Length && base.Length < UINT64_LIMIT && i < UINT64_LIMIT
      requires num.Length == data.Length == UINT64_STRING_SIZE && num != data && num != base && data != base
      requires num as object !in Base(msgType) && data as object !in Base(msgType)
      modifies this, w, w.iov, num, data
      ensures Valid() && w.iov == old(w.iov)
      ensures records == old(records) + [Record(Bytes(msgType) + Digits(i), Payload(base[off..off + len], strip))]
    {
      hide Gather, MimeWriter.Valid, MimeWriter.Pending, Digits, Encode, EncodeAll, Payload;
      ghost var n, d, added := Bytes(msgType), Payload(base[off..off + len], strip), w.added;
      var numLen, dataLen, writeLen := PrintChunkNumbers(num, data, i, base, off, len, strip);
      assert Bytes(msgType) == n;
      RecordTextIsEncode(added, n + Digits(i), d);
      EncodeOne(records, Record(n + Digits(i), d));
      AddChunkItems(msgType, num, numLen, data, dataLen, Mem(base, off, writeLen));
      records := records + [Record(n + Digits(i), d)];
    }

    /** The chunk loop. A chunk size of zero would loop for ever; one above the limit adds nothing. */
    method AddPairDataInChunks(msgType: Iov, base: array<char>, off: nat, len: nat, chunkSize: nat, strip: bool)
      requires Valid() && InBounds(msgType) && off + len <= base.Length && base.Length < UINT64_LIMIT
      requires chunkSize > 0 || len == 0
      modifies this, w, w.iov
      ensures Valid() && w.iov == old(w.iov)
      ensures records == old(records) + if chunkSize > MAX_CRASH_CHUNK_SIZE then []
                                        else Chunks(Bytes(msgType), base[off..off + len], chunkSize, strip, 0)
    {
      hide Valid, Chunks;
      if chunkSize > MAX_CRASH_CHUNK_SIZE {
        return;
      }
      if len == 0 {
        NoChunks(Bytes(msgType), base[off..off + len], chunkSize, strip, 0);
        return;
      }
      assert w.Valid() by { ValidParts(); }
      var num := w.NewBuffer();
      assert w.Valid();
      var data := w.NewBuffer();
      AddChunks(msgType, num, data, base, off, len, chunkSize, strip);
    }

    lemma ValidParts()
      requires Valid()
      ensures w.Valid()
    {
    }

    method AddChunks(msgType: Iov, num: array<char>, data: array<char>,
                     base: array<char>, off: nat, len: nat, chunkSize: nat, strip: bool)
      requires Valid() && InBounds(msgType) && off + len <= base.Length && base.Length < UINT64_LIMIT && chunkSize > 0
      requires num.Length == data.Length == UINT64_STRING_SIZE && num != data && num != base && data != base
      requires num as object !in Base(msgType) && data as object !in Base(msgType)
      modifies this, w, w.iov, num, data
      ensures Valid() && w.iov == old(w.iov)
      ensures records == old(records) + Chunks(Bytes(msgType), base[off..off + len], chunkSize, strip, 0)
    {
      hide Valid, Chunks, Bytes, Payload, Digits, Next;
      ghost var n, all := Bytes(msgType), base[..];
      ghost var value := all[off..off + len];
      assert base[off..off + len] == value;
      var i: nat, done: nat, msgLength: nat := 0, 0, len;
      while msgLength != 0
        invariant done + msgLength == len && i < UINT32_LIMIT && base[..] == all
        invariant Valid() && w.iov == old(w.iov) && Bytes(msgType) == n
        invariant records + Chunks(n, all[off + done..off + len], chunkSize, strip, i) ==
                  old(records) + Chunks(n, value, chunkSize, strip, 0)
        decreases msgLength
      {
        var chunkLen := ChunkLen(chunkSize, msgLength);
        CutFirst(n, all, off + done, off + len, chunkSize, strip, i);
        i := Next(i);
        ghost var before := records;
        assert base[off + done..off + done + chunkLen] == all[off + done..off + done + chunkLen];
        ChunkTurn(msgType, num, data, i, base, off + done, chunkLen, strip);
        Reassociate(before, [records[|records| - 1]],
                    Chunks(n, all[off + done + chunkLen..off + len], chunkSize, strip, i));
        done := done + chunkLen;
        msgLength := msgLength - chunkLen;
      }
      NoChunks(n, all[off + done..off + len], chunkSize, strip, i);
    }
  }

  lemma Reassociate(a: seq<Record>, b: seq<Record>, c: seq<Record>)
    ensures a + (b + c) == a + b + c
  {
  }

  /** The first chunk of the value in `all[from..to]`, and the rest of it. */
  lemma CutFirst(name: string, all: string, from: nat, to: nat, size: nat, strip: bool, i: nat)
    requires from < to <= |all| && size > 0
    ensures var len, next := ChunkLen(size, to - from), Next(i);
            0 < len <= to - from &&
            Chunks(name, all[from..to], size, strip, i) ==
            [Record(name + Digits(next), Payload(all[from..from + len], strip))] +
            Chunks(name, all[from + len..to], size, strip, next)
  {
    hide Chunks, Digits, Payload, Next;
    var left, len := all[from..to], ChunkLen(size, to - from);
    ChunksUnfold(name, left, size, strip, i);
    SliceOfSlice(all, from, len, to);
  }

  lemma SliceOfSlice(s: string, from: nat, n: nat, to: nat)
    requires from + n <= to <= |s|
    ensures s[from..to][..n] == s[from..from + n] && s[from..to][n..] == s[from + n..to]
  {
  }

  lemma NoRecords()
    ensures EncodeAll([]) == []
  {
  }

  lemma EncodeOne(rs: seq<Record>, r: Record)
    ensures EncodeAll(rs + [r]) == EncodeAll(rs) + Encode(r)
  {
    EncodeAllConcat(rs, [r]);
    assert EncodeAll([r]) == Encode(r) by {
      assert [r][1..] == [] && Encode(r) + [] == Encode(r);
    }
  }
}
