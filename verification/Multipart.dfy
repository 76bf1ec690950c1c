/** A reader for the parts a `MimeWriter` writes, and when it gives them back. */
module Multipart {
  import opened Records
  import opened MimeWriter

  /** The first place where `mark` stands in `s`. */
  function Find(s: string, mark: string): Option<nat>
    decreases |s|
  {
    if mark <= s then Some(0)
    else if s == [] then None
    else
      match Find(s[1..], mark)
      case None => None
      case Some(i) => Some(i + 1)
  }

  lemma OneFurther(s: string, mark: string, i: nat)
    requires s != [] && i + |mark| <= |s[1..]| && s[1..] == s[1..][..i] + mark + s[1..][i + |mark|..]
    ensures s == s[..i + 1] + mark + s[i + 1 + |mark|..]
  {
    assert s == [s[0]] + s[1..];
    assert s[..i + 1] == [s[0]] + s[1..][..i];
    assert s[i + 1 + |mark|..] == s[1..][i + |mark|..];
  }

  lemma {:induction false} FoundAt(s: string, mark: string)
    ensures Find(s, mark).Some? ==>
              var i := Find(s, mark).value;
              i + |mark| <= |s| && s == s[..i] + mark + s[i + |mark|..]
    decreases |s|
  {
    if mark <= s {
      assert s == [] + mark + s[|mark|..];
    } else if s != [] {
      FoundAt(s[1..], mark);
      if Find(s[1..], mark).Some? {
        OneFurther(s, mark, Find(s[1..], mark).value);
      }
    }
  }

  /** Nothing earlier than its end can be taken for the mark that ends `s`. */
  predicate EndsAt(s: string, mark: string) {
    Find(s + mark, mark) == Some(|s|)
  }

  lemma {:induction false} FindIgnoresRest(s: string, mark: string, rest: string)
    ensures Find(s + mark + rest, mark) == Some(|s|) <==> EndsAt(s, mark)
  {
    var whole, part := s + mark + rest, s + mark;
    assert part <= whole;
    assert mark <= whole <==> mark <= part;
    if s == [] {
      assert part == mark;
    } else {
      assert whole[1..] == s[1..] + mark + rest && part[1..] == s[1..] + mark;
      FindIgnoresRest(s[1..], mark, rest);
    }
  }

  const NAME_END: string := QUOTE + RN + RN

  function Delimiter(boundary: string): string {
    RN + boundary + RN
  }

  /** Header, name, data, boundary, again and again. */
  function ReadParts(s: string, boundary: string): Option<seq<Record>>
    decreases |s|
  {
    if s == [] then Some([])
    else if !(FORM_DATA <= s) then None
    else
      var s1 := s[|FORM_DATA|..];
      match Find(s1, NAME_END)
      case None => None
      case Some(i) =>
        if i + |NAME_END| > |s1| then None
        else
          var s2 := s1[i + |NAME_END|..];
          match Find(s2, Delimiter(boundary))
          case None => None
          case Some(j) =>
            if j + |Delimiter(boundary)| > |s2| then None
            else
              match ReadParts(s2[j + |Delimiter(boundary)|..], boundary)
              case None => None
              case Some(rs) => Some([Record(s1[..i], s2[..j])] + rs)
  }

  /** Neither the name nor the data looks as if it ended early. */
  predicate Readable(r: Record, boundary: string) {
    EndsAt(r.name, NAME_END) && EndsAt(r.data, Delimiter(boundary))
  }

  /** A part as it stands in a body of the type multipart/form-data. */
  lemma PartIsFormData(r: Record, boundary: string)
    ensures Part(r, boundary) ==
            "Content-Disposition: form-data; name=\"" + r.name + "\"\r\n\r\n" + r.data + "\r\n" + boundary + "\r\n"
  {
    assert "\"\r\n\r\n" == QUOTE + RN + RN;
    assert Part(r, boundary) == FORM_DATA + r.name + (QUOTE + RN + RN) + r.data + RN + boundary + RN;
  }

  lemma SplitPart(r: Record, boundary: string, rest: string)
    ensures var s := Part(r, boundary) + rest;
            && FORM_DATA <= s && s[|FORM_DATA|..] == r.name + NAME_END + (r.data + Delimiter(boundary) + rest)
  {
    assert Part(r, boundary) + rest == FORM_DATA + (r.name + NAME_END + (r.data + Delimiter(boundary) + rest));
  }

  lemma AfterMark(a: string, mark: string, rest: string)
    ensures (a + mark + rest)[..|a|] == a && (a + mark + rest)[|a| + |mark|..] == rest
  {
  }

  lemma {:induction false} PartsAreReadBack(rs: seq<Record>, boundary: string)
    requires forall i :: 0 <= i < |rs| ==> Readable(rs[i], boundary)
    ensures ReadParts(Parts(rs, boundary), boundary) == Some(rs)
  {
    hide Find, EndsAt, Part;
    if rs != [] {
      var r, rest := rs[0], Parts(rs[1..], boundary);
      var d := Delimiter(boundary);
      var s2 := r.data + d + rest;
      SplitPart(r, boundary, rest);
      FindIgnoresRest(r.name, NAME_END, s2);
      AfterMark(r.name, NAME_END, s2);
      FindIgnoresRest(r.data, d, rest);
      AfterMark(r.data, d, rest);
      PartsAreReadBack(rs[1..], boundary);
      assert [r] + rs[1..] == rs;
    }
  }

  lemma {:induction false} ReadRecordsAreReadable(s: string, boundary: string)
    ensures ReadParts(s, boundary).Some? ==>
              forall i :: 0 <= i < |ReadParts(s, boundary).value| ==> Readable(ReadParts(s, boundary).value[i], boundary)
    decreases |s|
  {
    hide Find, EndsAt;
    if ReadParts(s, boundary).Some? && s != [] {
      var s1, d := s[|FORM_DATA|..], Delimiter(boundary);
      var i := Find(s1, NAME_END).value;
      FoundAt(s1, NAME_END);
      FindIgnoresRest(s1[..i], NAME_END, s1[i + |NAME_END|..]);
      var s2 := s1[i + |NAME_END|..];
      var j := Find(s2, d).value;
      FoundAt(s2, d);
      FindIgnoresRest(s2[..j], d, s2[j + |d|..]);
      ReadRecordsAreReadable(s2[j + |d|..], boundary);
    }
  }

  /** The parts are read back exactly when no name and no data looks as if it ended early. */
  lemma {:induction false} PartsAreReadBackExactly(rs: seq<Record>, boundary: string)
    ensures ReadParts(Parts(rs, boundary), boundary) == Some(rs) <==>
            forall i :: 0 <= i < |rs| ==> Readable(rs[i], boundary)
  {
    hide Readable;
    ReadRecordsAreReadable(Parts(rs, boundary), boundary);
    if forall i :: 0 <= i < |rs| ==> Readable(rs[i], boundary) {
      PartsAreReadBack(rs, boundary);
    }
  }

  lemma {:induction false} StandsSoFound(s: string, mark: string, i: nat)
    requires i + |mark| <= |s| && s[i..i + |mark|] == mark
    ensures Find(s, mark).Some?
    decreases |s|
  {
    if !(mark <= s) {
      assert i > 0;
      assert s[1..][i - 1..i - 1 + |mark|] == mark;
      StandsSoFound(s[1..], mark, i - 1);
    }
  }

  predicate NoReturn(s: string) {
    forall k :: 0 <= k < |s| ==> s[k] != '\r'
  }

  lemma NoReturnInside(s: string, i: nat, boundary: string)
    requires NoReturn(boundary) && i + |RN + boundary| <= |s| && s[i..i + |RN + boundary|] == RN + boundary
    ensures forall x :: i < x < i + |RN + boundary| ==> s[x] != '\r'
  {
    var mark := RN + boundary;
    forall x | i < x < i + |mark|
      ensures s[x] != '\r'
    {
      assert s[x] == s[i..i + |mark|][x - i] == mark[x - i];
    }
  }

  /** Data ends early only if the delimiter line stands in it, since a boundary holds no carriage return. */
  lemma EndsThereOrInside(data: string, boundary: string)
    requires NoReturn(boundary)
    ensures EndsAt(data, Delimiter(boundary)) || Find(data, RN + boundary).Some?
  {
    hide Find;
    var d, mark := Delimiter(boundary), RN + boundary;
    var s := data + d;
    assert s[|data|..|data| + |d|] == d;
    FindIsFirst(s, d, |data|);
    FoundAt(s, d);
    var i := Find(s, d).value;
    if i < |data| {
      assert s[i..i + |mark|] == mark by {
        assert s[i..i + |d|] == d;
        assert d[..|mark|] == mark && s[i..i + |mark|] == s[i..i + |d|][..|mark|];
      }
      NoReturnInside(s, i, boundary);
      assert s[|data|] == d[0] == '\r';
      assert data[i..i + |mark|] == s[i..i + |mark|];
      StandsSoFound(data, mark, i);
    }
  }

  /** As section 5.1.1 of RFC 2046 asks: data without the delimiter line cannot end early. */
  lemma {:induction false} DelimiterAbsent(data: string, boundary: string)
    requires Find(data, RN + boundary).None? && NoReturn(boundary)
    ensures EndsAt(data, Delimiter(boundary))
  {
    hide Find;
    EndsThereOrInside(data, boundary);
  }

  lemma {:induction false} FindIsFirst(s: string, mark: string, i: nat)
    requires i + |mark| <= |s| && s[i..i + |mark|] == mark
    ensures Find(s, mark).Some? && Find(s, mark).value <= i
    decreases |s|
  {
    if !(mark <= s) {
      assert i > 0;
      assert s[1..][i - 1..i - 1 + |mark|] == mark;
      FindIsFirst(s[1..], mark, i - 1);
    }
  }

  lemma {:induction false} NoQuoteInName(name: string)
    requires forall k :: 0 <= k < |name| ==> name[k] != '"'
    ensures EndsAt(name, NAME_END)
  {
    if name == [] {
      assert name + NAME_END == NAME_END;
    } else {
      NoQuoteInName(name[1..]);
      var s := name + NAME_END;
      assert s[1..] == name[1..] + NAME_END && s[0] != NAME_END[0];
    }
  }

  /** So names without quotes and data without the delimiter are always read back. */
  lemma {:induction false} CleanPartsAreReadBack(rs: seq<Record>, boundary: string)
    requires NoReturn(boundary) && forall i :: 0 <= i < |rs| ==> Find(rs[i].data, RN + boundary).None?
    requires forall i :: 0 <= i < |rs| ==> forall k :: 0 <= k < |rs[i].name| ==> rs[i].name[k] != '"'
    ensures ReadParts(Parts(rs, boundary), boundary) == Some(rs)
  {
    hide Find, EndsAt;
    forall i | 0 <= i < |rs|
      ensures Readable(rs[i], boundary)
    {
      DelimiterAbsent(rs[i].data, boundary);
      NoQuoteInName(rs[i].name);
    }
    PartsAreReadBack(rs, boundary);
  }
}
