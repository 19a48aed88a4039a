/** Decoding a buffer of packed directory records. */
module Records {
  import opened Wrappers
  import opened Bytes

  const HEADER := 88
  const ATTRIBUTES_AT := 56
  const NAME_LENGTH_AT := 60
  const FILE_ID_AT := 72
  const DIRECTORY_BIT := 0x10
  const REPARSE_BIT := 0x400

  // One record of the buffer; the name is UTF-16 in little-endian bytes.
  datatype Record = Record(name: seq<byte>, attributes: nat, fileId: seq<byte>)

  datatype Entry = Entry(name: seq<byte>, isDirectory: bool, fileId: seq<byte>)

  function U32(data: seq<byte>, at: nat): nat
    requires at + 4 <= |data|
  {
    LittleNumber(data[at..at + 4])
  }

  function Unit(name: seq<byte>, k: nat): nat
    requires 2 * k + 2 <= |name|
  {
    var low: nat, high: nat := name[2 * k], name[2 * k + 1];
    low + 256 * high
  }

  // Every high surrogate is followed by a low one and no low one stands alone.
  predicate ValidUtf16(name: seq<byte>, k: nat := 0)
    requires |name| % 2 == 0
    decreases |name| - k
  {
    if 2 * k + 2 > |name| then true
    else if Unit(name, k) < 0xD800 || 0xE000 <= Unit(name, k) then ValidUtf16(name, k + 1)
    else
      && Unit(name, k) < 0xDC00 && 2 * k + 4 <= |name|
      && 0xDC00 <= Unit(name, k + 1) < 0xE000 && ValidUtf16(name, k + 2)
  }

  predicate HasBit(attributes: nat, bit: nat)
    requires bit > 0
  {
    attributes / bit % 2 == 1
  }

  predicate WellFormed(r: Record) {
    && |r.fileId| == 16 && (exists b :: b in r.fileId && b != 0)
    && |r.name| % 2 == 0 && ValidUtf16(r.name)
  }

  predicate Acceptable(r: Record) {
    WellFormed(r) && !HasBit(r.attributes, REPARSE_BIT)
  }

  function Visible(rs: seq<Record>): seq<Entry> {
    if rs == [] then []
    else (if rs[0].name in {['.' as int, 0], ['.' as int, 0, '.' as int, 0]} then []
          else [Entry(rs[0].name, HasBit(rs[0].attributes, DIRECTORY_BIT), rs[0].fileId)]) + Visible(rs[1..])
  }

  // ----- Names and attributes in plain terms ----------------------------------------------------

  // The UTF-16 code units of a character in little-endian bytes.
  function Utf16Char(c: char): (s: seq<byte>)
    ensures |s| == if c as int < 0x10000 then 2 else 4
  {
    var n := c as int;
    if n < 0x10000 then [n % 256, n / 256]
    else
      var high, low := 0xD800 + (n - 0x10000) / 0x400, 0xDC00 + n % 0x400;
      [high % 256, high / 256, low % 256, low / 256]
  }

  function Utf16(text: string): seq<byte> {
    if text == "" then [] else Utf16Char(text[0]) + Utf16(text[1..])
  }

  // From a position on, a name is the encoding of a text.
  ghost predicate Encodes(text: string, name: seq<byte>, k: nat)
    requires 2 * k <= |name|
  {
    name[2 * k..] == Utf16(text)
  }

  lemma {:induction false} ValidIsEncoded(name: seq<byte>, k: nat) returns (text: string)
    requires |name| % 2 == 0 && 2 * k <= |name| && ValidUtf16(name, k)
    ensures Encodes(text, name, k)
    decreases |name| - k
  {
    if 2 * k + 2 > |name| {
      text := "";
    } else if Unit(name, k) < 0xD800 || 0xE000 <= Unit(name, k) {
      var rest := ValidIsEncoded(name, k + 1);
      text := [Unit(name, k) as char] + rest;
      assert name[2 * k..] == [name[2 * k], name[2 * k + 1]] + name[2 * (k + 1)..];
      assert text[1..] == rest;
    } else {
      var rest := ValidIsEncoded(name, k + 2);
      var c := Joined(Unit(name, k), Unit(name, k + 1));
      text := [c] + rest;
      assert name[2 * k..] == [name[2 * k], name[2 * k + 1], name[2 * k + 2], name[2 * k + 3]] + name[2 * (k + 2)..];
      assert text[1..] == rest;
    }
  }

  // The character of a surrogate pair.
  function Joined(high: nat, low: nat): (c: char)
    requires 0xD800 <= high < 0xDC00 <= low < 0xE000
    ensures Utf16Char(c) == [high % 256, high / 256, low % 256, low / 256]
  {
    assert 0x10000 + (high - 0xD800) * 0x400 + (low - 0xDC00) < 0x11_0000;
    (0x10000 + (high - 0xD800) * 0x400 + (low - 0xDC00)) as char
  }

  lemma {:induction false} EncodedIsValid(text: string, name: seq<byte>, k: nat)
    requires |name| % 2 == 0 && 2 * k <= |name| && Encodes(text, name, k)
    ensures ValidUtf16(name, k)
  {
    if text != "" {
      var units := if text[0] as int < 0x10000 then 1 else 2;
      var rest := name[2 * k..];
      assert rest[..2 * units] == Utf16Char(text[0]) && rest[2 * units..] == Utf16(text[1..]);
      assert rest[2 * units..] == name[2 * (k + units)..];
      assert name[2 * k] == rest[0] && name[2 * k + 1] == rest[1];
      EncodedIsValid(text[1..], name, k + units);
      if units == 2 {
        assert name[2 * k + 2] == rest[2] && name[2 * k + 3] == rest[3];
      }
    }
  }

  // A name is accepted exactly when it is the encoding of some Unicode text.
  lemma ValidMeansText(name: seq<byte>)
    requires |name| % 2 == 0
    ensures ValidUtf16(name) <==> exists text :: Utf16(text) == name
  {
    assert name[2 * 0..] == name;
    if ValidUtf16(name) {
      var text := ValidIsEncoded(name, 0);
      assert Utf16(text) == name;
    }
    if text :| Utf16(text) == name {
      EncodedIsValid(text, name, 0);
    }
  }

  // What a caller sees of the records: all but the two dot names, each with bit 4 of its attributes.
  lemma {:induction false} VisibleMeans(rs: seq<Record>, e: Entry)
    ensures e in Visible(rs) <==>
            exists x :: x in rs && x.name != Utf16(".") && x.name != Utf16("..")
                        && e == Entry(x.name, x.attributes / 16 % 2 == 1, x.fileId)
  {
    DotNames();
    if rs != [] {
      VisibleMeans(rs[1..], e);
      assert forall x :: x in rs <==> x == rs[0] || x in rs[1..];
    }
  }

  lemma DotNames()
    ensures Utf16(".") == [0x2E, 0] && Utf16("..") == [0x2E, 0, 0x2E, 0]
  {
    assert "."[1..] == "" && ".."[1..] == ".";
    assert Utf16Char('.') == [0x2E, 0];
  }

  // A record is refused for its attributes exactly when bit 10 marks a reparse point.
  lemma AcceptableMeans(r: Record)
    ensures Acceptable(r) <==>
            && r.attributes / 1024 % 2 == 0 && |r.fileId| == 16 && (exists b :: b in r.fileId && b != 0)
            && |r.name| % 2 == 0 && exists text :: Utf16(text) == r.name
  {
    if |r.name| % 2 == 0 {
      ValidMeansText(r.name);
    }
  }

  // ----- Layout ---------------------------------------------------------------------------------

  ghost predicate Holds(data: seq<byte>, offset: nat, r: Record) {
    && offset + HEADER + |r.name| <= |data|
    && U32(data, offset + ATTRIBUTES_AT) == r.attributes && U32(data, offset + NAME_LENGTH_AT) == |r.name|
    && data[offset + FILE_ID_AT..offset + HEADER] == r.fileId
    && data[offset + HEADER..offset + HEADER + |r.name|] == r.name
  }

  // The distance to the next record is zero or leads past this one and not past the end.
  ghost predicate PointsPast(data: seq<byte>, offset: nat, r: Record)
    requires Holds(data, offset, r)
  {
    var next := U32(data, offset);
    next == 0 || (HEADER + |r.name| <= next && offset + next <= |data|)
  }

  // The buffer from `offset` on holds exactly these records, each pointing past itself to the next; the last one
  // either says zero or points to the very end.
  ghost predicate LaidOut(data: seq<byte>, offset: nat, rs: seq<Record>)
    decreases |rs|
  {
    if offset >= |data| then offset == |data| && rs == []
    else
      && rs != [] && Holds(data, offset, rs[0]) && PointsPast(data, offset, rs[0])
      && LaidOut(data, After(data, offset), rs[1..])
  }

  // Where the next record starts, or the end of the buffer.
  function After(data: seq<byte>, offset: nat): nat
    requires offset + 4 <= |data|
  {
    if U32(data, offset) == 0 then |data| else offset + U32(data, offset)
  }

  // At most one list of records is laid out in a buffer.
  lemma {:induction false} LayoutIsUnique(data: seq<byte>, offset: nat, a: seq<Record>, b: seq<Record>)
    requires LaidOut(data, offset, a) && LaidOut(data, offset, b)
    ensures a == b
    decreases |a|
  {
    if offset < |data| {
      assert a[0] == b[0];
      LayoutIsUnique(data, After(data, offset), a[1..], b[1..]);
      assert a == [a[0]] + a[1..] && b == [b[0]] + b[1..];
    }
  }

  // ----- The decoder ----------------------------------------------------------------------------

  datatype Error = Truncated | Malformed | ReparsePoint

  // The record at an offset and the distance to the next one, or why there is none.
  function ReadRecord(data: seq<byte>, offset: nat): (r: Result<(Record, nat), Error>)
    requires offset < |data|
    ensures r.Ok? ==>
              && Holds(data, offset, r.value.0) && Acceptable(r.value.0) && PointsPast(data, offset, r.value.0)
              && r.value.1 == U32(data, offset)
  {
    if offset + HEADER > |data| then Err(Truncated)
    else
      var next := U32(data, offset);
      var attributes := U32(data, offset + ATTRIBUTES_AT);
      var nameLength := U32(data, offset + NAME_LENGTH_AT);
      var fileId := data[offset + FILE_ID_AT..offset + HEADER];
      var start := offset + HEADER;
      var end := start + nameLength;
      if (forall b :: b in fileId ==> b == 0) || nameLength % 2 != 0 || end > |data|
         || (next != 0 && next < HEADER + nameLength) || (next != 0 && offset + next > |data|)
      then Err(Malformed)
      else
        var record := Record(data[start..end], attributes, fileId);
        if !ValidUtf16(data[start..end]) then Err(Malformed)
        else if HasBit(attributes, REPARSE_BIT) then Err(ReparsePoint)
        else Ok((record, next))
  }

  // Nothing readable is refused.
  lemma ReadsWhatIsThere(data: seq<byte>, offset: nat, x: Record)
    requires offset < |data| && Holds(data, offset, x) && Acceptable(x) && PointsPast(data, offset, x)
    ensures ReadRecord(data, offset).Ok? && ReadRecord(data, offset).value.0 == x
  {
    var b :| b in x.fileId && b != 0;
    assert b in data[offset + FILE_ID_AT..offset + HEADER];
  }

  // Which records are refused for what.
  lemma RefusalMeans(data: seq<byte>, offset: nat)
    requires offset < |data|
    ensures ReadRecord(data, offset) == Err(Truncated) <==> offset + 88 > |data|
    ensures ReadRecord(data, offset) == Err(ReparsePoint) <==>
            exists x :: Holds(data, offset, x) && WellFormed(x) && x.attributes / 1024 % 2 == 1
                        && PointsPast(data, offset, x)
  {
    if x :| Holds(data, offset, x) && WellFormed(x) && x.attributes / 1024 % 2 == 1 && PointsPast(data, offset, x) {
      var b :| b in x.fileId && b != 0;
      assert b in data[offset + FILE_ID_AT..offset + HEADER];
    }
    if ReadRecord(data, offset) == Err(ReparsePoint) {
      var name := data[offset + HEADER..offset + HEADER + U32(data, offset + NAME_LENGTH_AT)];
      var x := Record(name, U32(data, offset + ATTRIBUTES_AT), data[offset + FILE_ID_AT..offset + HEADER]);
      assert Holds(data, offset, x);
    }
  }

  method Decode(data: seq<byte>) returns (r: Result<seq<Entry>, Error>)
    ensures r.Ok? <==> exists rs :: LaidOut(data, 0, rs) && forall x :: x in rs ==> Acceptable(x)
    ensures forall rs :: LaidOut(data, 0, rs) && (forall x :: x in rs ==> Acceptable(x)) ==> r == Ok(Visible(rs))
  {
    var result: seq<Entry> := [];
    var offset := 0;
    ghost var read: seq<Record> := [];
    while offset < |data|
      invariant 0 <= offset <= |data|
      invariant result == Visible(read) && forall x :: x in read ==> Acceptable(x)
      invariant forall rs :: LaidOut(data, 0, rs) <==> read <= rs && LaidOut(data, offset, rs[|read|..])
      decreases |data| - offset
    {
      var record := ReadRecord(data, offset);
      ghost var before := read;
      if record.Err? {
        NothingFurther(data, offset, read);
        return Err(record.error);
      }
      VisibleSnoc(read, record.value.0);
      result := result + Visible([record.value.0]);
      read := read + [record.value.0];
      LayoutStep(data, offset, before, record.value.0);
      offset := After(data, offset);
    }
    assert LaidOut(data, 0, read);
    forall rs | LaidOut(data, 0, rs) ensures rs == read {
      LayoutIsUnique(data, 0, rs, read);
    }
    r := Ok(result);
  }

  lemma {:induction false} VisibleSnoc(rs: seq<Record>, r: Record)
    ensures Visible(rs + [r]) == Visible(rs) + Visible([r])
  {
    if rs == [] {
      assert rs + [r] == [r];
    } else {
      VisibleSnoc(rs[1..], r);
      assert (rs + [r])[1..] == rs[1..] + [r];
    }
  }

  // Where no record can be read there is no acceptable layout either.
  lemma NothingFurther(data: seq<byte>, offset: nat, read: seq<Record>)
    requires offset < |data| && ReadRecord(data, offset).Err?
    requires forall rs :: LaidOut(data, 0, rs) <==> read <= rs && LaidOut(data, offset, rs[|read|..])
    ensures forall rs :: LaidOut(data, 0, rs) ==> exists x :: x in rs && !Acceptable(x)
  {
    forall rs | LaidOut(data, 0, rs) ensures exists x :: x in rs && !Acceptable(x) {
      var x := rs[|read|..][0];
      assert x == rs[|read|] && x in rs;
      if Acceptable(x) {
        ReadsWhatIsThere(data, offset, x);
      }
    }
  }

  lemma LayoutStep(data: seq<byte>, offset: nat, read: seq<Record>, r: Record)
    requires offset < |data| && ReadRecord(data, offset).Ok? && r == ReadRecord(data, offset).value.0
    requires forall rs :: LaidOut(data, 0, rs) <==> read <= rs && LaidOut(data, offset, rs[|read|..])
    ensures forall rs :: LaidOut(data, 0, rs) <==>
              read + [r] <= rs && LaidOut(data, After(data, offset), rs[|read| + 1..])
  {
    forall rs ensures LaidOut(data, 0, rs) <==>
                        read + [r] <= rs && LaidOut(data, After(data, offset), rs[|read| + 1..])
    {
      if read <= rs {
        TailLayout(data, offset, rs[|read|..], r);
        assert |rs| > |read| ==> rs[|read|..][1..] == rs[|read| + 1..] && rs[|read|..][0] == rs[|read|];
      }
    }
  }

  lemma TailLayout(data: seq<byte>, offset: nat, tail: seq<Record>, r: Record)
    requires offset < |data| && ReadRecord(data, offset).Ok? && r == ReadRecord(data, offset).value.0
    ensures LaidOut(data, offset, tail) <==> tail != [] && tail[0] == r && LaidOut(data, After(data, offset), tail[1..])
  {
    if tail != [] && Holds(data, offset, tail[0]) {
      assert tail[0] == r;
    }
  }

  // ----- An encoder -----------------------------------------------------------------------------

  // A record with the bytes that the decoder ignores: two gaps in the header and padding behind the name.
  datatype Packed = Packed(record: Record, gap: seq<byte>, gap': seq<byte>, padding: seq<byte>)

  predicate Encodable(p: Packed) {
    && Acceptable(p.record) && |p.gap| == 52 && |p.gap'| == 8
    && p.record.attributes < Power256(4) && HEADER + |p.record.name| + |p.padding| < Power256(4)
  }

  function EncodeOne(p: Packed, next: nat): (s: seq<byte>)
    requires Encodable(p)
    ensures |s| == HEADER + |p.record.name|
  {
    LittleEndian(next, 4) + p.gap + LittleEndian(p.record.attributes, 4) + LittleEndian(|p.record.name|, 4) + p.gap'
    + p.record.fileId + p.record.name
  }

  function Encode(ps: seq<Packed>): seq<byte>
    requires forall p :: p in ps ==> Encodable(p)
  {
    if ps == [] then []
    else if |ps| == 1 then EncodeOne(ps[0], 0) + ps[0].padding
    else EncodeOne(ps[0], HEADER + |ps[0].record.name| + |ps[0].padding|) + ps[0].padding + Encode(ps[1..])
  }

  function RecordsOf(ps: seq<Packed>): seq<Record> {
    if ps == [] then [] else [ps[0].record] + RecordsOf(ps[1..])
  }

  lemma EncodedHolds(p: Packed, next: nat, before: seq<byte>, after: seq<byte>)
    requires Encodable(p) && next < Power256(4)
    ensures var data := before + EncodeOne(p, next) + after;
            Holds(data, |before|, p.record) && U32(data, |before|) == next
  {
    var one := EncodeOne(p, next);
    var data := before + one + after;
    assert data[|before|..|before| + 4] == LittleEndian(next, 4);
    assert data[|before| + 56..|before| + 60] == LittleEndian(p.record.attributes, 4);
    assert data[|before| + 60..|before| + 64] == LittleEndian(|p.record.name|, 4);
    assert data[|before| + 72..|before| + 88] == p.record.fileId;
    assert data[|before| + 88..|before| + 88 + |p.record.name|] == p.record.name;
    LittleEndianRoundTrip(next, 4);
    LittleEndianRoundTrip(p.record.attributes, 4);
    LittleEndianRoundTrip(|p.record.name|, 4);
  }

  lemma LaidOutCons(data: seq<byte>, offset: nat, r: Record, rest: seq<Record>)
    requires offset < |data| && Holds(data, offset, r) && PointsPast(data, offset, r)
    requires LaidOut(data, After(data, offset), rest)
    ensures LaidOut(data, offset, [r] + rest)
  {
    assert ([r] + rest)[1..] == rest;
  }

  // A packed record at the end of a known prefix is found there, with what follows it behind.
  lemma SuffixHolds(data: seq<byte>, offset: nat, p: Packed, next: nat, after: seq<byte>)
    requires Encodable(p) && next < Power256(4) && offset <= |data| && data[offset..] == EncodeOne(p, next) + after
    ensures Holds(data, offset, p.record) && U32(data, offset) == next
    ensures data[offset + HEADER + |p.record.name|..] == after
  {
    EncodedHolds(p, next, data[..offset], after);
    assert data == data[..offset] + EncodeOne(p, next) + after;
  }

  lemma LastIsLaidOut(data: seq<byte>, offset: nat, p: Packed)
    requires Encodable(p) && offset <= |data| && data[offset..] == EncodeOne(p, 0) + p.padding
    ensures LaidOut(data, offset, [p.record])
  {
    SuffixHolds(data, offset, p, 0, p.padding);
    LaidOutCons(data, offset, p.record, []);
    assert [p.record] + [] == [p.record];
  }

  // Whatever the gaps and the padding hold, an encoded buffer is laid out as its records.
  lemma {:induction false} EncodedIsLaidOut(data: seq<byte>, offset: nat, ps: seq<Packed>)
    requires forall p :: p in ps ==> Encodable(p)
    requires offset <= |data| && data[offset..] == Encode(ps)
    ensures LaidOut(data, offset, RecordsOf(ps))
    decreases |ps|
  {
    if |ps| == 1 {
      LastIsLaidOut(data, offset, ps[0]);
      assert RecordsOf(ps) == [ps[0].record];
    } else if ps != [] {
      var next := FirstHolds(data, offset, ps);
      EncodedIsLaidOut(data, offset + next, ps[1..]);
      LaidOutCons(data, offset, ps[0].record, RecordsOf(ps[1..]));
    }
  }

  lemma FirstHolds(data: seq<byte>, offset: nat, ps: seq<Packed>) returns (next: nat)
    requires |ps| > 1 && forall p :: p in ps ==> Encodable(p)
    requires offset <= |data| && data[offset..] == Encode(ps)
    ensures Holds(data, offset, ps[0].record) && U32(data, offset) == next && offset + next <= |data|
    ensures HEADER + |ps[0].record.name| <= next && data[offset + next..] == Encode(ps[1..])
  {
    var p, rest := ps[0], Encode(ps[1..]);
    next := HEADER + |p.record.name| + |p.padding|;
    EncodeHead(ps);
    SuffixHolds(data, offset, p, next, p.padding + rest);
    DropPadding(data, offset, next, p.padding, rest);
  }

  lemma EncodeHead(ps: seq<Packed>)
    requires |ps| > 1 && forall p :: p in ps ==> Encodable(p)
    ensures Encode(ps) ==
            EncodeOne(ps[0], HEADER + |ps[0].record.name| + |ps[0].padding|) + (ps[0].padding + Encode(ps[1..]))
  {
  }

  lemma DropPadding(data: seq<byte>, offset: nat, next: nat, padding: seq<byte>, rest: seq<byte>)
    requires next >= |padding| && offset + next - |padding| <= |data|
    requires data[offset + next - |padding|..] == padding + rest
    ensures offset + next <= |data| && data[offset + next..] == rest
  {
    var tail := data[offset + next - |padding|..];
    assert tail[|padding|..] == rest;
  }

  // An encoded buffer has an acceptable layout, so the decoder returns the visible entries of the encoded records.
  lemma EncodedIsDecodable(ps: seq<Packed>)
    requires forall p :: p in ps ==> Encodable(p)
    ensures LaidOut(Encode(ps), 0, RecordsOf(ps)) && forall x :: x in RecordsOf(ps) ==> Acceptable(x)
  {
    assert Encode(ps)[0..] == Encode(ps);
    EncodedIsLaidOut(Encode(ps), 0, ps);
    RecordsAreAcceptable(ps);
  }

  lemma {:induction false} RecordsAreAcceptable(ps: seq<Packed>)
    requires forall p :: p in ps ==> Encodable(p)
    ensures forall x :: x in RecordsOf(ps) ==> Acceptable(x)
  {
    if ps != [] {
      RecordsAreAcceptable(ps[1..]);
      assert ps[0] in ps;
    }
  }
}
