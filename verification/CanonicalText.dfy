/** What canonical JSON looks like: how characters are spelled, the order of members, and that no text is shorter. */
module CanonicalText {
  import opened Wrappers
  import opened Tuples
  import opened Sorting
  import opened Decimals
  import opened Paths
  import opened CanonicalJson

  // ----- Characters -----------------------------------------------------------------------------

  predicate NeedsEscape(c: char) {
    c == '"' || c == '\\' || c < ' '
  }

  lemma {:induction false} EscapesNothing(text: string)
    requires forall i :: 0 <= i < |text| ==> !NeedsEscape(text[i])
    ensures Escaped(text) == text
  {
    if text != "" {
      EscapesNothing(text[1..]);
      assert text == [text[0]] + text[1..];
    }
  }

  // A text without quotes, backslashes and control characters is written as it is.
  lemma PlainText(text: string)
    requires forall i :: 0 <= i < |text| ==> !NeedsEscape(text[i])
    ensures Print(Str(text)) == "\"" + text + "\""
  {
    EscapesNothing(text);
  }

  // The spelling of every other character: seven have a short form, the rest are given by their code.
  lemma EscapedSpelling(c: char)
    ensures EscapedChar('"') == ['\\', '"'] && EscapedChar('\\') == ['\\', '\\']
    ensures EscapedChar('\U{8}') == ['\\', 'b'] && EscapedChar('\t') == ['\\', 't']
    ensures EscapedChar('\n') == ['\\', 'n'] && EscapedChar('\U{C}') == ['\\', 'f'] && EscapedChar('\r') == ['\\', 'r']
    ensures c < ' ' && c !in {'\U{8}', '\t', '\n', '\U{C}', '\r'} ==>
              EscapedChar(c) == ['\\', 'u', '0', '0'] + ["0123456789abcdef"[c as int / 16],
                                                         "0123456789abcdef"[c as int % 16]]
    ensures !NeedsEscape(c) ==> EscapedChar(c) == [c]
  {
  }

  // ----- Members --------------------------------------------------------------------------------

  // An object is written with its members in the order of their keys.
  lemma MembersAscend(ms: seq<Member>) returns (sorted: seq<Member>)
    ensures multiset(sorted) == multiset(ms)
    ensures forall i, j :: 0 <= i < j < |sorted| ==> Precedes(sorted[i].key, sorted[j].key)
    ensures Print(Object(ms)) == "{" + CanonicalJson.Joined(Texts(sorted)) + "}"
  {
    sorted := Sort(MemberKey, ms);
    SortKeepsMembers(MemberKey, ms);
    SortCommutes(ms);
    forall i, j | 0 <= i < j < |sorted| ensures Precedes(sorted[i].key, sorted[j].key) {
      OrderOfTexts(sorted[i].key, sorted[j].key);
    }
    TextsOfMembers(sorted);
  }

  function Texts(ms: seq<Member>): seq<string> {
    if ms == [] then [] else [Print(Str(ms[0].key)) + ":" + Print(ms[0].value)] + Texts(ms[1..])
  }

  lemma {:induction false} TextsOfMembers(ms: seq<Member>)
    ensures MemberTexts(PrintMembers(ms)) == Texts(ms)
  {
    if ms != [] {
      TextsOfMembers(ms[1..]);
      MemberTextsStep(ms);
    }
  }

  // ----- No text is shorter ---------------------------------------------------------------------

  // Each of these says that reading takes at least as many characters as the canonical text of what is read has.

  lemma UnescapeIsCompact(s: string)
    ensures Unescape(s).Ok? ==> |EscapedChar(Unescape(s).value.0)| + |Unescape(s).value.1| <= |s| + 1
  {
  }

  lemma {:induction false} CharsAreCompact(s: string)
    ensures ParseChars(s).Ok? ==> |Escaped(ParseChars(s).value.0)| + 1 + |ParseChars(s).value.1| <= |s|
    decreases |s|
  {
    if s != "" && s[0] == '\\' {
      UnescapeIsCompact(s[1..]);
      if Unescape(s[1..]).Ok? {
        var (c, rest) := Unescape(s[1..]).value;
        CharsAreCompact(rest);
        PrependCompact(c, ParseChars(rest));
      }
    } else if s != "" && s[0] != '"' {
      CharsAreCompact(s[1..]);
      PrependCompact(s[0], ParseChars(s[1..]));
    }
  }

  lemma PrependCompact(c: char, r: Result<(string, string), Error>)
    ensures r.Ok? ==> Prepend(c, r).Ok? && Prepend(c, r).value.1 == r.value.1
                      && |Escaped(Prepend(c, r).value.0)| == |EscapedChar(c)| + |Escaped(r.value.0)|
    ensures Prepend(c, r).Ok? ==> r.Ok?
  {
    if r.Ok? {
      assert ([c] + r.value.0)[1..] == r.value.0;
    }
  }

  lemma NumberIsCompact(s: string)
    ensures ParseNumber(s).Ok? ==> |Print(ParseNumber(s).value.0)| + |ParseNumber(s).value.1| <= |s|
  {
    var negative := s != "" && s[0] == '-';
    var t := if negative then s[1..] else s;
    if ParseMagnitude(negative, t).Ok? {
      var digits := IntegerDigits(t);
      DigitsArePlain(t);
      PlainIsDecimal(digits);
      assert |digits| + |t[|digits|..]| == |t|;
    }
  }

  lemma ScalarIsCompact(s: string)
    requires s != ""
    ensures ParseScalar(s).Ok? ==> |Print(ParseScalar(s).value.0)| + |ParseScalar(s).value.1| <= |s|
  {
    if s[0] == '"' {
      CharsAreCompact(s[1..]);
    } else if s[0] !in {'n', 't', 'f'} {
      NumberIsCompact(s);
    }
  }

  lemma {:induction false} ValueIsCompact(s: string)
    ensures ParseValue(s).Ok? ==> |Print(ParseValue(s).value.0)| + |ParseValue(s).value.1| <= |s|
    decreases |s|, 1
  {
    if s == "" {
    } else if s[0] == '[' {
      var inside := SkipBlank(s[1..]);
      if !(inside != "" && inside[0] == ']') {
        ItemsAreCompact(inside);
      }
    } else if s[0] == '{' {
      var inside := SkipBlank(s[1..]);
      if !(inside != "" && inside[0] == '}') {
        MembersAreCompact(inside);
        if ParseMembers(inside).Ok? {
          ObjectLength(ParseMembers(inside).value.0);
        }
      }
    } else {
      ScalarIsCompact(s);
    }
  }

  lemma {:induction false} ItemsAreCompact(s: string)
    ensures ParseItems(s).Ok? ==>
              var (items, rest) := ParseItems(s).value;
              items != [] && |CanonicalJson.Joined(PrintAll(items))| + 1 + |rest| <= |s|
    decreases |s|, 2
  {
    ValueIsCompact(s);
    if ParseValue(s).Ok? {
      var (v, after) := ParseValue(s).value;
      var next := SkipBlank(after);
      if next != "" && next[0] == ',' {
        ItemsAreCompact(SkipBlank(next[1..]));
        if ParseItems(SkipBlank(next[1..])).Ok? {
          var items := ParseItems(SkipBlank(next[1..])).value.0;
          assert ([v] + items)[1..] == items;
          assert PrintAll([v] + items) == [Print(v)] + PrintAll(items);
          assert ([Print(v)] + PrintAll(items))[1..] == PrintAll(items);
        }
      } else if next != "" && next[0] == ']' {
        assert PrintAll([v]) == [Print(v)];
      }
    }
  }

  // The length of the members' texts with their separators, in whatever order.
  function Length(ms: seq<Member>): nat {
    if ms == [] then 0 else |Print(Str(ms[0].key))| + 1 + |Print(ms[0].value)| + 1 + Length(ms[1..])
  }

  lemma {:induction false} MembersAreCompact(s: string)
    ensures ParseMembers(s).Ok? ==>
              var (ms, rest) := ParseMembers(s).value;
              ms != [] && Length(ms) + |rest| <= |s|
    decreases |s|, 3
  {
    MemberIsCompact(s);
    if ParseMember(s).Ok? {
      var (m, after) := ParseMember(s).value;
      var next := SkipBlank(after);
      if next != "" && next[0] == ',' {
        MembersAreCompact(SkipBlank(next[1..]));
        if ParseMembers(SkipBlank(next[1..])).Ok? {
          var ms := ParseMembers(SkipBlank(next[1..])).value.0;
          assert ([m] + ms)[1..] == ms;
        }
      } else if next != "" && next[0] == '}' {
        assert Length([m]) == |Print(Str(m.key))| + 1 + |Print(m.value)| + 1 + Length([]);
      }
    }
  }

  lemma {:induction false} MemberIsCompact(s: string)
    ensures ParseMember(s).Ok? ==>
              var (m, rest) := ParseMember(s).value;
              |Print(Str(m.key))| + 1 + |Print(m.value)| + |rest| <= |s|
    decreases |s|, 2
  {
    if s != "" && s[0] == '"' {
      CharsAreCompact(s[1..]);
      if ParseChars(s[1..]).Ok? {
        var (key, colon) := ParseChars(s[1..]).value;
        var separator := SkipBlank(colon);
        if separator != "" && separator[0] == ':' {
          ValueIsCompact(SkipBlank(separator[1..]));
        }
      }
    }
  }

  lemma {:induction false} InsertLength(x: Member, s: seq<Member>)
    ensures Length(Insert(MemberKey, x, s)) == Length([x]) + Length(s)
  {
    if s == [] {
    } else if AtMost(MemberKey(x), MemberKey(s[0])) {
      assert ([x] + s)[1..] == s && [x][1..] == [];
    } else {
      InsertLength(x, s[1..]);
      var rest := Insert(MemberKey, x, s[1..]);
      assert ([s[0]] + rest)[1..] == rest;
    }
  }

  lemma {:induction false} SortLength(ms: seq<Member>)
    ensures Length(Sort(MemberKey, ms)) == Length(ms)
  {
    if ms != [] {
      SortLength(ms[1..]);
      InsertLength(ms[0], Sort(MemberKey, ms[1..]));
      assert [ms[0]][1..] == [];
    }
  }

  lemma {:induction false} TextsLength(ms: seq<Member>)
    requires ms != []
    ensures |CanonicalJson.Joined(Texts(ms))| + 1 == Length(ms)
  {
    if |ms| == 1 {
      assert Texts(ms[1..]) == [] && Length(ms[1..]) == 0;
    } else {
      TextsLength(ms[1..]);
      assert Texts(ms)[1..] == Texts(ms[1..]);
    }
  }

  lemma ObjectLength(ms: seq<Member>)
    requires ms != []
    ensures |Print(Object(ms))| == Length(ms) + 1
  {
    var sorted := Sort(MemberKey, ms);
    SortSorts(MemberKey, ms);
    SortCommutes(ms);
    TextsOfMembers(sorted);
    SortLength(ms);
    TextsLength(sorted);
  }

  // No strict JSON text is shorter than the canonical text of the value that it is read as.
  lemma NoShorterText(text: string)
    requires StrictLoads(text).Ok?
    ensures |Print(StrictLoads(text).value)| <= |text|
  {
    ValueIsCompact(SkipBlank(text));
  }

  // ----- Limits ---------------------------------------------------------------------------------

  // A null inside so many lists.
  function Nested(depth: nat): Json {
    if depth == 0 then Null else Sequence(false, [Nested(depth - 1)])
  }

  lemma {:induction false} NestedIsValid(depth: nat, above: nat)
    ensures Valid(Nested(depth), above) <==> above + depth <= 64
  {
    if depth > 0 {
      NestedIsValid(depth - 1, above + 1);
      var v := Nested(depth);
      assert v.items == [Nested(depth - 1)] && v.items[0] == Nested(depth - 1);
      assert Valid(v, above) <==> above <= 64 && Valid(v.items[0], above + 1);
    }
  }

  // Sixty-four levels of nesting are encoded, and one more is not.
  lemma DepthLimit(depth: nat)
    ensures CanonicalBytes(Nested(depth)).Ok? <==> depth <= 64
  {
    NestedIsValid(depth, 0);
  }

  // Integers of up to 4,096 digits are encoded.
  lemma DigitLimit(n: int)
    ensures CanonicalBytes(Int(n)).Ok? <==> |Decimal(if n < 0 then -n else n)| <= 4096
  {
    var magnitude := if n < 0 then -n else n;
    DecimalIsPlain(magnitude);
    DigitCountIsMagnitude(Decimal(magnitude), 4096);
  }
}
