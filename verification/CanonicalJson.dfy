/** Canonical JSON: the compact printer with sorted keys, the strict parser, and their agreement. */
module CanonicalJson {
  import opened Wrappers
  import opened Tuples
  import opened Sorting
  import opened Lists
  import opened Decimals
  import opened Paths

  datatype Member = Member(key: string, value: Json)

  // A Python value of the float-free domain: objects keep insertion order, sequences know whether they are tuples.
  datatype Json =
    | Null
    | Bool(truth: bool)
    | Int(n: int)
    | Str(text: string)
    | Sequence(isTuple: bool, items: seq<Json>)
    | Object(members: seq<Member>)

  datatype Error = Malformed | Duplicate | TooManyDigits | NotCanonical | OutsideDomain

  const MAX_DEPTH := 64
  const MAX_DIGITS := 4096

  function MemberKey(m: Member): seq<int> {
    Codes(m.key)
  }

  // ----- The domain ---------------------------------------------------------------------------

  predicate IntegerInRange(n: int) {
    var magnitude: int := if n < 0 then -n else n;
    magnitude < Power10(MAX_DIGITS)
  }

  predicate DistinctKeys(ms: seq<Member>) {
    forall i, j :: 0 <= i < j < |ms| ==> ms[i].key != ms[j].key
  }

  predicate Valid(v: Json, depth: nat) {
    depth <= MAX_DEPTH &&
    match v
    case Int(n) => IntegerInRange(n)
    case Sequence(_, items) => forall i :: 0 <= i < |items| ==> Valid(items[i], depth + 1)
    case Object(ms) => DistinctKeys(ms) && forall i :: 0 <= i < |ms| ==> Valid(ms[i].value, depth + 1)
    case _ => true
  }

  // The value as it is read back: tuples are lists, members are in key order.
  function Normal(v: Json): Json {
    match v
    case Sequence(_, items) => Sequence(false, NormalAll(items))
    case Object(ms) => Object(Sort(MemberKey, NormalMembers(ms)))
    case _ => v
  }

  function NormalAll(items: seq<Json>): seq<Json> {
    if items == [] then [] else [Normal(items[0])] + NormalAll(items[1..])
  }

  function NormalMembers(ms: seq<Member>): seq<Member> {
    if ms == [] then [] else [Member(ms[0].key, Normal(ms[0].value))] + NormalMembers(ms[1..])
  }

  // ----- The printer --------------------------------------------------------------------------

  function HexDigit(n: nat): char
    requires n < 16
  {
    if n < 10 then '0' + n as char else 'a' + (n - 10) as char
  }

  function EscapedChar(c: char): string {
    if c == '"' then "\\\"" else if c == '\\' then "\\\\"
    else if c == '\n' then "\\n" else if c == '\r' then "\\r" else if c == '\t' then "\\t"
    else if c == '\U{8}' then "\\b" else if c == '\U{C}' then "\\f"
    else if c < ' ' then "\\u00" + [HexDigit(c as int / 16), HexDigit(c as int % 16)]
    else [c]
  }

  function Escaped(s: string): string {
    if s == "" then "" else EscapedChar(s[0]) + Escaped(s[1..])
  }

  function Quoted(s: string): string {
    "\"" + Escaped(s) + "\""
  }

  function Joined(texts: seq<string>): string {
    if texts == [] then "" else if |texts| == 1 then texts[0] else texts[0] + "," + Joined(texts[1..])
  }

  // A member already printed, still carrying its key for sorting.
  datatype Printed = Printed(key: string, text: string)

  function PrintedKey(p: Printed): seq<int> {
    Codes(p.key)
  }

  function MemberTexts(ps: seq<Printed>): seq<string> {
    if ps == [] then [] else [Quoted(ps[0].key) + ":" + ps[0].text] + MemberTexts(ps[1..])
  }

  function Print(v: Json): string {
    match v
    case Null => "null"
    case Bool(b) => if b then "true" else "false"
    case Int(n) => if n < 0 then "-" + Decimal(-n) else Decimal(n)
    case Str(s) => Quoted(s)
    case Sequence(_, items) => "[" + Joined(PrintAll(items)) + "]"
    case Object(ms) => "{" + Joined(MemberTexts(Sort(PrintedKey, PrintMembers(ms)))) + "}"
  }

  function PrintAll(items: seq<Json>): seq<string> {
    if items == [] then [] else [Print(items[0])] + PrintAll(items[1..])
  }

  function PrintMembers(ms: seq<Member>): seq<Printed> {
    if ms == [] then [] else [Printed(ms[0].key, Print(ms[0].value))] + PrintMembers(ms[1..])
  }

  function CanonicalBytes(v: Json): Result<string, Error> {
    if Valid(v, 0) then Ok(Print(v)) else Err(OutsideDomain)
  }

  // ----- The strict parser (RFC 8259, sections 2 to 7) ----------------------------------------

  function SkipBlank(s: string): (r: string)
    ensures |r| <= |s|
  {
    if s != "" && s[0] in {' ', '\t', '\n', '\r'} then SkipBlank(s[1..]) else s
  }

  function HexValue(c: char): Option<nat> {
    if IsDigit(c) then Some(DigitValue(c))
    else if 'a' <= c <= 'f' then Some(c as int - 'a' as int + 10)
    else if 'A' <= c <= 'F' then Some(c as int - 'A' as int + 10)
    else None
  }

  function HexNumber(s: string): Option<nat> {
    if s == "" then Some(0)
    else
      match (HexNumber(s[..|s| - 1]), HexValue(s[|s| - 1]))
      case (Some(high), Some(low)) => Some(16 * high + low)
      case _ => None
  }

  function Hex4(s: string): Option<nat> {
    if |s| < 4 then None else HexNumber(s[..4])
  }

  // The character that an escape stands for and the text after it; `s` starts behind the backslash. A surrogate
  // that is not half of a pair is outside the domain.
  function Unescape(s: string): (r: Result<(char, string), Error>)
    ensures r.Ok? ==> |r.value.1| < |s|
  {
    if s == "" then Err(Malformed)
    else
      var rest := s[1..];
      match s[0]
      case '"' => Ok(('"', rest))
      case '\\' => Ok(('\\', rest))
      case '/' => Ok(('/', rest))
      case 'b' => Ok(('\U{8}', rest))
      case 'f' => Ok(('\U{C}', rest))
      case 'n' => Ok(('\n', rest))
      case 'r' => Ok(('\r', rest))
      case 't' => Ok(('\t', rest))
      case 'u' =>
        (match Hex4(rest)
         case None => Err(Malformed)
         case Some(u) =>
           if u < 0xD800 || 0xE000 <= u < 0x10000 then Ok((u as char, rest[4..]))
           else if u < 0xDC00 && |rest| >= 6 && rest[4..6] == "\\u" then
             match Hex4(rest[6..])
             case Some(w) =>
               if 0xDC00 <= w < 0xE000 then
                 Ok(((0x10000 + (u - 0xD800) * 0x400 + (w - 0xDC00)) as char, rest[10..]))
               else Err(OutsideDomain)
             case None => Err(Malformed)
           else Err(OutsideDomain))
      case _ => Err(Malformed)
  }

  // The body of a string up to its closing quote.
  function ParseChars(s: string): (r: Result<(string, string), Error>)
    ensures r.Ok? ==> |r.value.1| < |s|
    decreases |s|
  {
    if s == "" || s[0] < ' ' then Err(Malformed)
    else if s[0] == '"' then Ok(("", s[1..]))
    else if s[0] == '\\' then
      match Unescape(s[1..])
      case Err(e) => Err(e)
      case Ok((c, rest)) => Prepend(c, ParseChars(rest))
    else Prepend(s[0], ParseChars(s[1..]))
  }

  function Prepend(c: char, r: Result<(string, string), Error>): Result<(string, string), Error> {
    match r
    case Err(e) => Err(e)
    case Ok((text, rest)) => Ok(([c] + text, rest))
  }

  function TakeDigits(s: string): (r: string)
    ensures r <= s && (forall i :: 0 <= i < |r| ==> IsDigit(r[i]))
    ensures |r| < |s| ==> !IsDigit(s[|r|])
  {
    if s != "" && IsDigit(s[0]) then [s[0]] + TakeDigits(s[1..]) else ""
  }

  // The digits of an integer token: a zero stands alone.
  function IntegerDigits(s: string): string {
    if s != "" && s[0] == '0' then "0" else TakeDigits(s)
  }

  // A fraction or an exponent follows: the token is a float, which this model leaves out.
  predicate FloatFollows(s: string) {
    || (|s| >= 2 && s[0] == '.' && IsDigit(s[1]))
    || (|s| >= 2 && s[0] in {'e', 'E'} && (IsDigit(s[1]) || (|s| >= 3 && s[1] in {'+', '-'} && IsDigit(s[2]))))
  }

  function Signed(negative: bool, digits: string): int
    requires Digits(digits)
  {
    var magnitude: int := Value(digits);
    if negative then -magnitude else magnitude
  }

  function ParseMagnitude(negative: bool, s: string): (r: Result<(Json, string), Error>)
    ensures r.Ok? ==> |r.value.1| < |s|
  {
    var digits := IntegerDigits(s);
    if digits == "" then Err(Malformed)
    else
      var rest := s[|digits|..];
      if FloatFollows(rest) then Err(OutsideDomain)
      else if |digits| > MAX_DIGITS then Err(TooManyDigits)
      else Ok((Int(Signed(negative, digits)), rest))
  }

  function ParseNumber(s: string): (r: Result<(Json, string), Error>)
    ensures r.Ok? ==> |r.value.1| < |s|
  {
    if s != "" && s[0] == '-' then ParseMagnitude(true, s[1..]) else ParseMagnitude(false, s)
  }

  function ParseLiteral(s: string): (r: Result<(Json, string), Error>)
    ensures r.Ok? ==> |r.value.1| < |s|
  {
    if "null" <= s then Ok((Null, s[4..]))
    else if "true" <= s then Ok((Bool(true), s[4..]))
    else if "false" <= s then Ok((Bool(false), s[5..]))
    else Err(Malformed)
  }

  function ParseScalar(s: string): (r: Result<(Json, string), Error>)
    requires s != ""
    ensures r.Ok? ==> |r.value.1| < |s|
  {
    if s[0] == '"' then
      match ParseChars(s[1..])
      case Err(e) => Err(e)
      case Ok((text, rest)) => Ok((Str(text), rest))
    else if s[0] in {'n', 't', 'f'} then ParseLiteral(s)
    else ParseNumber(s)
  }

  function ParseValue(s: string): (r: Result<(Json, string), Error>)
    ensures r.Ok? ==> |r.value.1| < |s|
    ensures s != "" && s[0] !in {'[', '{'} ==> r == ParseScalar(s)
    decreases |s|, 1
  {
    if s == "" then Err(Malformed)
    else if s[0] == '[' then ParseArray(SkipBlank(s[1..]))
    else if s[0] == '{' then ParseObject(SkipBlank(s[1..]))
    else ParseScalar(s)
  }

  // An array behind its opening bracket.
  function ParseArray(s: string): (r: Result<(Json, string), Error>)
    ensures r.Ok? ==> |r.value.1| < |s|
    decreases |s|, 4
  {
    if s != "" && s[0] == ']' then Ok((Sequence(false, []), s[1..]))
    else
      match ParseItems(s)
      case Err(e) => Err(e)
      case Ok((items, rest)) => Ok((Sequence(false, items), rest))
  }

  // An object behind its opening brace; duplicate names are refused.
  function ParseObject(s: string): (r: Result<(Json, string), Error>)
    ensures r.Ok? ==> |r.value.1| < |s|
    decreases |s|, 4
  {
    if s != "" && s[0] == '}' then Ok((Object([]), s[1..]))
    else
      match ParseMembers(s)
      case Err(e) => Err(e)
      case Ok((ms, rest)) => if DistinctKeys(ms) then Ok((Object(ms), rest)) else Err(Duplicate)
  }

  // One or more values up to the closing bracket.
  function ParseItems(s: string): (r: Result<(seq<Json>, string), Error>)
    ensures r.Ok? ==> |r.value.1| < |s|
    decreases |s|, 2
  {
    match ParseValue(s)
    case Err(e) => Err(e)
    case Ok((v, after)) => ItemsAfter(v, SkipBlank(after))
  }

  function ItemsAfter(v: Json, next: string): (r: Result<(seq<Json>, string), Error>)
    ensures r.Ok? ==> |r.value.1| < |next|
    decreases |next|, 3
  {
    if next == "" then Err(Malformed)
    else if next[0] == ']' then Ok(([v], next[1..]))
    else if next[0] == ',' then
      match ParseItems(SkipBlank(next[1..]))
      case Err(e) => Err(e)
      case Ok((items, rest)) => Ok(([v] + items, rest))
    else Err(Malformed)
  }

  // One name, a colon and a value.
  function ParseMember(s: string): (r: Result<(Member, string), Error>)
    ensures r.Ok? ==> |r.value.1| < |s|
    decreases |s|, 2
  {
    if s == "" || s[0] != '"' then Err(Malformed)
    else
      match ParseChars(s[1..])
      case Err(e) => Err(e)
      case Ok((key, colon)) =>
        var separator := SkipBlank(colon);
        if separator == "" || separator[0] != ':' then Err(Malformed)
        else
          match ParseValue(SkipBlank(separator[1..]))
          case Err(e) => Err(e)
          case Ok((v, after)) => Ok((Member(key, v), after))
  }

  // One or more members up to the closing brace.
  function ParseMembers(s: string): (r: Result<(seq<Member>, string), Error>)
    ensures r.Ok? ==> |r.value.1| < |s|
    decreases |s|, 3
  {
    match ParseMember(s)
    case Err(e) => Err(e)
    case Ok((m, after)) => MembersAfter(m, SkipBlank(after))
  }

  function MembersAfter(m: Member, next: string): (r: Result<(seq<Member>, string), Error>)
    ensures r.Ok? ==> |r.value.1| < |next|
    decreases |next|, 4
  {
    if next == "" then Err(Malformed)
    else if next[0] == '}' then Ok(([m], next[1..]))
    else if next[0] == ',' then
      match ParseMembers(SkipBlank(next[1..]))
      case Err(e) => Err(e)
      case Ok((ms, rest)) => Ok(([m] + ms, rest))
    else Err(Malformed)
  }

  function StrictLoads(text: string): Result<Json, Error> {
    match ParseValue(SkipBlank(text))
    case Err(e) => Err(e)
    case Ok((v, rest)) =>
      if SkipBlank(rest) != "" then Err(Malformed)
      else if Valid(v, 0) then Ok(v) else Err(OutsideDomain)
  }

  function LoadCanonical(text: string): Result<Json, Error> {
    match StrictLoads(text)
    case Err(e) => Err(e)
    case Ok(v) => if Print(v) == text then Ok(v) else Err(NotCanonical)
  }

  // ----- Strings --------------------------------------------------------------------------------

  lemma HexDigitValue(n: nat)
    requires n < 16
    ensures HexValue(HexDigit(n)) == Some(n)
  {
  }

  lemma UnescapeControl(c: char, rest: string)
    requires c < ' '
    ensures Unescape("u00" + [HexDigit(c as int / 16), HexDigit(c as int % 16)] + rest) == Ok((c, rest))
  {
    var high, low := HexDigit(c as int / 16), HexDigit(c as int % 16);
    HexDigitValue(c as int / 16);
    HexDigitValue(c as int % 16);
    var s := "u00" + [high, low] + rest;
    assert s[1..][..4] == ['0', '0', high, low];
    HexOfControl(high, low);
    assert s[1..][4..] == rest;
  }

  lemma HexOfControl(high: char, low: char)
    requires HexValue(high).Some? && HexValue(low).Some?
    ensures HexNumber(['0', '0', high, low]) == Some(16 * HexValue(high).value + HexValue(low).value)
  {
    assert ['0'][..0] == "" && ['0', '0'][..1] == ['0'] && ['0', '0', high][..2] == ['0', '0'];
    assert ['0', '0', high, low][..3] == ['0', '0', high];
    assert HexNumber(['0']) == Some(0);
    assert HexNumber(['0', '0']) == Some(0);
    assert HexNumber(['0', '0', high]) == Some(HexValue(high).value);
  }

  lemma ParseEscapedChar(c: char, rest: string)
    ensures ParseChars(EscapedChar(c) + rest) == Prepend(c, ParseChars(rest))
  {
    var e := EscapedChar(c);
    var s := e + rest;
    if c == '"' || c == '\\' || c == '\n' || c == '\r' || c == '\t' || c == '\U{8}' || c == '\U{C}' {
      assert s[1..] == [e[1]] + rest;
      assert Unescape(s[1..]) == Ok((c, s[1..][1..]));
    } else if c < ' ' {
      var code := [HexDigit(c as int / 16), HexDigit(c as int % 16)];
      assert s[1..] == "u00" + code + rest;
      UnescapeControl(c, rest);
    } else {
      assert s == [c] + rest;
    }
  }

  predicate Reads(r: Result<(string, string), Error>, text: string, rest: string) {
    r.Ok? && r.value.0 == text && r.value.1 == rest
  }

  lemma PrependReads(c: char, r: Result<(string, string), Error>, text: string, rest: string)
    requires Reads(r, text, rest)
    ensures Reads(Prepend(c, r), [c] + text, rest)
  {
  }

  lemma {:induction false} ParseEscaped(text: string, rest: string)
    ensures Reads(ParseChars(Escaped(text) + "\"" + rest), text, rest)
  {
    if text == "" {
      assert Escaped(text) + "\"" + rest == ['"'] + rest;
    } else {
      var after := Escaped(text[1..]) + "\"" + rest;
      ParseEscaped(text[1..], rest);
      ParseEscapedChar(text[0], after);
      PrependReads(text[0], ParseChars(after), text[1..], rest);
      Associates(EscapedChar(text[0]), Escaped(text[1..]), "\"");
      Associates(EscapedChar(text[0]), Escaped(text[1..]) + "\"", rest);
      assert text == [text[0]] + text[1..];
    }
  }

  lemma ParseQuoted(text: string, rest: string)
    ensures (Quoted(text) + rest)[0] == '"' && Reads(ParseChars((Quoted(text) + rest)[1..]), text, rest)
  {
    ParseEscaped(text, rest);
    assert (Quoted(text) + rest)[1..] == Escaped(text) + "\"" + rest;
  }

  // ----- Numbers --------------------------------------------------------------------------------

  // What may follow a value: nothing, or a separator or blank that no token can absorb.
  predicate Ends(rest: string) {
    rest == "" || rest[0] in {',', ']', '}', ' ', '\t', '\n', '\r'}
  }

  lemma {:induction false} TakeAllDigits(digits: string, rest: string)
    requires forall i :: 0 <= i < |digits| ==> IsDigit(digits[i])
    requires rest == "" || !IsDigit(rest[0])
    ensures TakeDigits(digits + rest) == digits
  {
    if digits == "" {
      assert digits + rest == rest;
    } else {
      TakeAllDigits(digits[1..], rest);
      assert (digits + rest)[1..] == digits[1..] + rest;
      assert digits == [digits[0]] + digits[1..];
    }
  }

  lemma ParsePlain(digits: string, rest: string)
    requires Plain(digits) && Ends(rest)
    ensures IntegerDigits(digits + rest) == digits && (digits + rest)[|digits|..] == rest
  {
    if digits[0] == '0' {
      assert digits == "0";
    } else {
      TakeAllDigits(digits, rest);
    }
  }

  lemma DigitsArePlain(s: string)
    ensures IntegerDigits(s) != "" ==> Plain(IntegerDigits(s))
    ensures IntegerDigits(s) <= s
  {
    if s != "" && s[0] != '0' && IntegerDigits(s) != "" {
      assert IntegerDigits(s)[0] == s[0];
    }
  }

  // The digit count in the parser and the magnitude in the validator accept the same integers.
  lemma IntegerBoundsAgree(digits: string)
    requires Plain(digits)
    ensures |digits| <= MAX_DIGITS <==> IntegerInRange(Value(digits))
    ensures var negated: int := Value(digits); |digits| <= MAX_DIGITS <==> IntegerInRange(-negated)
  {
    DigitCountIsMagnitude(digits, MAX_DIGITS);
  }

  predicate Parses(r: Result<(Json, string), Error>, v: Json, rest: string) {
    r.Ok? && r.value.0 == v && r.value.1 == rest
  }

  lemma ParseDigits(negative: bool, digits: string, rest: string)
    requires Plain(digits) && |digits| <= MAX_DIGITS && Ends(rest)
    ensures Parses(ParseMagnitude(negative, digits + rest), Int(Signed(negative, digits)), rest)
  {
    ParsePlain(digits, rest);
    assert !FloatFollows(rest);
  }

  lemma SignedDecimal(n: int)
    ensures var digits := Decimal(if n < 0 then -n else n);
            Plain(digits) && Signed(n < 0, digits) == n && (IntegerInRange(n) ==> |digits| <= MAX_DIGITS)
  {
    var magnitude: nat := if n < 0 then -n else n;
    DecimalIsPlain(magnitude);
    IntegerBoundsAgree(Decimal(magnitude));
  }

  lemma NumberWithSign(negative: bool, s: string, v: Json, rest: string)
    requires s != "" && IsDigit(s[0]) && Parses(ParseMagnitude(negative, s), v, rest)
    ensures Parses(ParseNumber(if negative then "-" + s else s), v, rest)
  {
    if negative {
      assert ("-" + s)[1..] == s;
    }
  }

  lemma NumberDispatch(s: string, v: Json, rest: string)
    requires s != "" && (s[0] == '-' || IsDigit(s[0])) && Parses(ParseNumber(s), v, rest)
    ensures Parses(ParseScalar(s), v, rest)
  {
  }

  lemma ParseInteger(n: int, rest: string)
    requires IntegerInRange(n) && Ends(rest)
    ensures Parses(ParseScalar(Print(Int(n)) + rest), Int(n), rest)
  {
    var digits := Decimal(if n < 0 then -n else n);
    SignedDecimal(n);
    ParseDigits(n < 0, digits, rest);
    NumberWithSign(n < 0, digits + rest, Int(n), rest);
    PrintedInteger(n, rest);
    NumberDispatch(Print(Int(n)) + rest, Int(n), rest);
  }

  lemma PrintedInteger(n: int, rest: string)
    ensures Print(Int(n)) + rest ==
            var s := Decimal(if n < 0 then -n else n) + rest; if n < 0 then "-" + s else s
  {
    if n < 0 {
      assert Print(Int(n)) + rest == "-" + (Decimal(-n) + rest);
    }
  }

  // ----- Sorting commutes with printing and with normalising ------------------------------

  function PrintMember(m: Member): Printed {
    Printed(m.key, Print(m.value))
  }

  function NormalMember(m: Member): Member {
    Member(m.key, Normal(m.value))
  }

  lemma {:induction false} InsertCommutes(x: Member, s: seq<Member>)
    ensures Insert(PrintedKey, PrintMember(x), PrintMembers(s)) == PrintMembers(Insert(MemberKey, x, s))
    ensures Insert(MemberKey, NormalMember(x), NormalMembers(s)) == NormalMembers(Insert(MemberKey, x, s))
  {
    if s == [] {
    } else if AtMost(MemberKey(x), MemberKey(s[0])) {
      assert ([x] + s)[1..] == s;
    } else {
      InsertCommutes(x, s[1..]);
      var rest := Insert(MemberKey, x, s[1..]);
      assert ([s[0]] + rest)[1..] == rest;
      assert PrintMembers(s)[1..] == PrintMembers(s[1..]) && NormalMembers(s)[1..] == NormalMembers(s[1..]);
    }
  }

  lemma {:induction false} SortCommutes(ms: seq<Member>)
    ensures Sort(PrintedKey, PrintMembers(ms)) == PrintMembers(Sort(MemberKey, ms))
    ensures Sort(MemberKey, NormalMembers(ms)) == NormalMembers(Sort(MemberKey, ms))
  {
    if ms != [] {
      SortCommutes(ms[1..]);
      InsertCommutes(ms[0], Sort(MemberKey, ms[1..]));
      assert PrintMembers(ms)[1..] == PrintMembers(ms[1..]) && NormalMembers(ms)[1..] == NormalMembers(ms[1..]);
    }
  }

  lemma SortedKeysAreDistinct(ms: seq<Member>)
    requires DistinctKeys(ms)
    ensures DistinctKeys(Sort(MemberKey, ms)) && |Sort(MemberKey, ms)| == |ms|
    ensures forall m :: m in Sort(MemberKey, ms) <==> m in ms
  {
    var s := Sort(MemberKey, ms);
    SortKeepsMembers(MemberKey, ms);
    assert NoDuplicates(ms);
    forall i, j | 0 <= i < j < |s| ensures s[i].key != s[j].key {
      assert s[i] in ms && s[j] in ms;
      if s[i] == s[j] {
        TwiceIn(s, i, j);
        CountWithoutDuplicates(ms, s[i]);
      }
    }
  }

  lemma {:induction false} NormalKeepsKeys(ms: seq<Member>)
    ensures |NormalMembers(ms)| == |ms| && |PrintMembers(ms)| == |ms|
    ensures forall i :: 0 <= i < |ms| ==> NormalMembers(ms)[i] == NormalMember(ms[i])
  {
    if ms != [] {
      NormalKeepsKeys(ms[1..]);
    }
  }

  // ----- The round trip -----------------------------------------------------------------------

  predicate IsBlank(c: char) {
    c in {' ', '\t', '\n', '\r'}
  }

  lemma PrintStart(v: Json)
    ensures Print(v) != "" && !IsBlank(Print(v)[0]) && Print(v)[0] != ']' && Print(v)[0] != '}'
  {
    if v.Int? {
      DecimalIsPlain(if v.n < 0 then -v.n else v.n);
    }
  }

  predicate ParsesItems(r: Result<(seq<Json>, string), Error>, items: seq<Json>, rest: string) {
    r.Ok? && r.value.0 == items && r.value.1 == rest
  }

  predicate ParsesMembers(r: Result<(seq<Member>, string), Error>, ms: seq<Member>, rest: string) {
    r.Ok? && r.value.0 == ms && r.value.1 == rest
  }

  lemma LiteralRoundTrip(v: Json, rest: string)
    requires (v.Null? || v.Bool?) && Ends(rest)
    ensures Parses(ParseScalar(Print(v) + rest), v, rest)
  {
    var s := Print(v) + rest;
    match v
    case Null => assert s[..4] == "null" && s[4..] == rest;
    case Bool(b) =>
      if b {
        assert s[..4] == "true" && s[4..] == rest;
      } else {
        assert s[..5] == "false" && s[5..] == rest;
      }
  }

  // Printing and parsing undo each other, whatever separator follows.
  lemma {:induction false} ValueRoundTrip(v: Json, depth: nat, rest: string)
    requires Valid(v, depth) && Ends(rest)
    ensures Parses(ParseValue(Print(v) + rest), Normal(v), rest)
    decreases v, 1, 0
  {
    PrintStart(v);
    match v
    case Null => LiteralRoundTrip(v, rest);
    case Bool(_) => LiteralRoundTrip(v, rest);
    case Int(n) => ParseInteger(n, rest);
    case Str(text) => ParseQuoted(text, rest);
    case Sequence(_, items) =>
      if items == [] {
        EmptyRoundTrip(v, rest);
      } else {
        ItemsRoundTrip(v, items, depth, rest);
        SequenceText(v, rest);
      }
    case Object(ms) =>
      SortedKeysAreDistinct(ms);
      if ms == [] {
        EmptyRoundTrip(v, rest);
      } else {
        MembersAreSmaller(v, depth);
        MembersRoundTrip(v, Sort(MemberKey, ms), depth, rest);
        ObjectText(v, rest);
      }
  }

  lemma EmptyRoundTrip(v: Json, rest: string)
    requires (v.Sequence? && v.items == []) || (v.Object? && v.members == [])
    ensures Parses(ParseValue(Print(v) + rest), Normal(v), rest)
  {
    var s := Print(v) + rest;
    assert Print(v) == if v.Sequence? then "[]" else "{}";
    assert s[1..] == [s[1]] + rest && s[1..][1..] == rest;
    assert SkipBlank(s[1..]) == s[1..];
  }

  lemma SequenceText(v: Json, rest: string)
    requires v.Sequence? && v.items != []
    requires ParsesItems(ParseItems(Joined(PrintAll(v.items)) + "]" + rest), NormalAll(v.items), rest)
    ensures Parses(ParseValue(Print(v) + rest), Normal(v), rest)
  {
    var inside := Joined(PrintAll(v.items)) + "]" + rest;
    assert (Print(v) + rest)[1..] == inside;
    PrintStart(v.items[0]);
    JoinedStart(PrintAll(v.items));
    assert inside[0] == Joined(PrintAll(v.items))[0];
    NothingToSkip(inside);
  }

  lemma JoinedStart(texts: seq<string>)
    requires texts != [] && texts[0] != ""
    ensures Joined(texts) != "" && Joined(texts)[0] == texts[0][0]
  {
  }

  lemma JoinedSplit(texts: seq<string>, close: string, rest: string)
    requires texts != []
    ensures Joined(texts) + close + rest ==
            if |texts| == 1 then texts[0] + (close + rest) else texts[0] + ("," + (Joined(texts[1..]) + close + rest))
  {
    if |texts| > 1 {
      var others := Joined(texts[1..]);
      Reassociate(texts[0], ",", others, close, rest);
    }
  }

  lemma Reassociate(a: string, b: string, c: string, d: string, e: string)
    ensures a + b + c + d + e == a + (b + (c + d + e))
  {
  }

  lemma NothingToSkip(s: string)
    requires s != "" && !IsBlank(s[0])
    ensures SkipBlank(s) == s
  {
  }

  lemma ObjectText(v: Json, rest: string)
    requires v.Object? && v.members != [] && DistinctKeys(v.members)
    requires var s := Sort(MemberKey, v.members);
             ParsesMembers(ParseMembers(Joined(MemberTexts(PrintMembers(s))) + "}" + rest), NormalMembers(s), rest)
    ensures Parses(ParseValue(Print(v) + rest), Normal(v), rest)
  {
    var s := Sort(MemberKey, v.members);
    SortCommutes(v.members);
    SortedKeysAreDistinct(v.members);
    NormalKeepsKeys(s);
    var texts := MemberTexts(PrintMembers(s));
    var inside := Joined(texts) + "}" + rest;
    assert (Print(v) + rest)[1..] == inside;
    JoinedStart(texts);
    assert inside[0] == Joined(texts)[0] == '"';
    NothingToSkip(inside);
  }

  lemma {:induction false} ItemsRoundTrip(whole: Json, items: seq<Json>, depth: nat, rest: string)
    requires items != [] && forall i :: 0 <= i < |items| ==> items[i] < whole && Valid(items[i], depth + 1)
    ensures ParsesItems(ParseItems(Joined(PrintAll(items)) + "]" + rest), NormalAll(items), rest)
    decreases whole, 0, |items|
  {
    var others := PrintAll(items[1..]);
    JoinedSplit(PrintAll(items), "]", rest);
    assert PrintAll(items)[0] == Print(items[0]) && PrintAll(items)[1..] == others;
    if |items| == 1 {
      ValueRoundTrip(items[0], depth + 1, "]" + rest);
      OneItem(items[0], rest);
    } else {
      var tail := Joined(others) + "]" + rest;
      ItemsRoundTrip(whole, items[1..], depth, rest);
      ValueRoundTrip(items[0], depth + 1, "," + tail);
      PrintStart(items[1]);
      JoinedStart(others);
      assert tail[0] == Joined(others)[0];
      MoreItems(Print(items[0]) + ("," + tail), Normal(items[0]), NormalAll(items[1..]), tail, rest);
    }
  }

  lemma OneItem(v: Json, rest: string)
    requires Parses(ParseValue(Print(v) + ("]" + rest)), Normal(v), "]" + rest)
    ensures ParsesItems(ParseItems(Print(v) + ("]" + rest)), NormalAll([v]), rest)
  {
    assert ("]" + rest)[1..] == rest;
    ItemsStep(Print(v) + ("]" + rest), Normal(v), "]" + rest, [Normal(v)], rest);
  }

  lemma MoreItems(s: string, v: Json, items: seq<Json>, tail: string, rest: string)
    requires Parses(ParseValue(s), v, "," + tail)
    requires tail != "" && !IsBlank(tail[0]) && ParsesItems(ParseItems(tail), items, rest)
    ensures ParsesItems(ParseItems(s), [v] + items, rest)
  {
    ItemsComma(v, tail, items, rest);
    ItemsStep(s, v, "," + tail, [v] + items, rest);
  }

  lemma ItemsComma(v: Json, tail: string, items: seq<Json>, rest: string)
    requires tail != "" && !IsBlank(tail[0]) && ParsesItems(ParseItems(tail), items, rest)
    ensures ParsesItems(ItemsAfter(v, "," + tail), [v] + items, rest)
  {
    NothingToSkip(tail);
    assert ("," + tail)[1..] == tail;
  }

  lemma ItemsStep(s: string, v: Json, next: string, items: seq<Json>, rest: string)
    requires Parses(ParseValue(s), v, next) && next != "" && !IsBlank(next[0])
    requires ParsesItems(ItemsAfter(v, next), items, rest)
    ensures ParsesItems(ParseItems(s), items, rest)
  {
    NothingToSkip(next);
  }

  lemma MembersAreSmaller(v: Json, depth: nat)
    requires v.Object? && Valid(v, depth)
    ensures var s := Sort(MemberKey, v.members);
            forall i :: 0 <= i < |s| ==> s[i].value < v && Valid(s[i].value, depth + 1)
  {
    var s := Sort(MemberKey, v.members);
    SortedKeysAreDistinct(v.members);
    forall i | 0 <= i < |s| ensures s[i].value < v && Valid(s[i].value, depth + 1) {
      assert s[i] in v.members;
      var j :| 0 <= j < |v.members| && v.members[j] == s[i];
      assert v.members[j].value < v;
    }
  }

  predicate ParsesMember(r: Result<(Member, string), Error>, m: Member, rest: string) {
    r.Ok? && r.value.0 == m && r.value.1 == rest
  }

  function MemberText(m: Member): string {
    Quoted(m.key) + ":" + Print(m.value)
  }

  lemma {:induction false} MembersRoundTrip(whole: Json, ms: seq<Member>, depth: nat, rest: string)
    requires ms != [] && forall i :: 0 <= i < |ms| ==> ms[i].value < whole && Valid(ms[i].value, depth + 1)
    ensures ParsesMembers(ParseMembers(Joined(MemberTexts(PrintMembers(ms))) + "}" + rest), NormalMembers(ms), rest)
    decreases whole, 0, |ms|
  {
    var m, others := ms[0], MemberTexts(PrintMembers(ms[1..]));
    MemberTextsStep(ms);
    JoinedSplit([MemberText(m)] + others, "}", rest);
    if |ms| == 1 {
      ValueRoundTrip(m.value, depth + 1, "}" + rest);
      OneMember(m, "}" + rest);
      LastMember(m, rest);
    } else {
      var tail := Joined(others) + "}" + rest;
      MembersRoundTrip(whole, ms[1..], depth, rest);
      ValueRoundTrip(m.value, depth + 1, "," + tail);
      OneMember(m, "," + tail);
      MembersTail(ms[1..], rest);
      MoreMembers(MemberText(m) + ("," + tail), NormalMember(m), NormalMembers(ms[1..]), tail, rest);
      assert ([MemberText(m)] + others)[1..] == others;
    }
  }

  lemma MembersTail(ms: seq<Member>, rest: string)
    requires ms != []
    ensures var tail := Joined(MemberTexts(PrintMembers(ms))) + "}" + rest; tail != "" && tail[0] == '"'
  {
    MemberTextsStep(ms);
    JoinedStart(MemberTexts(PrintMembers(ms)));
  }

  lemma MemberTextsStep(ms: seq<Member>)
    requires ms != []
    ensures MemberTexts(PrintMembers(ms)) == [MemberText(ms[0])] + MemberTexts(PrintMembers(ms[1..]))
    ensures MemberText(ms[0]) != "" && MemberText(ms[0])[0] == '"'
  {
    assert PrintMembers(ms)[1..] == PrintMembers(ms[1..]);
  }

  // A printed member is read back with its normalised value.
  lemma OneMember(m: Member, after: string)
    requires Parses(ParseValue(Print(m.value) + after), Normal(m.value), after)
    ensures ParsesMember(ParseMember(MemberText(m) + after), NormalMember(m), after)
  {
    var value := Print(m.value) + after;
    ParseQuoted(m.key, ":" + value);
    assert MemberText(m) + after == Quoted(m.key) + (":" + value);
    PrintStart(m.value);
    assert value[0] == Print(m.value)[0];
    NothingToSkip(":" + value);
    NothingToSkip(value);
    assert (":" + value)[1..] == value;
  }

  lemma LastMember(m: Member, rest: string)
    requires ParsesMember(ParseMember(MemberText(m) + ("}" + rest)), NormalMember(m), "}" + rest)
    ensures ParsesMembers(ParseMembers(MemberText(m) + ("}" + rest)), NormalMembers([m]), rest)
  {
    assert ("}" + rest)[1..] == rest;
    MembersStep(MemberText(m) + ("}" + rest), NormalMember(m), "}" + rest, [NormalMember(m)], rest);
  }

  lemma MoreMembers(s: string, m: Member, ms: seq<Member>, tail: string, rest: string)
    requires ParsesMember(ParseMember(s), m, "," + tail)
    requires tail != "" && !IsBlank(tail[0]) && ParsesMembers(ParseMembers(tail), ms, rest)
    ensures ParsesMembers(ParseMembers(s), [m] + ms, rest)
  {
    MembersComma(m, tail, ms, rest);
    MembersStep(s, m, "," + tail, [m] + ms, rest);
  }

  lemma MembersComma(m: Member, tail: string, ms: seq<Member>, rest: string)
    requires tail != "" && !IsBlank(tail[0]) && ParsesMembers(ParseMembers(tail), ms, rest)
    ensures ParsesMembers(MembersAfter(m, "," + tail), [m] + ms, rest)
  {
    NothingToSkip(tail);
    assert ("," + tail)[1..] == tail;
  }

  lemma MembersStep(s: string, m: Member, next: string, ms: seq<Member>, rest: string)
    requires ParsesMember(ParseMember(s), m, next) && next != "" && !IsBlank(next[0])
    requires ParsesMembers(MembersAfter(m, next), ms, rest)
    ensures ParsesMembers(ParseMembers(s), ms, rest)
  {
    NothingToSkip(next);
  }

  // ----- Main results ---------------------------------------------------------------------------

  lemma PrintOfNormal(v: Json)
    ensures Print(Normal(v)) == Print(v)
    decreases v, 1, 0
  {
    match v
    case Sequence(_, items) => PrintAllOfNormal(v, items);
    case Object(ms) =>
      var s := Sort(MemberKey, ms);
      SortCommutes(ms);
      SortKeepsMembers(MemberKey, ms);
      forall i | 0 <= i < |s| ensures s[i].value < v {
        assert s[i] in ms;
        var j :| 0 <= j < |ms| && ms[j] == s[i];
        assert v.members[j].value < v;
      }
      PrintMembersOfNormal(v, s);
      SortCommutes(NormalMembers(s));
      NormalIsSorted(s, ms);
    case _ =>
  }

  lemma NormalIsSorted(s: seq<Member>, ms: seq<Member>)
    requires s == Sort(MemberKey, ms)
    ensures Sort(MemberKey, NormalMembers(s)) == NormalMembers(s)
  {
    SortKeepsMembers(MemberKey, ms);
    NormalKeepsKeys(s);
    forall i, j | 0 <= i < j < |s| ensures AtMost(MemberKey(NormalMembers(s)[i]), MemberKey(NormalMembers(s)[j])) {
      assert AtMost(MemberKey(s[i]), MemberKey(s[j]));
    }
    SortOfSorted(MemberKey, NormalMembers(s));
  }

  lemma PrintAllOfNormal(whole: Json, items: seq<Json>)
    requires forall i :: 0 <= i < |items| ==> items[i] < whole
    ensures PrintAll(NormalAll(items)) == PrintAll(items)
    decreases whole, 0, |items|
  {
    if items != [] {
      PrintOfNormal(items[0]);
      PrintAllOfNormal(whole, items[1..]);
      assert NormalAll(items)[1..] == NormalAll(items[1..]);
    }
  }

  lemma PrintMembersOfNormal(whole: Json, ms: seq<Member>)
    requires forall i :: 0 <= i < |ms| ==> ms[i].value < whole
    ensures PrintMembers(NormalMembers(ms)) == PrintMembers(ms)
    decreases whole, 0, |ms|
  {
    if ms != [] {
      PrintOfNormal(ms[0].value);
      PrintMembersOfNormal(whole, ms[1..]);
      assert NormalMembers(ms)[1..] == NormalMembers(ms[1..]);
    }
  }

  lemma {:induction false} NormalIsValid(v: Json, depth: nat)
    requires Valid(v, depth)
    ensures Valid(Normal(v), depth)
    decreases v, 1, 0
  {
    match v
    case Sequence(_, items) => NormalAllIsValid(v, items, depth);
    case Object(ms) =>
      var s := Sort(MemberKey, ms);
      SortCommutes(ms);
      SortedKeysAreDistinct(ms);
      MembersAreSmaller(v, depth);
      NormalKeepsKeys(s);
      forall i | 0 <= i < |s| ensures Valid(Normal(s[i].value), depth + 1) {
        NormalIsValid(s[i].value, depth + 1);
      }
    case _ =>
  }

  lemma {:induction false} NormalAllIsValid(whole: Json, items: seq<Json>, depth: nat)
    requires forall i :: 0 <= i < |items| ==> items[i] < whole && Valid(items[i], depth + 1)
    ensures |NormalAll(items)| == |items| && forall i :: 0 <= i < |items| ==> Valid(NormalAll(items)[i], depth + 1)
    decreases whole, 0, |items|
  {
    if items != [] {
      NormalIsValid(items[0], depth + 1);
      NormalAllIsValid(whole, items[1..], depth);
    }
  }

  // Reading back what was written gives the value, tuples read as lists and members in key order.
  lemma RoundTrip(v: Json)
    requires Valid(v, 0)
    ensures LoadCanonical(Print(v)) == Ok(Normal(v))
  {
    ValueRoundTrip(v, 0, "");
    PrintStart(v);
    NothingToSkip(Print(v));
    assert Print(v) + "" == Print(v);
    NormalIsValid(v, 0);
    PrintOfNormal(v);
  }

  // A payload is accepted exactly when it is what the encoder writes for some value of the domain.
  lemma AcceptedExactly(text: string)
    ensures LoadCanonical(text).Ok? <==> exists v :: CanonicalBytes(v) == Ok(text)
  {
    if LoadCanonical(text).Ok? {
      assert CanonicalBytes(LoadCanonical(text).value) == Ok(text);
    }
    forall v | CanonicalBytes(v) == Ok(text) ensures LoadCanonical(text).Ok? {
      RoundTrip(v);
    }
  }

  // Two values with the same encoding are equal up to tuples and member order.
  lemma EncodingIsInjective(v: Json, w: Json)
    requires CanonicalBytes(v).Ok? && CanonicalBytes(v) == CanonicalBytes(w)
    ensures Normal(v) == Normal(w)
  {
    RoundTrip(v);
    RoundTrip(w);
  }

  // Whatever the strict parser accepts is written back as a payload that is accepted and read the same.
  lemma ReencodingIsStable(text: string)
    requires StrictLoads(text).Ok?
    ensures var v := StrictLoads(text).value;
            CanonicalBytes(v).Ok? && LoadCanonical(Print(v)) == Ok(Normal(v)) && Print(Normal(v)) == Print(v)
  {
    RoundTrip(StrictLoads(text).value);
    PrintOfNormal(StrictLoads(text).value);
  }
}
