/** The strict parser against the grammar of JSON (RFC 8259, sections 2 to 7), without fractions and exponents. */
module JsonGrammar {
  import opened Wrappers
  import opened Lists
  import opened Decimals
  import opened CanonicalJson

  // ----- The grammar ----------------------------------------------------------------------------

  predicate Blank(s: string) {
    forall i :: 0 <= i < |s| ==> s[i] in {' ', '\t', '\n', '\r'}
  }

  // The two-character escapes.
  predicate Short(e: char, c: char) {
    || (e == c && c in {'"', '\\', '/'}) || (e == 'b' && c == '\U{8}') || (e == 'f' && c == '\U{C}')
    || (e == 'n' && c == '\n') || (e == 'r' && c == '\r') || (e == 't' && c == '\t')
  }

  predicate HexDigitOf(d: char, n: nat) {
    n < 16 && (d == "0123456789abcdef"[n] || d == "0123456789ABCDEF"[n])
  }

  predicate HexOf(h: string, n: nat) {
    && |h| == 4 && n < 0x10000 && HexDigitOf(h[0], n / 4096) && HexDigitOf(h[1], n / 256 % 16)
    && HexDigitOf(h[2], n / 16 % 16) && HexDigitOf(h[3], n % 16)
  }

  // A character as itself, by a short escape, by its code, or by a pair of surrogates.
  predicate SpellsChar(t: string, c: char) {
    || (t == [c] && c >= ' ' && c != '"' && c != '\\')
    || (|t| == 2 && t[0] == '\\' && Short(t[1], c))
    || (|t| == 6 && t[..2] == ['\\', 'u'] && HexOf(t[2..], c as int))
    || (&& |t| == 12 && t[..2] == ['\\', 'u'] && t[6..8] == ['\\', 'u'] && c as int >= 0x10000
        && HexOf(t[2..6], 0xD800 + (c as int - 0x10000) / 0x400)
        && HexOf(t[8..], 0xDC00 + (c as int - 0x10000) % 0x400))
  }

  ghost predicate SpellsText(t: string, text: string)
    decreases |text|
  {
    if text == "" then t == ""
    else exists k :: 0 < k <= |t| && SpellsChar(t[..k], text[0]) && SpellsText(t[k..], text[1..])
  }

  ghost predicate SpellsString(t: string, text: string) {
    Enclosed(t, '"', '"') && SpellsText(Inside(t), text)
  }

  // Digits without a superfluous zero, at most 4,096 of them, after an optional minus sign.
  predicate SpellsInt(t: string, n: int) {
    if t != "" && t[0] == '-' then Plain(t[1..]) && |t| <= 4097 && n == -(Value(t[1..]) as int)
    else Plain(t) && |t| <= 4096 && n == Value(t)
  }

  ghost predicate Spells(t: string, v: Json)
    decreases v, 2
  {
    match v
    case Null => t == "null"
    case Bool(b) => t == if b then "true" else "false"
    case Int(n) => SpellsInt(t, n)
    case Str(text) => SpellsString(t, text)
    case Sequence(isTuple, items) => !isTuple && Enclosed(t, '[', ']') && SpellsItems(Inside(t), v, items)
    case Object(ms) => DistinctKeys(ms) && Enclosed(t, '{', '}') && SpellsMembers(Inside(t), v, ms)
  }

  predicate Enclosed(t: string, open: char, close: char) {
    |t| >= 2 && t[0] == open && t[|t| - 1] == close
  }

  function Inside(t: string): string {
    if |t| < 2 then "" else t[1..|t| - 1]
  }

  // Values between commas, each with blanks around it; `whole` is the value that they belong to.
  ghost predicate SpellsItems(t: string, whole: Json, items: seq<Json>)
    decreases whole, 1, |items|
  {
    if items == [] then Blank(t)
    else if |items| == 1 then
      exists before, item, after ::
        SplitsLast(t, before, item, after) && items[0] < whole && Spells(item, items[0])
    else
      exists before, item, after, rest ::
        && SplitsItem(t, before, item, after, rest) && items[0] < whole && Spells(item, items[0])
        && SpellsItems(rest, whole, items[1..])
  }

  predicate SplitsLast(t: string, before: string, item: string, after: string) {
    Blank(before) && Blank(after) && t == before + item + after
  }

  predicate SplitsItem(t: string, before: string, item: string, after: string, rest: string) {
    Blank(before) && Blank(after) && t == before + item + after + "," + rest
  }

  ghost predicate SpellsMembers(t: string, whole: Json, ms: seq<Member>)
    decreases whole, 1, |ms|
  {
    if ms == [] then Blank(t)
    else if |ms| == 1 then
      exists before, member, after ::
        SplitsLast(t, before, member, after) && ms[0].value < whole && SpellsMember(member, ms[0])
    else
      exists before, member, after, rest ::
        && SplitsItem(t, before, member, after, rest) && ms[0].value < whole && SpellsMember(member, ms[0])
        && SpellsMembers(rest, whole, ms[1..])
  }

  // A name, a colon with blanks around it, and a value.
  ghost predicate SpellsMember(t: string, m: Member)
    decreases m.value, 3
  {
    exists name, before, after, value ::
      SplitsMember(t, name, before, after, value) && SpellsString(name, m.key) && Spells(value, m.value)
  }

  predicate SplitsMember(t: string, name: string, before: string, after: string, value: string) {
    Blank(before) && Blank(after) && t == name + before + ":" + after + value
  }

  // ----- Characters -----------------------------------------------------------------------------

  lemma HexDigitRead(d: char, n: nat)
    ensures HexDigitOf(d, n) <==> HexValue(d) == Some(n)
  {
  }

  lemma HexStep(s: string, d: char)
    ensures HexNumber(s + [d]) ==
            if HexNumber(s).Some? && HexValue(d).Some? then Some(16 * HexNumber(s).value + HexValue(d).value) else None
  {
    assert (s + [d])[..|s|] == s;
  }

  lemma HexUnrolled(a: char, b: char, c: char, d: char)
    ensures HexNumber([a, b, c, d]) ==
            if HexValue(a).None? || HexValue(b).None? || HexValue(c).None? || HexValue(d).None? then None
            else Some(4096 * HexValue(a).value + 256 * HexValue(b).value + 16 * HexValue(c).value + HexValue(d).value)
  {
    HexStep("", a);
    HexStep([a], b);
    HexStep([a, b], c);
    HexStep([a, b, c], d);
    assert "" + [a] == [a] && [a] + [b] == [a, b] && [a, b] + [c] == [a, b, c] && [a, b, c] + [d] == [a, b, c, d];
  }

  lemma ShiftDigits(n: nat, high: nat, low: nat)
    requires low < 16
    ensures n == 16 * high + low <==> high == n / 16 && low == n % 16
  {
  }

  lemma FourDigits(n: nat, a: nat, b: nat, c: nat, d: nat)
    requires a < 16 && b < 16 && c < 16 && d < 16
    ensures n == 4096 * a + 256 * b + 16 * c + d <==>
            n < 0x10000 && a == n / 4096 && b == n / 256 % 16 && c == n / 16 % 16 && d == n % 16
  {
    ShiftDigits(n, 256 * a + 16 * b + c, d);
    ShiftDigits(n / 16, 16 * a + b, c);
    ShiftDigits(n / 256, a, b);
    assert n / 16 / 16 == n / 256 && n / 256 / 16 == n / 4096;
  }

  lemma HexFour(a: char, b: char, c: char, d: char, n: nat)
    ensures HexNumber([a, b, c, d]) == Some(n) <==>
            n < 0x10000 && HexDigitOf(a, n / 4096) && HexDigitOf(b, n / 256 % 16) && HexDigitOf(c, n / 16 % 16)
            && HexDigitOf(d, n % 16)
  {
    HexUnrolled(a, b, c, d);
    HexDigitRead(a, n / 4096);
    HexDigitRead(b, n / 256 % 16);
    HexDigitRead(c, n / 16 % 16);
    HexDigitRead(d, n % 16);
    if HexValue(a).Some? && HexValue(b).Some? && HexValue(c).Some? && HexValue(d).Some? {
      FourDigits(n, HexValue(a).value, HexValue(b).value, HexValue(c).value, HexValue(d).value);
    }
  }

  lemma HexRead(h: string, n: nat)
    ensures HexOf(h, n) <==> |h| == 4 && HexNumber(h) == Some(n)
  {
    if |h| == 4 {
      HexFour(h[0], h[1], h[2], h[3], n);
      assert h == [h[0], h[1], h[2], h[3]];
    }
  }

  // Parts of known length are found where they were put.
  lemma Slices(a: string, b: string, c: string, d: string)
    ensures var s := a + b + c + d;
            && s[..|a|] == a && s[|a|..|a| + |b|] == b && s[|a| + |b|..|a| + |b| + |c|] == c
            && s[|a| + |b| + |c|..] == d && s[|a|..] == b + c + d
  {
  }

  lemma CodeIsRead(h: string, c: char, rest: string)
    requires HexOf(h, c as int)
    ensures Unescape(['u'] + (h + rest)) == Ok((c, rest))
  {
    HexRead(h, c as int);
    assert (['u'] + (h + rest))[1..] == h + rest;
    assert (h + rest)[..4] == h && (h + rest)[4..] == rest;
  }

  lemma PairIsRead(s: string, high: string, low: string, c: char)
    requires |s| >= 11 && s[0] == 'u' && s[1..][..4] == high && s[1..][4..6] == ['\\', 'u'] && s[1..][6..][..4] == low
    requires c as int >= 0x10000 && HexOf(high, 0xD800 + (c as int - 0x10000) / 0x400)
    requires HexOf(low, 0xDC00 + (c as int - 0x10000) % 0x400)
    ensures Unescape(s) == Ok((c, s[1..][10..]))
  {
    var u, w := 0xD800 + (c as int - 0x10000) / 0x400, 0xDC00 + (c as int - 0x10000) % 0x400;
    HexRead(high, u);
    HexRead(low, w);
    PairOf(c as int);
    PairUnescaped(s, u, w);
  }

  lemma PairUnescaped(s: string, u: nat, w: nat)
    requires |s| >= 11 && s[0] == 'u' && s[1..][4..6] == ['\\', 'u']
    requires Hex4(s[1..]) == Some(u) && Hex4(s[1..][6..]) == Some(w) && 0xD800 <= u < 0xDC00 <= w < 0xE000
    ensures 0x10000 + (u - 0xD800) * 0x400 + (w - 0xDC00) < 0x11_0000
    ensures Unescape(s) == Ok(((0x10000 + (u - 0xD800) * 0x400 + (w - 0xDC00)) as char, s[1..][10..]))
  {
  }

  lemma PairOf(n: nat)
    requires 0x10000 <= n < 0x11_0000
    ensures var u, w := 0xD800 + (n - 0x10000) / 0x400, 0xDC00 + (n - 0x10000) % 0x400;
            0xD800 <= u < 0xDC00 <= w < 0xE000 && 0x10000 + (u - 0xD800) * 0x400 + (w - 0xDC00) == n
  {
  }

  lemma PairSlices(t: string, rest: string)
    requires |t| == 12
    ensures var s := (t[1..] + rest)[1..];
            && s[..4] == t[2..6] && s[4..6] == t[6..8] && s[6..][..4] == t[8..] && s[10..] == rest
            && (t[1..] + rest)[0] == t[1]
  {
  }

  lemma EscapeParts(t: string, rest: string, escape: string)
    requires t == ['\\'] + escape
    ensures (t + rest)[0] == '\\' && (t + rest)[1..] == escape + rest
  {
  }

  lemma ShortIsRead(e: char, c: char, rest: string)
    requires Short(e, c)
    ensures Unescape([e] + rest) == Ok((c, rest))
  {
    assert ([e] + rest)[1..] == rest;
  }

  lemma EscapedIsRead(s: string, escape: string, c: char, rest: string)
    requires s != "" && s[0] == '\\' && s[1..] == escape && Unescape(escape) == Ok((c, rest))
    ensures ParseChars(s) == Prepend(c, ParseChars(rest))
  {
  }

  // A spelled character is read, whatever follows it.
  lemma CharIsRead(t: string, c: char, rest: string)
    requires SpellsChar(t, c)
    ensures ParseChars(t + rest) == Prepend(c, ParseChars(rest))
  {
    if t == [c] && c >= ' ' && c != '"' && c != '\\' {
      assert (t + rest)[1..] == rest;
    } else {
      assert t == ['\\'] + t[1..];
      EscapeParts(t, rest, t[1..]);
      EscapeIsRead(t, c, rest);
      EscapedIsRead(t + rest, t[1..] + rest, c, rest);
    }
  }

  lemma EscapeIsRead(t: string, c: char, rest: string)
    requires SpellsChar(t, c) && t[0] == '\\' && |t| > 1
    ensures Unescape(t[1..] + rest) == Ok((c, rest))
  {
    if |t| == 2 {
      ShortIsRead(t[1], c, rest);
      assert t[1..] == [t[1]];
    } else if |t| == 6 {
      CodeIsRead(t[2..], c, rest);
      assert t[1..] + rest == ['u'] + (t[2..] + rest);
    } else {
      PairSlices(t, rest);
      assert t[1] == t[..2][1];
      PairIsRead(t[1..] + rest, t[2..6], t[8..], c);
    }
  }

  // Whatever an escape is read as, it spells.
  lemma EscapeIsSpelled(s: string) returns (t: string)
    requires Unescape(s).Ok?
    ensures ['\\'] + s == t + Unescape(s).value.1 && SpellsChar(t, Unescape(s).value.0)
  {
    if s[0] == 'u' {
      t := CodeIsSpelled(s);
    } else {
      t := ['\\', s[0]];
      assert s == [s[0]] + s[1..];
    }
  }

  lemma CodeIsSpelled(s: string) returns (t: string)
    requires Unescape(s).Ok? && s[0] == 'u'
    ensures ['\\'] + s == t + Unescape(s).value.1 && SpellsChar(t, Unescape(s).value.0)
  {
    var rest := s[1..];
    var h, u := rest[..4], HexNumber(rest[..4]).value;
    assert ['\\'] + s == ['\\', 'u'] + rest;
    if u < 0xD800 || 0xE000 <= u {
      t := OneCodeIsSpelled(rest, h, u);
    } else {
      t := PairIsSpelled(rest, h, rest[6..][..4], rest[10..]);
    }
  }

  lemma OneCodeIsSpelled(s: string, h: string, u: nat) returns (t: string)
    requires |s| >= 4 && s[..4] == h && HexNumber(h) == Some(u) && (u < 0xD800 || 0xE000 <= u < 0x10000)
    ensures ['\\', 'u'] + s == t + s[4..] && SpellsChar(t, u as char)
  {
    HexRead(h, u);
    t := ['\\', 'u'] + h;
    assert t[..2] == ['\\', 'u'] && t[2..] == h;
    assert s == h + s[4..];
  }

  lemma PairIsSpelled(s: string, high: string, low: string, rest: string) returns (t: string)
    requires |s| >= 10 && s[..4] == high && s[4..6] == ['\\', 'u'] && s[6..][..4] == low && s[10..] == rest
    requires HexNumber(high).Some? && 0xD800 <= HexNumber(high).value < 0xDC00
    requires HexNumber(low).Some? && 0xDC00 <= HexNumber(low).value < 0xE000
    ensures ['\\', 'u'] + s == t + rest
    ensures var u, w := HexNumber(high).value, HexNumber(low).value;
            SpellsChar(t, (0x10000 + (u - 0xD800) * 0x400 + (w - 0xDC00)) as char)
  {
    t := ['\\', 'u'] + high + ['\\', 'u'] + low;
    Slices(['\\', 'u'], high, ['\\', 'u'], low);
    TenParts(s, high, low, rest);
    HexRead(high, HexNumber(high).value);
    HexRead(low, HexNumber(low).value);
    PairCode(HexNumber(high).value, HexNumber(low).value);
  }

  lemma TenParts(s: string, high: string, low: string, rest: string)
    requires |s| >= 10 && s[..4] == high && s[4..6] == ['\\', 'u'] && s[6..][..4] == low && s[10..] == rest
    ensures ['\\', 'u'] + s == ['\\', 'u'] + high + ['\\', 'u'] + low + rest
  {
    assert s == s[..4] + s[4..6] + s[6..][..4] + s[10..];
  }

  lemma PairCode(u: nat, w: nat)
    requires 0xD800 <= u < 0xDC00 <= w < 0xE000
    ensures var n := 0x10000 + (u - 0xD800) * 0x400 + (w - 0xDC00);
            0x10000 <= n < 0x11_0000 && u == 0xD800 + (n - 0x10000) / 0x400 && w == 0xDC00 + (n - 0x10000) % 0x400
  {
  }

  // ----- Strings --------------------------------------------------------------------------------

  // A spelled text is read up to the quote behind it.
  lemma {:induction false} TextIsRead(t: string, text: string, s: string, after: string, rest: string)
    requires SpellsText(t, text) && s == t + after && after != "" && after[0] == '"' && after[1..] == rest
    ensures Reads(ParseChars(s), text, rest)
    decreases |text|
  {
    if text == "" {
      assert s == after;
    } else {
      var k :| 0 < k <= |t| && SpellsChar(t[..k], text[0]) && SpellsText(t[k..], text[1..]);
      TextIsRead(t[k..], text[1..], t[k..] + after, after, rest);
      SplitAt(t, k, after);
      TextStep(s, t[..k], t[k..] + after, text, rest);
    }
  }

  lemma SplitAt(t: string, k: nat, after: string)
    requires k <= |t|
    ensures t + after == t[..k] + (t[k..] + after)
  {
    assert t == t[..k] + t[k..];
  }

  lemma TextStep(s: string, first: string, others: string, text: string, rest: string)
    requires s == first + others && text != ""
    requires SpellsChar(first, text[0]) && Reads(ParseChars(others), text[1..], rest)
    ensures Reads(ParseChars(s), text, rest)
  {
    CharIsRead(first, text[0], others);
    PrependReads(text[0], ParseChars(others), text[1..], rest);
    assert text == [text[0]] + text[1..];
  }

  lemma {:induction false} TextIsSpelled(s: string) returns (t: string)
    requires ParseChars(s).Ok?
    ensures s == t + "\"" + ParseChars(s).value.1 && SpellsText(t, ParseChars(s).value.0)
    decreases |s|
  {
    if s[0] == '"' {
      t := "";
      assert s == "\"" + s[1..] && "" + "\"" == "\"";
    } else {
      var first, after := FirstIsSpelled(s);
      var others := TextIsSpelled(after);
      t := first + others;
      SpelledCons(first, others, ParseChars(s).value.0, ParseChars(after).value.0);
      Associates(first, others, "\"");
      Associates(first, others + "\"", ParseChars(s).value.1);
    }
  }

  // The first character of a text that can be read.
  lemma FirstIsSpelled(s: string) returns (first: string, after: string)
    requires ParseChars(s).Ok? && s[0] != '"'
    ensures s == first + after && first != ""
    ensures ParseChars(after).Ok? && ParseChars(s).value.1 == ParseChars(after).value.1
    ensures var text := ParseChars(s).value.0;
            text != "" && text[1..] == ParseChars(after).value.0 && SpellsChar(first, text[0])
  {
    first, after := [s[0]], s[1..];
    var c := s[0];
    if s[0] == '\\' {
      first := EscapeIsSpelled(s[1..]);
      c, after := Unescape(s[1..]).value.0, Unescape(s[1..]).value.1;
      assert ['\\'] + s[1..] == s;
    } else {
      assert s == [s[0]] + s[1..];
    }
    assert ParseChars(s) == Prepend(c, ParseChars(after));
    PrependParts(c, ParseChars(after));
  }

  lemma PrependParts(c: char, r: Result<(string, string), CanonicalJson.Error>)
    requires Prepend(c, r).Ok?
    ensures r.Ok? && Prepend(c, r).value.1 == r.value.1
    ensures Prepend(c, r).value.0 != "" && Prepend(c, r).value.0[0] == c && Prepend(c, r).value.0[1..] == r.value.0
  {
  }

  lemma SpelledCons(first: string, others: string, text: string, more: string)
    requires text != "" && text[1..] == more && first != "" && SpellsChar(first, text[0]) && SpellsText(others, more)
    ensures SpellsText(first + others, text)
  {
    var t := first + others;
    assert t[..|first|] == first && t[|first|..] == others;
  }

  lemma StringIsRead(t: string, text: string, rest: string)
    requires SpellsString(t, text)
    ensures (t + rest)[0] == '"' && Reads(ParseChars((t + rest)[1..]), text, rest)
  {
    EnclosedTail(t, '"', '"', rest);
    assert (['"'] + rest)[1..] == rest;
    TextIsRead(Inside(t), text, (t + rest)[1..], ['"'] + rest, rest);
  }

  lemma StringIsSpelled(s: string) returns (t: string)
    requires s != "" && s[0] == '"' && ParseChars(s[1..]).Ok?
    ensures s == t + ParseChars(s[1..]).value.1 && SpellsString(t, ParseChars(s[1..]).value.0)
  {
    var inside := TextIsSpelled(s[1..]);
    t := "\"" + inside + "\"";
    EnclosedBy("\"", inside, "\"", s, ParseChars(s[1..]).value.1);
  }

  lemma EnclosedBy(open: string, inside: string, close: string, s: string, rest: string)
    requires |open| == 1 && |close| == 1 && s != "" && [s[0]] == open && s[1..] == inside + close + rest
    ensures var t := open + inside + close;
            Enclosed(t, open[0], close[0]) && Inside(t) == inside && s == t + rest
  {
    assert s == open + s[1..];
    Associates(open, inside + close, rest);
    Associates(open, inside, close);
  }

  // ----- Numbers --------------------------------------------------------------------------------

  lemma DigitsAreRead(negative: bool, digits: string, rest: string)
    requires Plain(digits) && |digits| <= 4096 && Ends(rest)
    ensures Parses(ParseScalar(if negative then "-" + (digits + rest) else digits + rest),
                   Int(Signed(negative, digits)), rest)
  {
    ParseDigits(negative, digits, rest);
    NumberWithSign(negative, digits + rest, Int(Signed(negative, digits)), rest);
    NumberDispatch(if negative then "-" + (digits + rest) else digits + rest, Int(Signed(negative, digits)), rest);
  }

  lemma WithSign(t: string, rest: string)
    requires t != "" && t[0] == '-'
    ensures t + rest == "-" + (t[1..] + rest)
  {
  }

  lemma IntIsRead(t: string, n: int, rest: string)
    requires SpellsInt(t, n) && Ends(rest)
    ensures Parses(ParseScalar(t + rest), Int(n), rest)
  {
    if t != "" && t[0] == '-' {
      WithSign(t, rest);
      DigitsAreRead(true, t[1..], rest);
    } else {
      DigitsAreRead(false, t, rest);
    }
  }

  lemma MagnitudeIsSpelled(negative: bool, s: string) returns (digits: string)
    requires ParseMagnitude(negative, s).Ok?
    ensures Plain(digits) && |digits| <= 4096 && s == digits + ParseMagnitude(negative, s).value.1
    ensures ParseMagnitude(negative, s).value.0 == Int(Signed(negative, digits))
  {
    digits := IntegerDigits(s);
    DigitsArePlain(s);
    assert s == digits + s[|digits|..];
  }

  lemma IntIsSpelled(s: string) returns (t: string)
    requires ParseNumber(s).Ok?
    ensures ParseNumber(s).value.0.Int? && s == t + ParseNumber(s).value.1
    ensures SpellsInt(t, ParseNumber(s).value.0.n)
  {
    if s[0] == '-' {
      var digits := MagnitudeIsSpelled(true, s[1..]);
      t := "-" + digits;
      assert t[1..] == digits && s == "-" + s[1..];
      Associates("-", digits, ParseNumber(s).value.1);
    } else {
      t := MagnitudeIsSpelled(false, s);
      assert t[0] == s[0];
    }
  }

  // ----- Blanks ---------------------------------------------------------------------------------

  lemma {:induction false} BlanksAreSkipped(b: string, s: string)
    requires Blank(b)
    ensures SkipBlank(b + s) == SkipBlank(s)
  {
    if b == "" {
      assert b + s == s;
    } else {
      BlanksAreSkipped(b[1..], s);
      assert (b + s)[1..] == b[1..] + s;
    }
  }

  lemma SkipsTo(b: string, s: string)
    requires Blank(b) && s != "" && !IsBlank(s[0])
    ensures SkipBlank(b + s) == s
  {
    BlanksAreSkipped(b, s);
  }

  lemma {:induction false} SkippedAreBlank(s: string) returns (b: string)
    ensures s == b + SkipBlank(s) && Blank(b)
    ensures SkipBlank(s) == "" || !IsBlank(SkipBlank(s)[0])
  {
    b := "";
    if s != "" && IsBlank(s[0]) {
      b := SkippedAreBlank(s[1..]);
      b := [s[0]] + b;
      assert s == [s[0]] + s[1..];
    }
  }

  lemma BlankEnds(after: string, rest: string)
    requires Blank(after) && Ends(rest)
    ensures Ends(after + rest)
  {
  }

  // ----- What is spelled is read ------------------------------------------------------------------

  lemma SpelledStart(t: string, v: Json)
    requires Spells(t, v)
    ensures t != "" && !IsBlank(t[0]) && t[0] !in {']', '}', ',', ':'}
    ensures v.Sequence? <==> t[0] == '['
    ensures v.Object? <==> t[0] == '{'
  {
  }

  lemma LiteralIsRead(t: string, v: Json, rest: string)
    requires (v.Null? || v.Bool?) && Spells(t, v) && Ends(rest)
    ensures Parses(ParseScalar(t + rest), v, rest)
  {
    assert t == Print(v);
    LiteralRoundTrip(v, rest);
  }

  lemma {:induction false} ValueIsRead(t: string, v: Json, rest: string)
    requires Spells(t, v) && Ends(rest)
    ensures Parses(ParseValue(t + rest), v, rest)
    decreases v, 2
  {
    SpelledStart(t, v);
    assert (t + rest)[0] == t[0];
    match v
    case Null => LiteralIsRead(t, v, rest);
    case Bool(_) => LiteralIsRead(t, v, rest);
    case Int(n) => IntIsRead(t, n, rest);
    case Str(text) => StringIsRead(t, text, rest);
    case Sequence(_, items) =>
      EnclosedTail(t, '[', ']', rest);
      if items == [] {
        SkipsTo(Inside(t), "]" + rest);
        assert ("]" + rest)[1..] == rest;
      } else {
        ItemsAreRead(Inside(t), v, items, rest);
        ArrayIsRead(t + rest, Inside(t) + "]" + rest, items, rest);
      }
    case Object(ms) =>
      EnclosedTail(t, '{', '}', rest);
      if ms == [] {
        SkipsTo(Inside(t), "}" + rest);
        assert ("}" + rest)[1..] == rest;
      } else {
        MembersAreRead(Inside(t), v, ms, rest);
        ObjectIsRead(t + rest, Inside(t) + "}" + rest, ms, rest);
      }
  }

  lemma EnclosedTail(t: string, open: char, close: char, rest: string)
    requires Enclosed(t, open, close)
    ensures (t + rest)[1..] == Inside(t) + [close] + rest && Inside(t) + [close] + rest == Inside(t) + ([close] + rest)
  {
  }

  lemma ArrayIsRead(s: string, inside: string, items: seq<Json>, rest: string)
    requires s != "" && s[0] == '[' && s[1..] == inside
    requires SkipBlank(inside) != "" && SkipBlank(inside)[0] != ']'
    requires ParsesItems(ParseItems(SkipBlank(inside)), items, rest)
    ensures Parses(ParseValue(s), Sequence(false, items), rest)
  {
  }

  lemma ObjectIsRead(s: string, inside: string, ms: seq<Member>, rest: string)
    requires s != "" && s[0] == '{' && s[1..] == inside && DistinctKeys(ms)
    requires SkipBlank(inside) != "" && SkipBlank(inside)[0] != '}'
    requires ParsesMembers(ParseMembers(SkipBlank(inside)), ms, rest)
    ensures Parses(ParseValue(s), Object(ms), rest)
  {
  }

  lemma LastText(t: string, before: string, item: string, after: string, close: string, rest: string)
    requires t == before + item + after
    ensures t + close + rest == before + (item + (after + (close + rest)))
  {
    Associates(t, close, rest);
    Associates(before + item, after, close + rest);
    Associates(before, item, after + (close + rest));
  }

  lemma NextText(t: string, before: string, item: string, after: string, more: string, close: string, rest: string)
    requires t == before + item + after + "," + more
    ensures t + close + rest == before + (item + (after + ("," + (more + close + rest))))
  {
    var head := before + item + after;
    Associates(head, ",", more);
    Associates(head, "," + more, close);
    Associates(head, "," + more + close, rest);
    Associates(",", more, close);
    Associates(",", more + close, rest);
    LastText(head, before, item, after, "", "," + (more + close + rest));
    assert head + "" == head && "" + ("," + (more + close + rest)) == "," + (more + close + rest);
  }

  lemma {:induction false} ItemsAreRead(t: string, whole: Json, items: seq<Json>, rest: string)
    requires items != [] && SpellsItems(t, whole, items)
    ensures var s := SkipBlank(t + "]" + rest);
            s != "" && s[0] != ']' && !IsBlank(s[0]) && ParsesItems(ParseItems(s), items, rest)
    decreases whole, 1, |items|
  {
    if |items| == 1 {
      var before, item, after :| SplitsLast(t, before, item, after) && items[0] < whole && Spells(item, items[0]);
      var next := "]" + rest;
      BlankEnds(after, next);
      ValueIsRead(item, items[0], after + next);
      SpelledStart(item, items[0]);
      LastText(t, before, item, after, "]", rest);
      LastItem(before, item, items[0], after, next, rest);
      assert items == [items[0]];
    } else {
      var before, item, after, more :|
        && SplitsItem(t, before, item, after, more) && items[0] < whole && Spells(item, items[0])
        && SpellsItems(more, whole, items[1..]);
      var next := "," + (more + "]" + rest);
      assert next[1..] == more + "]" + rest;
      BlankEnds(after, next);
      ValueIsRead(item, items[0], after + next);
      SpelledStart(item, items[0]);
      NextText(t, before, item, after, more, "]", rest);
      ItemsAreRead(more, whole, items[1..], rest);
      NextItem(before, item, items[0], after, next, items[1..], rest);
      assert items == [items[0]] + items[1..];
    }
  }

  lemma FirstOf(before: string, item: string, rest: string)
    requires Blank(before) && item != "" && !IsBlank(item[0])
    ensures SkipBlank(before + (item + rest)) == item + rest && (item + rest)[0] == item[0]
  {
    SkipsTo(before, item + rest);
  }

  // A value and what follows it, once the blanks around it are skipped.
  lemma ItemStep(before: string, item: string, v: Json, after: string, next: string, items: seq<Json>, rest: string)
    requires Blank(before) && Blank(after) && item != "" && !IsBlank(item[0]) && next != "" && !IsBlank(next[0])
    requires Parses(ParseValue(item + (after + next)), v, after + next)
    requires ParsesItems(ItemsAfter(v, next), items, rest)
    ensures var s := SkipBlank(before + (item + (after + next)));
            s != "" && s[0] == item[0] && ParsesItems(ParseItems(s), items, rest)
  {
    FirstOf(before, item, after + next);
    SkipsTo(after, next);
  }

  lemma LastItem(before: string, item: string, v: Json, after: string, next: string, rest: string)
    requires Blank(before) && Blank(after) && item != "" && !IsBlank(item[0])
    requires next != "" && next[0] == ']' && next[1..] == rest
    requires Parses(ParseValue(item + (after + next)), v, after + next)
    ensures var s := SkipBlank(before + (item + (after + next)));
            s != "" && s[0] == item[0] && ParsesItems(ParseItems(s), [v], rest)
  {
    ItemStep(before, item, v, after, next, [v], rest);
  }

  lemma NextItem(before: string, item: string, v: Json, after: string, next: string, items: seq<Json>, rest: string)
    requires Blank(before) && Blank(after) && item != "" && !IsBlank(item[0]) && next != "" && next[0] == ','
    requires Parses(ParseValue(item + (after + next)), v, after + next)
    requires ParsesItems(ParseItems(SkipBlank(next[1..])), items, rest)
    ensures var s := SkipBlank(before + (item + (after + next)));
            s != "" && s[0] == item[0] && ParsesItems(ParseItems(s), [v] + items, rest)
  {
    ItemStep(before, item, v, after, next, [v] + items, rest);
  }

  lemma MemberText(t: string, name: string, before: string, after: string, value: string, rest: string)
    requires t == name + before + ":" + after + value
    ensures t + rest == name + (before + (":" + (after + (value + rest))))
  {
    Associates(name + before + ":" + after, value, rest);
    Associates(name + before + ":", after, value + rest);
    Associates(name + before, ":", after + (value + rest));
    Associates(name, before, ":" + (after + (value + rest)));
  }

  lemma {:induction false} MemberIsRead(t: string, m: Member, rest: string)
    requires SpellsMember(t, m) && Ends(rest)
    ensures t != "" && t[0] == '"' && ParsesMember(ParseMember(t + rest), m, rest)
    decreases m.value, 3
  {
    var name, before, after, value :|
      SplitsMember(t, name, before, after, value) && SpellsString(name, m.key) && Spells(value, m.value);
    StringIsRead(name, m.key, before + (":" + (after + (value + rest))));
    ValueIsRead(value, m.value, rest);
    SpelledStart(value, m.value);
    MemberText(t, name, before, after, value, rest);
    ColonIsRead(t + rest, m, before, after, value, rest);
  }

  lemma ColonIsRead(s: string, m: Member, before: string, after: string, value: string, rest: string)
    requires Blank(before) && Blank(after) && value != "" && !IsBlank(value[0])
    requires s != "" && s[0] == '"'
    requires Reads(ParseChars(s[1..]), m.key, before + (":" + (after + (value + rest))))
    requires Parses(ParseValue(value + rest), m.value, rest)
    ensures ParsesMember(ParseMember(s), m, rest)
  {
    FirstOf(after, value, rest);
    SkipsTo(before, ":" + (after + (value + rest)));
    KeyIsRead(s, m, before + (":" + (after + (value + rest))), after + (value + rest), rest);
  }

  lemma KeyIsRead(s: string, m: Member, colon: string, value: string, rest: string)
    requires s != "" && s[0] == '"' && Reads(ParseChars(s[1..]), m.key, colon)
    requires SkipBlank(colon) == ":" + value && Parses(ParseValue(SkipBlank(value)), m.value, rest)
    ensures ParsesMember(ParseMember(s), m, rest)
  {
    assert (":" + value)[1..] == value;
  }

  lemma {:induction false} MembersAreRead(t: string, whole: Json, ms: seq<Member>, rest: string)
    requires ms != [] && SpellsMembers(t, whole, ms)
    ensures var s := SkipBlank(t + "}" + rest);
            s != "" && s[0] != '}' && !IsBlank(s[0]) && ParsesMembers(ParseMembers(s), ms, rest)
    decreases whole, 1, |ms|
  {
    if |ms| == 1 {
      var before, member, after :|
        SplitsLast(t, before, member, after) && ms[0].value < whole && SpellsMember(member, ms[0]);
      var next := "}" + rest;
      BlankEnds(after, next);
      MemberIsRead(member, ms[0], after + next);
      LastText(t, before, member, after, "}", rest);
      LastMemberRead(before, member, ms[0], after, next, rest);
      assert ms == [ms[0]];
    } else {
      var before, member, after, more :|
        && SplitsItem(t, before, member, after, more) && ms[0].value < whole && SpellsMember(member, ms[0])
        && SpellsMembers(more, whole, ms[1..]);
      MembersAreRead(more, whole, ms[1..], rest);
      var next := "," + (more + "}" + rest);
      BlankEnds(after, next);
      MemberIsRead(member, ms[0], after + next);
      FurtherMembers(t, before, member, after, more, ms, next, rest);
    }
  }

  lemma FurtherMembers(t: string, before: string, member: string, after: string, more: string, ms: seq<Member>,
                       next: string, rest: string)
    requires ms != [] && SplitsItem(t, before, member, after, more) && next == "," + (more + "}" + rest)
    requires member != "" && member[0] == '"'
    requires ParsesMember(ParseMember(member + (after + next)), ms[0], after + next)
    requires ParsesMembers(ParseMembers(SkipBlank(more + "}" + rest)), ms[1..], rest)
    ensures var s := SkipBlank(t + "}" + rest); s != "" && s[0] == '"' && ParsesMembers(ParseMembers(s), ms, rest)
  {
    assert next[1..] == more + "}" + rest;
    NextText(t, before, member, after, more, "}", rest);
    NextMember(before, member, ms[0], after, next, ms[1..], rest);
    assert ms == [ms[0]] + ms[1..];
  }

  lemma MemberStep(before: string, member: string, m: Member, after: string, next: string, ms: seq<Member>,
                   rest: string)
    requires Blank(before) && Blank(after) && member != "" && member[0] == '"' && next != "" && !IsBlank(next[0])
    requires ParsesMember(ParseMember(member + (after + next)), m, after + next)
    requires ParsesMembers(MembersAfter(m, next), ms, rest)
    ensures var s := SkipBlank(before + (member + (after + next)));
            s != "" && s[0] == '"' && ParsesMembers(ParseMembers(s), ms, rest)
  {
    FirstOf(before, member, after + next);
    SkipsTo(after, next);
  }

  lemma LastMemberRead(before: string, member: string, m: Member, after: string, next: string, rest: string)
    requires Blank(before) && Blank(after) && member != "" && member[0] == '"'
    requires next != "" && next[0] == '}' && next[1..] == rest
    requires ParsesMember(ParseMember(member + (after + next)), m, after + next)
    ensures var s := SkipBlank(before + (member + (after + next)));
            s != "" && s[0] == '"' && ParsesMembers(ParseMembers(s), [m], rest)
  {
    MemberStep(before, member, m, after, next, [m], rest);
  }

  lemma NextMember(before: string, member: string, m: Member, after: string, next: string, ms: seq<Member>,
                   rest: string)
    requires Blank(before) && Blank(after) && member != "" && member[0] == '"' && next != "" && next[0] == ','
    requires ParsesMember(ParseMember(member + (after + next)), m, after + next)
    requires ParsesMembers(ParseMembers(SkipBlank(next[1..])), ms, rest)
    ensures var s := SkipBlank(before + (member + (after + next)));
            s != "" && s[0] == '"' && ParsesMembers(ParseMembers(s), [m] + ms, rest)
  {
    MemberStep(before, member, m, after, next, [m] + ms, rest);
  }

  // ----- What is read is spelled ------------------------------------------------------------------

  lemma {:induction false} ValueIsSpelled(s: string) returns (t: string)
    requires ParseValue(s).Ok?
    ensures s == t + ParseValue(s).value.1 && Spells(t, ParseValue(s).value.0)
    decreases |s|, 2
  {
    if s[0] == '[' {
      t := ArrayIsSpelled(s);
    } else if s[0] == '{' {
      t := ObjectIsSpelled(s);
    } else {
      t := ScalarIsSpelled(s);
    }
  }

  lemma {:induction false} ArrayIsSpelled(s: string) returns (t: string)
    requires ParseValue(s).Ok? && s[0] == '['
    ensures s == t + ParseValue(s).value.1 && Spells(t, ParseValue(s).value.0)
    decreases |s|, 1
  {
    var (v, rest) := ParseValue(s).value;
    var before := SkippedAreBlank(s[1..]);
    var inside := SkipBlank(s[1..]);
    if inside != "" && inside[0] == ']' {
      assert inside == "]" + rest;
      Associates(before, "]", rest);
      EnclosedBy("[", before, "]", s, rest);
      t := "[" + before + "]";
    } else {
      var items := ItemsAreSpelled(inside, before, v);
      EnclosedBy("[", items, "]", s, rest);
      t := "[" + items + "]";
    }
  }

  lemma {:induction false} ObjectIsSpelled(s: string) returns (t: string)
    requires ParseValue(s).Ok? && s[0] == '{'
    ensures s == t + ParseValue(s).value.1 && Spells(t, ParseValue(s).value.0)
    decreases |s|, 1
  {
    var (v, rest) := ParseValue(s).value;
    var before := SkippedAreBlank(s[1..]);
    var inside := SkipBlank(s[1..]);
    if inside != "" && inside[0] == '}' {
      assert inside == "}" + rest;
      Associates(before, "}", rest);
      EnclosedBy("{", before, "}", s, rest);
      t := "{" + before + "}";
    } else {
      var members := MembersAreSpelled(inside, before, v);
      EnclosedBy("{", members, "}", s, rest);
      t := "{" + members + "}";
    }
  }

  lemma ScalarIsSpelled(s: string) returns (t: string)
    requires s != "" && s[0] !in {'[', '{'} && ParseScalar(s).Ok?
    ensures s == t + ParseScalar(s).value.1 && Spells(t, ParseScalar(s).value.0)
  {
    if s[0] == '"' {
      t := StringIsSpelled(s);
    } else if s[0] in {'n', 't', 'f'} {
      t := LiteralIsSpelled(s);
    } else {
      t := IntIsSpelled(s);
    }
  }

  lemma LiteralIsSpelled(s: string) returns (t: string)
    requires ParseLiteral(s).Ok?
    ensures s == t + ParseLiteral(s).value.1 && Spells(t, ParseLiteral(s).value.0)
  {
    t := if "null" <= s then "null" else if "true" <= s then "true" else "false";
    assert s == s[..|t|] + s[|t|..] && s[..|t|] == t;
  }

  lemma {:induction false} ItemsAreSpelled(s: string, before: string, whole: Json) returns (t: string)
    requires Blank(before) && ParseItems(s).Ok? && forall v :: v in ParseItems(s).value.0 ==> v < whole
    ensures before + s == t + "]" + ParseItems(s).value.1
    ensures ParseItems(s).value.0 != [] && SpellsItems(t, whole, ParseItems(s).value.0)
    decreases |s|, 3
  {
    var item := ValueIsSpelled(s);
    var (v, behind) := ParseValue(s).value;
    var after := SkippedAreBlank(behind);
    var next := SkipBlank(behind);
    var (items, rest) := ParseItems(s).value;
    assert v == items[0] && items[0] in items;
    if next[0] == ']' {
      t := before + item + after;
      assert SplitsLast(t, before, item, after);
      assert next == "]" + rest;
      LastText(t, before, item, after, "]", rest);
    } else {
      var blank := SkippedAreBlank(next[1..]);
      var others := ParseItems(SkipBlank(next[1..])).value.0;
      assert items == [v] + others && items[1..] == others;
      assert forall u :: u in others ==> u in [v] + others;
      var more := ItemsAreSpelled(SkipBlank(next[1..]), blank, whole);
      t := before + item + after + "," + more;
      assert SplitsItem(t, before, item, after, more);
      assert next == "," + (more + "]" + rest);
      NextText(t, before, item, after, more, "]", rest);
    }
  }

  lemma {:induction false} MembersAreSpelled(s: string, before: string, whole: Json) returns (t: string)
    requires Blank(before) && ParseMembers(s).Ok? && forall m :: m in ParseMembers(s).value.0 ==> m.value < whole
    ensures before + s == t + "}" + ParseMembers(s).value.1
    ensures ParseMembers(s).value.0 != [] && SpellsMembers(t, whole, ParseMembers(s).value.0)
    decreases |s|, 4
  {
    var member := MemberIsSpelled(s);
    var (m, behind) := ParseMember(s).value;
    var after := SkippedAreBlank(behind);
    var next := SkipBlank(behind);
    var (ms, rest) := ParseMembers(s).value;
    assert m == ms[0];
    if next[0] == '}' {
      t := before + member + after;
      assert SplitsLast(t, before, member, after);
      assert next == "}" + rest;
      LastText(t, before, member, after, "}", rest);
    } else {
      var blank := SkippedAreBlank(next[1..]);
      assert ms[1..] == ParseMembers(SkipBlank(next[1..])).value.0;
      var more := MembersAreSpelled(SkipBlank(next[1..]), blank, whole);
      t := before + member + after + "," + more;
      assert SplitsItem(t, before, member, after, more);
      assert next == "," + (more + "}" + rest);
      NextText(t, before, member, after, more, "}", rest);
    }
  }

  lemma {:induction false} MemberIsSpelled(s: string) returns (t: string)
    requires ParseMember(s).Ok?
    ensures s == t + ParseMember(s).value.1 && SpellsMember(t, ParseMember(s).value.0)
    decreases |s|, 3
  {
    var name := StringIsSpelled(s);
    var (key, behind) := ParseChars(s[1..]).value;
    var before := SkippedAreBlank(behind);
    var separator := SkipBlank(behind);
    var after := SkippedAreBlank(separator[1..]);
    var value := ValueIsSpelled(SkipBlank(separator[1..]));
    var (m, rest) := ParseMember(s).value;
    t := name + before + ":" + after + value;
    assert SplitsMember(t, name, before, after, value);
    assert separator == ":" + (after + (value + rest));
    MemberText(t, name, before, after, value, rest);
  }

  // ----- The strict parser ------------------------------------------------------------------------

  lemma StrictIsSpelled(text: string, v: Json) returns (before: string, t: string, after: string)
    requires StrictLoads(text) == Ok(v)
    ensures SplitsLast(text, before, t, after) && Spells(t, v)
  {
    before := SkippedAreBlank(text);
    t := ValueIsSpelled(SkipBlank(text));
    var rest := ParseValue(SkipBlank(text)).value.1;
    after := SkippedAreBlank(rest);
    assert rest == after;
    Associates(before, t, after);
  }

  lemma SpelledIsStrict(text: string, v: Json, before: string, t: string, after: string)
    requires SplitsLast(text, before, t, after) && Spells(t, v) && Valid(v, 0)
    ensures StrictLoads(text) == Ok(v)
  {
    SpelledStart(t, v);
    FirstOf(before, t, after);
    Associates(before, t, after);
    ValueIsRead(t, v, after);
    BlanksAreSkipped(after, "");
    assert after + "" == after;
  }

  // A text is accepted as a value exactly when, between blanks, it spells the value, and the value is in the domain.
  lemma StrictExactly(text: string, v: Json)
    ensures StrictLoads(text) == Ok(v) <==>
            Valid(v, 0) && exists before, t, after :: SplitsLast(text, before, t, after) && Spells(t, v)
  {
    if StrictLoads(text) == Ok(v) {
      var before, t, after := StrictIsSpelled(text, v);
    }
    if Valid(v, 0) {
      if before, t, after :| SplitsLast(text, before, t, after) && Spells(t, v) {
        SpelledIsStrict(text, v, before, t, after);
      }
    }
  }
}
