/** Length-prefixed framing of named files: the byte stream that every package digest hashes. */
module Framing {
  import opened Wrappers
  import opened Bytes
  import opened Lists

  datatype Named = Named(name: seq<byte>, content: seq<byte>)

  // Lengths that do not fit their field make the source raise instead of hashing.
  predicate Framable(f: Named) {
    |f.name| < Power256(4) && |f.content| < Power256(8)
  }

  function Frame(f: Named): seq<byte> {
    BigEndian(|f.name|, 4) + f.name + BigEndian(|f.content|, 8) + f.content
  }

  function Stream(fs: seq<Named>): seq<byte> {
    if fs == [] then [] else Stream(fs[..|fs| - 1]) + Frame(fs[|fs| - 1])
  }

  // The layout, byte by byte, of a file whose name and content are short.
  lemma ShortFrame(f: Named)
    requires |f.name| < 256 && |f.content| < 256
    ensures Frame(f) == [0, 0, 0, |f.name|] + f.name + [0, 0, 0, 0, 0, 0, 0, |f.content|] + f.content
  {
    SmallBigEndian(|f.name|, 4);
    SmallBigEndian(|f.content|, 8);
    assert seq(3, _ => 0) + [|f.name|] == [0, 0, 0, |f.name|];
    assert seq(7, _ => 0) + [|f.content|] == [0, 0, 0, 0, 0, 0, 0, |f.content|];
  }

  // Feeds a hash with the files one after the other.
  method Feed(fs: seq<Named>) returns (r: Option<seq<byte>>)
    ensures r == if forall f :: f in fs ==> Framable(f) then Some(Stream(fs)) else None
  {
    var hashed: seq<byte> := [];
    for k := 0 to |fs|
      invariant hashed == Stream(fs[..k])
      invariant forall f :: f in fs[..k] ==> Framable(f)
    {
      var f := fs[k];
      assert fs[..k + 1] == fs[..k] + [f];
      assert fs[..k + 1][..k] == fs[..k];
      if |f.name| >= Power256(4) {
        assert f in fs && !Framable(f);
        return None;
      }
      hashed := hashed + BigEndian(|f.name|, 4);
      hashed := hashed + f.name;
      if |f.content| >= Power256(8) {
        assert f in fs && !Framable(f);
        return None;
      }
      hashed := hashed + BigEndian(|f.content|, 8);
      hashed := hashed + f.content;
      assert hashed == Stream(fs[..k]) + Frame(f);
    }
    assert fs[..|fs|] == fs;
    r := Some(hashed);
  }

  // ----- Unique decoding ----------------------------------------------------------------------

  // One length-prefixed field of the stream and what follows it.
  function TakeField(s: seq<byte>, width: nat): Option<(seq<byte>, seq<byte>)> {
    if |s| < width || |s| < width + BigNumber(s[..width]) then None
    else
      var end := width + BigNumber(s[..width]);
      Some((s[width..end], s[end..]))
  }

  function Unframe(s: seq<byte>): Option<seq<Named>>
    decreases |s|
  {
    if s == [] then Some([])
    else
      match TakeField(s, 4)
      case None => None
      case Some((name, rest)) =>
        match TakeField(rest, 8)
        case None => None
        case Some((content, further)) =>
          if |further| >= |s| then None
          else
            match Unframe(further)
            case None => None
            case Some(fs) => Some([Named(name, content)] + fs)
  }

  lemma TakeFieldOf(field: seq<byte>, width: nat, rest: seq<byte>)
    requires |field| < Power256(width)
    ensures TakeField(BigEndian(|field|, width) + field + rest, width) == Some((field, rest))
  {
    var s := BigEndian(|field|, width) + field + rest;
    BigEndianRoundTrip(|field|, width);
    assert s[..width] == BigEndian(|field|, width);
    assert s[width..width + |field|] == field && s[width + |field|..] == rest;
  }

  lemma {:induction false} StreamCons(fs: seq<Named>)
    requires fs != []
    ensures Stream(fs) == Frame(fs[0]) + Stream(fs[1..])
  {
    if |fs| > 1 {
      var front, last := fs[..|fs| - 1], Frame(fs[|fs| - 1]);
      StreamCons(front);
      assert front[1..] == fs[1..][..|fs| - 2];
      Associates(Frame(fs[0]), Stream(front[1..]), last);
    }
  }

  lemma UnframeFrame(f: Named, rest: seq<byte>)
    requires Framable(f) && Unframe(rest).Some?
    ensures Unframe(Frame(f) + rest) == Some([f] + Unframe(rest).value)
  {
    var tail := BigEndian(|f.content|, 8) + f.content + rest;
    TakeFieldOf(f.name, 4, tail);
    TakeFieldOf(f.content, 8, rest);
    FrameParts(BigEndian(|f.name|, 4), f.name, BigEndian(|f.content|, 8), f.content, rest);
    assert |rest| < |Frame(f) + rest|;
  }

  lemma FrameParts<T>(a: seq<T>, b: seq<T>, c: seq<T>, d: seq<T>, e: seq<T>)
    ensures a + b + c + d + e == a + b + (c + d + e)
  {
  }

  // The stream decodes to exactly the files that were fed.
  lemma {:induction false} UnframeStream(fs: seq<Named>)
    requires forall f :: f in fs ==> Framable(f)
    ensures Unframe(Stream(fs)) == Some(fs)
  {
    if fs != [] {
      UnframeStream(fs[1..]);
      StreamCons(fs);
      UnframeFrame(fs[0], Stream(fs[1..]));
      assert fs == [fs[0]] + fs[1..];
    }
  }

  // Equal streams come from equal lists of names and contents.
  lemma StreamIsInjective(a: seq<Named>, b: seq<Named>)
    requires forall f :: f in a ==> Framable(f)
    requires forall f :: f in b ==> Framable(f)
    requires Stream(a) == Stream(b)
    ensures a == b
  {
    UnframeStream(a);
    UnframeStream(b);
  }
}
