/** Two digests of one package: over a recursive listing, and over the traversal's snapshots. */
module Digests {
  import opened Wrappers
  import opened Tuples
  import opened Sorting
  import opened Lists
  import opened Paths
  import opened Bytes
  import opened Packages
  import Framing

  // ----- Every file of a tree -------------------------------------------------------------------

  // Every regular file below a directory, caches and compiled files included.
  function AllFiles(path: Path, entries: seq<Entry>): seq<Snapshot>
    decreases entries
  {
    if entries == [] then [] else AllOfOne(path, entries[0]) + AllFiles(path, entries[1..])
  }

  function AllOfOne(path: Path, e: Entry): seq<Snapshot>
    decreases e
  {
    match e.node
    case File(content) => [Snapshot(path + [e.name], content)]
    case Directory(inside) => AllFiles(path + [e.name], inside)
    case Special => []
  }

  ghost predicate SkipsCaches(keep: Path -> bool) {
    forall p :: CACHE in p ==> !keep(p)
  }

  ghost predicate AllBelow(path: Path, files: seq<Snapshot>) {
    forall s :: s in files ==> path <= s.path
  }

  lemma {:induction false} FilterConcat<T>(p: T -> bool, a: seq<T>, b: seq<T>)
    ensures Filter(p, a + b) == Filter(p, a) + Filter(p, b)
  {
    if a == [] {
      assert a + b == b;
    } else {
      FilterConcat(p, a[1..], b);
      assert (a + b)[1..] == a[1..] + b;
      Associates(if p(a[0]) then [a[0]] else [], Filter(p, a[1..]), Filter(p, b));
    }
  }

  lemma {:induction false} FilesLieBelow(path: Path, entries: seq<Entry>)
    ensures AllBelow(path, AllFiles(path, entries))
    decreases entries, 1
  {
    if entries != [] {
      FilesLieBelow(path, entries[1..]);
      OneLiesBelow(path, entries[0]);
    }
  }

  lemma {:induction false} OneLiesBelow(path: Path, e: Entry)
    ensures AllBelow(path + [e.name], AllOfOne(path, e))
    decreases e, 0
  {
    if e.node.Directory? {
      FilesLieBelow(path + [e.name], e.node.entries);
    }
  }

  lemma {:induction false} NoneKept<T>(p: T -> bool, s: seq<T>)
    requires forall x :: x in s ==> !p(x)
    ensures Filter(p, s) == []
  {
    if s != [] {
      NoneKept(p, s[1..]);
    }
  }

  // Leaving caches out while descending is the same as leaving their files out afterwards.
  lemma {:induction false} PruningIsFiltering(keep: Path -> bool, path: Path, entries: seq<Entry>)
    requires SkipsCaches(keep)
    ensures Filter((s: Snapshot) => keep(s.path), AllFiles(path, entries)) == Collect(keep, path, entries)
    decreases entries, 1
  {
    if entries != [] {
      PruningIsFilteringOne(keep, path, entries[0]);
      PruningIsFiltering(keep, path, entries[1..]);
      FilterConcat((s: Snapshot) => keep(s.path), AllOfOne(path, entries[0]), AllFiles(path, entries[1..]));
    }
  }

  lemma {:induction false} PruningIsFilteringOne(keep: Path -> bool, path: Path, e: Entry)
    requires SkipsCaches(keep)
    ensures Filter((s: Snapshot) => keep(s.path), AllOfOne(path, e)) == CollectOne(keep, path, e)
    decreases e, 0
  {
    if e.node.Directory? {
      if e.name == CACHE {
        OneLiesBelow(path, e);
        forall s | s in AllOfOne(path, e) ensures !keep(s.path) {
          assert CACHE == (path + [e.name])[|path|] == s.path[|path|];
        }
        NoneKept((s: Snapshot) => keep(s.path), AllOfOne(path, e));
      } else {
        PruningIsFiltering(keep, path + [e.name], e.node.entries);
      }
    }
  }

  // ----- Well-named trees -----------------------------------------------------------------------

  // What a file system ensures of names: siblings differ, and no name holds a slash.
  predicate WellNamed(entries: seq<Entry>)
    decreases entries
  {
    entries == [] ||
    (&& WellNamedOne(entries[0]) && WellNamed(entries[1..])
     && forall e :: e in entries[1..] ==> e.name != entries[0].name)
  }

  predicate WellNamedOne(e: Entry)
    decreases e
  {
    && SlashFree([e.name])
    && match e.node
       case Directory(inside) => WellNamed(inside)
       case _ => true
  }

  ghost predicate DistinctPaths(files: seq<Snapshot>) {
    forall i, j :: 0 <= i < j < |files| ==> files[i].path != files[j].path
  }

  // Strictly below a directory, through one of the named entries, and named without slashes.
  predicate Through(path: Path, name: string, s: Snapshot) {
    path + [name] <= s.path && SlashFree(s.path[|path|..])
  }

  ghost predicate ThroughAny(path: Path, entries: seq<Entry>, s: Snapshot) {
    exists e :: e in entries && Through(path, e.name, s)
  }

  lemma ThroughDeeper(path: Path, name: string, below: string, s: Snapshot)
    requires Through(path + [name], below, s) && SlashFree([name])
    ensures Through(path, name, s)
  {
    var here := path + [name];
    assert here <= s.path && s.path[|path|] == name;
    assert s.path[|path|..] == [name] + s.path[|here|..];
    assert [name][0] == name;
  }

  lemma ThroughTwo(path: Path, a: string, b: string, s: Snapshot, t: Snapshot)
    requires Through(path, a, s) && Through(path, b, t) && a != b
    ensures s.path != t.path
  {
    assert s.path[|path|] == (path + [a])[|path|] == a;
    assert t.path[|path|] == (path + [b])[|path|] == b;
  }

  lemma {:induction false} CollectGoesThrough(keep: Path -> bool, path: Path, entries: seq<Entry>)
    requires WellNamed(entries)
    ensures forall s :: s in Collect(keep, path, entries) ==> ThroughAny(path, entries, s)
    decreases entries, 1
  {
    if entries != [] {
      CollectOneGoesThrough(keep, path, entries[0]);
      CollectGoesThrough(keep, path, entries[1..]);
      forall s | s in Collect(keep, path, entries) ensures ThroughAny(path, entries, s) {
        if s in CollectOne(keep, path, entries[0]) {
          assert entries[0] in entries;
        } else {
          assert ThroughAny(path, entries[1..], s);
        }
      }
    }
  }

  lemma {:induction false} CollectOneGoesThrough(keep: Path -> bool, path: Path, e: Entry)
    requires WellNamedOne(e)
    ensures forall s :: s in CollectOne(keep, path, e) ==> Through(path, e.name, s)
    decreases e, 0
  {
    var here := path + [e.name];
    assert here[|path|..] == [e.name];
    if e.node.Directory? {
      CollectGoesThrough(keep, here, e.node.entries);
      forall s | s in CollectOne(keep, path, e) ensures Through(path, e.name, s) {
        var b :| b in e.node.entries && Through(here, b.name, s);
        ThroughDeeper(path, e.name, b.name, s);
      }
    }
  }

  // Every file is collected once.
  lemma {:induction false} CollectedOnce(keep: Path -> bool, path: Path, entries: seq<Entry>)
    requires WellNamed(entries)
    ensures DistinctPaths(Collect(keep, path, entries))
    decreases entries, 1
  {
    if entries != [] {
      CollectedOnceOne(keep, path, entries[0]);
      CollectedOnce(keep, path, entries[1..]);
      CollectOneGoesThrough(keep, path, entries[0]);
      CollectGoesThrough(keep, path, entries[1..]);
      forall s, t | s in CollectOne(keep, path, entries[0]) && t in Collect(keep, path, entries[1..])
        ensures s.path != t.path
      {
        assert ThroughAny(path, entries[1..], t);
        var e :| e in entries[1..] && Through(path, e.name, t);
        ThroughTwo(path, entries[0].name, e.name, s, t);
      }
      DistinctConcat(CollectOne(keep, path, entries[0]), Collect(keep, path, entries[1..]));
    }
  }

  lemma {:induction false} CollectedOnceOne(keep: Path -> bool, path: Path, e: Entry)
    requires WellNamedOne(e)
    ensures DistinctPaths(CollectOne(keep, path, e))
    decreases e, 0
  {
    if e.node.Directory? {
      CollectedOnce(keep, path + [e.name], e.node.entries);
    }
  }

  lemma DistinctConcat(a: seq<Snapshot>, b: seq<Snapshot>)
    requires DistinctPaths(a) && DistinctPaths(b)
    requires forall s, t :: s in a && t in b ==> s.path != t.path
    ensures DistinctPaths(a + b)
  {
  }

  // ----- Line endings ---------------------------------------------------------------------------

  const CR: byte := 13
  const LF: byte := 10

  // Every carriage return directly before a line feed dropped, from left to right and without overlap.
  function Normalised(s: seq<byte>): seq<byte> {
    if s == [] then []
    else if |s| > 1 && s[0] == CR && s[1] == LF then [LF] + Normalised(s[2..])
    else [s[0]] + Normalised(s[1..])
  }

  // A checkout that gives every bare line feed its carriage return and leaves the pairs that are there alone.
  function Checkout(s: seq<byte>): seq<byte> {
    if s == [] then []
    else if |s| > 1 && s[0] == CR && s[1] == LF then [CR, LF] + Checkout(s[2..])
    else if s[0] == LF then [CR, LF] + Checkout(s[1..])
    else [s[0]] + Checkout(s[1..])
  }

  predicate PairFree(s: seq<byte>) {
    forall i :: 0 <= i < |s| - 1 ==> !(s[i] == CR && s[i + 1] == LF)
  }

  lemma NormalisedPair(t: seq<byte>)
    ensures Normalised([CR, LF] + t) == [LF] + Normalised(t)
  {
    assert ([CR, LF] + t)[2..] == t;
  }

  lemma NormalisedOther(c: byte, t: seq<byte>)
    requires c != CR || t == [] || t[0] != LF
    ensures Normalised([c] + t) == [c] + Normalised(t)
  {
    assert ([c] + t)[1..] == t;
  }

  // A checkout does not change the normalised text.
  lemma {:induction false} CheckoutKeepsNormalised(s: seq<byte>)
    ensures Normalised(Checkout(s)) == Normalised(s)
    ensures Checkout(s) == [] || Checkout(s)[0] == CR || (Checkout(s)[0] == s[0] && s[0] != LF)
  {
    if s == [] {
    } else if |s| > 1 && s[0] == CR && s[1] == LF {
      CheckoutKeepsNormalised(s[2..]);
      NormalisedPair(Checkout(s[2..]));
    } else if s[0] == LF {
      CheckoutKeepsNormalised(s[1..]);
      NormalisedPair(Checkout(s[1..]));
    } else {
      CheckoutKeepsNormalised(s[1..]);
      NormalisedOther(s[0], Checkout(s[1..]));
    }
  }

  lemma {:induction false} NormalisedShrinks(s: seq<byte>)
    ensures |Normalised(s)| <= |s|
  {
    if s == [] {
    } else if |s| > 1 && s[0] == CR && s[1] == LF {
      NormalisedShrinks(s[2..]);
    } else {
      NormalisedShrinks(s[1..]);
    }
  }

  // ----- Normalising is replacing ---------------------------------------------------------------

  // Pieces of a text with a line end between each two of them.
  function Glued(pieces: seq<seq<byte>>, end: seq<byte>): seq<byte> {
    if pieces == [] then [] else if |pieces| == 1 then pieces[0] else pieces[0] + end + Glued(pieces[1..], end)
  }

  lemma {:induction false} NormalisedPiece(piece: seq<byte>, rest: seq<byte>)
    requires PairFree(piece)
    ensures Normalised(piece + [CR, LF] + rest) == piece + [LF] + Normalised(rest)
  {
    if piece == [] {
      NormalisedPair(rest);
      assert piece + [CR, LF] + rest == [CR, LF] + rest;
    } else {
      var tail := piece[1..];
      assert piece == [piece[0]] + tail;
      PairFreeCons(piece[0], tail);
      NormalisedPiece(tail, rest);
      Associates([piece[0]], tail, [CR, LF]);
      Associates([piece[0]], tail + [CR, LF], rest);
      Associates([piece[0]], tail, [LF]);
      Associates([piece[0]], tail + [LF], Normalised(rest));
      NormalisedOther(piece[0], tail + [CR, LF] + rest);
    }
  }

  // Normalising replaces every carriage return with line feed, found from left to right, by a line feed.
  lemma {:induction false} NormalisedReplaces(pieces: seq<seq<byte>>)
    requires forall piece :: piece in pieces ==> PairFree(piece)
    ensures Normalised(Glued(pieces, [CR, LF])) == Glued(pieces, [LF])
  {
    if |pieces| == 1 {
      NormalisedKeeps(pieces[0]);
    } else if pieces != [] {
      NormalisedReplaces(pieces[1..]);
      NormalisedPiece(pieces[0], Glued(pieces[1..], [CR, LF]));
      assert pieces[0] + [CR, LF] + Glued(pieces[1..], [CR, LF]) == Glued(pieces, [CR, LF]);
    }
  }

  // Every text is made of such pieces.
  lemma {:induction false} TextIsGlued(s: seq<byte>) returns (pieces: seq<seq<byte>>)
    ensures pieces != [] && Glued(pieces, [CR, LF]) == s && forall piece :: piece in pieces ==> PairFree(piece)
  {
    if s == [] {
      pieces := [[]];
    } else if |s| > 1 && s[0] == CR && s[1] == LF {
      var rest := TextIsGlued(s[2..]);
      pieces := [[]] + rest;
      assert pieces[1..] == rest;
      assert s == [] + [CR, LF] + s[2..];
    } else {
      var rest := TextIsGlued(s[1..]);
      pieces := [[s[0]] + rest[0]] + rest[1..];
      PairFreeCons(s[0], rest[0]);
      assert rest[0] != [] ==> s[1] == rest[0][0];
      GluedCons(s[0], rest);
      assert s == [s[0]] + s[1..];
    }
  }

  lemma GluedCons(c: byte, pieces: seq<seq<byte>>)
    requires pieces != []
    ensures Glued([[c] + pieces[0]] + pieces[1..], [CR, LF]) == [c] + Glued(pieces, [CR, LF])
  {
    if |pieces| > 1 {
      assert ([[c] + pieces[0]] + pieces[1..])[1..] == pieces[1..];
      Associates([c], pieces[0], [CR, LF]);
      Associates([c], pieces[0] + [CR, LF], Glued(pieces[1..], [CR, LF]));
    }
  }

  // Nothing is changed exactly when there is no pair to change.
  lemma {:induction false} NormalisedKeeps(s: seq<byte>)
    ensures Normalised(s) == s <==> PairFree(s)
  {
    if s == [] {
    } else if |s| > 1 && s[0] == CR && s[1] == LF {
      NormalisedShrinks(s[2..]);
      assert |Normalised(s)| < |s|;
    } else {
      NormalisedKeeps(s[1..]);
      assert s == [s[0]] + s[1..];
      if PairFree(s[1..]) {
        assert forall i :: 0 < i < |s| - 1 ==> s[i] == s[1..][i - 1] && s[i + 1] == s[1..][i];
      } else {
        var i :| 0 <= i < |s[1..]| - 1 && s[1..][i] == CR && s[1..][i + 1] == LF;
        assert s[i + 1] == CR && s[i + 2] == LF;
      }
    }
  }

  // CR CR LF from a position on.
  predicate TripleAt(s: seq<byte>, i: nat) {
    i + 2 < |s| && s[i] == CR && s[i + 1] == CR && s[i + 2] == LF
  }

  predicate TripleFree(s: seq<byte>) {
    forall i: nat :: i < |s| ==> !TripleAt(s, i)
  }

  predicate StartsWithLineEnd(s: seq<byte>) {
    s != [] && (s[0] == LF || (|s| > 1 && s[0] == CR && s[1] == LF))
  }

  lemma NormalisedStart(s: seq<byte>)
    ensures Normalised(s) == [] <==> s == []
    ensures Normalised(s) != [] && Normalised(s)[0] == LF <==> StartsWithLineEnd(s)
  {
  }

  lemma PairFreeCons(c: byte, t: seq<byte>)
    ensures PairFree([c] + t) <==> PairFree(t) && !(c == CR && t != [] && t[0] == LF)
  {
    var s := [c] + t;
    if PairFree(s) {
      forall i | 0 <= i < |t| - 1 ensures !(t[i] == CR && t[i + 1] == LF) {
        assert s[i + 1] == t[i] && s[i + 1 + 1] == t[i + 1];
      }
      assert t != [] ==> s[0] == c && s[0 + 1] == t[0];
    } else {
      var i :| 0 <= i < |s| - 1 && s[i] == CR && s[i + 1] == LF;
      if i > 0 {
        assert t[i - 1] == CR && t[i - 1 + 1] == LF;
      }
    }
  }

  lemma TripleFreeTail(s: seq<byte>)
    requires s != []
    ensures TripleFree(s) <==> TripleFree(s[1..]) && !TripleAt(s, 0)
  {
    var t := s[1..];
    if TripleFree(s) {
      forall i: nat | i < |t| ensures !TripleAt(t, i) {
        assert !TripleAt(s, i + 1);
      }
    } else {
      var i: nat :| i < |s| && TripleAt(s, i);
      assert i > 0 ==> TripleAt(t, i - 1);
    }
  }

  // A pair is left, or comes about, exactly where there was a carriage return too many.
  lemma {:induction false} PairsLeft(s: seq<byte>)
    ensures PairFree(Normalised(s)) <==> TripleFree(s)
  {
    if s == [] {
    } else if |s| > 1 && s[0] == CR && s[1] == LF {
      PairsLeft(s[2..]);
      PairFreeCons(LF, Normalised(s[2..]));
      TripleFreeTail(s);
      TripleFreeTail(s[1..]);
      assert s[1..][1..] == s[2..];
    } else {
      PairsLeft(s[1..]);
      PairFreeCons(s[0], Normalised(s[1..]));
      NormalisedStart(s[1..]);
      TripleFreeTail(s);
    }
  }

  // Normalising twice is normalising once exactly for texts without CR CR LF.
  lemma NormalisedTwice(s: seq<byte>)
    ensures Normalised(Normalised(s)) == Normalised(s) <==> TripleFree(s)
  {
    PairsLeft(s);
    NormalisedKeeps(Normalised(s));
  }

  // The shortest text for which it is not.
  lemma TripleIsNotStable()
    ensures !TripleFree([CR, CR, LF]) && Normalised([CR, CR, LF]) == [CR, LF] && Normalised([CR, LF]) == [LF]
  {
    NormalisedPair([]);
    NormalisedOther(CR, [CR, LF]);
    assert [CR, LF] + [] == [CR, LF] && [LF] + [] == [LF] && [CR] + [CR, LF] == [CR, CR, LF];
    assert TripleAt([CR, CR, LF], 0);
  }

  // ----- The two digests ------------------------------------------------------------------------

  // The components of a path below another.
  function Below(root: Path, p: Path): Path {
    if |root| <= |p| then p[|root|..] else []
  }

  function Relative(root: Path, s: Snapshot): string {
    Joined(Below(root, s.path))
  }

  function RelativeKey(root: Path): Snapshot -> seq<int> {
    s => Codes(Relative(root, s))
  }

  predicate Hashed(s: Snapshot) {
    Name(s.path) != MANIFEST
  }

  predicate Listed(s: Snapshot) {
    Name(s.path) != MANIFEST && Kept(s.path)
  }

  function HashedContent(s: Snapshot): seq<byte> {
    if Lower(Suffix(Name(s.path))) in TEXT_SUFFIXES then Normalised(s.content) else s.content
  }

  function NamedFile(root: Path, encode: string -> seq<byte>): Snapshot -> Framing.Named {
    s => Framing.Named(encode(Relative(root, s)), HashedContent(s))
  }

  function Each<T, U>(f: T -> U, s: seq<T>): seq<U> {
    seq(|s|, i requires 0 <= i < |s| => f(s[i]))
  }

  lemma EachMember<T, U>(f: T -> U, s: seq<T>, y: U)
    ensures y in Each(f, s) <==> exists x :: x in s && f(x) == y
  {
    if y in Each(f, s) {
      var i :| 0 <= i < |s| && Each(f, s)[i] == y;
      assert s[i] in s;
    }
    if x :| x in s && f(x) == y {
      var i :| 0 <= i < |s| && s[i] == x;
      assert Each(f, s)[i] == y;
    }
  }

  lemma EachSnoc<T, U>(f: T -> U, s: seq<T>, k: nat)
    requires k < |s|
    ensures Each(f, s[..k + 1]) == Each(f, s[..k]) + [f(s[k])]
  {
  }

  function StreamOf(named: seq<Framing.Named>): Option<seq<byte>> {
    if forall f :: f in named ==> Framing.Framable(f) then Some(Framing.Stream(named)) else None
  }

  // The hashed stream of a set of files, whatever order they arrive in; none when a length does not fit.
  function HashedStream(root: Path, encode: string -> seq<byte>, files: seq<Snapshot>): Option<seq<byte>> {
    StreamOf(Each(NamedFile(root, encode), Sort(RelativeKey(root), files)))
  }

  // ----- What is hashed, in plain terms -----------------------------------------------------------

  // The name of a file that is hashed as a text.
  predicate IsText(name: string) {
    exists end :: end in TEXT_SUFFIXES && |name| > |end| && EndsWith(Lower(name), end)
  }

  lemma {:induction false} LowerKeepsLastDot(name: string, end: nat)
    requires end <= |name|
    ensures LastDot(Lower(name), end) == LastDot(name, end)
  {
    if end > 0 {
      LowerKeepsLastDot(name, end - 1);
    }
  }

  lemma TextEnding(end: string)
    requires end in TEXT_SUFFIXES
    ensures IsSuffix(end)
  {
  }

  lemma TextMeans(name: string)
    ensures Lower(Suffix(name)) in TEXT_SUFFIXES <==> IsText(name)
  {
    LowerKeepsLastDot(name, |name|);
    var suffix := Suffix(Lower(name));
    assert Lower(Suffix(name)) == suffix;
    if IsText(name) {
      var end :| end in TEXT_SUFFIXES && |name| > |end| && EndsWith(Lower(name), end);
      TextEnding(end);
      SuffixEnds(Lower(name), end);
    } else if suffix in TEXT_SUFFIXES {
      TextEnding(suffix);
      SuffixEnds(Lower(name), suffix);
    }
  }

  // The files of a listing that the digest is about.
  lemma ListedMeans(s: Snapshot)
    requires s.path != []
    ensures var name := s.path[|s.path| - 1];
            && (Hashed(s) <==> name != ".skill-package.json")
            && (Listed(s) <==> name != ".skill-package.json" && "__pycache__" !in s.path
                               && !(|name| > 4 && EndsWith(name, ".pyc")))
  {
    KeptMeans(s.path);
  }

  // A stream is that of all the files, in the order of their relative paths, each with its relative path and its
  // content, whose line ends are normalised in texts only.
  lemma WhatIsHashed(root: Path, encode: string -> seq<byte>, files: seq<Snapshot>) returns (order: seq<Snapshot>)
    ensures TEXT_SUFFIXES == {".json", ".md", ".py", ".toml", ".txt", ".yaml", ".yml"}
    ensures multiset(order) == multiset(files)
    ensures forall i, j :: 0 <= i < j < |order| ==>
              Precedes(Joined(Below(root, order[i].path)), Joined(Below(root, order[j].path)))
    ensures var named := seq(|order|, k requires 0 <= k < |order| =>
                               var s := order[k];
                               Framing.Named(encode(Joined(Below(root, s.path))),
                                             if IsText(Name(s.path)) then Normalised(s.content) else s.content));
            HashedStream(root, encode, files) == StreamOf(named)
  {
    order := Sort(RelativeKey(root), files);
    SortSorts(RelativeKey(root), files);
    forall i, j | 0 <= i < j < |order|
      ensures Precedes(Joined(Below(root, order[i].path)), Joined(Below(root, order[j].path)))
    {
      OrderOfTexts(Relative(root, order[i]), Relative(root, order[j]));
    }
    forall k | 0 <= k < |order|
      ensures HashedContent(order[k]) ==
              if IsText(Name(order[k].path)) then Normalised(order[k].content) else order[k].content
    {
      TextMeans(Name(order[k].path));
    }
    assert Each(NamedFile(root, encode), order) == seq(|order|, k requires 0 <= k < |order| =>
                               var s := order[k];
                               Framing.Named(encode(Joined(Below(root, s.path))),
                                             if IsText(Name(s.path)) then Normalised(s.content) else s.content));
  }

  // ----- Computing the digests --------------------------------------------------------------------

  // The digest over a recursive listing of the package, in whatever order the listing comes.
  method PackageDigest(package: Path, encode: string -> seq<byte>, listing: seq<Snapshot>)
    returns (r: Option<seq<byte>>)
    ensures r == HashedStream(package, encode, Filter(Listed, listing))
  {
    r := FeedSorted(package, encode, Filter(Listed, listing));
  }

  // The digest over the snapshots that the traversal took.
  method PackageContentDigest(package: Path, encode: string -> seq<byte>, snapshots: seq<Snapshot>)
    returns (r: Option<seq<byte>>)
    ensures r == HashedStream(package, encode, Filter(Hashed, snapshots))
  {
    r := FeedSorted(package, encode, Filter(Hashed, snapshots));
  }

  method FeedSorted(package: Path, encode: string -> seq<byte>, chosen: seq<Snapshot>) returns (r: Option<seq<byte>>)
    ensures r == HashedStream(package, encode, chosen)
  {
    var files := Sort(RelativeKey(package), chosen);
    ghost var named := NamedFile(package, encode);
    var framed: seq<Framing.Named> := [];
    for k := 0 to |files|
      invariant framed == Each(named, files[..k])
    {
      EachSnoc(named, files, k);
      var f := NameAndContent(package, encode, files[k]);
      framed := framed + [f];
    }
    assert files[..|files|] == files;
    r := Framing.Feed(framed);
  }

  method NameAndContent(package: Path, encode: string -> seq<byte>, s: Snapshot) returns (f: Framing.Named)
    ensures f == NamedFile(package, encode)(s)
  {
    var content := s.content;
    if Lower(Suffix(Name(s.path))) in TEXT_SUFFIXES {
      content := Normalised(content);
    }
    f := Framing.Named(encode(Relative(package, s)), content);
  }

  // Files strictly below a directory, named without slashes, and each path once.
  ghost predicate Proper(root: Path, files: seq<Snapshot>) {
    DistinctPaths(files) && forall s :: s in files ==> root < s.path && SlashFree(s.path[|root|..])
  }

  lemma CollectIsProper(keep: Path -> bool, root: Path, entries: seq<Entry>)
    requires WellNamed(entries)
    ensures Proper(root, Collect(keep, root, entries))
  {
    CollectedOnce(keep, root, entries);
    CollectGoesThrough(keep, root, entries);
    forall s | s in Collect(keep, root, entries) ensures root < s.path && SlashFree(s.path[|root|..]) {
      assert ThroughAny(root, entries, s);
      var e :| e in entries && Through(root, e.name, s);
      assert root < root + [e.name] <= s.path;
    }
  }

  lemma SameRelative(root: Path, s: Snapshot, t: Snapshot)
    requires root < s.path && SlashFree(s.path[|root|..])
    requires root < t.path && SlashFree(t.path[|root|..])
    requires Relative(root, s) == Relative(root, t)
    ensures s.path == t.path
  {
    JoinedIsInjective(s.path[|root|..], t.path[|root|..]);
    assert s.path == root + s.path[|root|..] && t.path == root + t.path[|root|..];
  }

  lemma ProperIsInjective(root: Path, files: seq<Snapshot>)
    requires Proper(root, files)
    ensures Injective(RelativeKey(root), files)
  {
    forall s, t | s in files && t in files && RelativeKey(root)(s) == RelativeKey(root)(t) ensures s == t {
      CodesAreInjective(Relative(root, s), Relative(root, t));
      SameRelative(root, s, t);
    }
  }

  lemma ProperFilter(p: Snapshot -> bool, root: Path, files: seq<Snapshot>)
    requires Proper(root, files)
    ensures Proper(root, Filter(p, files))
  {
    FilterMembers(p, files);
    DistinctFilter(p, files);
  }

  lemma {:induction false} DistinctFilter(p: Snapshot -> bool, files: seq<Snapshot>)
    requires DistinctPaths(files)
    ensures DistinctPaths(Filter(p, files))
  {
    if files != [] {
      DistinctFilter(p, files[1..]);
      FilterMembers(p, files[1..]);
      DistinctConcat(if p(files[0]) then [files[0]] else [], Filter(p, files[1..]));
    }
  }

  lemma {:induction false} FilterPermutes<T>(p: T -> bool, a: seq<T>, b: seq<T>)
    requires multiset(a) == multiset(b)
    ensures multiset(Filter(p, a)) == multiset(Filter(p, b))
    decreases |a|
  {
    if a == [] {
      assert |multiset(b)| == 0;
    } else {
      var k := PermutedIndex(a, b);
      FilterPermutes(p, a[1..], b[..k] + b[k + 1..]);
      FilterMoves(p, b, k);
      FilterMoves(p, a, 0);
      assert a[..0] + a[1..] == a[1..];
    }
  }

  lemma FilterMoves<T>(p: T -> bool, s: seq<T>, k: nat)
    requires k < |s|
    ensures multiset(Filter(p, s)) == multiset(Filter(p, [s[k]])) + multiset(Filter(p, s[..k] + s[k + 1..]))
  {
    var before, one, after := s[..k], [s[k]], s[k + 1..];
    assert s == before + (one + after);
    FilterConcat(p, before, one + after);
    FilterConcat(p, one, after);
    FilterConcat(p, before, after);
  }

  lemma {:induction false} FilterTwice<T>(p: T -> bool, q: T -> bool, both: T -> bool, s: seq<T>)
    requires forall x :: both(x) <==> p(x) && q(x)
    ensures Filter(p, Filter(q, s)) == Filter(both, s)
  {
    if s != [] {
      FilterTwice(p, q, both, s[1..]);
      FilterConcat(p, if q(s[0]) then [s[0]] else [], Filter(q, s[1..]));
    }
  }

  // Arranging the same files differently does not change the stream.
  lemma StreamIgnoresOrder(root: Path, encode: string -> seq<byte>, a: seq<Snapshot>, b: seq<Snapshot>)
    requires Proper(root, a) && multiset(a) == multiset(b)
    ensures HashedStream(root, encode, a) == HashedStream(root, encode, b)
  {
    var key := RelativeKey(root);
    SortKeepsMembers(key, a);
    SortKeepsMembers(key, b);
    ProperIsInjective(root, a);
    SortedIsUnique(key, Sort(key, a), Sort(key, b));
  }

  lemma ChosenAgree(keep: Path -> bool, hashed: Snapshot -> bool, listed: Snapshot -> bool, package: Path,
                    entries: seq<Entry>, listing: seq<Snapshot>, snapshots: seq<Snapshot>)
    requires WellNamed(entries) && SkipsCaches(keep)
    requires forall s :: listed(s) <==> hashed(s) && keep(s.path)
    requires multiset(listing) == multiset(AllFiles(package, entries))
    requires multiset(snapshots) == multiset(Collect(keep, package, entries))
    ensures multiset(Filter(listed, listing)) == multiset(Filter(hashed, snapshots))
    ensures Proper(package, Filter(hashed, Collect(keep, package, entries)))
    ensures multiset(Filter(hashed, Collect(keep, package, entries))) == multiset(Filter(hashed, snapshots))
  {
    var kept := (s: Snapshot) => keep(s.path);
    PruningIsFiltering(keep, package, entries);
    FilterTwice(hashed, kept, listed, AllFiles(package, entries));
    FilterPermutes(listed, listing, AllFiles(package, entries));
    FilterPermutes(hashed, snapshots, Collect(keep, package, entries));
    CollectIsProper(keep, package, entries);
    ProperFilter(hashed, package, Collect(keep, package, entries));
  }

  // The two digests hash the same stream for the same package, in whatever order the listing comes.
  lemma DigestsAgree(package: Path, encode: string -> seq<byte>, entries: seq<Entry>, listing: seq<Snapshot>,
                     snapshots: seq<Snapshot>)
    requires WellNamed(entries)
    requires multiset(listing) == multiset(AllFiles(package, entries))
    requires multiset(snapshots) == multiset(Collect(Kept, package, entries))
    ensures HashedStream(package, encode, Filter(Listed, listing)) ==
            HashedStream(package, encode, Filter(Hashed, snapshots))
  {
    ChosenAgree(Kept, Hashed, Listed, package, entries, listing, snapshots);
    var chosen := Filter(Hashed, Collect(Kept, package, entries));
    StreamIgnoresOrder(package, encode, chosen, Filter(Listed, listing));
    StreamIgnoresOrder(package, encode, chosen, Filter(Hashed, snapshots));
  }

  // ----- What a stream says about a package -------------------------------------------------------

  // A file of this relative path and hashed content is there.
  ghost predicate Holds(root: Path, files: seq<Snapshot>, relative: string, content: seq<byte>) {
    exists s :: s in files && Relative(root, s) == relative && HashedContent(s) == content
  }

  ghost predicate InjectiveEncoding(encode: string -> seq<byte>) {
    forall x, y :: encode(x) == encode(y) ==> x == y
  }

  lemma HeldIsNamed(root: Path, encode: string -> seq<byte>, files: seq<Snapshot>, relative: string, content: seq<byte>)
    requires InjectiveEncoding(encode)
    ensures Holds(root, files, relative, content)
       <==> Framing.Named(encode(relative), content) in Each(NamedFile(root, encode), Sort(RelativeKey(root), files))
  {
    var sorted := Sort(RelativeKey(root), files);
    SortKeepsMembers(RelativeKey(root), files);
    EachMember(NamedFile(root, encode), sorted, Framing.Named(encode(relative), content));
  }

  // Two packages that hash to equal streams hold the same relative paths with the same hashed contents.
  lemma EqualStreamsEqualPackages(a: Path, b: Path, encode: string -> seq<byte>, left: seq<Snapshot>,
                                  right: seq<Snapshot>)
    requires InjectiveEncoding(encode)
    requires HashedStream(a, encode, left).Some? && HashedStream(a, encode, left) == HashedStream(b, encode, right)
    ensures forall relative, content :: Holds(a, left, relative, content) <==> Holds(b, right, relative, content)
  {
    Framing.StreamIsInjective(Each(NamedFile(a, encode), Sort(RelativeKey(a), left)),
      Each(NamedFile(b, encode), Sort(RelativeKey(b), right)));
    forall relative, content ensures Holds(a, left, relative, content) <==> Holds(b, right, relative, content) {
      HeldIsNamed(a, encode, left, relative, content);
      HeldIsNamed(b, encode, right, relative, content);
    }
  }

  // ----- Checkouts ------------------------------------------------------------------------------

  // A file as a checkout writes it: only texts are converted, and of these only the ones it takes for texts.
  function CheckedOut(converts: Path -> bool): Snapshot -> Snapshot {
    (s: Snapshot) =>
      if Lower(Suffix(Name(s.path))) in TEXT_SUFFIXES && converts(s.path)
      then Snapshot(s.path, Checkout(s.content)) else s
  }

  lemma {:induction false} SortOfEach<T>(key: T -> seq<int>, f: T -> T, s: seq<T>)
    requires forall x :: key(f(x)) == key(x)
    ensures Sort(key, Each(f, s)) == Each(f, Sort(key, s))
  {
    if s != [] {
      SortOfEach(key, f, s[1..]);
      assert Each(f, s)[1..] == Each(f, s[1..]);
      InsertOfEach(key, f, s[0], Sort(key, s[1..]));
    }
  }

  lemma {:induction false} InsertOfEach<T>(key: T -> seq<int>, f: T -> T, x: T, s: seq<T>)
    requires forall x :: key(f(x)) == key(x)
    ensures Insert(key, f(x), Each(f, s)) == Each(f, Insert(key, x, s))
  {
    if s == [] {
      assert Each(f, [x]) == [f(x)] + Each(f, s);
    } else if AtMost(key(x), key(s[0])) {
      assert Each(f, [x] + s) == [f(x)] + Each(f, s);
    } else {
      InsertOfEach(key, f, x, s[1..]);
      assert Each(f, s)[1..] == Each(f, s[1..]);
      assert Each(f, [s[0]] + Insert(key, x, s[1..])) == [f(s[0])] + Each(f, Insert(key, x, s[1..]));
    }
  }

  lemma CheckoutKeepsNamed(package: Path, encode: string -> seq<byte>, converts: Path -> bool, s: Snapshot)
    ensures NamedFile(package, encode)(CheckedOut(converts)(s)) == NamedFile(package, encode)(s)
    ensures RelativeKey(package)(CheckedOut(converts)(s)) == RelativeKey(package)(s)
  {
    CheckoutKeepsNormalised(s.content);
    var t := CheckedOut(converts)(s);
    assert t.path == s.path && HashedContent(t) == HashedContent(s);
    assert Relative(package, t) == Relative(package, s);
  }

  // Whichever texts a checkout converts, the package hashes to the same stream.
  lemma CheckoutKeepsStream(package: Path, encode: string -> seq<byte>, converts: Path -> bool, files: seq<Snapshot>)
    ensures HashedStream(package, encode, Each(CheckedOut(converts), files)) == HashedStream(package, encode, files)
  {
    var key, named, checkedOut := RelativeKey(package), NamedFile(package, encode), CheckedOut(converts);
    forall s ensures named(checkedOut(s)) == named(s) && key(checkedOut(s)) == key(s) {
      CheckoutKeepsNamed(package, encode, converts, s);
    }
    SortOfEach(key, checkedOut, files);
    assert Each(named, Each(checkedOut, Sort(key, files))) == Each(named, Sort(key, files));
  }
}
