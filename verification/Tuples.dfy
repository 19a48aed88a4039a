/** Python's order on tuples of integers. */
module Tuples {

  // The first differing component decides; a strict prefix is smaller.
  predicate Less(a: seq<int>, b: seq<int>) {
    b != [] && (a == [] || a[0] < b[0] || (a[0] == b[0] && Less(a[1..], b[1..])))
  }

  predicate AtMost(a: seq<int>, b: seq<int>) {
    a == b || Less(a, b)
  }

  function Max(a: seq<int>, b: seq<int>): seq<int> {
    if Less(a, b) then b else a
  }

  lemma LessIsStrict(a: seq<int>, b: seq<int>)
    ensures Less(a, b) ==> a != b && !Less(b, a)
  {
    if Less(a, b) && a != [] && a[0] == b[0] {
      LessIsStrict(a[1..], b[1..]);
    }
  }

  lemma LessIsTotal(a: seq<int>, b: seq<int>)
    ensures a == b || Less(a, b) || Less(b, a)
  {
    if a != [] && b != [] && a[0] == b[0] {
      LessIsTotal(a[1..], b[1..]);
      assert a == [a[0]] + a[1..] && b == [b[0]] + b[1..];
    }
  }

  lemma LessIsTransitive(a: seq<int>, b: seq<int>, c: seq<int>)
    requires Less(a, b) && Less(b, c)
    ensures Less(a, c)
  {
  }

  lemma AtMostIsTransitive(a: seq<int>, b: seq<int>, c: seq<int>)
    requires AtMost(a, b) && AtMost(b, c)
    ensures AtMost(a, c)
  {
    if a != b && b != c {
      LessIsTransitive(a, b, c);
    }
  }

  // Not smaller is the same as at most in the other direction.
  lemma NotLess(a: seq<int>, b: seq<int>)
    ensures Less(a, b) <==> !AtMost(b, a)
  {
    LessIsTotal(a, b);
    LessIsStrict(a, b);
  }

  lemma CommonPrefix(p: seq<int>, a: seq<int>, b: seq<int>)
    ensures Less(p + a, p + b) <==> Less(a, b)
    ensures AtMost(p + a, p + b) <==> AtMost(a, b)
  {
    if p == [] {
      assert p + a == a && p + b == b;
    } else {
      CommonPrefix(p[1..], a, b);
      assert (p + a)[1..] == p[1..] + a && (p + b)[1..] == p[1..] + b;
      assert p + a == p + b ==> a == (p + a)[|p|..] == (p + b)[|p|..] == b;
    }
  }

  lemma DecidedAt(a: seq<int>, b: seq<int>, k: nat)
    requires k < |a| && k < |b| && a[..k] == b[..k] && a[k] < b[k]
    ensures Less(a, b)
  {
    CommonPrefix(a[..k], a[k..], b[k..]);
    assert a == a[..k] + a[k..] && b == b[..k] + b[k..];
  }
}
