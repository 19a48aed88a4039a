/** Absolute paths as component lists, and the order of their texts. */
module Paths {
  import opened Tuples

  type Path = seq<string>

  // ----- The order of texts -----------------------------------------------------------------------

  function Codes(s: string): seq<int> {
    seq(|s|, i requires 0 <= i < |s| => s[i] as int)
  }

  // The first difference is at `k`, where `a` has the smaller character.
  predicate SmallerAt(a: string, b: string, k: nat) {
    k < |a| && k < |b| && a[..k] == b[..k] && a[k] < b[k]
  }

  // One text begins the other, or has the smaller character at the first difference.
  ghost predicate Precedes(a: string, b: string) {
    a <= b || exists k: nat :: SmallerAt(a, b, k)
  }

  // The order of the code points is the order of the texts.
  lemma {:induction false} OrderOfTexts(a: string, b: string)
    ensures AtMost(Codes(a), Codes(b)) <==> Precedes(a, b)
  {
    if a == [] || b == [] {
      assert Codes(a) == [] <==> a == [];
      assert Codes(b) == [] <==> b == [];
    } else if a[0] != b[0] {
      CodesOfTail(a);
      CodesOfTail(b);
      assert a[0] < b[0] ==> SmallerAt(a, b, 0) by {
        assert a[..0] == b[..0];
      }
      assert forall k: nat :: 0 < k <= |a| && k <= |b| ==> a[..k][0] != b[..k][0];
    } else {
      OrderOfTexts(a[1..], b[1..]);
      CodesOfTail(a);
      CodesOfTail(b);
      PrecedesInTail(a, b);
      CommonPrefix([a[0] as int], Codes(a[1..]), Codes(b[1..]));
    }
  }

  lemma CodesOfTail(s: string)
    requires s != ""
    ensures Codes(s) == [s[0] as int] + Codes(s[1..])
  {
  }

  lemma SmallerInTail(a: string, b: string, k: nat)
    requires a != "" && b != "" && a[0] == b[0]
    ensures SmallerAt(a, b, k + 1) <==> SmallerAt(a[1..], b[1..], k)
  {
    var s, t := a[1..], b[1..];
    if k < |s| && k < |t| {
      assert a[..k + 1] == [a[0]] + s[..k] && b[..k + 1] == [b[0]] + t[..k];
      assert s[..k] == a[..k + 1][1..] && t[..k] == b[..k + 1][1..];
    }
  }

  lemma PrecedesInTail(a: string, b: string)
    requires a != "" && b != "" && a[0] == b[0]
    ensures Precedes(a, b) <==> Precedes(a[1..], b[1..])
  {
    assert a == [a[0]] + a[1..] && b == [b[0]] + b[1..];
    if k: nat :| SmallerAt(a, b, k) {
      assert k > 0;
      SmallerInTail(a, b, k - 1);
    }
    if k: nat :| SmallerAt(a[1..], b[1..], k) {
      SmallerInTail(a, b, k);
    }
  }

  // ----- Paths --------------------------------------------------------------------------------------

  // Every component after a slash.
  function PathText(p: Path): string {
    if p == [] then "" else "/" + p[0] + PathText(p[1..])
  }

  function PathKey(p: Path): seq<int> {
    Codes(PathText(p))
  }

  function Parent(p: Path): Path {
    if p == [] then [] else p[..|p| - 1]
  }

  // A path's components, joined with slashes.
  function Joined(p: Path): string {
    if p == [] then "" else if |p| == 1 then p[0] else p[0] + "/" + Joined(p[1..])
  }

  // ASCII letters in lower case.
  function Lower(s: string): string {
    seq(|s|, i requires 0 <= i < |s| => if 'A' <= s[i] <= 'Z' then s[i] + ' ' else s[i])
  }

  // Lowering changes the twenty-six capitals and nothing else.
  lemma LowerMeans(s: string, i: nat)
    requires i < |s|
    ensures |Lower(s)| == |s|
    ensures var capitals, letters := "ABCDEFGHIJKLMNOPQRSTUVWXYZ", "abcdefghijklmnopqrstuvwxyz";
            && |capitals| == |letters|
            && (forall k :: 0 <= k < |capitals| && s[i] == capitals[k] ==> Lower(s)[i] == letters[k])
            && (s[i] !in capitals ==> Lower(s)[i] == s[i])
  {
    var capitals := "ABCDEFGHIJKLMNOPQRSTUVWXYZ";
    if 'A' <= s[i] <= 'Z' {
      assert capitals[s[i] as int - 'A' as int] == s[i];
    }
  }

  // The last dot and what follows it, unless the dot is the first or the last character.
  function Suffix(name: string): string {
    var i := LastDot(name, |name|);
    if 0 < i < |name| - 1 then name[i..] else ""
  }

  predicate EndsWith(s: string, end: string) {
    |end| <= |s| && s[|s| - |end|..] == end
  }

  // One dot, in front of something.
  predicate IsSuffix(end: string) {
    |end| > 1 && end[0] == '.' && forall i :: 0 < i < |end| ==> end[i] != '.'
  }

  function LastDot(name: string, end: nat): (i: int)
    requires end <= |name|
    ensures -1 <= i < end
  {
    if end == 0 then -1 else if name[end - 1] == '.' then end - 1 else LastDot(name, end - 1)
  }

  lemma {:induction false} LastDotIsLast(name: string, end: nat)
    requires end <= |name|
    ensures var i := LastDot(name, end);
            (i >= 0 ==> name[i] == '.') && forall j :: i < j < end ==> name[j] != '.'
  {
    if end > 0 && name[end - 1] != '.' {
      LastDotIsLast(name, end - 1);
    }
  }

  // A name has a suffix exactly when it ends with it and has something in front of it.
  lemma SuffixEnds(name: string, end: string)
    requires IsSuffix(end)
    ensures Suffix(name) == end <==> |name| > |end| && EndsWith(name, end)
  {
    var i := LastDot(name, |name|);
    LastDotIsLast(name, |name|);
    if |name| > |end| && EndsWith(name, end) {
      var k := |name| - |end|;
      assert name[k..] == end;
      assert name[k] == end[0];
      forall j | k < j < |name| ensures name[j] != '.' {
        assert name[j] == end[j - k];
      }
      assert i == k;
    }
  }

  predicate SlashFree(p: Path) {
    forall i, j :: 0 <= i < |p| && 0 <= j < |p[i]| ==> p[i][j] != '/'
  }

  lemma CodesAreInjective(a: string, b: string)
    requires Codes(a) == Codes(b)
    ensures a == b
  {
    assert |a| == |Codes(a)| == |Codes(b)| == |b|;
    forall i | 0 <= i < |a| ensures a[i] == b[i] {
      assert Codes(a)[i] == Codes(b)[i];
    }
  }

  // Component texts that differ in length cannot be continued to the same path text.
  lemma ComponentsEndTogether(a: string, b: string, p: Path, q: Path)
    requires a + PathText(p) == b + PathText(q)
    requires forall j :: 0 <= j < |a| ==> a[j] != '/'
    requires forall j :: 0 <= j < |b| ==> b[j] != '/'
    ensures |a| == |b|
  {
    var x, y := a + PathText(p), b + PathText(q);
    assert |x| > |a| ==> x[|a|] == '/';
    assert |y| > |b| ==> y[|b|] == '/';
    assert forall j :: 0 <= j < |a| ==> x[j] == a[j];
    assert forall j :: 0 <= j < |b| ==> y[j] == b[j];
  }

  lemma {:induction false} PathTextIsInjective(p: Path, q: Path)
    requires SlashFree(p) && SlashFree(q) && PathText(p) == PathText(q)
    ensures p == q
  {
    if p != [] && q != [] {
      var a, b := p[0], q[0];
      var x, y := a + PathText(p[1..]), b + PathText(q[1..]);
      assert PathText(p) == "/" + x && PathText(q) == "/" + y;
      assert x == PathText(p)[1..] == PathText(q)[1..] == y;
      ComponentsEndTogether(a, b, p[1..], q[1..]);
      assert a == x[..|a|] == y[..|b|] == b;
      assert PathText(p[1..]) == x[|a|..] == y[|b|..] == PathText(q[1..]);
      PathTextIsInjective(p[1..], q[1..]);
      assert p == [a] + p[1..] && q == [b] + q[1..];
    }
  }

  lemma {:induction false} PathTextOfJoined(p: Path)
    requires p != []
    ensures PathText(p) == "/" + Joined(p)
  {
    if |p| == 1 {
      assert PathText(p[1..]) == "";
    } else {
      PathTextOfJoined(p[1..]);
      assert "/" + p[0] + ("/" + Joined(p[1..])) == "/" + Joined(p);
    }
  }

  lemma JoinedIsInjective(p: Path, q: Path)
    requires p != [] && q != [] && SlashFree(p) && SlashFree(q) && Joined(p) == Joined(q)
    ensures p == q
  {
    PathTextOfJoined(p);
    PathTextOfJoined(q);
    PathTextIsInjective(p, q);
  }
}
