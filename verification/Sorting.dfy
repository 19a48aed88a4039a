/** The stable sort that Python's `sorted` performs, by a tuple-valued key. */
module Sorting {
  import opened Tuples

  function Insert<T>(key: T -> seq<int>, x: T, s: seq<T>): seq<T> {
    if s == [] || AtMost(key(x), key(s[0])) then [x] + s else [s[0]] + Insert(key, x, s[1..])
  }

  function Sort<T>(key: T -> seq<int>, s: seq<T>): seq<T> {
    if s == [] then [] else Insert(key, s[0], Sort(key, s[1..]))
  }

  ghost predicate Sorted<T>(key: T -> seq<int>, s: seq<T>) {
    forall i, j :: 0 <= i < j < |s| ==> AtMost(key(s[i]), key(s[j]))
  }

  ghost predicate Injective<T>(key: T -> seq<int>, s: seq<T>) {
    forall x, y :: x in s && y in s && key(x) == key(y) ==> x == y
  }

  lemma {:induction false} InsertSorts<T>(key: T -> seq<int>, x: T, s: seq<T>)
    requires Sorted(key, s)
    ensures Sorted(key, Insert(key, x, s))
    ensures multiset(Insert(key, x, s)) == multiset{x} + multiset(s)
  {
    if s == [] {
    } else if AtMost(key(x), key(s[0])) {
      forall j | 0 <= j < |s| ensures AtMost(key(x), key(s[j])) {
        AtMostIsTransitive(key(x), key(s[0]), key(s[j]));
      }
    } else {
      InsertSorts(key, x, s[1..]);
      NotLess(key(s[0]), key(x));
      var rest := Insert(key, x, s[1..]);
      assert s == [s[0]] + s[1..];
      forall j | 0 <= j < |rest| ensures AtMost(key(s[0]), key(rest[j])) {
        assert rest[j] in multiset(rest);
        assert rest[j] == x || rest[j] in s[1..];
      }
    }
  }

  lemma {:induction false} SortSorts<T>(key: T -> seq<int>, s: seq<T>)
    ensures Sorted(key, Sort(key, s))
    ensures multiset(Sort(key, s)) == multiset(s)
    ensures |Sort(key, s)| == |s|
  {
    if s != [] {
      SortSorts(key, s[1..]);
      InsertSorts(key, s[0], Sort(key, s[1..]));
      assert s == [s[0]] + s[1..];
    }
    assert |multiset(Sort(key, s))| == |multiset(s)|;
  }

  lemma MultisetWithout<T>(s: seq<T>, k: nat)
    requires k < |s|
    ensures multiset(s[..k] + s[k + 1..]) == multiset(s) - multiset{s[k]}
  {
    assert s == s[..k] + [s[k]] + s[k + 1..];
  }

  lemma SortKeepsMembers<T>(key: T -> seq<int>, s: seq<T>)
    ensures Sorted(key, Sort(key, s)) && multiset(Sort(key, s)) == multiset(s) && |Sort(key, s)| == |s|
    ensures forall x :: x in Sort(key, s) <==> x in s
  {
    SortSorts(key, s);
    forall x ensures x in Sort(key, s) <==> x in s {
      assert x in Sort(key, s) <==> x in multiset(Sort(key, s));
    }
  }

  lemma MultisetChop<T>(s: seq<T>)
    requires s != []
    ensures multiset(s[..|s| - 1]) <= multiset(s) && multiset(s[..|s| - 1]) != multiset(s)
  {
    assert s == s[..|s| - 1] + [s[|s| - 1]];
    assert |multiset(s[..|s| - 1])| == |s| - 1 && |multiset(s)| == |s|;
  }

  // Moving one element of the second part to its front changes no count.
  lemma MultisetMove<T>(a: seq<T>, b: seq<T>, k: nat)
    requires k < |b|
    ensures multiset(a + b) == multiset(a + [b[k]] + (b[..k] + b[k + 1..]))
  {
    MultisetWithout(b, k);
    assert b[k] in multiset(b);
  }

  lemma MultisetTail<T>(s: seq<T>)
    requires s != []
    ensures multiset(s[1..]) == multiset(s) - multiset{s[0]}
  {
    assert s == [s[0]] + s[1..];
  }

  lemma TwiceIn<T>(s: seq<T>, i: nat, j: nat)
    requires i < j < |s| && s[i] == s[j]
    ensures multiset(s)[s[i]] >= 2
  {
    assert s == s[..j] + s[j..];
    assert s[..j][i] in multiset(s[..j]) && s[j..][0] in multiset(s[j..]);
  }

  // Where the first element of one arrangement stands in another, and that the rest still match.
  lemma PermutedIndex<T>(a: seq<T>, b: seq<T>) returns (k: nat)
    requires a != [] && multiset(a) == multiset(b)
    ensures k < |b| && b[k] == a[0] && multiset(a[1..]) == multiset(b[..k] + b[k + 1..])
  {
    assert a[0] in multiset(b);
    k :| 0 <= k < |b| && b[k] == a[0];
    MultisetWithout(b, k);
    assert a == [a[0]] + a[1..];
    assert multiset(a[1..]) == multiset(a) - multiset{a[0]};
  }

  lemma SameHead<T>(key: T -> seq<int>, a: seq<T>, b: seq<T>)
    requires Sorted(key, a) && Sorted(key, b) && Injective(key, a)
    requires multiset(a) == multiset(b) && a != [] && b != []
    ensures a[0] == b[0]
  {
    assert a[0] in multiset(b) && b[0] in multiset(a);
    var i :| 0 <= i < |b| && b[i] == a[0];
    var j :| 0 <= j < |a| && a[j] == b[0];
    assert AtMost(key(a[0]), key(b[0])) && AtMost(key(b[0]), key(a[0]));
    LessIsStrict(key(a[0]), key(b[0]));
  }

  // A sorted arrangement is unique when equal keys mean equal elements.
  lemma {:induction false} SortedIsUnique<T>(key: T -> seq<int>, a: seq<T>, b: seq<T>)
    requires Sorted(key, a) && Sorted(key, b) && Injective(key, a)
    requires multiset(a) == multiset(b)
    ensures a == b
  {
    assert |a| == |b| by {
      assert |multiset(a)| == |multiset(b)|;
    }
    if a != [] {
      SameHead(key, a, b);
      MultisetTail(a);
      MultisetTail(b);
      SortedIsUnique(key, a[1..], b[1..]);
      assert a == [a[0]] + a[1..] && b == [b[0]] + b[1..];
    }
  }

  // Sorting what is already sorted changes nothing: the sort is stable.
  lemma {:induction false} SortOfSorted<T>(key: T -> seq<int>, s: seq<T>)
    requires Sorted(key, s)
    ensures Sort(key, s) == s
  {
    if s != [] {
      assert forall x :: x in s[1..] ==> AtMost(key(s[0]), key(x));
      SortOfSorted(key, s[1..]);
      assert s == [s[0]] + s[1..];
    }
  }
}
