/** The score of a set of Issues, and the bound that prunes the search for the best compatible set. */
module Scores {
  import opened Tuples
  import opened Sorting
  import opened Lists
  import opened Issues

  // ----- The score --------------------------------------------------------------------------

  // The additive parts of a score. `UpTo(n)` counts the Issues numbered n or less.
  datatype Measure = OfRank(rank: nat) | Unlocks | UpTo(n: int)

  function Weight(m: Measure, i: Issue): int {
    match m
    case OfRank(rank) => if Rank(i.priority) == rank then 1 else 0
    case Unlocks => i.unlocks
    case UpTo(n) => if i.number <= n then 1 else 0
  }

  function Total(m: Measure, s: seq<Issue>): int {
    if s == [] then 0 else Weight(m, s[0]) + Total(m, s[1..])
  }

  function Numbers(s: seq<Issue>): seq<int> {
    seq(|s|, i requires 0 <= i < |s| => s[i].number)
  }

  function NumberKey(n: int): seq<int> {
    [n]
  }

  function Negated(s: seq<int>): seq<int> {
    seq(|s|, i requires 0 <= i < |s| => -s[i])
  }

  function Head(s: seq<Issue>): seq<int> {
    [Total(OfRank(0), s), Total(OfRank(1), s), Total(OfRank(2), s), Total(OfRank(3), s), Total(Unlocks, s)]
  }

  function Tail(s: seq<Issue>): seq<int> {
    Negated(Sort(NumberKey, Numbers(s)))
  }

  // The nested tuple of numbers is written after the five leading integers: since every score has exactly
  // those five, the order on the flat tuples is the order on the nested ones.
  function Score(s: seq<Issue>): seq<int> {
    Head(s) + Tail(s)
  }

  // ----- What a score means -----------------------------------------------------------------------

  function HowMany(p: Priority, s: seq<Issue>): nat {
    |Filter((i: Issue) => i.priority == p, s)|
  }

  lemma {:induction false} CountIsHowMany(p: Priority, s: seq<Issue>)
    ensures Total(OfRank(Rank(p)), s) == HowMany(p, s)
  {
    if s != [] {
      CountIsHowMany(p, s[1..]);
    }
  }

  // Ascending numbers compared at the first difference, where the smaller one is better; more numbers are better than
  // fewer of the same.
  predicate BetterNumbers(a: seq<int>, b: seq<int>) {
    b < a || exists k :: 0 <= k < |a| && k < |b| && a[..k] == b[..k] && a[k] < b[k]
  }

  lemma {:induction false} NumbersCompare(a: seq<int>, b: seq<int>)
    ensures Less(Negated(b), Negated(a)) <==> BetterNumbers(a, b)
  {
    if a == [] || b == [] {
      assert |Negated(a)| == |a| && |Negated(b)| == |b|;
    } else {
      NegatedTail(a);
      NegatedTail(b);
      if a[0] == b[0] {
        NumbersCompare(a[1..], b[1..]);
        BetterInTail(a, b);
      } else {
        assert a[..0] == b[..0];
        assert forall k :: 0 < k <= |a| && k <= |b| ==> a[..k][0] != b[..k][0];
      }
    }
  }

  lemma NegatedTail(s: seq<int>)
    requires s != []
    ensures Negated(s) == [-s[0]] + Negated(s[1..])
  {
  }

  lemma BetterInTail(a: seq<int>, b: seq<int>)
    requires a != [] && b != [] && a[0] == b[0]
    ensures BetterNumbers(a, b) <==> BetterNumbers(a[1..], b[1..])
  {
    var s, t := a[1..], b[1..];
    assert a == [a[0]] + s && b == [b[0]] + t;
    forall k | 0 < k <= |a| && k <= |b| ensures a[..k] == b[..k] <==> s[..k - 1] == t[..k - 1] {
      assert a[..k] == [a[0]] + s[..k - 1] && b[..k] == [b[0]] + t[..k - 1];
      assert s[..k - 1] == a[..k][1..] && t[..k - 1] == b[..k][1..];
    }
    if k :| 0 <= k < |s| && k < |t| && s[..k] == t[..k] && s[k] < t[k] {
      assert a[..k + 1] == b[..k + 1] && a[k + 1] < b[k + 1];
    }
    if k :| 0 <= k < |a| && k < |b| && a[..k] == b[..k] && a[k] < b[k] {
      assert s[..k - 1] == t[..k - 1] && s[k - 1] < t[k - 1];
    }
  }

  // A selection scores higher when it has more P0 Issues; with as many, more P1 Issues, and so on to P3; then more
  // unlocks in all; then the smaller numbers.
  lemma BetterScore(a: seq<Issue>, b: seq<Issue>)
    ensures Less(Score(b), Score(a)) <==>
            if HowMany(P0, a) != HowMany(P0, b) then HowMany(P0, a) > HowMany(P0, b)
            else if HowMany(P1, a) != HowMany(P1, b) then HowMany(P1, a) > HowMany(P1, b)
            else if HowMany(P2, a) != HowMany(P2, b) then HowMany(P2, a) > HowMany(P2, b)
            else if HowMany(P3, a) != HowMany(P3, b) then HowMany(P3, a) > HowMany(P3, b)
            else if Total(Unlocks, a) != Total(Unlocks, b) then Total(Unlocks, a) > Total(Unlocks, b)
            else BetterNumbers(Sort(NumberKey, Numbers(a)), Sort(NumberKey, Numbers(b)))
  {
    CountIsHowMany(P0, a);
    CountIsHowMany(P0, b);
    CountIsHowMany(P1, a);
    CountIsHowMany(P1, b);
    CountIsHowMany(P2, a);
    CountIsHowMany(P2, b);
    CountIsHowMany(P3, a);
    CountIsHowMany(P3, b);
    NumbersCompare(Sort(NumberKey, Numbers(a)), Sort(NumberKey, Numbers(b)));
    HeadDecides(Head(b), Tail(b), Head(a), Tail(a));
    FirstOfFive(Head(b), Head(a));
  }

  lemma FirstOfFive(a: seq<int>, b: seq<int>)
    requires |a| == 5 && |b| == 5
    ensures Less(a, b) <==>
            if a[0] != b[0] then a[0] < b[0]
            else if a[1] != b[1] then a[1] < b[1]
            else if a[2] != b[2] then a[2] < b[2]
            else if a[3] != b[3] then a[3] < b[3]
            else a[4] < b[4]
    ensures a == b <==> a[0] == b[0] && a[1] == b[1] && a[2] == b[2] && a[3] == b[3] && a[4] == b[4]
  {
    if k :| 0 <= k < 5 && a[k] != b[k] && a[..k] == b[..k] {
      assert forall j :: 0 <= j < k ==> a[j] == a[..k][j] == b[..k][j] == b[j];
      if a[k] < b[k] {
        DecidedAt(a, b, k);
        LessIsStrict(a, b);
      } else {
        DecidedAt(b, a, k);
        LessIsStrict(b, a);
      }
    } else {
      SameUpTo(a, b, 5);
      assert a[..5] == a && b[..5] == b;
      LessIsStrict(a, b);
    }
  }

  lemma {:induction false} SameUpTo(a: seq<int>, b: seq<int>, n: nat)
    requires n <= |a| == |b|
    requires forall k :: 0 <= k < n && a[..k] == b[..k] ==> a[k] == b[k]
    ensures a[..n] == b[..n]
  {
    if n > 0 {
      SameUpTo(a, b, n - 1);
      assert a[..n] == a[..n - 1] + [a[n - 1]] && b[..n] == b[..n - 1] + [b[n - 1]];
    }
  }

  lemma HeadDecides(a: seq<int>, x: seq<int>, b: seq<int>, y: seq<int>)
    requires |a| == |b|
    ensures Less(a + x, b + y) <==> Less(a, b) || (a == b && Less(x, y))
  {
    if a == [] {
      assert a + x == x && b + y == y;
    } else {
      HeadDecides(a[1..], x, b[1..], y);
      assert (a + x)[1..] == a[1..] + x && (b + y)[1..] == b[1..] + y;
      assert a == [a[0]] + a[1..] && b == [b[0]] + b[1..];
    }
  }

  // ----- The bound --------------------------------------------------------------------------

  function Clip(n: int, length: nat): nat {
    if n < 0 then 0 else if n < length then n else length
  }

  // The additions that a branch could make at best, ignoring conflicts.
  function Additions(remaining: seq<Issue>, slots: int): seq<Issue> {
    var s := Sort(CandidateKey, remaining);
    s[..Clip(slots, |s|)]
  }

  function Bound(selected: seq<Issue>, remaining: seq<Issue>, capacity: int): seq<int> {
    Score(selected + Additions(remaining, capacity - |selected|))
  }

  ghost predicate Fits(t: seq<Issue>, selected: seq<Issue>, remaining: seq<Issue>, capacity: int) {
    multiset(t) <= multiset(remaining) && |selected| + |t| <= capacity
  }

  // No selection reachable from the branch beats the bound.
  ghost predicate Admissible(selected: seq<Issue>, remaining: seq<Issue>, capacity: int) {
    forall t {:trigger Fits(t, selected, remaining, capacity)} :: Fits(t, selected, remaining, capacity) ==>
      AtMost(Score(selected + t), Bound(selected, remaining, capacity))
  }

  // What a caller can check: an unprioritised Issue never lowers the score.
  predicate Worthwhile(s: seq<Issue>) {
    forall i :: i in s && i.priority.Unprioritised? ==> i.unlocks >= 0
  }

  // ----- Sums ---------------------------------------------------------------------------------

  lemma {:induction false} TotalConcat(m: Measure, a: seq<Issue>, b: seq<Issue>)
    ensures Total(m, a + b) == Total(m, a) + Total(m, b)
  {
    if a == [] {
      assert a + b == b;
    } else {
      TotalConcat(m, a[1..], b);
      assert (a + b)[1..] == a[1..] + b;
    }
  }

  lemma TotalWithout(m: Measure, s: seq<Issue>, k: nat)
    requires k < |s|
    ensures Total(m, s) == Weight(m, s[k]) + Total(m, s[..k] + s[k + 1..])
  {
    TotalConcat(m, s[..k], s[k..]);
    TotalConcat(m, s[..k], s[k + 1..]);
    assert s == s[..k] + s[k..];
  }

  lemma {:induction false} TotalPermutation(m: Measure, a: seq<Issue>, b: seq<Issue>)
    requires multiset(a) == multiset(b)
    ensures Total(m, a) == Total(m, b)
  {
    if a == [] {
      assert |multiset(b)| == 0;
    } else {
      var k := PermutedIndex(a, b);
      TotalPermutation(m, a[1..], b[..k] + b[k + 1..]);
      TotalWithout(m, b, k);
    }
  }

  lemma {:induction false} TotalBounds(m: Measure, s: seq<Issue>)
    requires !m.Unlocks?
    ensures 0 <= Total(m, s) <= |s|
    ensures Total(m, s) == 0 <==> forall i :: i in s ==> Weight(m, i) == 0
  {
    if s != [] {
      TotalBounds(m, s[1..]);
      assert s == [s[0]] + s[1..];
    }
  }

  // ----- The tuple of numbers ---------------------------------------------------------------

  function CountUpTo(s: seq<int>, n: int): int {
    if s == [] then 0 else (if s[0] <= n then 1 else 0) + CountUpTo(s[1..], n)
  }

  lemma {:induction false} InsertCounts(x: int, s: seq<int>, n: int)
    ensures CountUpTo(Insert(NumberKey, x, s), n) == (if x <= n then 1 else 0) + CountUpTo(s, n)
  {
    if s != [] && !AtMost(NumberKey(x), NumberKey(s[0])) {
      InsertCounts(x, s[1..], n);
      assert ([s[0]] + Insert(NumberKey, x, s[1..]))[1..] == Insert(NumberKey, x, s[1..]);
    } else {
      assert ([x] + s)[1..] == s;
    }
  }

  lemma {:induction false} SortCounts(s: seq<Issue>, n: int)
    ensures CountUpTo(Sort(NumberKey, Numbers(s)), n) == Total(UpTo(n), s)
  {
    if s != [] {
      SortCounts(s[1..], n);
      assert Numbers(s)[1..] == Numbers(s[1..]);
      InsertCounts(s[0].number, Sort(NumberKey, Numbers(s[1..])), n);
    }
  }

  ghost predicate Ascending(s: seq<int>) {
    forall i, j :: 0 <= i < j < |s| ==> s[i] <= s[j]
  }

  lemma NumbersAscend(s: seq<Issue>)
    ensures Ascending(Sort(NumberKey, Numbers(s)))
  {
    SortSorts(NumberKey, Numbers(s));
    var t := Sort(NumberKey, Numbers(s));
    forall i, j | 0 <= i < j < |t| ensures t[i] <= t[j] {
      assert AtMost(NumberKey(t[i]), NumberKey(t[j]));
    }
  }

  lemma {:induction false} CountOfNone(s: seq<int>, n: int)
    requires forall k :: 0 <= k < |s| ==> n < s[k]
    ensures CountUpTo(s, n) == 0
  {
    if s != [] {
      CountOfNone(s[1..], n);
    }
  }

  // More small numbers make a larger tuple.
  lemma {:induction false} MoreSmallNumbers(a: seq<int>, b: seq<int>)
    requires Ascending(a) && Ascending(b)
    requires forall n :: CountUpTo(b, n) <= CountUpTo(a, n)
    ensures AtMost(Negated(b), Negated(a))
  {
    if b != [] {
      if a == [] || b[0] < a[0] {
        CountOfNone(a, b[0]);
        CountAtLeast(b[1..], b[0]);
        assert false;
      } else if a[0] == b[0] {
        forall n ensures CountUpTo(b[1..], n) <= CountUpTo(a[1..], n) {
          assert CountUpTo(b, n) <= CountUpTo(a, n);
        }
        MoreSmallNumbers(a[1..], b[1..]);
        assert Negated(a) == [-a[0]] + Negated(a[1..]) && Negated(b) == [-b[0]] + Negated(b[1..]);
        CommonPrefix([-a[0]], Negated(b[1..]), Negated(a[1..]));
      }
    }
  }

  lemma {:induction false} CountAtLeast(s: seq<int>, n: int)
    ensures 0 <= CountUpTo(s, n)
  {
    if s != [] {
      CountAtLeast(s[1..], n);
    }
  }

  lemma TailOrder(a: seq<Issue>, b: seq<Issue>)
    requires forall n :: Total(UpTo(n), b) <= Total(UpTo(n), a)
    ensures AtMost(Tail(b), Tail(a))
  {
    NumbersAscend(a);
    NumbersAscend(b);
    forall n ensures CountUpTo(Sort(NumberKey, Numbers(b)), n) <= CountUpTo(Sort(NumberKey, Numbers(a)), n) {
      SortCounts(a, n);
      SortCounts(b, n);
      assert Total(UpTo(n), b) <= Total(UpTo(n), a);
    }
    MoreSmallNumbers(Sort(NumberKey, Numbers(a)), Sort(NumberKey, Numbers(b)));
  }

  // A score does not depend on the order in which the Issues are listed.
  lemma ScoreOfPermutation(a: seq<Issue>, b: seq<Issue>)
    requires multiset(a) == multiset(b)
    ensures Score(a) == Score(b)
  {
    forall m: Measure ensures Total(m, a) == Total(m, b) {
      TotalPermutation(m, a, b);
    }
    TailOrder(a, b);
    TailOrder(b, a);
    LessIsStrict(Tail(a), Tail(b));
  }

  // Among Issues with distinct numbers, a score names the set it scores.
  lemma ScoreIsInjective(a: seq<Issue>, b: seq<Issue>, candidates: seq<Issue>)
    requires DistinctNumbers(candidates)
    requires multiset(a) <= multiset(candidates) && multiset(b) <= multiset(candidates)
    requires Score(a) == Score(b)
    ensures multiset(a) == multiset(b)
  {
    ScoreParts(a);
    ScoreParts(b);
    SameTail(a, b);
    forall i ensures multiset(a)[i] == multiset(b)[i] {
      OnceEach(candidates, i);
      assert multiset(a)[i] <= 1 && multiset(b)[i] <= 1;
      if i in a { SharedMember(a, b, candidates, i); }
      if i in b { SharedMember(b, a, candidates, i); }
    }
  }

  lemma ScoreParts(s: seq<Issue>)
    ensures |Score(s)| == 5 + |s| && Score(s)[..5] == Head(s) && Score(s)[5..] == Tail(s)
  {
    SortSorts(NumberKey, Numbers(s));
  }

  lemma SameTail(a: seq<Issue>, b: seq<Issue>)
    requires Tail(a) == Tail(b)
    ensures multiset(Numbers(a)) == multiset(Numbers(b))
  {
    var x, y := Sort(NumberKey, Numbers(a)), Sort(NumberKey, Numbers(b));
    SortSorts(NumberKey, Numbers(a));
    SortSorts(NumberKey, Numbers(b));
    assert |x| == |Tail(a)| == |Tail(b)| == |y|;
    forall k | 0 <= k < |x| ensures x[k] == y[k] {
      assert Tail(a)[k] == -x[k] && Tail(b)[k] == -y[k];
    }
    assert x == y;
  }

  lemma SharedMember(a: seq<Issue>, b: seq<Issue>, candidates: seq<Issue>, i: Issue)
    requires DistinctNumbers(candidates)
    requires multiset(a) <= multiset(candidates) && multiset(b) <= multiset(candidates)
    requires multiset(Numbers(a)) == multiset(Numbers(b))
    requires i in a
    ensures i in b
  {
    var k :| 0 <= k < |a| && a[k] == i;
    assert Numbers(a)[k] in multiset(Numbers(a));
    assert i.number in Numbers(b);
    var l :| 0 <= l < |b| && Numbers(b)[l] == i.number;
    assert a[k] in multiset(a) && b[l] in multiset(b);
    assert i in candidates && b[l] in candidates;
  }

  lemma OnceEach(s: seq<Issue>, i: Issue)
    requires DistinctNumbers(s)
    ensures multiset(s)[i] <= 1
  {
    if s != [] {
      OnceEach(s[1..], i);
      assert s == [s[0]] + s[1..];
      assert s[0] !in s[1..];
    }
  }

  // ----- Dominance ---------------------------------------------------------------------------

  // Element by element, `g` comes no later in candidate order than `t`, and it is at least as long.
  ghost predicate Dominates(g: seq<Issue>, t: seq<Issue>) {
    |t| <= |g| && forall i :: 0 <= i < |t| ==> AtMost(CandidateKey(g[i]), CandidateKey(t[i]))
  }

  ghost predicate RankSorted(s: seq<Issue>) {
    forall i, j :: 0 <= i < j < |s| ==> Rank(s[i].priority) <= Rank(s[j].priority)
  }

  // `g` has more Issues than `t` of the first rank on which they differ.
  ghost predicate Ahead(g: seq<Issue>, t: seq<Issue>) {
    exists p: nat :: p < 4 && Total(OfRank(p), t) < Total(OfRank(p), g)
                     && forall q: nat :: q < p ==> Total(OfRank(q), g) == Total(OfRank(q), t)
  }

  ghost predicate Level(g: seq<Issue>, t: seq<Issue>) {
    && |t| <= |g|
    && (forall q: nat :: q < 4 ==> Total(OfRank(q), g) == Total(OfRank(q), t))
    && (forall i :: 0 <= i < |t| ==> g[i].priority == t[i].priority)
    && (forall i :: |t| <= i < |g| ==> g[i].priority.Unprioritised?)
  }

  lemma KeyOrder(a: Issue, b: Issue)
    ensures AtMost(CandidateKey(a), CandidateKey(b)) <==>
            || Rank(a.priority) < Rank(b.priority)
            || (a.priority == b.priority && (b.unlocks < a.unlocks || (a.unlocks == b.unlocks && a.number <= b.number)))
  {
    var x, y := CandidateKey(a), CandidateKey(b);
    assert x[1..][1..][1..] == [] && y[1..][1..][1..] == [];
    assert x == y <==> x[0] == y[0] && x[1] == y[1] && x[2] == y[2];
    assert Less(x[1..][1..], y[1..][1..]) <==> x[2] < y[2];
    assert Less(x[1..], y[1..]) <==> x[1] < y[1] || (x[1] == y[1] && x[2] < y[2]);
  }

  lemma SortedMeansRankSorted(s: seq<Issue>)
    requires Sorted(CandidateKey, s)
    ensures RankSorted(s)
  {
    forall i, j | 0 <= i < j < |s| ensures Rank(s[i].priority) <= Rank(s[j].priority) {
      KeyOrder(s[i], s[j]);
    }
  }

  lemma NoneBelow(s: seq<Issue>, q: nat)
    requires RankSorted(s) && (s == [] || q < Rank(s[0].priority))
    ensures Total(OfRank(q), s) == 0
  {
    TotalBounds(OfRank(q), s);
  }

  lemma {:induction false} CountsCompare(g: seq<Issue>, t: seq<Issue>)
    requires Dominates(g, t) && RankSorted(g) && RankSorted(t)
    ensures Ahead(g, t) || Level(g, t)
  {
    if g == [] {
    } else if t == [] {
      forall q: nat | q < Rank(g[0].priority) ensures Total(OfRank(q), g) == 0 {
        NoneBelow(g, q);
      }
      TotalBounds(OfRank(Rank(g[0].priority)), g[1..]);
    } else {
      KeyOrder(g[0], t[0]);
      var p := Rank(g[0].priority);
      if p < Rank(t[0].priority) {
        forall q: nat | q <= p ensures Total(OfRank(q), t) == 0 && (q < p ==> Total(OfRank(q), g) == 0) {
          NoneBelow(t, q);
          if q < p { NoneBelow(g, q); }
        }
        TotalBounds(OfRank(p), g[1..]);
      } else {
        CountsCompare(g[1..], t[1..]);
        LevelOrAheadOfCons(g, t);
      }
    }
  }

  lemma LevelOrAheadOfCons(g: seq<Issue>, t: seq<Issue>)
    requires g != [] && t != [] && g[0].priority == t[0].priority
    requires Ahead(g[1..], t[1..]) || Level(g[1..], t[1..])
    ensures Ahead(g, t) || Level(g, t)
  {
    if Ahead(g[1..], t[1..]) {
      var p: nat :| p < 4 && Total(OfRank(p), t[1..]) < Total(OfRank(p), g[1..])
                    && forall q: nat :: q < p ==> Total(OfRank(q), g[1..]) == Total(OfRank(q), t[1..]);
      assert Total(OfRank(p), t) < Total(OfRank(p), g);
    } else {
      assert g == [g[0]] + g[1..] && t == [t[0]] + t[1..];
    }
  }

  // With the ranks level, unlocks are no fewer; if they are equal in sum, so are the small numbers.
  lemma {:induction false} UnlocksCompare(g: seq<Issue>, t: seq<Issue>)
    requires Dominates(g, t) && Level(g, t) && Worthwhile(g)
    ensures Total(Unlocks, t) <= Total(Unlocks, g)
    ensures Total(Unlocks, t) == Total(Unlocks, g) ==> forall n :: Total(UpTo(n), t) <= Total(UpTo(n), g)
  {
    if t == [] {
      if g != [] {
        UnlocksCompare(g[1..], []);
        assert g[0] in g;
      }
    } else {
      KeyOrder(g[0], t[0]);
      LevelTails(g, t);
      UnlocksCompare(g[1..], t[1..]);
    }
  }

  lemma LevelTails(g: seq<Issue>, t: seq<Issue>)
    requires t != [] && Level(g, t)
    ensures Level(g[1..], t[1..])
  {
    forall q: nat | q < 4 ensures Total(OfRank(q), g[1..]) == Total(OfRank(q), t[1..]) {
      assert Total(OfRank(q), g) == Total(OfRank(q), t);
    }
  }

  // A dominating selection, added to the same Issues, scores at least as much.
  lemma DominanceRaisesScore(a: seq<Issue>, g: seq<Issue>, t: seq<Issue>)
    requires Dominates(g, t) && RankSorted(g) && RankSorted(t) && Worthwhile(g)
    ensures AtMost(Score(a + t), Score(a + g))
  {
    forall m: Measure ensures Total(m, a + t) == Total(m, a) + Total(m, t) {
      TotalConcat(m, a, t);
    }
    forall m: Measure ensures Total(m, a + g) == Total(m, a) + Total(m, g) {
      TotalConcat(m, a, g);
    }
    CountsCompare(g, t);
    if Level(g, t) {
      UnlocksCompare(g, t);
      ScoreCompare(a + g, a + t, 4);
    } else {
      var p: nat :| p < 4 && Total(OfRank(p), t) < Total(OfRank(p), g)
                    && forall q: nat :: q < p ==> Total(OfRank(q), g) == Total(OfRank(q), t);
      ScoreCompare(a + g, a + t, p);
    }
  }

  // How the first five components decide: by the first rank that differs, then unlocks, then numbers.
  lemma ScoreCompare(g: seq<Issue>, t: seq<Issue>, p: nat)
    requires p <= 4 && forall q: nat :: q < p ==> Total(OfRank(q), g) == Total(OfRank(q), t)
    requires if p < 4 then Total(OfRank(p), t) < Total(OfRank(p), g) else
             || Total(Unlocks, t) < Total(Unlocks, g)
             || (Total(Unlocks, t) == Total(Unlocks, g) && forall n :: Total(UpTo(n), t) <= Total(UpTo(n), g))
    ensures AtMost(Score(t), Score(g))
    ensures p < 4 || Total(Unlocks, t) < Total(Unlocks, g) ==> Less(Score(t), Score(g))
  {
    ScoreParts(g);
    ScoreParts(t);
    forall q: nat | q < p ensures Head(g)[q] == Head(t)[q] {
      assert Total(OfRank(q), g) == Total(OfRank(q), t);
    }
    if p < 4 || Total(Unlocks, t) < Total(Unlocks, g) {
      DecidedAt(Score(t), Score(g), p);
    } else {
      TailOrder(g, t);
      assert Head(g) == Head(t);
      CommonPrefix(Head(g), Tail(t), Tail(g));
    }
  }

  // ----- Admissibility of the bound --------------------------------------------------------

  lemma DominatesCons(s: seq<Issue>, t: seq<Issue>)
    requires s != [] && t != [] && s[0] == t[0] && Dominates(s[1..], t[1..])
    ensures Dominates(s, t)
  {
    forall i | 0 <= i < |t| ensures AtMost(CandidateKey(s[i]), CandidateKey(t[i])) {
      if i > 0 {
        assert s[i] == s[1..][i - 1] && t[i] == t[1..][i - 1];
      }
    }
  }

  lemma DominatesSkip(s: seq<Issue>, t: seq<Issue>)
    requires Sorted(CandidateKey, s) && s != [] && Dominates(s[1..], t)
    ensures Dominates(s, t)
  {
    forall i | 0 <= i < |t| ensures AtMost(CandidateKey(s[i]), CandidateKey(t[i])) {
      assert s[1..][i] == s[i + 1];
      AtMostIsTransitive(CandidateKey(s[i]), CandidateKey(s[i + 1]), CandidateKey(t[i]));
    }
  }

  // A sorted selection from a sorted list is dominated by the list itself.
  lemma {:induction false} SelectionIsDominated(t: seq<Issue>, s: seq<Issue>)
    requires Sorted(CandidateKey, t) && Sorted(CandidateKey, s) && DistinctNumbers(s)
    requires multiset(t) <= multiset(s)
    ensures Dominates(s, t)
  {
    if t != [] {
      assert t[0] in multiset(s);
      if t[0] == s[0] {
        MultisetTail(t);
        MultisetTail(s);
        SelectionIsDominated(t[1..], s[1..]);
        DominatesCons(s, t);
      } else {
        HeadIsAbsent(t, s);
        SelectionIsDominated(t, s[1..]);
        DominatesSkip(s, t);
      }
    }
  }

  lemma HeadIsAbsent(t: seq<Issue>, s: seq<Issue>)
    requires Sorted(CandidateKey, t) && Sorted(CandidateKey, s) && DistinctNumbers(s)
    requires t != [] && s != [] && multiset(t) <= multiset(s) && t[0] != s[0]
    ensures multiset(t) <= multiset(s[1..])
  {
    assert s == [s[0]] + s[1..];
    if s[0] in t {
      assert t[0] in multiset(s);
      assert t[0] in s[1..];
      KeyOrder(s[0], t[0]);
      KeyOrder(t[0], s[0]);
      assert false;
    }
    assert multiset(s[1..]) == multiset(s) - multiset{s[0]};
  }

  lemma AdditionsFit(remaining: seq<Issue>, slots: int)
    ensures Sorted(CandidateKey, Additions(remaining, slots))
    ensures multiset(Additions(remaining, slots)) <= multiset(remaining)
    ensures |Additions(remaining, slots)| == Clip(slots, |remaining|)
  {
    var s := Sort(CandidateKey, remaining);
    SortSorts(CandidateKey, remaining);
    assert s == s[..Clip(slots, |s|)] + s[Clip(slots, |s|)..];
  }

  lemma DistinctIsPermutationInvariant(a: seq<Issue>, b: seq<Issue>)
    requires DistinctNumbers(a) && multiset(b) <= multiset(a)
    ensures DistinctNumbers(b)
  {
    forall i, j | 0 <= i < j < |b| ensures b[i].number != b[j].number {
      assert b[i] in multiset(b) && b[j] in multiset(b);
      assert b[i] in a && b[j] in a;
      OnceEach(a, b[i]);
      if b[i] == b[j] {
        TwiceIn(b, i, j);
      }
    }
  }

  // The bound is admissible exactly when no unprioritised addition has negative unlocks.
  lemma AdmissibleExactly(selected: seq<Issue>, remaining: seq<Issue>, capacity: int)
    requires DistinctNumbers(remaining)
    ensures Admissible(selected, remaining, capacity) <==> Worthwhile(Additions(remaining, capacity - |selected|))
  {
    if Worthwhile(Additions(remaining, capacity - |selected|)) {
      forall t | Fits(t, selected, remaining, capacity)
        ensures AtMost(Score(selected + t), Bound(selected, remaining, capacity))
      {
        BoundHolds(selected, remaining, capacity, t);
      }
    } else {
      BoundFails(selected, remaining, capacity);
    }
  }

  lemma BoundFails(selected: seq<Issue>, remaining: seq<Issue>, capacity: int)
    requires !Worthwhile(Additions(remaining, capacity - |selected|))
    ensures !Admissible(selected, remaining, capacity)
  {
    var g := Additions(remaining, capacity - |selected|);
    AdditionsFit(remaining, capacity - |selected|);
    DroppingTheLastIsBetter(selected, g);
    var t := g[..|g| - 1];
    MultisetChop(g);
    assert Fits(t, selected, remaining, capacity);
    NotLess(Score(selected + g), Score(selected + t));
  }

  lemma BoundHolds(selected: seq<Issue>, remaining: seq<Issue>, capacity: int, t: seq<Issue>)
    requires DistinctNumbers(remaining) && Worthwhile(Additions(remaining, capacity - |selected|))
    requires Fits(t, selected, remaining, capacity)
    ensures AtMost(Score(selected + t), Bound(selected, remaining, capacity))
  {
    var slots := capacity - |selected|;
    var g, s, u := Additions(remaining, slots), Sort(CandidateKey, remaining), Sort(CandidateKey, t);
    SortSorts(CandidateKey, remaining);
    SortSorts(CandidateKey, t);
    DistinctIsPermutationInvariant(remaining, s);
    SelectionIsDominated(u, s);
    SortedMeansRankSorted(g);
    SortedMeansRankSorted(u);
    DominanceRaisesScore(selected, g, u);
    assert multiset(selected + t) == multiset(selected + u);
    ScoreOfPermutation(selected + t, selected + u);
  }

  lemma DroppingTheLastIsBetter(selected: seq<Issue>, g: seq<Issue>)
    requires Sorted(CandidateKey, g) && !Worthwhile(g)
    ensures g != [] && Less(Score(selected + g), Score(selected + g[..|g| - 1]))
  {
    var i :| i in g && i.priority.Unprioritised? && i.unlocks < 0;
    var k :| 0 <= k < |g| && g[k] == i;
    var last := g[|g| - 1];
    if k < |g| - 1 {
      KeyOrder(g[k], last);
    }
    var t := g[..|g| - 1];
    assert selected + g == (selected + t) + [last];
    forall m: Measure ensures Total(m, selected + g) == Total(m, selected + t) + Weight(m, last) {
      TotalConcat(m, selected + t, [last]);
    }
    ScoreCompare(selected + t, selected + g, 4);
  }
}
