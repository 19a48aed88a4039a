/** Branch and bound for the best set of pairwise compatible Issues under a capacity. */
module Search {
  import opened Tuples
  import opened Sorting
  import opened Lists
  import opened Issues
  import opened Scores
  import Claims

  const MAX_SEARCH_NODES := 5000

  // ----- Specification ------------------------------------------------------------------------

  ghost predicate Compatible(s: seq<Issue>) {
    forall x, y :: x in s && y in s && x != y ==> !Conflict(x, y)
  }

  ghost predicate Feasible(s: seq<Issue>, candidates: seq<Issue>, capacity: nat) {
    multiset(s) <= multiset(candidates) && |s| <= capacity && Compatible(s)
  }

  // The unique best: any other feasible set scores strictly less.
  ghost predicate Optimal(best: seq<Issue>, candidates: seq<Issue>, capacity: nat) {
    && Feasible(best, candidates, capacity)
    && forall t: seq<Issue> :: Feasible(t, candidates, capacity) ==>
         multiset(t) == multiset(best) || Less(Score(t), Score(best))
  }

  ghost predicate Completion(t: seq<Issue>, selected: seq<Issue>, rest: seq<Issue>, capacity: nat) {
    multiset(t) <= multiset(rest) && |selected| + |t| <= capacity && Compatible(selected + t)
  }

  // Every compatible completion of `selected` from `rest` scores at most `score`.
  ghost predicate Covered(selected: seq<Issue>, rest: seq<Issue>, capacity: nat, score: seq<int>) {
    forall t {:trigger Completion(t, selected, rest, capacity)} ::
      Completion(t, selected, rest, capacity) ==> AtMost(Score(selected + t), score)
  }

  predicate Clear(issue: Issue, selected: seq<Issue>) {
    forall other :: other in selected ==> !Conflict(issue, other)
  }

  // Scanning an order from the left, keep what is still compatible until the capacity is reached.
  function Greedy(selected: seq<Issue>, order: seq<Issue>, capacity: nat): seq<Issue>
    decreases |order|
  {
    if order == [] || |selected| >= capacity then selected
    else if Clear(order[0], selected) then Greedy(selected + [order[0]], order[1..], capacity)
    else Greedy(selected, order[1..], capacity)
  }

  function Degree(issue: Issue, others: seq<Issue>): nat {
    if others == [] then 0
    else (if others[0] != issue && Conflict(issue, others[0]) then 1 else 0) + Degree(issue, others[1..])
  }

  function Ordered(candidates: seq<Issue>): seq<Issue> {
    Sort(CandidateKey, candidates)
  }

  function LowConflictKey(ordered: seq<Issue>): Issue -> seq<int> {
    (i: Issue) => [Rank(i.priority), Degree(i, ordered)] + CandidateKey(i)
  }

  function LowConflictOrder(candidates: seq<Issue>): seq<Issue> {
    Sort(LowConflictKey(Ordered(candidates)), Ordered(candidates))
  }

  // The better of the two greedy seeds, the first one on a tie.
  function Seed(candidates: seq<Issue>, capacity: nat): seq<Issue> {
    var first, second := Greedy([], Ordered(candidates), capacity), Greedy([], LowConflictOrder(candidates), capacity);
    if Less(Score(first), Score(second)) then second else first
  }

  // ----- The second order -----------------------------------------------------------------------

  // The other Issues of a list that an Issue conflicts with.
  function ConflictsOf(issue: Issue, others: seq<Issue>): set<Issue> {
    set o | o in others && o != issue && Conflict(issue, o)
  }

  lemma {:induction false} DegreeCounts(issue: Issue, others: seq<Issue>)
    requires NoDuplicates(others)
    ensures Degree(issue, others) == |ConflictsOf(issue, others)|
  {
    if others != [] {
      var first, rest := others[0], others[1..];
      DegreeCounts(issue, rest);
      assert others == [first] + rest && first !in rest;
      if first != issue && Conflict(issue, first) {
        assert ConflictsOf(issue, others) == {first} + ConflictsOf(issue, rest);
      } else {
        assert ConflictsOf(issue, others) == ConflictsOf(issue, rest);
      }
    }
  }

  // Within a priority, what conflicts with fewer candidates comes first, and what conflicts with as many keeps its
  // order.
  lemma FewerConflictsFirst(candidates: seq<Issue>, i: nat, j: nat)
    requires DistinctNumbers(candidates) && i < j < |LowConflictOrder(candidates)|
    ensures multiset(LowConflictOrder(candidates)) == multiset(candidates)
    ensures var a, b := LowConflictOrder(candidates)[i], LowConflictOrder(candidates)[j];
            var m, n := |ConflictsOf(a, candidates)|, |ConflictsOf(b, candidates)|;
            Outranks(a.priority, b.priority)
            || (a.priority == b.priority && (m < n || (m == n && AtMost(CandidateKey(a), CandidateKey(b)))))
  {
    var ordered := Ordered(candidates);
    SortKeepsMembers(CandidateKey, candidates);
    SortKeepsMembers(LowConflictKey(ordered), ordered);
    DistinctIsPermutationInvariant(candidates, ordered);
    NumbersMeanNoDuplicates(ordered);
    var a, b := LowConflictOrder(candidates)[i], LowConflictOrder(candidates)[j];
    assert AtMost(LowConflictKey(ordered)(a), LowConflictKey(ordered)(b));
    DegreeCounts(a, ordered);
    DegreeCounts(b, ordered);
    assert ConflictsOf(a, ordered) == ConflictsOf(a, candidates);
    assert ConflictsOf(b, ordered) == ConflictsOf(b, candidates);
    TwoThenKey(Rank(a.priority), Degree(a, ordered), CandidateKey(a), Rank(b.priority), Degree(b, ordered),
      CandidateKey(b));
    RanksCompare(a.priority, b.priority);
  }

  lemma TwoThenKey(a: int, b: int, s: seq<int>, c: int, d: int, t: seq<int>)
    ensures AtMost([a, b] + s, [c, d] + t) <==> a < c || (a == c && (b < d || (b == d && AtMost(s, t))))
  {
    var x, y := [b] + s, [d] + t;
    assert [a, b] + s == [a] + x && [c, d] + t == [c] + y;
    if a != c {
      assert Less([a] + x, [c] + y) <==> a < c;
      assert ([a] + x)[0] != ([c] + y)[0];
    } else {
      CommonPrefix([a], x, y);
      if b != d {
        assert Less(x, y) <==> b < d;
        assert x[0] != y[0];
      } else {
        CommonPrefix([b], s, t);
      }
    }
  }

  // ----- Greedy -------------------------------------------------------------------------------

  lemma {:induction false} GreedyChooses(selected: seq<Issue>, order: seq<Issue>, capacity: nat)
    ensures selected <= Greedy(selected, order, capacity)
    ensures multiset(Greedy(selected, order, capacity)) <= multiset(selected) + multiset(order)
    decreases |order|
  {
    if order != [] && |selected| < capacity {
      MultisetTail(order);
      if Clear(order[0], selected) {
        GreedyChooses(selected + [order[0]], order[1..], capacity);
      } else {
        GreedyChooses(selected, order[1..], capacity);
      }
    }
  }

  // Greedy stays feasible and is maximal: it stops only when full or when everything left conflicts.
  lemma {:induction false} GreedyIsMaximal(selected: seq<Issue>, order: seq<Issue>, capacity: nat)
    requires Compatible(selected) && |selected| <= capacity
    ensures var g := Greedy(selected, order, capacity);
            |g| <= capacity && Compatible(g)
            && (|g| == capacity || forall x :: x in order ==> x in g || !Clear(x, g))
    decreases |order|
  {
    if order != [] && |selected| < capacity {
      var first, rest := order[0], order[1..];
      assert order == [first] + rest;
      if Clear(first, selected) {
        AddKeepsCompatible(selected, first);
        GreedyIsMaximal(selected + [first], rest, capacity);
        GreedyChooses(selected + [first], rest, capacity);
        assert first in selected + [first];
      } else {
        GreedyIsMaximal(selected, rest, capacity);
        GreedyChooses(selected, rest, capacity);
        var other :| other in selected && Conflict(first, other);
        assert other in Greedy(selected, rest, capacity);
      }
    }
  }

  lemma AddKeepsCompatible(selected: seq<Issue>, issue: Issue)
    requires Compatible(selected) && Clear(issue, selected)
    ensures Compatible(selected + [issue])
  {
    forall x, y | x in selected + [issue] && y in selected + [issue] && x != y ensures !Conflict(x, y) {
      Claims.ConflictIsSymmetric(x.claims, y.claims);
    }
  }

  lemma SeedIsFeasible(candidates: seq<Issue>, capacity: nat)
    ensures Feasible(Greedy([], Ordered(candidates), capacity), candidates, capacity)
    ensures Feasible(Greedy([], LowConflictOrder(candidates), capacity), candidates, capacity)
    ensures Feasible(Seed(candidates, capacity), candidates, capacity)
    ensures AtMost(Score(Greedy([], Ordered(candidates), capacity)), Score(Seed(candidates, capacity)))
    ensures AtMost(Score(Greedy([], LowConflictOrder(candidates), capacity)), Score(Seed(candidates, capacity)))
  {
    var ordered := Ordered(candidates);
    SortSorts(CandidateKey, candidates);
    SortSorts(LowConflictKey(ordered), ordered);
    GreedyIsMaximal([], ordered, capacity);
    GreedyChooses([], ordered, capacity);
    GreedyIsMaximal([], LowConflictOrder(candidates), capacity);
    GreedyChooses([], LowConflictOrder(candidates), capacity);
    NotLess(Score(Greedy([], ordered, capacity)), Score(Greedy([], LowConflictOrder(candidates), capacity)));
  }

  // ----- Covering a branch --------------------------------------------------------------------

  lemma CoveredByBound(selected: seq<Issue>, rest: seq<Issue>, capacity: nat, score: seq<int>)
    requires DistinctNumbers(rest) && Worthwhile(rest)
    requires AtMost(Bound(selected, rest, capacity), score)
    ensures Covered(selected, rest, capacity, score)
  {
    AdditionsFit(rest, capacity - |selected|);
    forall i | i in Additions(rest, capacity - |selected|) ensures i in rest {
      assert i in multiset(Additions(rest, capacity - |selected|));
    }
    forall t | Completion(t, selected, rest, capacity)
      ensures AtMost(Score(selected + t), score)
    {
      BoundHolds(selected, rest, capacity, t);
      AtMostIsTransitive(Score(selected + t), Bound(selected, rest, capacity), score);
    }
  }

  lemma CoveredAtLeaf(selected: seq<Issue>, rest: seq<Issue>, capacity: nat, score: seq<int>)
    requires |selected| >= capacity || rest == []
    requires AtMost(Score(selected), score)
    ensures Covered(selected, rest, capacity, score)
  {
    forall t | Completion(t, selected, rest, capacity) ensures AtMost(Score(selected + t), score) {
      assert |multiset(t)| == |t|;
      assert selected + t == selected;
    }
  }

  lemma CoveredBySplit(selected: seq<Issue>, rest: seq<Issue>, capacity: nat, score: seq<int>)
    requires rest != [] && rest[0] !in selected && Compatible(selected)
    requires Clear(rest[0], selected) ==> Covered(selected + [rest[0]], rest[1..], capacity, score)
    requires Covered(selected, rest[1..], capacity, score)
    ensures Covered(selected, rest, capacity, score)
  {
    var x := rest[0];
    MultisetTail(rest);
    forall t | Completion(t, selected, rest, capacity)
      ensures AtMost(Score(selected + t), score)
    {
      if x in t {
        forall other | other in selected ensures !Conflict(x, other) {
          assert x in selected + t && other in selected + t;
        }
        CoveredWith(selected, x, rest[1..], t, capacity, score);
      } else {
        assert Completion(t, selected, rest[1..], capacity);
      }
    }
  }

  lemma CoveredWith(selected: seq<Issue>, x: Issue, rest: seq<Issue>, t: seq<Issue>, capacity: nat, score: seq<int>)
    requires Covered(selected + [x], rest, capacity, score)
    requires x in t && multiset(t) - multiset{x} <= multiset(rest)
    requires |selected| + |t| <= capacity && Compatible(selected + t)
    ensures AtMost(Score(selected + t), score)
  {
    var k :| 0 <= k < |t| && t[k] == x;
    var u := t[..k] + t[k + 1..];
    MultisetWithout(t, k);
    var a, b := selected + t, selected + [x] + u;
    MultisetMove(selected, t, k);
    CompatiblePermutation(a, b);
    assert Completion(u, selected + [x], rest, capacity);
    ScoreOfPermutation(a, b);
  }

  lemma CompatiblePermutation(a: seq<Issue>, b: seq<Issue>)
    requires Compatible(a) && multiset(b) <= multiset(a)
    ensures Compatible(b)
  {
    forall y | y in b ensures y in a {
      assert y in multiset(b);
    }
  }

  lemma CoveredWeaken(selected: seq<Issue>, rest: seq<Issue>, capacity: nat, low: seq<int>, high: seq<int>)
    requires Covered(selected, rest, capacity, low) && AtMost(low, high)
    ensures Covered(selected, rest, capacity, high)
  {
    forall t | Completion(t, selected, rest, capacity)
      ensures AtMost(Score(selected + t), high)
    {
      AtMostIsTransitive(Score(selected + t), low, high);
    }
  }

  lemma CoveredByBoth(selected: seq<Issue>, rest: seq<Issue>, capacity: nat, low: seq<int>, score: seq<int>)
    requires rest != [] && rest[0] !in selected && Compatible(selected) && AtMost(low, score)
    requires Clear(rest[0], selected) ==> Covered(selected + [rest[0]], rest[1..], capacity, low)
    requires Covered(selected, rest[1..], capacity, score)
    ensures Covered(selected, rest, capacity, score)
  {
    if Clear(rest[0], selected) {
      CoveredWeaken(selected + [rest[0]], rest[1..], capacity, low, score);
    }
    CoveredBySplit(selected, rest, capacity, score);
  }

  // Covering the whole tree with the score of a feasible set makes that set the unique optimum.
  lemma CoveredRootIsOptimal(best: seq<Issue>, ordered: seq<Issue>, candidates: seq<Issue>, capacity: nat)
    requires multiset(ordered) == multiset(candidates) && DistinctNumbers(candidates)
    requires Feasible(best, candidates, capacity) && Covered([], ordered, capacity, Score(best))
    ensures Optimal(best, candidates, capacity)
  {
    forall t: seq<Issue> | Feasible(t, candidates, capacity)
      ensures multiset(t) == multiset(best) || Less(Score(t), Score(best))
    {
      assert [] + t == t;
      assert Completion(t, [], ordered, capacity);
      if Score(t) == Score(best) {
        ScoreIsInjective(t, best, candidates);
      }
    }
  }

  // ----- The search ---------------------------------------------------------------------------

  method PickGreedily(order: seq<Issue>, capacity: nat) returns (selected: seq<Issue>)
    ensures selected == Greedy([], order, capacity)
  {
    selected := [];
    for k := 0 to |order|
      invariant Greedy(selected, order[k..], capacity) == Greedy([], order, capacity)
    {
      if |selected| >= capacity {
        break;
      }
      assert order[k..][1..] == order[k + 1..];
      if Clear(order[k], selected) {
        selected := selected + [order[k]];
      }
    }
  }

  function OfPriority(s: seq<Issue>, rank: nat): seq<Issue> {
    if s == [] then [] else (if Rank(s[0].priority) == rank then [s[0]] else []) + OfPriority(s[1..], rank)
  }

  function BelowRank(s: seq<Issue>, rank: nat): seq<Issue> {
    if s == [] then [] else (if Rank(s[0].priority) < rank then [s[0]] else []) + BelowRank(s[1..], rank)
  }

  function GroupKey(i: Issue): seq<int> {
    [-i.unlocks, i.number]
  }

  // Fills the free slots priority group by priority group.
  method OptimisticScore(selected: seq<Issue>, remaining: seq<Issue>, capacity: int) returns (score: seq<int>)
    requires DistinctNumbers(remaining)
    ensures score == Bound(selected, remaining, capacity)
  {
    var slots := capacity - |selected|;
    ghost var free := slots;
    var additions: seq<Issue> := [];
    var rank := 0;
    NothingBelow(remaining, free);
    while rank < 5 && slots > 0
      invariant 0 <= rank <= 5
      invariant slots == free - |additions|
      invariant additions == Additions(BelowRank(remaining, rank), free)
      invariant slots <= 0 || rank == 5 ==> additions == Additions(remaining, free)
    {
      var group := Sort(GroupKey, OfPriority(remaining, rank));
      var chosen := group[..Clip(slots, |group|)];
      AdditionsByGroup(remaining, rank, free);
      additions := additions + chosen;
      slots := slots - |chosen|;
      rank := rank + 1;
    }
    score := Score(selected + additions);
  }

  // ----- Groups and the candidate order ----------------------------------------------------

  lemma {:induction false} RanksBelow(s: seq<Issue>)
    ensures BelowRank(s, 0) == [] && BelowRank(s, 5) == s
  {
    if s != [] {
      RanksBelow(s[1..]);
      assert s == [s[0]] + s[1..];
    }
  }

  lemma {:induction false} NextRank(s: seq<Issue>, rank: nat)
    ensures multiset(BelowRank(s, rank + 1)) == multiset(BelowRank(s, rank)) + multiset(OfPriority(s, rank))
  {
    if s != [] {
      NextRank(s[1..], rank);
    }
  }

  lemma {:induction false} RankMembers(s: seq<Issue>, rank: nat)
    ensures forall i :: i in BelowRank(s, rank) ==> i in s && Rank(i.priority) < rank
    ensures forall i :: i in OfPriority(s, rank) ==> i in s && Rank(i.priority) == rank
  {
    if s != [] {
      RankMembers(s[1..], rank);
    }
  }

  lemma NothingBelow(s: seq<Issue>, n: int)
    ensures Additions(BelowRank(s, 0), n) == [] && (n <= 0 ==> Additions(s, n) == [])
  {
    RanksBelow(s);
  }

  lemma GroupOrder(a: Issue, b: Issue)
    requires a.priority == b.priority && AtMost(GroupKey(a), GroupKey(b))
    ensures AtMost(CandidateKey(a), CandidateKey(b))
  {
    assert CandidateKey(a) == [Rank(a.priority)] + GroupKey(a) && CandidateKey(b) == [Rank(b.priority)] + GroupKey(b);
    CommonPrefix([Rank(a.priority)], GroupKey(a), GroupKey(b));
  }

  lemma KeysAreInjective(s: seq<Issue>, t: seq<Issue>)
    requires DistinctNumbers(s) && forall i :: i in t ==> i in s
    ensures Injective(CandidateKey, t)
  {
    forall x, y | x in t && y in t && CandidateKey(x) == CandidateKey(y) ensures x == y {
      assert x in s && y in s && CandidateKey(x)[2] == CandidateKey(y)[2];
    }
  }

  lemma SortedGroups(low: seq<Issue>, group: seq<Issue>, rank: nat)
    requires Sorted(CandidateKey, low) && Sorted(GroupKey, group)
    requires forall i :: i in low ==> Rank(i.priority) < rank
    requires forall i :: i in group ==> Rank(i.priority) == rank
    ensures Sorted(CandidateKey, low + group)
  {
    var both := low + group;
    forall i, j | 0 <= i < j < |both| ensures AtMost(CandidateKey(both[i]), CandidateKey(both[j])) {
      if i < |low| {
        KeyOrder(both[i], both[j]);
      } else {
        GroupOrder(both[i], both[j]);
      }
    }
  }

  // Sorting group by group, in order of priority, is sorting in candidate order.
  lemma GroupsConcatenate(s: seq<Issue>, rank: nat)
    requires DistinctNumbers(s)
    ensures Sort(CandidateKey, BelowRank(s, rank + 1))
         == Sort(CandidateKey, BelowRank(s, rank)) + Sort(GroupKey, OfPriority(s, rank))
  {
    var all, low, group := BelowRank(s, rank + 1), BelowRank(s, rank), OfPriority(s, rank);
    SortKeepsMembers(CandidateKey, low);
    SortKeepsMembers(GroupKey, group);
    SortKeepsMembers(CandidateKey, all);
    NextRank(s, rank);
    RankMembers(s, rank);
    RankMembers(s, rank + 1);
    KeysAreInjective(s, Sort(CandidateKey, all));
    SortedGroups(Sort(CandidateKey, low), Sort(GroupKey, group), rank);
    SortedIsUnique(CandidateKey, Sort(CandidateKey, all), Sort(CandidateKey, low) + Sort(GroupKey, group));
  }

  lemma {:induction false} BelowIsPrefix(s: seq<Issue>, rank: nat)
    requires DistinctNumbers(s) && rank <= 5
    ensures Sort(CandidateKey, BelowRank(s, rank)) <= Sort(CandidateKey, s)
    decreases 5 - rank
  {
    RanksBelow(s);
    if rank < 5 {
      GroupsConcatenate(s, rank);
      BelowIsPrefix(s, rank + 1);
    }
  }

  lemma AdditionsByGroup(s: seq<Issue>, rank: nat, n: int)
    requires DistinctNumbers(s) && rank < 5
    requires n > |Additions(BelowRank(s, rank), n)|
    ensures var low, group := Additions(BelowRank(s, rank), n), Sort(GroupKey, OfPriority(s, rank));
            var next := low + group[..Clip(n - |low|, |group|)];
            && next == Additions(BelowRank(s, rank + 1), n)
            && (|next| == n || rank == 4 ==> next == Additions(s, n))
  {
    var below := BelowRank(s, rank);
    var above := BelowRank(s, rank + 1);
    var low, group := Sort(CandidateKey, below), Sort(GroupKey, OfPriority(s, rank));
    var next, whole := Sort(CandidateKey, above), Sort(CandidateKey, s);
    assert next == low + group by { GroupsConcatenate(s, rank); }
    assert next <= whole by { BelowIsPrefix(s, rank + 1); }
    assert rank == 4 ==> next == whole by { RanksBelow(s); }
    assert Additions(below, n) == low;
  }

  // ----- The size of the search tree ------------------------------------------------------------

  // The nodes of a whole tree over `issues` undecided Issues and `slots` free slots.
  function Nodes(issues: nat, slots: nat): nat {
    if issues == 0 || slots == 0 then 1 else 1 + Nodes(issues - 1, slots - 1) + Nodes(issues - 1, slots)
  }

  // At least two free slots, and only Issues of the highest priority that all conflict with each other.
  ghost predicate Rivals(issues: seq<Issue>, capacity: nat) {
    capacity >= 2 && forall x, y :: x in issues && y in issues ==> x.priority == P0 && (x != y ==> Conflict(x, y))
  }

  // Among rivals the tree is a chain below each Issue that is taken, since nothing rules it out earlier.
  function RivalNodes(issues: nat, taken: nat): nat {
    if taken > 0 then issues + 1 else if issues <= 1 then 1 else 1 + issues + RivalNodes(issues - 1, 0)
  }

  function MostNodes(rivals: bool, issues: nat, taken: nat, capacity: nat): nat
    requires taken <= capacity
  {
    if !rivals then Nodes(issues, capacity - taken)
    else RivalNodes(issues, taken) + (if taken == 0 && issues > 0 then 2 else 0)
  }

  function LeastNodes(rivals: bool, issues: nat, taken: nat): nat {
    if rivals then RivalNodes(issues, taken) else 0
  }

  lemma {:induction false} NodesOfRivals(issues: nat, capacity: nat)
    ensures capacity >= 2 ==> MostNodes(true, issues, 0, capacity) <= Nodes(issues, capacity)
    ensures issues > 0 ==> 2 * RivalNodes(issues, 0) == issues * issues + 3 * issues - 2
    ensures issues >= 99 ==> RivalNodes(issues, 0) >= 5048
    ensures issues <= 98 ==> RivalNodes(issues, 0) <= 4948
  {
    if issues > 1 {
      NodesOfRivals(issues - 1, capacity);
      if capacity >= 2 {
        NodesBound(issues - 1, capacity - 1);
      }
    }
  }

  // Nothing below a rival is ruled out, and the bound is met only when one rival is left.
  lemma RivalsAreFollowed(best: seq<Issue>, selected: seq<Issue>, rest: seq<Issue>, ordered: seq<Issue>, capacity: nat)
    requires Feasible(best, ordered, capacity) && Partial(selected, rest, ordered, capacity)
    requires Rivals(ordered, capacity)
    requires DistinctNumbers(ordered)
    ensures |selected| <= 1
    ensures AtMost(Bound(selected, rest, capacity), Score(best)) ==> |selected| + |rest| <= 1
  {
    OneRival(best, ordered, capacity);
    OneRival(selected, ordered, capacity);
    var additions := Additions(rest, capacity - |selected|);
    AdditionsFit(rest, capacity - |selected|);
    assert multiset(selected + additions) <= multiset(ordered);
    RivalsScore(selected + additions, ordered, capacity);
    RivalsScore(best, ordered, capacity);
    assert AtMost(Bound(selected, rest, capacity), Score(best)) ==> |selected + additions| <= |best|;
  }

  lemma FollowedOrOnlyOne(best: seq<Issue>, selected: seq<Issue>, rest: seq<Issue>, ordered: seq<Issue>, capacity: nat)
    requires Feasible(best, ordered, capacity) && Partial(selected, rest, ordered, capacity)
    requires DistinctNumbers(ordered)
    ensures |selected| >= capacity || AtMost(Bound(selected, rest, capacity), Score(best)) ==>
              LeastNodes(Rivals(ordered, capacity), |rest|, |selected|) <= 1
  {
    if Rivals(ordered, capacity) {
      RivalsAreFollowed(best, selected, rest, ordered, capacity);
    }
  }

  lemma OneRival(s: seq<Issue>, ordered: seq<Issue>, capacity: nat)
    requires Rivals(ordered, capacity) && DistinctNumbers(ordered)
    requires multiset(s) <= multiset(ordered) && Compatible(s)
    ensures |s| <= 1
  {
    if |s| > 1 {
      RivalsConflict(s, ordered, capacity);
      assert false;
    }
  }

  lemma RivalsConflict(s: seq<Issue>, ordered: seq<Issue>, capacity: nat)
    requires Rivals(ordered, capacity) && DistinctNumbers(ordered) && multiset(s) <= multiset(ordered) && |s| > 1
    ensures s[0] != s[1] && Conflict(s[0], s[1])
  {
    forall x | x in s ensures x in ordered {
      assert x in multiset(s) && multiset(s)[x] <= multiset(ordered)[x];
    }
    OnceEach(ordered, s[0]);
    if s[0] == s[1] {
      TwiceIn(s, 0, 1);
    }
  }

  lemma RivalsScore(s: seq<Issue>, ordered: seq<Issue>, capacity: nat)
    requires Rivals(ordered, capacity) && multiset(s) <= multiset(ordered)
    ensures Score(s)[0] == |s|
  {
    forall i | i in s ensures i.priority == P0 {
      assert i in multiset(s) && multiset(s)[i] <= multiset(ordered)[i];
      assert i in ordered;
    }
    AllOfRank(s);
  }

  lemma {:induction false} AllOfRank(s: seq<Issue>)
    requires forall i :: i in s ==> i.priority == P0
    ensures Total(OfRank(0), s) == |s|
  {
    if s != [] {
      AllOfRank(s[1..]);
    }
  }

  lemma BranchNodes(ordered: seq<Issue>, selected: seq<Issue>, rest: seq<Issue>, capacity: nat)
    requires rest != [] && |selected| < capacity && Partial(selected, rest, ordered, capacity) && rest[0] !in selected
    ensures var rivals, n, taken := Rivals(ordered, capacity), |rest|, |selected|;
            var most, least := MostNodes(rivals, n, taken, capacity), LeastNodes(rivals, n, taken);
            var withoutMost := MostNodes(rivals, n - 1, taken, capacity);
            var withoutLeast := LeastNodes(rivals, n - 1, taken);
            if Clear(rest[0], selected) then
              && 1 + MostNodes(rivals, n - 1, taken + 1, capacity) + withoutMost <= most
              && least <= 1 + LeastNodes(rivals, n - 1, taken + 1) + withoutLeast
            else 1 + withoutMost <= most && least <= 1 + withoutLeast
  {
    if Rivals(ordered, capacity) && selected != [] {
      assert selected[0] in multiset(selected) && rest[0] in multiset(rest);
      assert selected[0] in ordered by {
        assert multiset(selected)[selected[0]] <= multiset(ordered)[selected[0]];
      }
      assert rest[0] in ordered by {
        assert multiset(rest)[rest[0]] <= multiset(ordered)[rest[0]];
      }
      assert Conflict(rest[0], selected[0]);
    }
  }

  function Power2(n: nat): nat {
    if n == 0 then 1 else 2 * Power2(n - 1)
  }

  lemma {:induction false} NodesBound(issues: nat, slots: nat)
    ensures Nodes(issues, slots) < Power2(issues + 1)
    ensures slots > 0 ==> Nodes(issues, slots) >= 2 * issues + 1
    ensures slots == 1 ==> Nodes(issues, slots) == 2 * issues + 1
  {
    PowerGrows(1, issues + 1);
    if issues > 0 && slots > 0 {
      NodesBound(issues - 1, slots - 1);
      NodesBound(issues - 1, slots);
    }
  }

  // Trees that stay within a budget of 5,000 nodes.
  lemma {:induction false} SmallTrees(issues: nat, slots: nat)
    ensures issues <= 11 ==> Nodes(issues, slots) <= 4095
    ensures slots <= 1 && issues <= 2499 ==> Nodes(issues, slots) <= 4999
  {
    NodesBound(issues, slots);
    if issues <= 11 {
      PowerGrows(issues + 1, 12);
      assert Power2(12) == 4096 by {
        assert Power2(4) == 16;
        assert Power2(8) == 256;
      }
    }
  }

  lemma {:induction false} PowerGrows(a: nat, b: nat)
    requires a <= b
    ensures 1 <= Power2(a) <= Power2(b)
    decreases b
  {
    if a > 0 {
      PowerGrows(a - 1, b - 1);
    } else if b > 0 {
      PowerGrows(0, b - 1);
    }
  }

  // ----- Branch and bound ---------------------------------------------------------------------

  class Explorer {
    const ordered: seq<Issue>
    const capacity: nat
    const optimalScore: seq<int>
    var best: seq<Issue>
    var bestScore: seq<int>
    var visitedNodes: nat
    var searchExhausted: bool
    var optimumReached: bool
    var selected: seq<Issue>

    ghost predicate Valid()
      reads this`best, this`bestScore, this`visitedNodes, this`searchExhausted, this`optimumReached
    {
      && DistinctNumbers(ordered)
      && optimalScore == Bound([], ordered, capacity)
      && Feasible(best, ordered, capacity)
      && bestScore == Score(best)
      && (optimumReached <==> bestScore == optimalScore) && !(searchExhausted && optimumReached)
      && (searchExhausted <==> visitedNodes > MAX_SEARCH_NODES)
      && visitedNodes <= MAX_SEARCH_NODES + 1
    }

    constructor (ordered: seq<Issue>, capacity: nat, seed: seq<Issue>)
      requires DistinctNumbers(ordered) && Feasible(seed, ordered, capacity)
      ensures Valid() && best == seed && selected == [] && !searchExhausted && visitedNodes == 0
      ensures this.ordered == ordered && this.capacity == capacity
      ensures optimumReached <==> Score(seed) == Bound([], ordered, capacity)
    {
      this.ordered := ordered;
      this.capacity := capacity;
      best := seed;
      bestScore := Score(seed);
      visitedNodes := 0;
      searchExhausted := false;
      selected := [];
      var optimal := OptimisticScore([], ordered, capacity);
      optimalScore := optimal;
      optimumReached := Score(seed) == optimal;
    }

    // The most and the least nodes of a tree whose root decides the Issue at `index` with so many taken already.
    ghost function Most(index: nat, taken: nat): (n: nat)
      requires index <= |ordered| && taken <= capacity
      ensures n > 0
    {
      MostNodes(Rivals(ordered, capacity), |ordered| - index, taken, capacity)
    }

    ghost function Least(index: nat, taken: nat): nat
      requires index <= |ordered|
    {
      LeastNodes(Rivals(ordered, capacity), |ordered| - index, taken)
    }

    lemma NodesOfBranch(index: nat, taking: bool)
      requires index < |ordered| && Partial(selected, ordered[index..], ordered, capacity)
      requires ordered[index] !in selected && |selected| < capacity
      requires taking <==> Clear(ordered[index], selected)
      ensures var t := |selected|;
              if taking then
                && 1 + Most(index + 1, t + 1) + Most(index + 1, t) <= Most(index, t)
                && Least(index, t) <= 1 + Least(index + 1, t + 1) + Least(index + 1, t)
              else 1 + Most(index + 1, t) <= Most(index, t) && Least(index, t) <= 1 + Least(index + 1, t)
    {
      BranchNodes(ordered, selected, ordered[index..], capacity);
    }

    // Keeps the current selection when it scores more than the best so far.
    method Record()
      requires Valid() && Feasible(selected, ordered, capacity) && !optimumReached && !searchExhausted
      modifies this`best, this`bestScore, this`optimumReached
      ensures Valid()
      ensures bestScore == Max(old(bestScore), Score(selected))
    {
      var score := Score(selected);
      if Less(bestScore, score) {
        best, bestScore := selected, score;
        if bestScore == optimalScore {
          optimumReached := true;
        }
      }
    }

    // Explores every completion of `selected` from position `index` on.
    method Visit(index: nat)
      requires Valid() && index <= |ordered| && Partial(selected, ordered[index..], ordered, capacity)
      modifies this
      ensures Valid() && selected == old(selected)
      ensures AtMost(old(bestScore), bestScore)
      ensures old(searchExhausted) ==> searchExhausted
      ensures old(optimumReached) ==> optimumReached && best == old(best) && searchExhausted == old(searchExhausted)
      ensures Worthwhile(ordered) ==>
                searchExhausted || optimumReached || Covered(selected, ordered[index..], capacity, bestScore)
      ensures old(visitedNodes) <= visitedNodes
      ensures visitedNodes <= old(visitedNodes) + Most(index, |selected|)
      ensures searchExhausted || optimumReached || old(visitedNodes) + Least(index, |selected|) <= visitedNodes
      decreases |ordered| - index, 3
    {
      if searchExhausted || optimumReached {
        return;
      }
      visitedNodes := visitedNodes + 1;
      if visitedNodes > MAX_SEARCH_NODES {
        searchExhausted := true;
        return;
      }
      assert Feasible(selected, ordered, capacity);
      NotLess(bestScore, Score(selected));
      Record();
      if optimumReached {
        return;
      }
      ghost var reached := bestScore;
      Expand(index);
      AtMostIsTransitive(old(bestScore), reached, bestScore);
    }

    // A node whose own selection is recorded: a leaf, a branch that the bound rules out, or a branch to follow.
    method Expand(index: nat)
      requires Valid() && index <= |ordered| && Partial(selected, ordered[index..], ordered, capacity)
      requires !searchExhausted && !optimumReached && AtMost(Score(selected), bestScore)
      modifies this
      ensures Valid() && selected == old(selected)
      ensures AtMost(old(bestScore), bestScore)
      ensures Worthwhile(ordered) ==>
                searchExhausted || optimumReached || Covered(selected, ordered[index..], capacity, bestScore)
      ensures old(visitedNodes) <= visitedNodes
      ensures visitedNodes < old(visitedNodes) + Most(index, |selected|)
      ensures searchExhausted || optimumReached || old(visitedNodes) + Least(index, |selected|) <= visitedNodes + 1
      decreases |ordered| - index, 2
    {
      FollowedOrOnlyOne(best, selected, ordered[index..], ordered, capacity);
      if |selected| >= capacity || index >= |ordered| {
        CoveredAtLeaf(selected, ordered[index..], capacity, bestScore);
        return;
      }
      assert DistinctNumbers(ordered[index..]);
      var bound := OptimisticScore(selected, ordered[index..], capacity);
      if AtMost(bound, bestScore) {
        if Worthwhile(ordered) {
          CoveredByBound(selected, ordered[index..], capacity, bestScore);
        }
        return;
      }
      Branch(index);
    }

    // With the Issue at `index` when it is compatible, then without it.
    method Branch(index: nat)
      requires Valid() && index < |ordered| && Partial(selected, ordered[index..], ordered, capacity)
      requires |selected| < capacity && !searchExhausted && !optimumReached
      modifies this
      ensures Valid() && selected == old(selected)
      ensures AtMost(old(bestScore), bestScore)
      ensures Worthwhile(ordered) ==>
                searchExhausted || optimumReached || Covered(selected, ordered[index..], capacity, bestScore)
      ensures old(visitedNodes) <= visitedNodes
      ensures visitedNodes < old(visitedNodes) + Most(index, |selected|)
      ensures searchExhausted || optimumReached || old(visitedNodes) + Least(index, |selected|) <= visitedNodes + 1
      decreases |ordered| - index, 1
    {
      ghost var rest, low := ordered[index..], bestScore;
      var issue := ordered[index];
      assert rest[1..] == ordered[index + 1..];
      PartialStep(selected, rest, ordered, capacity);
      var taking := Clear(issue, selected);
      NodesOfBranch(index, taking);
      if taking {
        Take(index, selected + [issue]);
        low := bestScore;
      }
      Visit(index + 1);
      AtMostIsTransitive(old(bestScore), low, bestScore);
      if Worthwhile(ordered) && !searchExhausted && !optimumReached {
        CoveredByBoth(selected, rest, capacity, low, bestScore);
      }
    }

    // Everything with the Issue at `index`.
    method Take(index: nat, ghost taken: seq<Issue>)
      requires Valid() && index < |ordered| && |selected| < capacity
      requires Partial(taken, ordered[index + 1..], ordered, capacity) && taken == selected + [ordered[index]]
      modifies this
      ensures Valid() && selected == old(selected)
      ensures AtMost(old(bestScore), bestScore)
      ensures Worthwhile(ordered) ==>
                || searchExhausted || optimumReached
                || Covered(taken, ordered[index + 1..], capacity, bestScore)
      ensures old(visitedNodes) <= visitedNodes
      ensures visitedNodes <= old(visitedNodes) + Most(index + 1, |taken|)
      ensures searchExhausted || optimumReached || old(visitedNodes) + Least(index + 1, |taken|) <= visitedNodes
      decreases |ordered| - index, 0
    {
      ghost var before := selected;
      selected := selected + [ordered[index]];
      Visit(index + 1);
      assert selected == taken;
      selected := selected[..|selected| - 1];
      assert selected == before;
    }
  }

  // A stack of the search: compatible, within capacity, and disjoint from what is left to decide.
  ghost predicate Partial(selected: seq<Issue>, rest: seq<Issue>, ordered: seq<Issue>, capacity: nat) {
    Compatible(selected) && |selected| <= capacity && multiset(selected) + multiset(rest) <= multiset(ordered)
  }

  lemma PartialStep(selected: seq<Issue>, rest: seq<Issue>, ordered: seq<Issue>, capacity: nat)
    requires Partial(selected, rest, ordered, capacity) && rest != [] && DistinctNumbers(ordered)
    ensures rest[0] !in selected && Partial(selected, rest[1..], ordered, capacity)
    ensures |selected| < capacity && Clear(rest[0], selected) ==>
              Partial(selected + [rest[0]], rest[1..], ordered, capacity)
  {
    MultisetTail(rest);
    IssueIsNew(selected, rest, ordered);
    if Clear(rest[0], selected) {
      AddKeepsCompatible(selected, rest[0]);
    }
  }

  lemma IssueIsNew(selected: seq<Issue>, rest: seq<Issue>, ordered: seq<Issue>)
    requires rest != [] && DistinctNumbers(ordered)
    requires multiset(selected) + multiset(rest) <= multiset(ordered)
    ensures rest[0] !in selected
  {
    OnceEach(ordered, rest[0]);
    assert rest[0] in multiset(rest);
    assert multiset(selected)[rest[0]] == 0;
  }

  // The whole search from the root. It gives up when it has met more than 5,000 of the nodes that the tree has.
  method SearchFrom(ordered: seq<Issue>, capacity: nat, seed: seq<Issue>)
    returns (best: seq<Issue>, exhausted: bool, ghost visited: nat)
    requires DistinctNumbers(ordered) && Sorted(CandidateKey, ordered) && Feasible(seed, ordered, capacity)
    ensures Feasible(best, ordered, capacity) && AtMost(Score(seed), Score(best))
    ensures Worthwhile(ordered) && !exhausted ==> Optimal(best, ordered, capacity)
    ensures Score(seed) == Bound([], ordered, capacity) ==> best == seed
    ensures Score(best) == Bound([], ordered, capacity) ==> !exhausted
    ensures visited <= Nodes(|ordered|, capacity) && (exhausted <==> visited > 5000)
    ensures Rivals(ordered, capacity) ==> (exhausted <==> |ordered| >= 99)
  {
    var explorer := new Explorer(ordered, capacity, seed);
    assert ordered[0..] == ordered;
    explorer.Visit(0);
    FollowedOrOnlyOne(explorer.best, [], ordered, ordered, capacity);
    NodesOfRivals(|ordered|, capacity);
    best, exhausted, visited := explorer.best, explorer.searchExhausted, explorer.visitedNodes;
    if Worthwhile(ordered) && !exhausted {
      if explorer.optimumReached {
        CoveredByBound([], ordered, capacity, explorer.bestScore);
      }
      CoveredRootIsOptimal(best, ordered, ordered, capacity);
    }
  }

  // The result is feasible, at least as good as both greedy seeds, and the unique optimum unless the budget ran out.
  method BestCompatibleSubset(candidates: seq<Issue>, capacity: nat)
    returns (result: seq<Issue>, exhausted: bool, ghost visited: nat)
    requires DistinctNumbers(candidates)
    ensures Feasible(result, candidates, capacity) && Sorted(CandidateKey, result)
    ensures AtMost(Score(Seed(candidates, capacity)), Score(result))
    ensures Worthwhile(candidates) && !exhausted ==> Optimal(result, candidates, capacity)
    ensures Score(Seed(candidates, capacity)) == Bound([], candidates, capacity) ==>
              !exhausted && multiset(result) == multiset(Seed(candidates, capacity))
    ensures Score(result) == Bound([], candidates, capacity) ==> !exhausted
    ensures visited <= Nodes(|candidates|, capacity) && (exhausted <==> visited > 5000)
    ensures |candidates| <= 11 || (capacity <= 1 && |candidates| <= 2499) ==> !exhausted
    ensures Rivals(candidates, capacity) ==> (exhausted <==> |candidates| >= 99)
  {
    var ordered := Sort(CandidateKey, candidates);
    var lowConflictOrder := LowConflictOrder(candidates);
    SortSorts(CandidateKey, candidates);
    SortKeepsMembers(CandidateKey, candidates);
    SortOfSorted(CandidateKey, ordered);
    DistinctIsPermutationInvariant(candidates, ordered);
    var first := PickGreedily(ordered, capacity);
    var second := PickGreedily(lowConflictOrder, capacity);
    SeedIsFeasible(candidates, capacity);
    var seed := if Less(Score(first), Score(second)) then second else first;
    var best;
    best, exhausted, visited := SearchFrom(ordered, capacity, seed);
    SmallTrees(|candidates|, capacity);
    RivalsInAnyOrder(candidates, ordered, capacity);
    result := Sort(CandidateKey, best);
    SortSorts(CandidateKey, best);
    SameAsBest(result, best, ordered, candidates, capacity);
  }

  lemma RivalsInAnyOrder(candidates: seq<Issue>, ordered: seq<Issue>, capacity: nat)
    requires multiset(candidates) == multiset(ordered)
    ensures Rivals(candidates, capacity) ==> Rivals(ordered, capacity)
  {
    forall x | x in ordered ensures x in candidates {
      assert x in multiset(ordered);
    }
  }

  // Neither the order of the result nor that of the candidates matters.
  lemma SameAsBest(result: seq<Issue>, best: seq<Issue>, ordered: seq<Issue>, candidates: seq<Issue>, capacity: nat)
    requires multiset(result) == multiset(best) && multiset(ordered) == multiset(candidates)
    requires Feasible(best, ordered, capacity)
    ensures Feasible(result, candidates, capacity) && Score(result) == Score(best)
    ensures Worthwhile(candidates) ==> Worthwhile(ordered)
    ensures Optimal(best, ordered, capacity) ==> Optimal(result, candidates, capacity)
  {
    ScoreOfPermutation(result, best);
    CompatiblePermutation(best, result);
    assert |multiset(result)| == |multiset(best)|;
    if Worthwhile(candidates) {
      SameMembers(candidates, ordered);
    }
    if Optimal(best, ordered, capacity) {
      forall t: seq<Issue> | Feasible(t, candidates, capacity)
        ensures multiset(t) == multiset(result) || Less(Score(t), Score(result))
      {
        assert Feasible(t, ordered, capacity);
      }
    }
  }

  lemma SameMembers(a: seq<Issue>, b: seq<Issue>)
    requires multiset(a) == multiset(b) && Worthwhile(a)
    ensures Worthwhile(b)
  {
    forall i | i in b ensures i in a {
      assert i in multiset(b);
    }
  }

  // When a greedy seed already meets the bound, the search stops at once with that seed. It is the unique optimum
  // exactly when no unprioritised addition has negative unlocks.
  lemma ShortcutIsOptimalExactly(candidates: seq<Issue>, capacity: nat)
    requires DistinctNumbers(candidates)
    requires Score(Seed(candidates, capacity)) == Bound([], candidates, capacity)
    ensures Optimal(Seed(candidates, capacity), candidates, capacity) <==> Worthwhile(Additions(candidates, capacity))
  {
    var seed, g := Seed(candidates, capacity), Additions(candidates, capacity);
    SeedIsFeasible(candidates, capacity);
    AdditionsFit(candidates, capacity);
    assert [] + g == g;
    ScoreIsInjective(seed, g, candidates);
    if Worthwhile(g) {
      forall t: seq<Issue> | Feasible(t, candidates, capacity)
        ensures multiset(t) == multiset(seed) || Less(Score(t), Score(seed))
      {
        BoundHolds([], candidates, capacity, t);
        assert [] + t == t;
        if Score(t) == Score(seed) {
          ScoreIsInjective(t, seed, candidates);
        }
      }
    } else {
      BetterThanSeed(seed, g, candidates, capacity);
    }
  }

  lemma BetterThanSeed(seed: seq<Issue>, g: seq<Issue>, candidates: seq<Issue>, capacity: nat)
    requires Feasible(seed, candidates, capacity) && multiset(seed) == multiset(g)
    requires Sorted(CandidateKey, g) && !Worthwhile(g)
    ensures !Optimal(seed, candidates, capacity)
  {
    DroppingTheLastIsBetter([], g);
    var t := g[..|g| - 1];
    assert [] + g == g && [] + t == t;
    MultisetChop(g);
    assert |multiset(t)| <= |multiset(seed)|;
    CompatiblePermutation(seed, t);
    ScoreOfPermutation(seed, g);
    LessIsStrict(Score(g), Score(t));
    assert Feasible(t, candidates, capacity);
  }

  // A single unprioritised Issue with negative unlocks: the search answers with it, but selecting nothing scores more.
  lemma NegativeUnlocksMislead(issue: Issue)
    requires issue.priority.Unprioritised? && issue.unlocks < 0
    ensures Score(Seed([issue], 1)) == Bound([], [issue], 1)
    ensures !Optimal(Seed([issue], 1), [issue], 1) && Feasible([], [issue], 1) && Less(Score([issue]), Score([]))
  {
    SortOfSorted(CandidateKey, [issue]);
    SortOfSorted(LowConflictKey([issue]), [issue]);
    assert Ordered([issue]) == [issue] && Additions([issue], 1) == [issue];
    assert Greedy([], [issue], 1) == [issue];
    SeedIsFeasible([issue], 1);
    assert [] + [issue] == [issue];
    assert Seed([issue], 1) == [issue];
    BetterThanSeed([issue], [issue], [issue], 1);
    DroppingTheLastIsBetter([], [issue]);
    assert [issue][..0] == [];
  }

  // ----- The optimum without Issues that lower the score -----------------------------------------

  predicate Gainful(i: Issue) {
    i.priority.Unprioritised? ==> i.unlocks >= 0
  }

  lemma LeavingOutRaises(t: seq<Issue>, k: nat)
    requires k < |t| && !Gainful(t[k])
    ensures Less(Score(t), Score(t[..k] + t[k + 1..]))
  {
    var rest := t[..k] + t[k + 1..];
    assert multiset(t) == multiset(rest + [t[k]]) by {
      MultisetWithout(t, k);
    }
    ScoreOfPermutation(t, rest + [t[k]]);
    DroppingTheLastIsBetter(rest, [t[k]]);
    assert rest + [t[k]][..0] == rest;
  }

  lemma {:induction false} GainfulPart(t: seq<Issue>)
    ensures AtMost(Score(t), Score(Filter(Gainful, t)))
    ensures t == Filter(Gainful, t) || Less(Score(t), Score(Filter(Gainful, t)))
    decreases |t|
  {
    if k :| 0 <= k < |t| && !Gainful(t[k]) {
      var rest := t[..k] + t[k + 1..];
      LeavingOutRaises(t, k);
      GainfulPart(rest);
      FilterWithout(t, k);
      if Score(rest) != Score(Filter(Gainful, t)) {
        LessIsTransitive(Score(t), Score(rest), Score(Filter(Gainful, t)));
      }
    } else {
      AllGainful(t);
    }
  }

  lemma {:induction false} GainfulIsPart(t: seq<Issue>)
    ensures multiset(Filter(Gainful, t)) <= multiset(t)
  {
    if t != [] {
      GainfulIsPart(t[1..]);
      MultisetTail(t);
      assert t[0] in multiset(t);
    }
  }

  lemma {:induction false} AllGainful(t: seq<Issue>)
    requires forall i :: i in t ==> Gainful(i)
    ensures Filter(Gainful, t) == t
  {
    if t != [] {
      AllGainful(t[1..]);
    }
  }

  lemma {:induction false} FilterWithout(t: seq<Issue>, k: nat)
    requires k < |t| && !Gainful(t[k])
    ensures Filter(Gainful, t[..k] + t[k + 1..]) == Filter(Gainful, t)
  {
    if k > 0 {
      FilterWithout(t[1..], k - 1);
      assert (t[..k] + t[k + 1..])[1..] == t[1..][..k - 1] + t[1..][k..];
    } else {
      assert t[..0] + t[1..] == t[1..];
    }
  }

  lemma GainfulIsFeasible(t: seq<Issue>, candidates: seq<Issue>, capacity: nat)
    requires Feasible(t, candidates, capacity) && DistinctNumbers(candidates)
    ensures Feasible(Filter(Gainful, t), Filter(Gainful, candidates), capacity)
  {
    GainfulIsPart(t);
    FilterMembers(Gainful, t);
    FilterMembers(Gainful, candidates);
    CompatiblePermutation(t, Filter(Gainful, t));
    DistinctIsPermutationInvariant(candidates, t);
    NumbersMeanNoDuplicates(candidates);
    NumbersMeanNoDuplicates(t);
    forall x ensures multiset(Filter(Gainful, t))[x] <= multiset(Filter(Gainful, candidates))[x] {
      CountWithoutDuplicates(Filter(Gainful, t), x);
      CountWithoutDuplicates(Filter(Gainful, candidates), x);
      assert x in t ==> x in multiset(candidates);
    }
  }

  lemma GainfulIsLessFeasible(t: seq<Issue>, candidates: seq<Issue>, capacity: nat)
    requires Feasible(t, Filter(Gainful, candidates), capacity)
    ensures Feasible(t, candidates, capacity)
  {
    GainfulIsPart(candidates);
  }

  lemma OptimalAmongAll(best: seq<Issue>, candidates: seq<Issue>, capacity: nat)
    requires DistinctNumbers(candidates) && Optimal(best, candidates, capacity)
    ensures Optimal(best, Filter(Gainful, candidates), capacity)
  {
    GainfulIsFeasible(best, candidates, capacity);
    GainfulIsLessFeasible(Filter(Gainful, best), candidates, capacity);
    GainfulPart(best);
    if best != Filter(Gainful, best) {
      LessIsStrict(Score(best), Score(Filter(Gainful, best)));
      if multiset(best) == multiset(Filter(Gainful, best)) {
        ScoreOfPermutation(best, Filter(Gainful, best));
      }
    }
    forall t: seq<Issue> | Feasible(t, Filter(Gainful, candidates), capacity)
      ensures multiset(t) == multiset(best) || Less(Score(t), Score(best))
    {
      GainfulIsLessFeasible(t, candidates, capacity);
    }
  }

  lemma OptimalAmongGainful(best: seq<Issue>, candidates: seq<Issue>, capacity: nat)
    requires DistinctNumbers(candidates) && Optimal(best, Filter(Gainful, candidates), capacity)
    ensures Optimal(best, candidates, capacity)
  {
    GainfulIsLessFeasible(best, candidates, capacity);
    forall t: seq<Issue> | Feasible(t, candidates, capacity)
      ensures multiset(t) == multiset(best) || Less(Score(t), Score(best))
    {
      GainfulIsFeasible(t, candidates, capacity);
      GainfulPart(t);
      if t != Filter(Gainful, t) {
        var part := Filter(Gainful, t);
        if multiset(part) == multiset(best) {
          ScoreOfPermutation(part, best);
        } else {
          LessIsTransitive(Score(t), Score(part), Score(best));
        }
      }
    }
  }

  // For all candidates, the unique optimum is that of the candidates which cannot lower the score: a search over these
  // alone is right whatever the unlocks are.
  lemma OptimumIsGainful(best: seq<Issue>, candidates: seq<Issue>, capacity: nat)
    requires DistinctNumbers(candidates)
    ensures Optimal(best, candidates, capacity) <==> Optimal(best, Filter(Gainful, candidates), capacity)
    ensures Worthwhile(Filter(Gainful, candidates)) && DistinctNumbers(Filter(Gainful, candidates))
  {
    FilterMembers(Gainful, candidates);
    GainfulIsPart(candidates);
    DistinctIsPermutationInvariant(candidates, Filter(Gainful, candidates));
    if Optimal(best, candidates, capacity) {
      OptimalAmongAll(best, candidates, capacity);
    }
    if Optimal(best, Filter(Gainful, candidates), capacity) {
      OptimalAmongGainful(best, candidates, capacity);
    }
  }

  // Selecting one more worthwhile Issue always raises the score, so an optimum leaves no compatible Issue out.
  lemma OneMoreRaisesScore(s: seq<Issue>, x: Issue)
    requires Worthwhile([x])
    ensures Less(Score(s), Score(s + [x]))
  {
    DominanceRaisesScore(s, [x], []);
    assert s + [] == s;
    ScoreParts(s);
    ScoreParts(s + [x]);
  }

  lemma OptimalIsMaximal(best: seq<Issue>, candidates: seq<Issue>, capacity: nat, x: Issue)
    requires Optimal(best, candidates, capacity) && DistinctNumbers(candidates) && Worthwhile(candidates)
    requires x in candidates && x !in best && |best| < capacity
    ensures !Clear(x, best)
  {
    if Clear(x, best) {
      AddKeepsCompatible(best, x);
      OneMoreRaisesScore(best, x);
      assert multiset(best)[x] == 0 && x in multiset(candidates);
      assert Feasible(best + [x], candidates, capacity);
      assert |multiset(best + [x])| == |best| + 1 && |multiset(best)| == |best|;
      LessIsStrict(Score(best), Score(best + [x]));
    }
  }
}
