/** When the search can be relied on: the exact condition for compatible candidates, and for all claims at once. */
module SearchLimits {
  import opened Tuples
  import opened Sorting
  import opened Lists
  import opened Issues
  import opened Scores
  import opened Search
  import Apart

  // ----- Candidates without conflicts -----------------------------------------------------------

  lemma {:induction false} GreedyTakesTheFirst(selected: seq<Issue>, order: seq<Issue>, capacity: nat)
    requires Compatible(selected + order) && NoDuplicates(selected + order) && |selected| <= capacity
    ensures Greedy(selected, order, capacity) == selected + order[..Clip(capacity - |selected|, |order|)]
    decreases |order|
  {
    if order != [] && |selected| < capacity {
      var issue := order[0];
      assert (selected + order)[|selected|] == issue;
      forall other | other in selected ensures !Conflict(issue, other) {
        var k :| 0 <= k < |selected| && selected[k] == other;
        assert (selected + order)[k] == other;
      }
      assert selected + [issue] + order[1..] == selected + order;
      GreedyTakesTheFirst(selected + [issue], order[1..], capacity);
    }
  }

  lemma {:induction false} NoDegree(issue: Issue, others: seq<Issue>)
    requires forall other :: other in others && other != issue ==> !Conflict(issue, other)
    ensures Degree(issue, others) == 0
  {
    if others != [] {
      NoDegree(issue, others[1..]);
    }
  }

  lemma KeyWithoutDegree(a: Issue, b: Issue)
    requires AtMost(CandidateKey(a), CandidateKey(b))
    ensures AtMost([Rank(a.priority), 0] + CandidateKey(a), [Rank(b.priority), 0] + CandidateKey(b))
  {
    KeyOrder(a, b);
  }

  lemma SameOrder(candidates: seq<Issue>)
    requires Compatible(candidates)
    ensures LowConflictOrder(candidates) == Ordered(candidates)
  {
    var ordered := Ordered(candidates);
    var key := LowConflictKey(ordered);
    SortKeepsMembers(CandidateKey, candidates);
    forall i, j | 0 <= i < j < |ordered| ensures AtMost(key(ordered[i]), key(ordered[j])) {
      NoDegree(ordered[i], ordered);
      NoDegree(ordered[j], ordered);
      KeyWithoutDegree(ordered[i], ordered[j]);
    }
    SortOfSorted(key, ordered);
    assert LowConflictOrder(candidates) == Sort(key, ordered);
  }

  lemma OrderedIsTaken(candidates: seq<Issue>, capacity: nat)
    requires DistinctNumbers(candidates) && Compatible(candidates)
    ensures Greedy([], Ordered(candidates), capacity) == Additions(candidates, capacity)
  {
    var ordered := Ordered(candidates);
    SortSorts(CandidateKey, candidates);
    DistinctIsPermutationInvariant(candidates, ordered);
    NumbersMeanNoDuplicates(ordered);
    CompatiblePermutation(candidates, ordered);
    assert [] + ordered == ordered;
    GreedyTakesTheFirst([], ordered, capacity);
    var taken := Additions(candidates, capacity);
    assert [] + taken == taken;
  }

  // Without conflicts both seeds are the best-ordered candidates, which the root bound scores.
  lemma SeedWithoutConflicts(candidates: seq<Issue>, capacity: nat)
    requires DistinctNumbers(candidates) && Compatible(candidates)
    ensures Seed(candidates, capacity) == Additions(candidates, capacity)
    ensures Score(Seed(candidates, capacity)) == Bound([], candidates, capacity)
  {
    var additions := Additions(candidates, capacity);
    OrderedIsTaken(candidates, capacity);
    SameOrder(candidates);
    assert [] + additions == additions;
  }

  // For candidates without conflicts the search is right exactly when no unprioritised addition has negative unlocks.
  lemma RightWithoutConflicts(candidates: seq<Issue>, capacity: nat)
    requires DistinctNumbers(candidates) && Compatible(candidates)
    ensures Optimal(Seed(candidates, capacity), candidates, capacity) <==> Worthwhile(Additions(candidates, capacity))
  {
    SeedWithoutConflicts(candidates, capacity);
    ShortcutIsOptimalExactly(candidates, capacity);
  }

  // ----- All claims and capacities --------------------------------------------------------------

  // The same Issues apart from what they claim.
  predicate SameProfile(candidates: seq<Issue>, profile: seq<Issue>) {
    && |candidates| == |profile|
    && forall k :: 0 <= k < |profile| ==> candidates[k] == profile[k].(claims := candidates[k].claims)
  }

  // The search stops at its seed, and the seed is not the optimum.
  ghost predicate StopsWrongly(candidates: seq<Issue>, capacity: nat) {
    Score(Seed(candidates, capacity)) == Bound([], candidates, capacity)
    && !Optimal(Seed(candidates, capacity), candidates, capacity)
  }

  function Separated(profile: seq<Issue>): seq<Issue> {
    seq(|profile|, k requires 0 <= k < |profile| => profile[k].(claims := Apart.Alone(k)))
  }

  lemma SeparatedIsCompatible(profile: seq<Issue>)
    requires DistinctNumbers(profile)
    ensures Compatible(Separated(profile)) && DistinctNumbers(Separated(profile))
    ensures SameProfile(Separated(profile), profile)
  {
    var c := Separated(profile);
    forall x, y | x in c && y in c && x != y ensures !Conflict(x, y) {
      var k :| 0 <= k < |c| && c[k] == x;
      var l :| 0 <= l < |c| && c[l] == y;
      Apart.AloneIsApart(k, l);
    }
  }

  lemma ProfileDecidesWorth(candidates: seq<Issue>, profile: seq<Issue>)
    requires SameProfile(candidates, profile)
    ensures Worthwhile(candidates) <==> Worthwhile(profile)
  {
    forall k | 0 <= k < |profile|
      ensures candidates[k].priority == profile[k].priority && candidates[k].unlocks == profile[k].unlocks
      ensures candidates[k] in candidates && profile[k] in profile
    {
    }
  }

  lemma AllAdditions(candidates: seq<Issue>)
    ensures Worthwhile(Additions(candidates, |candidates|)) <==> Worthwhile(candidates)
  {
    SortKeepsMembers(CandidateKey, candidates);
    assert Additions(candidates, |candidates|) == Ordered(candidates);
  }

  lemma AdditionsAreCandidates(candidates: seq<Issue>, capacity: nat)
    requires Worthwhile(candidates)
    ensures Worthwhile(Additions(candidates, capacity))
  {
    SortKeepsMembers(CandidateKey, candidates);
  }

  // Numbers, priorities and unlocks given, there are claims and a capacity for which the search stops at a wrong set
  // exactly when some unprioritised Issue has negative unlocks; without one it is right for all claims and capacities.
  lemma UnlocksDecide(profile: seq<Issue>)
    requires DistinctNumbers(profile)
    ensures Worthwhile(profile) <==>
            forall candidates, capacity: nat :: SameProfile(candidates, profile) ==> !StopsWrongly(candidates, capacity)
  {
    if Worthwhile(profile) {
      forall candidates, capacity: nat | SameProfile(candidates, profile) ensures !StopsWrongly(candidates, capacity) {
        if Score(Seed(candidates, capacity)) == Bound([], candidates, capacity) {
          ProfileDecidesWorth(candidates, profile);
          AdditionsAreCandidates(candidates, capacity);
          ShortcutIsOptimalExactly(candidates, capacity);
        }
      }
    } else {
      var c := Separated(profile);
      SeparatedIsCompatible(profile);
      ProfileDecidesWorth(c, profile);
      AllAdditions(c);
      SeedWithoutConflicts(c, |c|);
      RightWithoutConflicts(c, |c|);
      assert StopsWrongly(c, |c|);
    }
  }
}
