/** Selecting a wave of ready Issues, and accounting for the Issues that are left out. */
module Frontier {
  import opened Wrappers
  import opened Sorting
  import opened Lists
  import opened Issues
  import opened Scores
  import opened Search
  import Claims

  datatype Snapshot = Snapshot(executionSlots: Option<int>, workerSlots: Option<int>, integrationWipLimit: Option<int>,
                               issues: seq<Issue>, closed: set<int>)

  datatype Refusal = SlotsOutOfRange | LimitOutOfRange

  datatype Reason = ContractInvalid | OpenDependencies | ExclusiveClaims | ClaimConflict | WidthOptimized | Capacity

  datatype Wave = Wave(selected: seq<int>, deferred: map<int, Reason>, activeExecution: nat, freeExecution: nat,
                       integrationWip: nat, freeIntegration: nat, capacity: nat, searchExhausted: bool)

  // ----- Specification ------------------------------------------------------------------------

  function Default(value: Option<int>, otherwise: int): int {
    if value.Some? then value.value else otherwise
  }

  function Slots(s: Snapshot): int {
    Default(s.executionSlots, Default(s.workerSlots, 3))
  }

  function Limit(s: Snapshot): int {
    Default(s.integrationWipLimit, Slots(s))
  }

  function Wip(issues: seq<Issue>): seq<Issue> {
    Filter(IntegrationWip, issues)
  }

  function Executing(issues: seq<Issue>): seq<Issue> {
    Filter(Execution, issues)
  }

  function AtLeastZero(n: int): nat {
    if n < 0 then 0 else n
  }

  function FreeCapacity(s: Snapshot): nat {
    var execution := AtLeastZero(Slots(s) - |Executing(s.issues)|);
    var integration := AtLeastZero(Limit(s) - |Wip(s.issues)|);
    if execution < integration then execution else integration
  }

  predicate Eligible(i: Issue) {
    i.state == Ready && !IntegrationWip(i)
  }

  // Why an eligible Issue cannot be a candidate at all.
  function Screen(i: Issue, closed: set<int>, held: seq<Issue>): Option<Reason> {
    if !i.contractValid then Some(ContractInvalid)
    else if exists d :: d in i.dispatchAfter && d !in closed then Some(OpenDependencies)
    else if (exists h :: h in held && Claims.Exclusive(h.claims)) || (Claims.Exclusive(i.claims) && held != []) then
      Some(ExclusiveClaims)
    else if exists h :: h in held && Claims.ClaimsOverlap(i.claims, h.claims) then Some(ClaimConflict)
    else None
  }

  function Screening(closed: set<int>, held: seq<Issue>): Issue -> Option<Reason> {
    (i: Issue) => Screen(i, closed, held)
  }

  function Passing(closed: set<int>, held: seq<Issue>): Issue -> bool {
    (i: Issue) => Screen(i, closed, held).None?
  }

  // Why a candidate was left out of the selection.
  function LeftOut(i: Issue, chosen: seq<Issue>, capacity: nat): Reason {
    if chosen != [] && (Claims.Exclusive(i.claims) || exists c :: c in chosen && Claims.Exclusive(c.claims)) then
      ExclusiveClaims
    else if chosen != [] && exists c :: c in chosen && Claims.ClaimsOverlap(i.claims, c.claims) then
      if |chosen| == capacity && capacity > 0 then WidthOptimized else ClaimConflict
    else Capacity
  }

  function Queue(issues: seq<Issue>): seq<Issue> {
    Sort(CandidateKey, Filter(Eligible, issues))
  }

  function Candidates(s: Snapshot): seq<Issue> {
    Filter(Passing(s.closed, Wip(s.issues)), Queue(s.issues))
  }

  // The whole contract of a selected wave; `chosen` are the Issues that `wave.selected` numbers.
  ghost predicate IsWave(s: Snapshot, wave: Wave, chosen: seq<Issue>) {
    var held := Wip(s.issues);
    && 1 <= Slots(s) <= 5 && Slots(s) <= Limit(s) <= 20
    && wave.activeExecution == |Executing(s.issues)| && wave.integrationWip == |held|
    && wave.freeExecution == AtLeastZero(Slots(s) - wave.activeExecution)
    && wave.freeIntegration == AtLeastZero(Limit(s) - wave.integrationWip)
    && wave.capacity == FreeCapacity(s)
    && wave.selected == Numbers(chosen)
    && Sorted(CandidateKey, chosen)
    && Feasible(chosen, Candidates(s), wave.capacity)
    && (Worthwhile(Candidates(s)) && !wave.searchExhausted ==> Optimal(chosen, Candidates(s), wave.capacity))
    && (|Candidates(s)| <= 11 || Nodes(|Candidates(s)|, wave.capacity) <= 5000 ==> !wave.searchExhausted)
    && Deferrals(s, wave.deferred, chosen, wave.capacity)
  }

  // Exactly the eligible Issues left out are deferred, each with its own reason.
  ghost predicate Deferrals(s: Snapshot, deferred: map<int, Reason>, chosen: seq<Issue>, capacity: nat) {
    && (forall n :: n in deferred ==> exists i :: i in s.issues && Eligible(i) && i !in chosen && i.number == n)
    && (forall i :: i in s.issues && Eligible(i) && i !in chosen ==>
         i.number in deferred && deferred[i.number] == Deferral(s, i, chosen, capacity))
  }

  function Deferral(s: Snapshot, i: Issue, chosen: seq<Issue>, capacity: nat): Reason {
    match Screen(i, s.closed, Wip(s.issues))
    case Some(reason) => reason
    case None => LeftOut(i, chosen, capacity)
  }

  // ----- The specification in plain terms -------------------------------------------------------

  lemma DefaultLimits(s: Snapshot)
    ensures Slots(s) == match s.executionSlots
                        case Some(n) => n
                        case None => if s.workerSlots.Some? then s.workerSlots.value else 3
    ensures s.integrationWipLimit.None? ==> Limit(s) == Slots(s)
    ensures s.integrationWipLimit.Some? ==> s.integrationWipLimit == Some(Limit(s))
  {
  }

  // Ready, and neither in progress nor known to be in some other state of work.
  lemma EligibleMeans(i: Issue)
    ensures Eligible(i) <==>
              i.state == Ready && (i.parked || i.status in {NoStatus, OtherStatus, Landed, Retired})
  {
    WhatHoldsNothing(i);
  }

  lemma ScreenMeans(i: Issue, closed: set<int>, held: seq<Issue>)
    ensures var done := forall d :: d in i.dispatchAfter ==> d in closed;
            var exclusive := Claims.Exclusive(i.claims) || exists h :: h in held && Claims.Exclusive(h.claims);
            match Screen(i, closed, held)
            case None => i.contractValid && done && Clear(i, held)
            case Some(ContractInvalid) => !i.contractValid
            case Some(OpenDependencies) => i.contractValid && !done
            case Some(ExclusiveClaims) => i.contractValid && done && !Clear(i, held) && exclusive
            case Some(ClaimConflict) => i.contractValid && done && !Clear(i, held) && !exclusive
            case Some(_) => false
  {
    if held != [] && Claims.Exclusive(i.claims) {
      assert held[0] in held && Conflict(i, held[0]);
    }
  }

  lemma LeftOutMeans(i: Issue, chosen: seq<Issue>, capacity: nat)
    requires |chosen| <= capacity
    ensures var exclusive := Claims.Exclusive(i.claims) || exists c :: c in chosen && Claims.Exclusive(c.claims);
            match LeftOut(i, chosen, capacity)
            case ExclusiveClaims => !Clear(i, chosen) && exclusive
            case WidthOptimized => !Clear(i, chosen) && !exclusive && |chosen| == capacity
            case ClaimConflict => !Clear(i, chosen) && !exclusive && |chosen| < capacity
            case Capacity => Clear(i, chosen)
            case _ => false
  {
    if chosen != [] && Claims.Exclusive(i.claims) {
      assert chosen[0] in chosen && Conflict(i, chosen[0]);
    }
  }

  // What each reason says about an Issue that was left out of a wave. First comes its contract, then its dependencies,
  // then work in progress, then the wave; and for a conflict, whether an exclusive claim is part of it.
  lemma ReasonMeans(s: Snapshot, wave: Wave, chosen: seq<Issue>, i: Issue)
    requires IsWave(s, wave, chosen) && i in s.issues && Eligible(i) && i !in chosen
    ensures i.number in wave.deferred
    ensures var held, done := Wip(s.issues), forall d :: d in i.dispatchAfter ==> d in s.closed;
            var rivals := if Clear(i, held) then chosen else held;
            var exclusive := Claims.Exclusive(i.claims) || exists r :: r in rivals && Claims.Exclusive(r.claims);
            match wave.deferred[i.number]
            case ContractInvalid => !i.contractValid
            case OpenDependencies => i.contractValid && !done
            case ExclusiveClaims => i.contractValid && done && !Clear(i, rivals) && exclusive
            case ClaimConflict =>
              && i.contractValid && done && !Clear(i, rivals) && !exclusive
              && (Clear(i, held) ==> |wave.selected| < wave.capacity)
            case WidthOptimized =>
              && i.contractValid && done && Clear(i, held) && !Clear(i, chosen) && !exclusive
              && |wave.selected| == wave.capacity
            case Capacity => i.contractValid && done && Clear(i, held) && Clear(i, chosen)
  {
    ScreenMeans(i, s.closed, Wip(s.issues));
    LeftOutMeans(i, chosen, wave.capacity);
  }

  // ----- Selection ----------------------------------------------------------------------------

  // The deferrals recorded for a list of Issues: one for each whose reason is given, under its number.
  ghost predicate Recorded(deferred: map<int, Reason>, issues: seq<Issue>, reason: Issue -> Option<Reason>) {
    && (forall n :: n in deferred <==> exists i :: i in issues && i.number == n && reason(i).Some?)
    && (forall i :: i in issues && reason(i).Some? ==> i.number in deferred && deferred[i.number] == reason(i).value)
  }

  method ScreenQueue(queue: seq<Issue>, closed: set<int>, held: seq<Issue>)
    returns (candidates: seq<Issue>, deferred: map<int, Reason>)
    requires DistinctNumbers(queue)
    ensures candidates == Filter(Passing(closed, held), queue)
    ensures Recorded(deferred, queue, Screening(closed, held))
  {
    deferred := map[];
    candidates := [];
    ghost var passes, reasons := Passing(closed, held), Screening(closed, held);
    for k := 0 to |queue|
      invariant candidates == Filter(passes, queue[..k])
      invariant Recorded(deferred, queue[..k], reasons)
    {
      var issue := queue[k];
      assert queue[..k + 1] == queue[..k] + [issue];
      FilterSnoc(passes, queue[..k], issue);
      var reason := Screen(issue, closed, held);
      RecordOne(deferred, queue[..k], issue, reasons);
      if reason.Some? {
        deferred := deferred[issue.number := reason.value];
      } else {
        candidates := candidates + [issue];
      }
    }
    assert queue[..|queue|] == queue;
  }

  lemma RecordOne(deferred: map<int, Reason>, issues: seq<Issue>, x: Issue, reason: Issue -> Option<Reason>)
    requires Recorded(deferred, issues, reason)
    requires forall i :: i in issues ==> i.number != x.number
    ensures reason(x).Some? ==> Recorded(deferred[x.number := reason(x).value], issues + [x], reason)
    ensures reason(x).None? ==> Recorded(deferred, issues + [x], reason)
  {
  }

  // The reason given to a candidate once the selection is known; none for a selected one.
  function Verdict(i: Issue, chosen: seq<Issue>, capacity: nat): Option<Reason> {
    if i in chosen then None else Some(LeftOut(i, chosen, capacity))
  }

  function Verdicts(chosen: seq<Issue>, capacity: nat): Issue -> Option<Reason> {
    (i: Issue) => Verdict(i, chosen, capacity)
  }

  method DeferRest(candidates: seq<Issue>, selected: seq<Issue>, capacity: nat) returns (deferred: map<int, Reason>)
    requires DistinctNumbers(candidates) && forall i :: i in selected ==> i in candidates
    ensures Recorded(deferred, candidates, Verdicts(selected, capacity))
  {
    deferred := map[];
    ghost var reasons := Verdicts(selected, capacity);
    for k := 0 to |candidates|
      invariant Recorded(deferred, candidates[..k], reasons)
    {
      var issue := candidates[k];
      assert candidates[..k + 1] == candidates[..k] + [issue];
      RecordOne(deferred, candidates[..k], issue, reasons);
      NumberNamesMember(candidates, selected, issue);
      if issue.number !in Numbers(selected) {
        deferred := deferred[issue.number := LeftOut(issue, selected, capacity)];
      }
    }
    assert candidates[..|candidates|] == candidates;
  }

  lemma NumberNamesMember(candidates: seq<Issue>, selected: seq<Issue>, issue: Issue)
    requires DistinctNumbers(candidates) && issue in candidates && forall i :: i in selected ==> i in candidates
    ensures issue.number in Numbers(selected) <==> issue in selected
  {
    if issue in selected {
      var k :| 0 <= k < |selected| && selected[k] == issue;
      assert Numbers(selected)[k] == issue.number;
    }
    if issue.number in Numbers(selected) {
      var k :| 0 <= k < |selected| && Numbers(selected)[k] == issue.number;
      assert selected[k] in candidates;
    }
  }

  method SelectWave(s: Snapshot) returns (r: Result<Wave, Refusal>, ghost chosen: seq<Issue>)
    requires DistinctNumbers(s.issues)
    ensures r == Err(SlotsOutOfRange) <==> !(1 <= Slots(s) <= 5)
    ensures r == Err(LimitOutOfRange) <==> 1 <= Slots(s) <= 5 && !(Slots(s) <= Limit(s) <= 20)
    ensures r.Ok? ==> IsWave(s, r.value, chosen)
  {
    chosen := [];
    if !(1 <= Slots(s) <= 5) {
      return Err(SlotsOutOfRange), [];
    }
    if Limit(s) < Slots(s) || Limit(s) > 20 {
      return Err(LimitOutOfRange), [];
    }
    var held, capacity, queue := Wip(s.issues), FreeCapacity(s), Queue(s.issues);
    QueueMembers(s.issues);
    CandidateMembers(s);
    var candidates, screened := ScreenQueue(queue, s.closed, held);
    var selected, exhausted, _ := BestCompatibleSubset(candidates, capacity);
    SelectedMembers(selected, candidates);
    var rest := DeferRest(candidates, selected, capacity);
    chosen := selected;
    r := Ok(Report(s, selected, screened + rest, exhausted));
    DeferralsCombine(s, screened, rest, selected, capacity);
    ReportIsWave(s, selected, screened + rest, exhausted);
  }

  function Report(s: Snapshot, chosen: seq<Issue>, deferred: map<int, Reason>, exhausted: bool): Wave {
    Wave(Numbers(chosen), deferred, |Executing(s.issues)|, AtLeastZero(Slots(s) - |Executing(s.issues)|),
         |Wip(s.issues)|, AtLeastZero(Limit(s) - |Wip(s.issues)|), FreeCapacity(s), exhausted)
  }

  lemma ReportIsWave(s: Snapshot, chosen: seq<Issue>, deferred: map<int, Reason>, exhausted: bool)
    requires 1 <= Slots(s) <= 5 && Slots(s) <= Limit(s) <= 20
    requires Sorted(CandidateKey, chosen) && Feasible(chosen, Candidates(s), FreeCapacity(s))
    requires Worthwhile(Candidates(s)) && !exhausted ==> Optimal(chosen, Candidates(s), FreeCapacity(s))
    requires |Candidates(s)| <= 11 || Nodes(|Candidates(s)|, FreeCapacity(s)) <= 5000 ==> !exhausted
    requires Deferrals(s, deferred, chosen, FreeCapacity(s))
    ensures IsWave(s, Report(s, chosen, deferred, exhausted), chosen)
  {
  }

  lemma DeferralsCombine(s: Snapshot, screened: map<int, Reason>, rest: map<int, Reason>, chosen: seq<Issue>,
                          capacity: nat)
    requires DistinctNumbers(s.issues) && forall i :: i in chosen ==> i in Candidates(s)
    requires Recorded(screened, Queue(s.issues), Screening(s.closed, Wip(s.issues)))
    requires Recorded(rest, Candidates(s), Verdicts(chosen, capacity))
    ensures Deferrals(s, screened + rest, chosen, capacity)
  {
    QueueMembers(s.issues);
    CandidateMembers(s);
    var queue, candidates := Queue(s.issues), Candidates(s);
    forall n | n in screened + rest
      ensures exists i :: i in s.issues && Eligible(i) && i !in chosen && i.number == n
    {
      if n in screened {
        var i :| i in queue && i.number == n && Screening(s.closed, Wip(s.issues))(i).Some?;
        assert i !in candidates;
      } else {
        var i :| i in candidates && i.number == n && Verdicts(chosen, capacity)(i).Some?;
      }
    }
    forall i | i in s.issues && Eligible(i) && i !in chosen
      ensures i.number in screened + rest && (screened + rest)[i.number] == Deferral(s, i, chosen, capacity)
    {
      DeferralOfOne(s, screened, rest, chosen, capacity, i);
    }
  }

  lemma DeferralOfOne(s: Snapshot, screened: map<int, Reason>, rest: map<int, Reason>, chosen: seq<Issue>,
                      capacity: nat, i: Issue)
    requires DistinctNumbers(s.issues) && i in s.issues && Eligible(i) && i !in chosen
    requires Recorded(screened, Queue(s.issues), Screening(s.closed, Wip(s.issues)))
    requires Recorded(rest, Candidates(s), Verdicts(chosen, capacity))
    ensures i.number in screened + rest && (screened + rest)[i.number] == Deferral(s, i, chosen, capacity)
  {
    QueueMembers(s.issues);
    CandidateMembers(s);
    assert i in Queue(s.issues);
    if i in Candidates(s) {
      assert Verdicts(chosen, capacity)(i).Some?;
    } else {
      assert Screening(s.closed, Wip(s.issues))(i).Some?;
    }
  }

  lemma QueueMembers(issues: seq<Issue>)
    requires DistinctNumbers(issues)
    ensures DistinctNumbers(Queue(issues))
    ensures forall i :: i in Queue(issues) <==> i in issues && Eligible(i)
  {
    FilterMembers(Eligible, issues);
    SortKeepsMembers(CandidateKey, Filter(Eligible, issues));
    FilterIsSub(Eligible, issues);
    DistinctIsPermutationInvariant(issues, Queue(issues));
  }

  lemma {:induction false} FilterIsSub(p: Issue -> bool, s: seq<Issue>)
    ensures multiset(Filter(p, s)) <= multiset(s)
  {
    if s != [] {
      FilterIsSub(p, s[1..]);
      MultisetTail(s);
    }
  }

  lemma CandidateMembers(s: Snapshot)
    requires DistinctNumbers(s.issues)
    ensures DistinctNumbers(Candidates(s))
    ensures forall i :: i in Candidates(s) <==>
              i in s.issues && Eligible(i) && Screen(i, s.closed, Wip(s.issues)).None?
  {
    var passes := Passing(s.closed, Wip(s.issues));
    QueueMembers(s.issues);
    FilterMembers(passes, Queue(s.issues));
    FilterIsSub(passes, Queue(s.issues));
    DistinctIsPermutationInvariant(Queue(s.issues), Candidates(s));
  }

  lemma SelectedMembers(selected: seq<Issue>, candidates: seq<Issue>)
    requires multiset(selected) <= multiset(candidates) && DistinctNumbers(candidates)
    ensures DistinctNumbers(selected)
    ensures forall i :: i in selected ==> i in candidates
  {
    DistinctIsPermutationInvariant(candidates, selected);
    forall i | i in selected ensures i in candidates {
      assert i in multiset(selected);
    }
  }

  // ----- Accounting ---------------------------------------------------------------------------

  // A screened Issue conflicts with nothing that is held.
  lemma ScreenedIsClear(i: Issue, closed: set<int>, held: seq<Issue>)
    requires Screen(i, closed, held).None?
    ensures i.contractValid && Clear(i, held)
    ensures forall d :: d in i.dispatchAfter ==> d in closed
  {
  }

  // Every ready Issue that is not in progress is selected or deferred, never both, and nothing else is; a selected
  // one has a valid contract, closed dependencies and no conflict with what is held or also selected.
  lemma WaveAccounting(s: Snapshot, wave: Wave, chosen: seq<Issue>)
    requires DistinctNumbers(s.issues) && IsWave(s, wave, chosen)
    ensures forall i :: i in s.issues && Eligible(i) ==> (i.number in wave.selected <==> i.number !in wave.deferred)
    ensures forall n :: n in wave.selected || n in wave.deferred ==>
              exists i :: i in s.issues && Eligible(i) && i.number == n
    ensures forall i :: i in s.issues && i.number in wave.selected ==>
              i.contractValid && (forall d :: d in i.dispatchAfter ==> d in s.closed) && Clear(i, Wip(s.issues))
    ensures Compatible(chosen) && |wave.selected| <= wave.capacity && NoDuplicates(wave.selected)
  {
    CandidateMembers(s);
    SelectedMembers(chosen, Candidates(s));
    forall i | i in s.issues ensures i.number in wave.selected <==> i in chosen {
      NumberNamesMember(s.issues, chosen, i);
    }
    forall i | i in chosen
      ensures i.contractValid && (forall d :: d in i.dispatchAfter ==> d in s.closed) && Clear(i, Wip(s.issues))
    {
      ScreenedIsClear(i, s.closed, Wip(s.issues));
    }
    forall n | n in wave.selected ensures exists i :: i in s.issues && Eligible(i) && i.number == n {
      var k :| 0 <= k < |chosen| && wave.selected[k] == n;
      assert chosen[k] in s.issues;
    }
  }

  lemma CapacityMeansClear(s: Snapshot, i: Issue, chosen: seq<Issue>, capacity: nat)
    requires Deferral(s, i, chosen, capacity) == Capacity
    ensures Screen(i, s.closed, Wip(s.issues)).None? && Clear(i, chosen)
  {
  }

  // A complete search defers for capacity only when the wave is full.
  lemma CapacityMeansFull(s: Snapshot, wave: Wave, chosen: seq<Issue>, i: Issue)
    requires DistinctNumbers(s.issues) && IsWave(s, wave, chosen)
    requires !wave.searchExhausted && Worthwhile(Candidates(s))
    requires i in s.issues && Eligible(i) && i !in chosen && wave.deferred[i.number] == Capacity
    ensures |wave.selected| == wave.capacity
  {
    CandidateMembers(s);
    CapacityMeansClear(s, i, chosen, wave.capacity);
    if |chosen| < wave.capacity {
      OptimalIsMaximal(chosen, Candidates(s), wave.capacity, i);
    }
  }

  predicate FrontierStarved(wave: Wave) {
    wave.capacity > 0 && |wave.selected| < wave.capacity
  }

  lemma StarvedMeans(wave: Wave)
    ensures FrontierStarved(wave) <==> |wave.selected| < wave.capacity
  {
  }

  // A starved frontier after a complete search: every candidate left out conflicts with a selected Issue.
  lemma StarvedMeansConflict(s: Snapshot, wave: Wave, chosen: seq<Issue>, i: Issue)
    requires DistinctNumbers(s.issues) && IsWave(s, wave, chosen)
    requires !wave.searchExhausted && Worthwhile(Candidates(s)) && FrontierStarved(wave)
    requires i in Candidates(s) && i !in chosen
    ensures exists c :: c in chosen && Conflict(i, c)
  {
    CandidateMembers(s);
    OptimalIsMaximal(chosen, Candidates(s), wave.capacity, i);
  }
}
