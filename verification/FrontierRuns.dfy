/** Runs of the scheduler: dispatching waves, progress, retirement and new Issues. */
module FrontierRuns {
  import opened Lists
  import opened Wrappers
  import opened Issues
  import opened Search
  import opened Frontier
  import Apart
  import Claims

  // What holds however many deliveries are withdrawn: the integration limit, and freedom from conflict among work in
  // progress.
  ghost predicate Sound(s: Snapshot) {
    DistinctNumbers(s.issues) && |Wip(s.issues)| <= Limit(s) && Compatible(Wip(s.issues))
  }

  // What the scheduler must never break: these, and the slots.
  ghost predicate Safe(s: Snapshot) {
    Sound(s) && |Executing(s.issues)| <= Slots(s)
  }

  // A step that keeps what is sound, and executes no more than before unless there are slots for it.
  ghost predicate Keeps(s: Snapshot, t: Snapshot) {
    && Sound(t) && Slots(t) == Slots(s) && Limit(t) == Limit(s)
    && (|Executing(t.issues)| <= |Executing(s.issues)| || |Executing(t.issues)| <= Slots(s))
  }

  function Dispatched(i: Issue): Issue {
    i.(status := Claiming, parked := false)
  }

  function DispatchAll(issues: seq<Issue>, chosen: seq<Issue>): seq<Issue> {
    seq(|issues|, k requires 0 <= k < |issues| => if issues[k] in chosen then Dispatched(issues[k]) else issues[k])
  }

  // What happens to one Issue after its dispatch, apart from being resumed.
  datatype Progress =
    | StartWork                      // the worker exists: claiming becomes running
    | RepairActive                   // a managed Issue still labelled ready becomes active
    | RepairBlocked                  // a blocked or parked dispatch labels its Issue blocked
    | Deliver                        // a valid delivery puts an active Issue into review
    | Accept                         // the review is complete
    | ReopenReview                   // a complete review is taken back
    | BeginIntegrating               // the merge has been recorded as intended
    | ObserveMerged                  // the pull request is merged
    | Land                           // the merge is recorded
    | BeginParking
    | FinishParking
    | Block                          // no attempt is left
    | Retire
    | Replace                        // a worker that ended is replaced by the next attempt
    | Amend(priority: Priority, unlocks: int, contractValid: bool, dispatchAfter: seq<int>)

  predicate Applies(p: Progress, i: Issue) {
    match p
    case StartWork => i.status == Claiming
    case RepairActive => i.state == Ready && i.status in {Claiming, Running, Reviewing, Mergeable}
    case RepairBlocked => i.state != Blocked && (i.status == Stuck || i.parked)
    case Deliver => i.state == Active
    case Accept => i.state in {Active, InReview}
    case ReopenReview => i.state == ReadyToMerge
    case BeginIntegrating => i.state == ReadyToMerge && i.status !in {Landed, Retired}
    case ObserveMerged => i.status in {OtherStatus, Landed}
    case Land => i.state == Merged
    case BeginParking => i.status == Running && !i.parked
    case FinishParking => i.status in {Running, Parking} && !i.parked
    case Block => i.state == Active && i.status !in {Claiming, Parking, Resuming, Stuck, Retired, Landed}
    case Retire => true
    case Replace => i.state == Active && i.status in {Running, OtherStatus} && !i.parked
    case Amend(_, _, _, _) => true
  }

  function Progressed(p: Progress, i: Issue): Issue {
    match p
    case StartWork => i.(status := Running)
    case RepairActive => i.(state := Active)
    case RepairBlocked => i.(state := Blocked)
    case Deliver => i.(state := InReview)
    case Accept => i.(state := ReadyToMerge)
    case ReopenReview => i.(state := InReview)
    case BeginIntegrating => i.(status := OtherStatus)
    case ObserveMerged => i.(state := Merged)
    case Land => i.(status := Landed)
    case BeginParking => i.(status := Parking, parked := false)
    case FinishParking => i.(status := Stuck, parked := true, state := Blocked)
    case Block => i.(status := Stuck, state := Blocked)
    case Retire => i.(status := Retired, parked := true, state := Blocked)
    case Replace => i.(status := Claiming)
    case Amend(priority, unlocks, contractValid, dispatchAfter) =>
      i.(priority := priority, unlocks := unlocks, contractValid := contractValid, dispatchAfter := dispatchAfter)
  }

  // One Issue changes without taking up new capacity.
  predicate Forward(before: Issue, after: Issue) {
    && after.number == before.number && after.claims == before.claims
    && (IntegrationWip(after) ==> IntegrationWip(before)) && (Execution(after) ==> Execution(before))
  }

  lemma ProgressIsForward(p: Progress, i: Issue)
    requires Applies(p, i)
    ensures Forward(i, Progressed(p, i))
  {
  }

  // What each step of progress frees: a worker when the Issue is delivered, accepted, merged, blocked, parked or
  // retired; the integration capacity when it is merged, landed, parked or retired. Nothing else frees anything.
  lemma WhatProgressFrees(p: Progress, i: Issue)
    requires Applies(p, i)
    ensures Execution(i) && !Execution(Progressed(p, i)) <==>
            Execution(i) && p in {Deliver, Accept, ObserveMerged, Block, FinishParking, Retire}
    ensures IntegrationWip(i) && !IntegrationWip(Progressed(p, i)) <==>
            IntegrationWip(i) && p in {ObserveMerged, Land, FinishParking, Retire}
  {
  }

  // The way of an Issue from its dispatch to its merge: each step applies after the one before; a worker is occupied
  // until the delivery, integration capacity until the merge.
  lemma LifeOfAnIssue(i: Issue)
    requires Eligible(i)
    ensures var claimed := Dispatched(i);
            var running := Progressed(StartWork, claimed);
            var active := Progressed(RepairActive, running);
            var inReview := Progressed(Deliver, active);
            var ready := Progressed(Accept, inReview);
            var integrating := Progressed(BeginIntegrating, ready);
            var merged := Progressed(ObserveMerged, integrating);
            var landed := Progressed(Land, merged);
            && claimed.status == Claiming && Applies(StartWork, claimed) && Execution(claimed)
            && running.status == Running && Applies(RepairActive, running) && Execution(running)
            && active.state == Active && Applies(Deliver, active) && Execution(active)
            && inReview.state == InReview && Applies(Accept, inReview)
            && !Execution(inReview) && IntegrationWip(inReview)
            && ready.state == ReadyToMerge && Applies(BeginIntegrating, ready) && IntegrationWip(ready)
            && integrating.state == ReadyToMerge && Applies(ObserveMerged, integrating) && IntegrationWip(integrating)
            && merged.state == Merged && Applies(Land, merged) && !IntegrationWip(merged)
            && landed.state == Merged && landed.status == Landed && !IntegrationWip(landed) && !Execution(landed)
  {
    EligibleMeans(i);
  }

  // A worker that is parked frees everything, and its Issue can be resumed.
  lemma ParkingAndResuming(i: Issue, started: bool)
    requires i.status == Running && !i.parked
    ensures var parking := Progressed(BeginParking, i);
            var parked := Progressed(FinishParking, parking);
            && Applies(BeginParking, i) && parking.status == Parking && Applies(FinishParking, parking)
            && parked.status == Stuck && parked.parked && parked.state == Blocked
            && !IntegrationWip(parked) && !Execution(parked)
            && Resumed(parked, started).status == (if started then Running else Resuming)
            && Execution(Resumed(parked, started)) && IntegrationWip(Resumed(parked, started))
  {
    ResumedWorks(Progressed(FinishParking, Progressed(BeginParking, i)), started);
  }

  // What resuming a parked Issue checks again against all other work in progress.
  predicate Resumable(s: Snapshot, i: Issue) {
    var others := Filter((j: Issue) => IntegrationWip(j) && j.number != i.number, s.issues);
    && (i.status == Resuming || (i.status == Stuck && i.parked))
    && i.contractValid && (forall d :: d in i.dispatchAfter ==> d in s.closed)
    && |Executing(others)| < Slots(s) && |others| < Limit(s)
    && !(Claims.Exclusive(i.claims) && others != [])
    && (forall j :: j in others ==> !Claims.Exclusive(j.claims) && !Claims.ClaimsOverlap(i.claims, j.claims))
  }

  // Resuming asks for a valid contract, closed dependencies and room, and for no conflict with other work, just as a
  // dispatch does.
  lemma ResumableMeans(s: Snapshot, i: Issue)
    ensures var others := Filter((j: Issue) => IntegrationWip(j) && j.number != i.number, s.issues);
            Resumable(s, i) <==>
            && (i.status == Resuming || (i.status == Stuck && i.parked))
            && i.contractValid && (forall d :: d in i.dispatchAfter ==> d in s.closed)
            && |Executing(others)| < Slots(s) && |others| < Limit(s) && Clear(i, others)
  {
    var others := Filter((j: Issue) => IntegrationWip(j) && j.number != i.number, s.issues);
    assert others != [] ==> others[0] in others;
    assert forall j :: j in others ==>
        (Conflict(i, j) <==> Claims.Exclusive(i.claims) || Claims.Exclusive(j.claims)
                             || Claims.ClaimsOverlap(i.claims, j.claims));
  }

  function Resumed(i: Issue, started: bool): Issue {
    i.(status := if started then Running else Resuming, parked := false, state := Active)
  }

  datatype Step =
    | Dispatch(wave: Wave, chosen: seq<Issue>)
    | Advance(position: nat, progress: Progress)
    | Resume(position: nat, started: bool)
    | Admit(issue: Issue)
    | Close(closed: set<int>)

  ghost predicate Next(s: Snapshot, step: Step, t: Snapshot) {
    match step
    case Dispatch(wave, chosen) =>
      IsWave(s, wave, chosen) && t == s.(issues := DispatchAll(s.issues, chosen))
    case Advance(position, progress) =>
      && position < |s.issues| && Applies(progress, s.issues[position])
      && t == s.(issues := s.issues[position := Progressed(progress, s.issues[position])])
    case Resume(position, started) =>
      && position < |s.issues| && Resumable(s, s.issues[position])
      && t == s.(issues := s.issues[position := Resumed(s.issues[position], started)])
    case Admit(issue) =>
      && !IntegrationWip(issue) && (forall i :: i in s.issues ==> i.number != issue.number)
      && t == s.(issues := s.issues + [issue])
    case Close(closed) => t == s.(closed := closed)
  }

  ghost predicate IsRun(states: seq<Snapshot>, steps: seq<Step>) {
    |states| == |steps| + 1 && forall k :: 0 <= k < |steps| ==> Next(states[k], steps[k], states[k + 1])
  }

  // ----- One step ----------------------------------------------------------------------------

  lemma {:induction false} DispatchCounts(issues: seq<Issue>, chosen: seq<Issue>)
    requires forall i :: i in issues && i in chosen ==> Eligible(i)
    ensures |Wip(DispatchAll(issues, chosen))| == |Wip(issues)| + |Filter((i: Issue) => i in chosen, issues)|
    ensures |Executing(DispatchAll(issues, chosen))| ==
            |Executing(issues)| + |Filter((i: Issue) => i in chosen, issues)|
    ensures forall x :: x in Wip(DispatchAll(issues, chosen)) ==>
              x in Wip(issues) || exists c :: c in chosen && c in issues && x == Dispatched(c)
  {
    if issues != [] {
      DispatchCounts(issues[1..], chosen);
      ExecutionHoldsIntegration(issues[0]);
      assert DispatchAll(issues, chosen)[1..] == DispatchAll(issues[1..], chosen);
    }
  }

  lemma DispatchIsSafe(s: Snapshot, wave: Wave, chosen: seq<Issue>)
    requires Sound(s) && IsWave(s, wave, chosen)
    ensures Keeps(s, s.(issues := DispatchAll(s.issues, chosen)))
    ensures |Executing(s.issues)| >= Slots(s) || |Wip(s.issues)| >= Limit(s) ==>
              DispatchAll(s.issues, chosen) == s.issues
    ensures |Executing(DispatchAll(s.issues, chosen))| == |Executing(s.issues)| + |wave.selected|
    ensures |Wip(DispatchAll(s.issues, chosen))| == |Wip(s.issues)| + |wave.selected|
  {
    var t := s.(issues := DispatchAll(s.issues, chosen));
    var taken := Filter((i: Issue) => i in chosen, s.issues);
    CandidateMembers(s);
    SelectedMembers(chosen, Candidates(s));
    DispatchCounts(s.issues, chosen);
    FilterMembers((i: Issue) => i in chosen, s.issues);
    NumbersMeanNoDuplicates(s.issues);
    NumbersMeanNoDuplicates(chosen);
    FewerMembers(taken, chosen);
    FewerMembers(chosen, taken);
    if chosen == [] {
      assert t.issues == s.issues;
    }
    DispatchIsCompatible(s, wave, chosen);
  }

  lemma DispatchIsCompatible(s: Snapshot, wave: Wave, chosen: seq<Issue>)
    requires Sound(s) && IsWave(s, wave, chosen)
    ensures Compatible(Wip(DispatchAll(s.issues, chosen)))
  {
    var held := Wip(s.issues);
    CandidateMembers(s);
    SelectedMembers(chosen, Candidates(s));
    DispatchCounts(s.issues, chosen);
    forall c | c in chosen ensures Clear(c, held) {
      ScreenedIsClear(c, s.closed, held);
    }
    HeldAndDispatched(held, chosen, Wip(DispatchAll(s.issues, chosen)));
  }

  // Whether Issues conflict depends on their claims only, and not on the order.
  lemma SameClaims(x: Issue, y: Issue, c: Issue, d: Issue)
    requires x.claims == c.claims && y.claims == d.claims && !Conflict(c, d)
    ensures !Conflict(x, y) && !Conflict(y, x)
  {
    Claims.ConflictIsSymmetric(c.claims, d.claims);
  }

  lemma HeldAndDispatched(held: seq<Issue>, chosen: seq<Issue>, wip: seq<Issue>)
    requires Compatible(held) && Compatible(chosen) && forall c :: c in chosen ==> Clear(c, held)
    requires forall x :: x in wip ==> x in held || exists c :: c in chosen && x == Dispatched(c)
    ensures Compatible(wip)
  {
    forall x, y | x in wip && y in wip && x != y ensures !Conflict(x, y) {
      if x in held {
        if y !in held {
          var d :| d in chosen && y == Dispatched(d);
          SameClaims(y, x, d, x);
        }
      } else {
        var c :| c in chosen && x == Dispatched(c);
        if y in held {
          SameClaims(x, y, c, y);
        } else {
          var d :| d in chosen && y == Dispatched(d);
          assert c != d;
          SameClaims(x, y, c, d);
        }
      }
    }
  }

  lemma {:induction false} AdvanceCounts(issues: seq<Issue>, position: nat, after: Issue)
    requires position < |issues| && (IntegrationWip(after) ==> IntegrationWip(issues[position]))
    ensures |Wip(issues[position := after])| <= |Wip(issues)|
    ensures (Execution(after) ==> Execution(issues[position])) ==>
              |Executing(issues[position := after])| <= |Executing(issues)|
    ensures forall x :: x in Wip(issues[position := after]) ==>
              x in Wip(issues) || (x == after && issues[position] in Wip(issues))
  {
    if position == 0 {
      assert issues[0 := after][1..] == issues[1..];
    } else {
      AdvanceCounts(issues[1..], position - 1, after);
      assert issues[position := after][1..] == issues[1..][position - 1 := after];
    }
  }

  lemma AdvanceIsSafe(s: Snapshot, position: nat, after: Issue)
    requires Sound(s) && position < |s.issues| && Forward(s.issues[position], after)
    ensures Keeps(s, s.(issues := s.issues[position := after]))
  {
    AdvanceCounts(s.issues, position, after);
    AdvanceIsCompatible(s.issues, position, after);
  }

  lemma OthersWereInWip(issues: seq<Issue>, position: nat, after: Issue)
    requires DistinctNumbers(issues) && position < |issues| && after.number == issues[position].number
    requires IntegrationWip(after) ==> IntegrationWip(issues[position])
    ensures forall x :: x in Wip(issues[position := after]) && x != after ==> x in Wip(issues) && x != issues[position]
    ensures after in Wip(issues[position := after]) ==> issues[position] in Wip(issues)
  {
    FilterMembers(IntegrationWip, issues);
    FilterMembers(IntegrationWip, issues[position := after]);
    OthersStay(issues, position, after);
    var wip := Wip(issues[position := after]);
    forall x | x in wip && x != after ensures x in Wip(issues) && x != issues[position] {
      assert x in issues[position := after] && IntegrationWip(x);
    }
    if after in wip {
      assert IntegrationWip(after) && issues[position] in issues;
    }
  }

  lemma AdvanceIsCompatible(issues: seq<Issue>, position: nat, after: Issue)
    requires DistinctNumbers(issues) && Compatible(Wip(issues))
    requires position < |issues| && after.number == issues[position].number && after.claims == issues[position].claims
    requires IntegrationWip(after) ==> IntegrationWip(issues[position])
    ensures Compatible(Wip(issues[position := after]))
  {
    var before := issues[position];
    var wip := Wip(issues[position := after]);
    OthersWereInWip(issues, position, after);
    forall x, y | x in wip && y in wip && x != y ensures !Conflict(x, y) {
      if x == after {
        SameClaims(x, y, before, y);
      } else if y == after {
        SameClaims(y, x, before, x);
      }
    }
  }

  lemma AdmitIsSafe(s: Snapshot, issue: Issue)
    requires Sound(s) && !IntegrationWip(issue) && forall i :: i in s.issues ==> i.number != issue.number
    ensures Keeps(s, s.(issues := s.issues + [issue]))
  {
    FilterSnoc(IntegrationWip, s.issues, issue);
    FilterSnoc(Execution, s.issues, issue);
    ExecutionHoldsIntegration(issue);
  }

  // A resumed Issue works again.
  lemma ResumedWorks(i: Issue, started: bool)
    ensures Execution(Resumed(i, started)) && IntegrationWip(Resumed(i, started))
  {
  }

  // A resumed Issue fits in: the check left room for it and found nothing that conflicts.
  lemma ResumeIsSafe(s: Snapshot, position: nat, started: bool)
    requires Sound(s) && position < |s.issues| && Resumable(s, s.issues[position])
    ensures Keeps(s, s.(issues := s.issues[position := Resumed(s.issues[position], started)]))
  {
    var i := s.issues[position];
    var after := Resumed(i, started);
    var issues := s.issues[position := after];
    var p := (j: Issue) => IntegrationWip(j) && j.number != i.number;
    var others := Filter(p, s.issues);
    FilterMembers(p, s.issues);
    NumbersMeanNoDuplicates(s.issues);
    NumbersMeanNoDuplicates(issues);
    OthersStay(s.issues, position, after);
    FilterMembers(IntegrationWip, issues);
    FewerMembers(Wip(issues), others + [after]);
    FilterMembers(Execution, issues);
    FilterMembers(Execution, others);
    forall x | x in Executing(issues) ensures x in Executing(others) + [after] {
      ExecutionHoldsIntegration(x);
    }
    FewerMembers(Executing(issues), Executing(others) + [after]);
    ResumeIsCompatible(s.issues, others, i, after, Wip(issues));
  }

  lemma OthersStay(issues: seq<Issue>, position: nat, after: Issue)
    requires DistinctNumbers(issues) && position < |issues| && after.number == issues[position].number
    ensures forall x :: x in issues[position := after] ==> x == after || (x in issues && x.number != after.number)
  {
  }

  lemma ResumeIsCompatible(issues: seq<Issue>, others: seq<Issue>, i: Issue, after: Issue, wip: seq<Issue>)
    requires Compatible(Wip(issues)) && after.claims == i.claims
    requires forall x :: x in others ==> x in issues && IntegrationWip(x)
    requires forall x :: x in wip ==> x == after || x in others
    requires !(Claims.Exclusive(i.claims) && others != [])
    requires forall j :: j in others ==> !Claims.Exclusive(j.claims) && !Claims.ClaimsOverlap(i.claims, j.claims)
    ensures Compatible(wip)
  {
    FilterMembers(IntegrationWip, issues);
    forall x, y | x in wip && y in wip && x != y ensures !Conflict(x, y) {
      Claims.ConflictIsSymmetric(x.claims, y.claims);
      if x == after {
        assert y in others && !Claims.Exclusive(i.claims);
      } else if y == after {
        assert x in others && !Claims.Exclusive(i.claims);
      }
    }
  }

  lemma StepIsSafe(s: Snapshot, step: Step, t: Snapshot)
    requires Sound(s) && Next(s, step, t)
    ensures Keeps(s, t) && (Safe(s) ==> Safe(t))
  {
    match step
    case Dispatch(wave, chosen) => DispatchIsSafe(s, wave, chosen);
    case Advance(position, progress) =>
      ProgressIsForward(progress, s.issues[position]);
      AdvanceIsSafe(s, position, Progressed(progress, s.issues[position]));
    case Resume(position, started) => ResumeIsSafe(s, position, started);
    case Admit(issue) => AdmitIsSafe(s, issue);
    case Close(_) =>
  }

  // ----- Withdrawn deliveries -------------------------------------------------------------------

  // A delivery that stops being valid puts its Issue back to work, whatever its dispatch says, and nothing is checked.
  predicate Delivered(i: Issue) {
    i.state in {InReview, ReadyToMerge}
  }

  function Withdrawn(s: Snapshot, position: nat): Snapshot
    requires position < |s.issues|
  {
    s.(issues := s.issues[position := s.issues[position].(state := Active)])
  }

  lemma {:induction false} WithdrawnCounts(issues: seq<Issue>, position: nat)
    requires position < |issues| && Delivered(issues[position])
    ensures var again := issues[position].(state := Active); var after := issues[position := again];
            && |Wip(after)| == |Wip(issues)|
            && |Executing(after)| == |Executing(issues)| + if Execution(again) then 1 else 0
  {
    var again := issues[position].(state := Active);
    if position == 0 {
      assert issues[0 := again][1..] == issues[1..];
    } else {
      WithdrawnCounts(issues[1..], position - 1);
      assert issues[position := again][1..] == issues[1..][position - 1 := again];
    }
  }

  // The slots survive this exactly when one is free or the Issue does not execute again; everything else survives.
  lemma WithdrawnDelivery(s: Snapshot, position: nat)
    requires Sound(s) && position < |s.issues| && Delivered(s.issues[position])
    ensures Sound(Withdrawn(s, position)) && Slots(Withdrawn(s, position)) == Slots(s)
    ensures |Executing(Withdrawn(s, position).issues)| <= |Executing(s.issues)| + 1
    ensures Safe(s) ==>
              (Safe(Withdrawn(s, position)) <==>
               |Executing(s.issues)| < Slots(s) || !Execution(s.issues[position].(state := Active)))
  {
    WithdrawnCounts(s.issues, position);
    AdvanceIsCompatible(s.issues, position, s.issues[position].(state := Active));
  }

  function Worker(number: int, state: State, claims: Claims.Claim): Issue {
    Issue(number, P0, 0, state, Running, false, true, [], claims)
  }

  // One slot, one Issue at work and one whose delivery is withdrawn.
  lemma WithdrawnDeliveryOverfills()
    ensures var issues := [Worker(1, InReview, Apart.Alone(1)), Worker(2, Active, Apart.Alone(2))];
            var s := Snapshot(Some(1), None, Some(2), issues, {});
            Safe(s) && Delivered(s.issues[0]) && !Safe(Withdrawn(s, 0))
  {
    var a, b := Worker(1, InReview, Apart.Alone(1)), Worker(2, Active, Apart.Alone(2));
    var s := Snapshot(Some(1), None, Some(2), [a, b], {});
    Apart.AloneIsApart(1, 2);
    SameClaims(a, b, a, b);
    FilterPair(IntegrationWip, a, b);
    FilterPair(Execution, a, b);
    assert Wip(s.issues) == [a, b] && Executing(s.issues) == [b];
    WithdrawnDelivery(s, 0);
  }

  // ----- Runs ---------------------------------------------------------------------------------

  lemma {:induction false} RunIsSafe(states: seq<Snapshot>, steps: seq<Step>)
    requires IsRun(states, steps) && Safe(states[0])
    ensures forall k :: 0 <= k < |states| ==> Safe(states[k])
  {
    for k := 0 to |steps|
      invariant forall l :: 0 <= l <= k ==> Safe(states[l])
    {
      StepIsSafe(states[k], steps[k], states[k + 1]);
    }
  }

  // A step of the scheduler, or a delivery that is withdrawn.
  datatype Event = Scheduled(step: Step) | Withdraws(position: nat)

  ghost predicate Happens(s: Snapshot, e: Event, t: Snapshot) {
    match e
    case Scheduled(step) => Next(s, step, t)
    case Withdraws(position) =>
      position < |s.issues| && Delivered(s.issues[position]) && t == Withdrawn(s, position)
  }

  ghost predicate IsHistory(states: seq<Snapshot>, events: seq<Event>) {
    |states| == |events| + 1 && forall k :: 0 <= k < |events| ==> Happens(states[k], events[k], states[k + 1])
  }

  function Withdrawals(events: seq<Event>): nat {
    if events == [] then 0
    else Withdrawals(events[..|events| - 1]) + if events[|events| - 1].Withdraws? then 1 else 0
  }

  // The slots are exceeded by no more than a number of withdrawn deliveries.
  ghost predicate Within(s: Snapshot, withdrawals: nat) {
    Sound(s) && |Executing(s.issues)| <= Slots(s) + withdrawals
  }

  // A wave that is dispatched while the slots are full changes nothing.
  ghost predicate IdleWhenFull(s: Snapshot, e: Event, t: Snapshot) {
    e.Scheduled? && e.step.Dispatch? && |Executing(s.issues)| >= Slots(s) ==> t == s
  }

  lemma EventIsSound(s: Snapshot, e: Event, t: Snapshot, withdrawals: nat)
    requires Within(s, withdrawals) && Happens(s, e, t)
    ensures Within(t, if e.Withdraws? then withdrawals + 1 else withdrawals) && IdleWhenFull(s, e, t)
  {
    match e
    case Scheduled(step) =>
      StepIsSafe(s, step, t);
      if step.Dispatch? {
        DispatchIsSafe(s, step.wave, step.chosen);
      }
    case Withdraws(position) => WithdrawnDelivery(s, position);
  }

  // With withdrawn deliveries the integration limit and freedom from conflict still hold throughout, the slots are
  // exceeded by no more than the deliveries withdrawn so far, and a wave changes nothing while they are full.
  lemma {:induction false} HistoryIsSound(states: seq<Snapshot>, events: seq<Event>)
    requires IsHistory(states, events) && Safe(states[0])
    ensures forall k :: 0 <= k < |states| ==> Within(states[k], Withdrawals(events[..k]))
    ensures forall k :: 0 <= k < |events| ==> IdleWhenFull(states[k], events[k], states[k + 1])
  {
    for k := 0 to |events|
      invariant forall l :: 0 <= l <= k ==> Within(states[l], Withdrawals(events[..l]))
      invariant forall l :: 0 <= l < k ==> IdleWhenFull(states[l], events[l], states[l + 1])
    {
      assert events[..k + 1][..k] == events[..k];
      EventIsSound(states[k], events[k], states[k + 1], Withdrawals(events[..k]));
    }
  }

  // What safety means for the work itself: no file lies under the claims of two Issues in progress, no resource is
  // claimed twice, and an exclusive claim is alone.
  lemma SafeMeansSeparate(s: Snapshot, x: Issue, y: Issue)
    requires Safe(s) && x in Wip(s.issues) && y in Wip(s.issues) && x != y
    ensures forall file :: !(Claims.Covers(x.claims, file) && Claims.Covers(y.claims, file))
    ensures Claims.Resources(x.claims) * Claims.Resources(y.claims) == {}
    ensures !Claims.Exclusive(x.claims)
  {
    assert !Conflict(x, y);
    Claims.OverlapIsContention(x.claims, y.claims);
  }
}
