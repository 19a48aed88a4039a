/** Issues as the scheduler sees them. */
module Issues {
  import opened Lists
  import opened Tuples
  import Claims

  datatype Priority = P0 | P1 | P2 | P3 | Unprioritised

  datatype State = Ready | Active | InReview | ReadyToMerge | Blocked | Merged | OtherState

  datatype Status = NoStatus | Claiming | Running | Parking | Resuming | Reviewing | Mergeable | Stuck | Landed
                  | Retired | OtherStatus

  datatype Issue = Issue(number: int, priority: Priority, unlocks: int, state: State, status: Status, parked: bool,
                         contractValid: bool, dispatchAfter: seq<int>, claims: Claims.Claim)

  function Rank(p: Priority): nat {
    match p case P0 => 0 case P1 => 1 case P2 => 2 case P3 => 3 case Unprioritised => 4
  }

  predicate IntegrationWip(i: Issue) {
    if i.parked || i.status in {Landed, Retired} then false
    else if i.status in {Claiming, Running, Parking, Resuming, Reviewing, Mergeable, Stuck} then true
    else i.state in {Active, InReview, ReadyToMerge, Blocked}
  }

  predicate Execution(i: Issue) {
    if i.parked then false
    else if i.state in {InReview, ReadyToMerge, Merged} then false
    else if i.status in {Claiming, Running, Parking, Resuming} then true
    else if i.status in {Reviewing, Mergeable, Stuck, Landed, Retired} then false
    else i.state == Active
  }

  function CandidateKey(i: Issue): seq<int> {
    [Rank(i.priority), -i.unlocks, i.number]
  }

  predicate Conflict(left: Issue, right: Issue) {
    Claims.Conflict(left.claims, right.claims)
  }

  ghost predicate DistinctNumbers(issues: seq<Issue>) {
    forall i, j :: 0 <= i < j < |issues| ==> issues[i].number != issues[j].number
  }

  // Everything that executes also holds integration capacity.
  lemma ExecutionHoldsIntegration(i: Issue)
    ensures Execution(i) ==> IntegrationWip(i)
  {
  }

  // What holds no integration capacity, whatever its claims: parked or ended dispatches, and Issues that no dispatch or
  // an unknown one leaves outside the four states of work.
  lemma WhatHoldsNothing(i: Issue)
    ensures !IntegrationWip(i) <==>
            || i.parked || i.status == Landed || i.status == Retired
            || (i.status in {NoStatus, OtherStatus} && i.state in {Ready, Merged, OtherState})
  {
    match i.state {
      case Ready | Merged | OtherState =>
      case Active | InReview | ReadyToMerge | Blocked =>
    }
  }

  // What holds integration capacity without occupying a worker.
  lemma WhatWaits(i: Issue)
    ensures IntegrationWip(i) && !Execution(i) <==>
            !i.parked && i.status != Landed && i.status != Retired &&
            match i.state
            case InReview => true
            case ReadyToMerge => true
            case Merged => i.status != NoStatus && i.status != OtherStatus
            case Blocked => i.status !in {Claiming, Running, Parking, Resuming}
            case _ => i.status in {Reviewing, Mergeable, Stuck}
  {
  }

  // The order of candidates: priority, then more unlocks, then the smaller number.
  predicate Outranks(a: Priority, b: Priority) {
    match a
    case P0 => b != P0
    case P1 => b in {P2, P3, Unprioritised}
    case P2 => b in {P3, Unprioritised}
    case P3 => b == Unprioritised
    case Unprioritised => false
  }

  lemma RanksCompare(a: Priority, b: Priority)
    ensures Outranks(a, b) <==> Rank(a) < Rank(b)
    ensures a == b <==> Rank(a) == Rank(b)
  {
  }

  lemma CandidateOrder(a: Issue, b: Issue)
    ensures Less(CandidateKey(a), CandidateKey(b)) <==>
            || Outranks(a.priority, b.priority)
            || (a.priority == b.priority && (a.unlocks > b.unlocks || (a.unlocks == b.unlocks && a.number < b.number)))
  {
    RanksCompare(a.priority, b.priority);
    CommonPrefix([Rank(a.priority)], [-a.unlocks, a.number], [-b.unlocks, b.number]);
    CommonPrefix([-a.unlocks], [a.number], [b.number]);
    assert CandidateKey(a) == [Rank(a.priority)] + [-a.unlocks, a.number];
    assert CandidateKey(b) == [Rank(b.priority)] + [-b.unlocks, b.number];
    assert [-a.unlocks, a.number] == [-a.unlocks] + [a.number] && [-b.unlocks, b.number] == [-b.unlocks] + [b.number];
  }

  lemma NumbersMeanNoDuplicates(issues: seq<Issue>)
    requires DistinctNumbers(issues)
    ensures NoDuplicates(issues)
  {
  }
}
