/** Interleaved provisioning runs that share one lock file and one repository. */
module ProvisioningRuns {
  import opened Wrappers
  import opened Lists
  import opened Tickets

  datatype Outcome = Entries(entries: seq<Issue>) | Error(code: Code)

  datatype Phase =
    | Start
    | Listing                        // list the issues for the preflight
    | Caching                        // read the listed tickets back, one after the other
    | Building                       // take over or create the tickets, one after the other
    | Confirming(number: int)        // read a created ticket back
    | BarrierListing                 // list the issues for one ticket of the barrier
    | BarrierReading(number: int)    // read that ticket back
    | Releasing(pending: Outcome)
    | Done(outcome: Outcome)
    | Crashed

  datatype Run = Run(rightRepository: bool, approved: bool, readOnly: bool, phase: Phase, rows: seq<Issue>,
                     found: seq<Option<Issue>>, result: seq<Issue>, barrier: seq<Issue>)

  // `lock` is the run that created the lock file now standing; `created` the titles of all creations so far.
  datatype World = World(remote: seq<Issue>, lock: Option<nat>, runs: seq<Run>, created: seq<string>)

  // What a run may do never changes.
  predicate SameMode(r: Run, n: Run) {
    n.readOnly == r.readOnly && n.approved == r.approved && n.rightRepository == r.rightRepository
  }

  // A failed run still has to give the lock back, unless it only reads and has none.
  function Leave(r: Run, o: Outcome): Run {
    r.(phase := if r.readOnly then Done(o) else Releasing(o))
  }

  function Abort(r: Run, code: Code): Run {
    Leave(r, Error(code))
  }

  // The steps that read.
  function Read(specs: seq<Spec>, remote: seq<Issue>, r: Run, a: Answer): Run {
    match r.phase
    case Listing => if a != Reply then Abort(r, ReadbackUnavailable) else List(specs, remote, r)
    case Caching => Cache(specs, remote, r, a)
    case Building => Take(specs, r)
    case Confirming(number) => if a != Reply then Abort(r, ReadbackUnavailable) else Confirm(specs, remote, r, number)
    case BarrierListing => Look(specs, remote, r, a)
    case BarrierReading(number) =>
      if a != Reply then Abort(r, ReadbackUnavailable) else Compare(specs, remote, r, number)
    case _ => r
  }

  function List(specs: seq<Spec>, remote: seq<Issue>, r: Run): Run {
    if !ValidListing(remote) then Abort(r, ReadbackInvalid)
    else if !Unambiguous(remote, specs) then Abort(r, TitleDuplicate)
    else r.(phase := Caching, rows := remote, found := [])
  }

  function Cache(specs: seq<Spec>, remote: seq<Issue>, r: Run, a: Answer): Run {
    if |r.found| >= |specs| then
      if r.readOnly && None in r.found then Abort(r, TicketMissing) else r.(phase := Building)
    else
      var spec := specs[|r.found|];
      var listed := Titled(r.rows, spec.title);
      if listed == [] then r.(found := r.found + [None])
      else if a != Reply then Abort(r, ReadbackUnavailable)
      else
        match ReadComplete(remote, listed[0].number)
        case None => Abort(r, ReadbackUnavailable)
        case Some(i) =>
          if Ready(spec, i, listed[0].number) then r.(found := r.found + [Some(i)]) else Abort(r, NotReady)
  }

  // A ticket that was found is taken over; creating one is a step of its own.
  function Take(specs: seq<Spec>, r: Run): Run {
    if |r.result| >= |specs| then r.(phase := BarrierListing, barrier := [])
    else if |r.result| < |r.found| && r.found[|r.result|].Some?
    then r.(result := r.result + [r.found[|r.result|].value])
    else r
  }

  predicate Creates(specs: seq<Spec>, r: Run) {
    r.phase == Building && |r.result| < |specs| && |r.result| < |r.found| && r.found[|r.result|].None?
  }

  function Confirm(specs: seq<Spec>, remote: seq<Issue>, r: Run, number: int): Run {
    match ReadComplete(remote, number)
    case None => Abort(r, ReadbackUnavailable)
    case Some(i) =>
      if |r.result| < |specs| && Ready(specs[|r.result|], i, i.number)
      then r.(phase := Building, result := r.result + [i])
      else Abort(r, NotReady)
  }

  function Look(specs: seq<Spec>, remote: seq<Issue>, r: Run, a: Answer): Run {
    if |r.barrier| >= |specs| then Leave(r, Entries(r.barrier))
    else if a != Reply then Abort(r, ReadbackUnavailable)
    else
      var listed := Titled(remote, specs[|r.barrier|].title);
      if !ValidListing(remote) then Abort(r, ReadbackInvalid)
      else if |listed| > 1 then Abort(r, TitleDuplicate)
      else if listed == [] then Abort(r, ConcurrentChange)
      else r.(phase := BarrierReading(listed[0].number))
  }

  function Compare(specs: seq<Spec>, remote: seq<Issue>, r: Run, number: int): Run {
    var k := |r.barrier|;
    match ReadComplete(remote, number)
    case None => Abort(r, ReadbackUnavailable)
    case Some(i) =>
      if k >= |specs| || k >= |r.result| || !Ready(specs[k], i, r.result[k].number) then Abort(r, NotReady)
      else if i != r.result[k] then Abort(r, ConcurrentChange)
      else r.(phase := BarrierListing, barrier := r.barrier + [i])
  }

  function Put(w: World, p: nat, r: Run): World
    requires p < |w.runs|
  {
    w.(runs := w.runs[p := r])
  }

  // The gate, and the exclusive creation of the lock file.
  function Begin(w: World, p: nat, a: Answer): World
    requires p < |w.runs|
  {
    var r := w.runs[p];
    if !r.rightRepository || (!r.readOnly && !r.approved) then Put(w, p, r.(phase := Done(Error(ApprovalRequired))))
    else if r.readOnly then Put(w, p, r.(phase := Listing))
    else if w.lock.Some? || a == Fails then Put(w, p, r.(phase := Done(Error(LockUnavailable))))
    else if a == FailsAfter then Put(w, p, r.(phase := Done(Error(LockUnavailable)))).(lock := Some(p))
    else Put(w, p, r.(phase := Listing)).(lock := Some(p))
  }

  function Create(specs: seq<Spec>, w: World, p: nat, a: Answer, made: Issue): World
    requires p < |w.runs| && Creates(specs, w.runs[p])
  {
    var r := w.runs[p];
    if a == Fails then Put(w, p, Abort(r, ReadbackUnavailable))
    else
      var after := w.(remote := w.remote + [made], created := w.created + [made.title]);
      Put(after, p, if a == Reply then r.(phase := Confirming(made.number)) else Abort(r, ReadbackUnavailable))
  }

  // A lock file that cannot be removed stays as a marker; a descriptor that cannot be closed is an error, whether the
  // file is removed or not.
  function Release(w: World, p: nat, removes: bool, closes: bool): World
    requires p < |w.runs| && w.runs[p].phase.Releasing?
  {
    var r := w.runs[p];
    var left := Put(w, p, r.(phase := Done(if closes then r.phase.pending else Error(LockNotReleased))));
    if removes then left.(lock := None) else left
  }

  function Advance(specs: seq<Spec>, w: World, p: nat, a: Answer, closes: bool, made: Issue): World
    requires p < |w.runs|
  {
    var r := w.runs[p];
    if r.phase.Done? || r.phase.Crashed? then w
    else if r.phase.Start? then Begin(w, p, a)
    else if r.phase.Releasing? then Release(w, p, a != Fails, closes)
    else if Creates(specs, r) then Create(specs, w, p, a, made)
    else Put(w, p, Read(specs, w.remote, r, a))
  }

  predicate Active(r: Run) {
    !r.phase.Start? && !r.phase.Done? && !r.phase.Crashed?
  }

  // A step of a run, the end of its process, or an operator removing the lock file of a run that is over.
  datatype Move = ByRun(p: nat, answer: Answer, closes: bool, made: Issue) | Crash(p: nat) | Unlock

  predicate Next(specs: seq<Spec>, w: World, m: Move, v: World) {
    match m
    case ByRun(p, a, closes, made) =>
      && p < |w.runs| && v == Advance(specs, w, p, a, closes, made)
      && (Creates(specs, w.runs[p]) ==> Made(w.remote, specs[|w.runs[p].result|].title, made))
    case Crash(p) => p < |w.runs| && Active(w.runs[p]) && v == Put(w, p, w.runs[p].(phase := Crashed))
    case Unlock => w.lock.Some? && (w.lock.value < |w.runs| ==> !Active(w.runs[w.lock.value])) && v == w.(lock := None)
  }

  ghost predicate IsRun(specs: seq<Spec>, worlds: seq<World>, moves: seq<Move>) {
    && |worlds| == |moves| + 1 && Initial(worlds[0])
    && forall k :: 0 <= k < |moves| ==> Next(specs, worlds[k], moves[k], worlds[k + 1])
  }

  // Any issues at all, no creation yet, and nobody has started; a lock file may stand from before.
  predicate Initial(w: World) {
    && w.created == [] && (w.lock.Some? ==> w.lock.value >= |w.runs|)
    && forall p :: 0 <= p < |w.runs| ==> w.runs[p].phase == Start && w.runs[p].found == [] && w.runs[p].result == []
  }

  // ----- What each run knows ----------------------------------------------------------------------

  predicate Writes(r: Run) {
    Active(r) && !r.readOnly
  }

  predicate FoundFacts(specs: seq<Spec>, remote: seq<Issue>, r: Run) {
    && |r.found| <= |specs|
    && forall k :: 0 <= k < |r.found| && r.found[k].Some? ==> Known(remote, specs[k], r.found[k].value)
  }

  predicate ResultFacts(specs: seq<Spec>, remote: seq<Issue>, r: Run) {
    && |r.result| <= |specs|
    && forall k :: 0 <= k < |r.result| ==> Known(remote, specs[k], r.result[k])
  }

  // The tickets a writing run has found missing and not created yet are still missing.
  predicate MissingFacts(specs: seq<Spec>, remote: seq<Issue>, r: Run) {
    !r.phase.Releasing? ==>
    forall k :: |r.result| + (if r.phase.Confirming? then 1 else 0) <= k < |r.found| && k < |specs|
                && r.found[k].None? ==>
      Absent(remote, specs[k].title)
  }

  predicate Listed(remote: seq<Issue>, rows: seq<Issue>, spec: Spec) {
    Absent(rows, spec.title) ||
    (Titled(remote, spec.title) == Titled(rows, spec.title) && |Titled(rows, spec.title)| == 1
     && ReadComplete(remote, Titled(rows, spec.title)[0].number) == Some(Titled(rows, spec.title)[0]))
  }

  predicate PhaseFacts(specs: seq<Spec>, remote: seq<Issue>, r: Run) {
    match r.phase
    case Start => r.found == [] && r.result == []
    case Listing => r.result == []
    case Caching =>
      && r.result == [] && (forall k :: 0 <= k < |specs| ==> Listed(remote, r.rows, specs[k]))
      && (!r.readOnly ==> r.rows == remote)
    case Building => |r.found| == |specs| && (r.readOnly ==> None !in r.found)
    case Confirming(n) =>
      && !r.readOnly && |r.result| < |r.found| == |specs| && ReadComplete(remote, n).Some?
      && Sole(remote, specs[|r.result|].title, ReadComplete(remote, n).value)
    case BarrierListing => |r.result| == |specs| && r.barrier <= r.result
    case BarrierReading(n) => |r.result| == |specs| && r.barrier < r.result
    case Releasing(Entries(e)) => !r.readOnly && Complete(remote, specs, e)
    case Releasing(_) => !r.readOnly
    case Done(Entries(e)) => r.rightRepository && Complete(remote, specs, e)
    case _ => true
  }

  predicate Facts(specs: seq<Spec>, remote: seq<Issue>, r: Run) {
    && FoundFacts(specs, remote, r) && ResultFacts(specs, remote, r) && PhaseFacts(specs, remote, r)
    && (Active(r) ==> r.rightRepository) && (Writes(r) ==> r.approved && MissingFacts(specs, remote, r))
  }

  ghost predicate Safe(specs: seq<Spec>, w: World) {
    && (forall p :: 0 <= p < |w.runs| ==> Facts(specs, w.remote, w.runs[p]))
    && (forall p :: 0 <= p < |w.runs| && Writes(w.runs[p]) ==> w.lock == Some(p))
    && NoDuplicates(w.created) && forall t :: t in w.created ==> !Absent(w.remote, t)
  }

  // ----- Steps that read ----------------------------------------------------------------------------

  lemma AbortKeepsFacts(specs: seq<Spec>, remote: seq<Issue>, r: Run, code: Code)
    requires Facts(specs, remote, r) && Active(r)
    ensures Facts(specs, remote, Abort(r, code))
  {
  }

  lemma ListKeepsFacts(specs: seq<Spec>, remote: seq<Issue>, r: Run)
    requires Facts(specs, remote, r) && r.phase.Listing?
    ensures Facts(specs, remote, List(specs, remote, r)) && SameMode(r, List(specs, remote, r))
  {
    if ValidListing(remote) && Unambiguous(remote, specs) {
      forall k | 0 <= k < |specs| ensures Listed(remote, remote, specs[k]) {
        if !Absent(remote, specs[k].title) {
          TitledMember(remote, specs[k].title);
          ListedReadsBack(remote, Titled(remote, specs[k].title)[0]);
        }
      }
    }
  }

  lemma FoundGrows(specs: seq<Spec>, remote: seq<Issue>, r: Run, o: Option<Issue>)
    requires Facts(specs, remote, r) && r.phase.Caching? && |r.found| < |specs|
    requires match o
             case None => Absent(r.rows, specs[|r.found|].title)
             case Some(i) => Known(remote, specs[|r.found|], i)
    ensures Facts(specs, remote, r.(found := r.found + [o]))
  {
    var n := r.(found := r.found + [o]);
    forall k | 0 <= k < |n.found| && n.found[k].Some? ensures Known(remote, specs[k], n.found[k].value) {
      assert k < |r.found| ==> n.found[k] == r.found[k];
    }
    assert PhaseFacts(specs, remote, n);
  }

  lemma CacheKeepsFacts(specs: seq<Spec>, remote: seq<Issue>, r: Run, a: Answer)
    requires Facts(specs, remote, r) && r.phase.Caching?
    ensures Facts(specs, remote, Cache(specs, remote, r, a)) && SameMode(r, Cache(specs, remote, r, a))
  {
    if |r.found| < |specs| {
      var spec := specs[|r.found|];
      assert Listed(remote, r.rows, spec);
      var listed := Titled(r.rows, spec.title);
      if listed == [] {
        FoundGrows(specs, remote, r, None);
      } else if a == Reply && Ready(spec, listed[0], listed[0].number) {
        assert listed == [listed[0]];
        assert Known(remote, spec, listed[0]);
        FoundGrows(specs, remote, r, Some(listed[0]));
      }
    }
  }

  lemma ResultGrows(specs: seq<Spec>, remote: seq<Issue>, r: Run, i: Issue)
    requires Facts(specs, remote, r) && (r.phase.Building? || r.phase.Confirming?) && |r.result| < |specs|
    requires Known(remote, specs[|r.result|], i)
    ensures Facts(specs, remote, r.(phase := Building, result := r.result + [i]))
  {
  }

  lemma TakeKeepsFacts(specs: seq<Spec>, remote: seq<Issue>, r: Run)
    requires Facts(specs, remote, r) && r.phase.Building? && !Creates(specs, r)
    ensures Facts(specs, remote, Take(specs, r)) && SameMode(r, Take(specs, r))
  {
    if |r.result| < |specs| {
      ResultGrows(specs, remote, r, r.found[|r.result|].value);
    }
  }

  lemma ConfirmKeepsFacts(specs: seq<Spec>, remote: seq<Issue>, r: Run, number: int)
    requires Facts(specs, remote, r) && r.phase == Confirming(number)
    ensures Facts(specs, remote, Confirm(specs, remote, r, number)) && SameMode(r, Confirm(specs, remote, r, number))
  {
    var i := ReadComplete(remote, number).value;
    if Ready(specs[|r.result|], i, i.number) {
      assert Good(specs[|r.result|], i);
      ResultGrows(specs, remote, r, i);
    } else {
      AbortKeepsFacts(specs, remote, r, NotReady);
    }
  }

  lemma LookKeepsFacts(specs: seq<Spec>, remote: seq<Issue>, r: Run, a: Answer)
    requires Facts(specs, remote, r) && r.phase.BarrierListing?
    ensures Facts(specs, remote, Look(specs, remote, r, a)) && SameMode(r, Look(specs, remote, r, a))
  {
    if |r.barrier| >= |specs| {
      assert r.barrier == r.result;
    }
  }

  lemma CompareKeepsFacts(specs: seq<Spec>, remote: seq<Issue>, r: Run, number: int)
    requires Facts(specs, remote, r) && r.phase == BarrierReading(number)
    ensures Facts(specs, remote, Compare(specs, remote, r, number)) && SameMode(r, Compare(specs, remote, r, number))
  {
    var k := |r.barrier|;
    if ReadComplete(remote, number) == Some(r.result[k]) {
      assert r.barrier + [r.result[k]] <= r.result;
    }
    AbortKeepsFacts(specs, remote, r, ReadbackUnavailable);
    AbortKeepsFacts(specs, remote, r, NotReady);
    AbortKeepsFacts(specs, remote, r, ConcurrentChange);
  }

  lemma ReadKeepsFacts(specs: seq<Spec>, remote: seq<Issue>, r: Run, a: Answer)
    requires Facts(specs, remote, r) && Active(r) && !r.phase.Releasing? && !Creates(specs, r)
    ensures Facts(specs, remote, Read(specs, remote, r, a)) && SameMode(r, Read(specs, remote, r, a))
  {
    match r.phase
    case Listing =>
      AbortKeepsFacts(specs, remote, r, ReadbackUnavailable);
      ListKeepsFacts(specs, remote, r);
    case Caching =>
      CacheKeepsFacts(specs, remote, r, a);
    case Building =>
      TakeKeepsFacts(specs, remote, r);
    case Confirming(number) =>
      AbortKeepsFacts(specs, remote, r, ReadbackUnavailable);
      ConfirmKeepsFacts(specs, remote, r, number);
    case BarrierListing =>
      LookKeepsFacts(specs, remote, r, a);
    case BarrierReading(number) =>
      AbortKeepsFacts(specs, remote, r, ReadbackUnavailable);
      CompareKeepsFacts(specs, remote, r, number);
    case _ =>
  }

  // ----- Creation -----------------------------------------------------------------------------------

  // What another run knows stays true when a missing ticket is created.
  lemma OthersKeepFacts(specs: seq<Spec>, remote: seq<Issue>, made: Issue, r: Run)
    requires Facts(specs, remote, r) && !Writes(r) && Absent(remote, made.title)
    ensures Facts(specs, remote + [made], r)
  {
    forall spec, i | Known(remote, spec, i) ensures Known(remote + [made], spec, i) {
      KnownStays(remote, made, spec, i);
    }
    if r.phase.Caching? && r.readOnly {
      forall k | 0 <= k < |specs| ensures Listed(remote + [made], r.rows, specs[k]) {
        assert Listed(remote, r.rows, specs[k]);
        AddedTitled(remote, made, specs[k].title);
        if !Absent(r.rows, specs[k].title) {
          AddedReadComplete(remote, made, Titled(r.rows, specs[k].title)[0].number);
        }
      }
    }
  }

  lemma CreatorKeepsFacts(specs: seq<Spec>, remote: seq<Issue>, made: Issue, r: Run, a: Answer)
    requires DistinctTitles(specs) && Facts(specs, remote, r) && Creates(specs, r) && !r.readOnly
    requires Made(remote, specs[|r.result|].title, made)
    ensures Facts(specs, remote + [made],
                  if a == Reply then r.(phase := Confirming(made.number)) else Abort(r, ReadbackUnavailable))
  {
    var k := |r.result|;
    assert Absent(remote, specs[k].title);
    forall spec, i | Known(remote, spec, i) ensures Known(remote + [made], spec, i) {
      KnownStays(remote, made, spec, i);
    }
    AddedTitled(remote, made, specs[k].title);
    AddedReadComplete(remote, made, made.number);
    forall j | k < j < |specs| && r.found[j].None? ensures Absent(remote + [made], specs[j].title) {
      AddedTitled(remote, made, specs[j].title);
    }
  }

  // ----- Steps of the whole -------------------------------------------------------------------------

  lemma OneRunMoves(specs: seq<Spec>, w: World, p: nat, n: Run)
    requires Safe(specs, w) && p < |w.runs|
    requires Facts(specs, w.remote, n) && (Writes(n) ==> w.lock == Some(p))
    ensures Safe(specs, Put(w, p, n))
  {
  }

  lemma LockMoves(specs: seq<Spec>, w: World, lock: Option<nat>)
    requires Safe(specs, w) && forall p :: 0 <= p < |w.runs| ==> !Writes(w.runs[p])
    ensures Safe(specs, w.(lock := lock))
  {
  }

  lemma BeginIsSafe(specs: seq<Spec>, w: World, p: nat, a: Answer)
    requires Safe(specs, w) && p < |w.runs| && w.runs[p].phase.Start?
    ensures Safe(specs, Begin(w, p, a))
  {
    var r := w.runs[p];
    assert Facts(specs, w.remote, r);
    if r.rightRepository && r.approved && !r.readOnly && w.lock.None? && a != Fails {
      LockMoves(specs, w, Some(p));
      OneRunMoves(specs, w.(lock := Some(p)), p,
        if a == FailsAfter then r.(phase := Done(Error(LockUnavailable))) else r.(phase := Listing));
    } else if r.rightRepository && r.readOnly {
      OneRunMoves(specs, w, p, r.(phase := Listing));
    } else {
      OneRunMoves(specs, w, p, r.(phase := Done(Error(ApprovalRequired))));
      OneRunMoves(specs, w, p, r.(phase := Done(Error(LockUnavailable))));
    }
  }

  lemma ReleaseIsSafe(specs: seq<Spec>, w: World, p: nat, removes: bool, closes: bool)
    requires Safe(specs, w) && p < |w.runs| && w.runs[p].phase.Releasing?
    ensures Safe(specs, Release(w, p, removes, closes))
  {
    var r := w.runs[p];
    assert Facts(specs, w.remote, r) && Writes(r) && w.lock == Some(p);
    var n := r.(phase := Done(if closes then r.phase.pending else Error(LockNotReleased)));
    OneRunMoves(specs, w, p, n);
    if removes {
      LockMoves(specs, Put(w, p, n), None);
    }
  }

  lemma CreateIsSafe(specs: seq<Spec>, w: World, p: nat, a: Answer, made: Issue)
    requires DistinctTitles(specs) && Safe(specs, w) && p < |w.runs| && Creates(specs, w.runs[p])
    requires Made(w.remote, specs[|w.runs[p].result|].title, made)
    ensures Safe(specs, Create(specs, w, p, a, made))
  {
    var r := w.runs[p];
    assert Facts(specs, w.remote, r) && Writes(r);
    if a == Fails {
      AbortKeepsFacts(specs, w.remote, r, ReadbackUnavailable);
      OneRunMoves(specs, w, p, Abort(r, ReadbackUnavailable));
    } else {
      var v := Create(specs, w, p, a, made);
      CreatorKeepsFacts(specs, w.remote, made, r, a);
      forall q | 0 <= q < |w.runs| && q != p ensures Facts(specs, v.remote, v.runs[q]) {
        OthersKeepFacts(specs, w.remote, made, w.runs[q]);
      }
      forall t | t in v.created ensures !Absent(v.remote, t) {
        AddedTitled(w.remote, made, t);
      }
    }
  }

  lemma StepIsSafe(specs: seq<Spec>, w: World, m: Move, v: World)
    requires DistinctTitles(specs) && Safe(specs, w) && Next(specs, w, m, v)
    ensures Safe(specs, v) && |v.runs| == |w.runs|
  {
    match m
    case Unlock => LockMoves(specs, w, None);
    case Crash(p) =>
      assert Facts(specs, w.remote, w.runs[p]);
      OneRunMoves(specs, w, p, w.runs[p].(phase := Crashed));
    case ByRun(p, a, closes, made) =>
      var r := w.runs[p];
      assert Facts(specs, w.remote, r);
      if r.phase.Done? || r.phase.Crashed? {
      } else if r.phase.Start? {
        BeginIsSafe(specs, w, p, a);
      } else if r.phase.Releasing? {
        ReleaseIsSafe(specs, w, p, a != Fails, closes);
      } else if Creates(specs, r) {
        CreateIsSafe(specs, w, p, a, made);
      } else {
        ReadKeepsFacts(specs, w.remote, r, a);
        OneRunMoves(specs, w, p, Read(specs, w.remote, r, a));
      }
  }

  // ----- Main results -------------------------------------------------------------------------------

  lemma {:induction false} EveryWorldIsSafe(specs: seq<Spec>, worlds: seq<World>, moves: seq<Move>)
    requires DistinctTitles(specs) && IsRun(specs, worlds, moves)
    ensures forall k :: 0 <= k < |worlds| ==> Safe(specs, worlds[k])
  {
    for k := 0 to |moves|
      invariant forall l :: 0 <= l <= k ==> Safe(specs, worlds[l])
    {
      StepIsSafe(specs, worlds[k], moves[k], worlds[k + 1]);
    }
  }

  // At most one issue per ticket title is ever created, however many runs there are.
  lemma NoTitleIsCreatedTwice(specs: seq<Spec>, worlds: seq<World>, moves: seq<Move>)
    requires DistinctTitles(specs) && IsRun(specs, worlds, moves)
    ensures forall k :: 0 <= k < |worlds| ==> NoDuplicates(worlds[k].created)
  {
    EveryWorldIsSafe(specs, worlds, moves);
  }

  // A repository that changes at a step: one issue is added, by a run that holds the lock and is approved, under a
  // ticket's title that no issue has, and while every existing ticket is alone and satisfies its contract.
  lemma CreationNeedsSoundTickets(specs: seq<Spec>, w: World, m: Move, v: World)
    requires DistinctTitles(specs) && Safe(specs, w) && Next(specs, w, m, v) && v.remote != w.remote
    ensures m.ByRun? && w.lock == Some(m.p)
    ensures !w.runs[m.p].readOnly && w.runs[m.p].approved && w.runs[m.p].rightRepository
    ensures Sound(w.remote, specs) && v.remote == w.remote + [m.made]
    ensures Absent(w.remote, m.made.title) && exists k :: 0 <= k < |specs| && specs[k].title == m.made.title
  {
    var r := w.runs[m.p];
    assert Facts(specs, w.remote, r);
    assert Creates(specs, r) && Writes(r);
    var n := |r.result|;
    assert specs[n].title == m.made.title;
    forall k | 0 <= k < |specs| ensures SoundTitle(w.remote, specs[k]) {
      if r.found[k].Some? {
        assert Known(w.remote, specs[k], r.found[k].value);
      } else if k < n {
        assert Known(w.remote, specs[k], r.result[k]);
      }
    }
  }

  predicate Succeeded(w: World, p: nat, entries: seq<Issue>) {
    p < |w.runs| && w.runs[p].phase == Done(Entries(entries))
  }

  lemma CompleteStopsCreation(specs: seq<Spec>, w: World, m: Move, v: World, entries: seq<Issue>)
    requires DistinctTitles(specs) && Safe(specs, w) && Next(specs, w, m, v) && Complete(w.remote, specs, entries)
    ensures v.remote == w.remote
  {
    forall k | 0 <= k < |specs| ensures !Absent(w.remote, specs[k].title) {
      assert Known(w.remote, specs[k], entries[k]);
    }
    if v.remote != w.remote {
      CreationNeedsSoundTickets(specs, w, m, v);
    }
  }

  // After one run has succeeded nothing is ever created again, and its result stands.
  lemma {:induction false} SuccessEndsCreation(specs: seq<Spec>, worlds: seq<World>, moves: seq<Move>, i: nat, p: nat,
                                               entries: seq<Issue>)
    requires DistinctTitles(specs) && IsRun(specs, worlds, moves)
    requires i < |worlds| && Succeeded(worlds[i], p, entries)
    ensures forall j :: i <= j < |worlds| ==> worlds[j].remote == worlds[i].remote && Succeeded(worlds[j], p, entries)
    ensures Complete(worlds[i].remote, specs, entries) && worlds[i].runs[p].rightRepository
  {
    EveryWorldIsSafe(specs, worlds, moves);
    assert Facts(specs, worlds[i].remote, worlds[i].runs[p]);
    for j := i to |moves|
      invariant forall l :: i <= l <= j ==> worlds[l].remote == worlds[i].remote && Succeeded(worlds[l], p, entries)
    {
      CompleteStopsCreation(specs, worlds[j], moves[j], worlds[j + 1], entries);
    }
  }

  // All runs that ever succeed return the same entries, whether they write or only read.
  lemma SuccessesAgree(specs: seq<Spec>, worlds: seq<World>, moves: seq<Move>, i: nat, p: nat, a: seq<Issue>,
                       j: nat, q: nat, b: seq<Issue>)
    requires DistinctTitles(specs) && IsRun(specs, worlds, moves)
    requires i < |worlds| && Succeeded(worlds[i], p, a) && j < |worlds| && Succeeded(worlds[j], q, b)
    ensures a == b
  {
    var last := |worlds| - 1;
    SuccessEndsCreation(specs, worlds, moves, i, p, a);
    SuccessEndsCreation(specs, worlds, moves, j, q, b);
    assert worlds[last].remote == worlds[i].remote == worlds[j].remote;
    CompleteIsUnique(worlds[last].remote, specs, a, b);
  }

  // ----- A run left alone ---------------------------------------------------------------------------

  // A service that gives every new issue a new number and the contract asked for.
  ghost predicate Serves(serve: (seq<Issue>, Spec) -> Issue, specs: seq<Spec>) {
    forall rows, k :: 0 <= k < |specs| ==> ServesOne(serve, rows, specs[k])
  }

  predicate ServesOne(serve: (seq<Issue>, Spec) -> Issue, rows: seq<Issue>, spec: Spec) {
    Made(rows, spec.title, serve(rows, spec)) && Good(spec, serve(rows, spec))
  }

  // Where a run stands that every call has been answered for, on tickets that are sound.
  predicate OnCourse(specs: seq<Spec>, remote: seq<Issue>, r: Run) {
    && ValidListing(remote)
    && match r.phase
       case Listing => Sound(remote, specs) && (r.readOnly ==> AllPresent(remote, specs))
       case Caching =>
         && Sound(remote, specs) && r.rows == remote
         && (r.readOnly ==> AllPresent(remote, specs) && None !in r.found)
       case Building => true
       case Confirming(n) =>
         |r.result| < |specs| && ReadComplete(remote, n).Some? && Good(specs[|r.result|], ReadComplete(remote, n).value)
       case BarrierListing => true
       case BarrierReading(n) => |r.barrier| < |r.result| && n == r.result[|r.barrier|].number
       case Releasing(o) => o.Entries?
       case Done(o) => o.Entries?
       case _ => false
  }

  function ToGo(n: int, r: Run): int {
    match r.phase
    case Listing => 5 * n + 6
    case Caching => 5 * n - |r.found| + 5
    case Building => 4 * n - 2 * |r.result| + 3
    case Confirming(_) => 4 * n - 2 * |r.result| + 2
    case BarrierListing => 2 * n - 2 * |r.barrier| + 2
    case BarrierReading(_) => 2 * n - 2 * |r.barrier| + 1
    case Releasing(_) => 1
    case _ => 0
  }

  lemma CachingStaysOnCourse(specs: seq<Spec>, remote: seq<Issue>, r: Run)
    requires Facts(specs, remote, r) && OnCourse(specs, remote, r) && r.phase.Caching?
    ensures var n := Cache(specs, remote, r, Reply);
            OnCourse(specs, remote, n) && ToGo(|specs|, n) < ToGo(|specs|, r)
  {
    if |r.found| < |specs| {
      var spec := specs[|r.found|];
      assert SoundTitle(remote, spec) && Listed(remote, r.rows, spec);
      var listed := Titled(remote, spec.title);
      if listed != [] {
        assert Good(spec, listed[0]) && ReadComplete(remote, listed[0].number) == Some(listed[0]);
      }
    }
  }

  lemma LookingStaysOnCourse(specs: seq<Spec>, remote: seq<Issue>, r: Run)
    requires Facts(specs, remote, r) && OnCourse(specs, remote, r) && r.phase.BarrierListing?
    ensures var n := Look(specs, remote, r, Reply);
            OnCourse(specs, remote, n) && ToGo(|specs|, n) < ToGo(|specs|, r)
  {
    if |r.barrier| < |specs| {
      assert Known(remote, specs[|r.barrier|], r.result[|r.barrier|]);
    }
  }

  lemma ComparingStaysOnCourse(specs: seq<Spec>, remote: seq<Issue>, r: Run, number: int)
    requires Facts(specs, remote, r) && OnCourse(specs, remote, r) && r.phase == BarrierReading(number)
    ensures var n := Compare(specs, remote, r, number);
            OnCourse(specs, remote, n) && ToGo(|specs|, n) < ToGo(|specs|, r)
  {
    var k := |r.barrier|;
    assert Known(remote, specs[k], r.result[k]);
    TitledMember(remote, specs[k].title);
    ListedReadsBack(remote, r.result[k]);
  }

  lemma ReadingStaysOnCourse(specs: seq<Spec>, remote: seq<Issue>, r: Run)
    requires Facts(specs, remote, r) && OnCourse(specs, remote, r)
    requires Active(r) && !r.phase.Releasing? && !Creates(specs, r)
    ensures var n := Read(specs, remote, r, Reply);
            OnCourse(specs, remote, n) && ToGo(|specs|, n) < ToGo(|specs|, r)
  {
    match r.phase
    case Listing =>
      forall k | 0 <= k < |specs| ensures |Titled(remote, specs[k].title)| <= 1 {
        assert SoundTitle(remote, specs[k]);
      }
    case Caching => CachingStaysOnCourse(specs, remote, r);
    case BarrierListing => LookingStaysOnCourse(specs, remote, r);
    case BarrierReading(number) => ComparingStaysOnCourse(specs, remote, r, number);
    case _ =>
  }

  lemma CreatingStaysOnCourse(specs: seq<Spec>, remote: seq<Issue>, r: Run, made: Issue)
    requires Facts(specs, remote, r) && OnCourse(specs, remote, r) && Creates(specs, r)
    requires Made(remote, specs[|r.result|].title, made) && Good(specs[|r.result|], made) && made.title != ""
    ensures var n := r.(phase := Confirming(made.number));
            OnCourse(specs, remote + [made], n) && ToGo(|specs|, n) < ToGo(|specs|, r)
  {
    AddedReadComplete(remote, made, made.number);
    forall i | i in remote ensures i.number != made.number {
      ListedReadsBack(remote, i);
    }
  }

  // One answered step of a run.
  function Answered(specs: seq<Spec>, w: World, p: nat, serve: (seq<Issue>, Spec) -> Issue): Move
    requires p < |w.runs|
  {
    var r := w.runs[p];
    var none := Issue(0, "", false, "", false, [], [], "");
    ByRun(p, Reply, true, if Creates(specs, r) then serve(w.remote, specs[|r.result|]) else none)
  }

  lemma AnsweredStep(specs: seq<Spec>, w: World, p: nat, serve: (seq<Issue>, Spec) -> Issue)
    requires Safe(specs, w) && p < |w.runs| && Active(w.runs[p]) && OnCourse(specs, w.remote, w.runs[p])
    requires Serves(serve, specs) && forall k :: 0 <= k < |specs| ==> specs[k].title != ""
    ensures var m := Answered(specs, w, p, serve); var v := Advance(specs, w, p, Reply, true, m.made);
            && Next(specs, w, m, v) && |v.runs| == |w.runs| && OnCourse(specs, v.remote, v.runs[p])
            && ToGo(|specs|, v.runs[p]) < ToGo(|specs|, w.runs[p])
  {
    var r := w.runs[p];
    assert Facts(specs, w.remote, r);
    if r.phase.Releasing? {
    } else if Creates(specs, r) {
      assert ServesOne(serve, w.remote, specs[|r.result|]);
      CreatingStaysOnCourse(specs, w.remote, r, serve(w.remote, specs[|r.result|]));
    } else {
      ReadingStaysOnCourse(specs, w.remote, r);
    }
  }

  // A run from one world to another.
  ghost predicate Leads(specs: seq<Spec>, worlds: seq<World>, moves: seq<Move>) {
    |worlds| == |moves| + 1 && forall k :: 0 <= k < |moves| ==> Next(specs, worlds[k], moves[k], worlds[k + 1])
  }

  lemma {:induction false} CourseEnds(specs: seq<Spec>, w: World, p: nat, serve: (seq<Issue>, Spec) -> Issue)
    returns (worlds: seq<World>, moves: seq<Move>, entries: seq<Issue>)
    requires DistinctTitles(specs) && Safe(specs, w) && p < |w.runs| && OnCourse(specs, w.remote, w.runs[p])
    requires Serves(serve, specs) && forall k :: 0 <= k < |specs| ==> specs[k].title != ""
    ensures Leads(specs, worlds, moves) && worlds[0] == w && Succeeded(worlds[|worlds| - 1], p, entries)
    ensures forall m :: m in moves ==> m.ByRun? && m.p == p
    ensures Complete(worlds[|worlds| - 1].remote, specs, entries)
    decreases ToGo(|specs|, w.runs[p])
  {
    if w.runs[p].phase.Done? {
      worlds, moves, entries := [w], [], w.runs[p].phase.outcome.entries;
      assert Facts(specs, w.remote, w.runs[p]);
    } else {
      AnsweredStep(specs, w, p, serve);
      var m := Answered(specs, w, p, serve);
      var v := Advance(specs, w, p, Reply, true, m.made);
      StepIsSafe(specs, w, m, v);
      worlds, moves, entries := CourseEnds(specs, v, p, serve);
      worlds, moves := [w] + worlds, [m] + moves;
    }
  }

  lemma BeginsOnCourse(specs: seq<Spec>, w: World, p: nat, m: Move)
    requires p < |w.runs| && w.runs[p].phase.Start? && m.ByRun? && m.p == p && m.answer == Reply && m.closes
    requires w.runs[p].rightRepository && (w.runs[p].readOnly || (w.runs[p].approved && w.lock.None?))
    requires ValidListing(w.remote) && Sound(w.remote, specs) && (w.runs[p].readOnly ==> AllPresent(w.remote, specs))
    ensures var v := Begin(w, p, Reply);
            Next(specs, w, m, v) && |v.runs| == |w.runs| && OnCourse(specs, v.remote, v.runs[p])
  {
  }

  // Left alone and answered, a run that may start succeeds where the single run of the program does: every existing
  // ticket is sound and, when it only reads, none is missing.
  lemma UndisturbedRunSucceeds(specs: seq<Spec>, w: World, p: nat, serve: (seq<Issue>, Spec) -> Issue)
    returns (worlds: seq<World>, moves: seq<Move>, entries: seq<Issue>)
    requires DistinctTitles(specs) && Safe(specs, w) && p < |w.runs| && w.runs[p].phase.Start?
    requires Serves(serve, specs) && forall k :: 0 <= k < |specs| ==> specs[k].title != ""
    requires w.runs[p].rightRepository && (w.runs[p].readOnly || (w.runs[p].approved && w.lock.None?))
    requires ValidListing(w.remote) && Sound(w.remote, specs) && (w.runs[p].readOnly ==> AllPresent(w.remote, specs))
    ensures Leads(specs, worlds, moves) && worlds[0] == w && Succeeded(worlds[|worlds| - 1], p, entries)
    ensures forall m :: m in moves ==> m.ByRun? && m.p == p
    ensures Complete(worlds[|worlds| - 1].remote, specs, entries)
  {
    var m := Answered(specs, w, p, serve);
    var v := Begin(w, p, Reply);
    BeginsOnCourse(specs, w, p, m);
    StepIsSafe(specs, w, m, v);
    worlds, moves, entries := CourseEnds(specs, v, p, serve);
    worlds, moves := [w] + worlds, [m] + moves;
  }
}
