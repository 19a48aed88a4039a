/** Every interleaving of reads, expiries and failures on one live attestation cycle. */
module LiveRuns {
  import opened Wrappers
  import opened LiveCycle

  datatype Event =
    | OnRead(thread: Thread, field: Field, repository: string, answers: Answers)
    | OnExpiry(thread: Thread, lease: Lease, closes: bool)

  function Apply(m: Model, e: Event): (Model, Option<Value>)
    requires Counting(m)
  {
    match e
    case OnRead(t, field, repository, a) => Read(m, t, field, repository, a)
    case OnExpiry(t, lease, closes) => (Expire(m, t, lease, closes), None)
  }

  // Every capture hands out a lease of its own.
  predicate Fresh(m: Model, e: Event) {
    e.OnRead? && e.answers.capture.Captured? ==> e.answers.capture.lease !in m.closable
  }

  const EMPTY := Model(map[], false, {}, multiset{}, [])

  // A run: the states passed through, the events between them and the value each event returned, if any. That every
  // state counts, so that the step is defined, is part of what is proved below.
  ghost predicate IsRun(states: seq<Model>, events: seq<Event>, results: seq<Option<Value>>) {
    && |states| == |events| + 1 && |results| == |events| && states[0] == EMPTY
    && forall k :: 0 <= k < |events| ==>
         && Fresh(states[k], events[k])
         && (Counting(states[k]) ==> (states[k + 1], results[k]) == Apply(states[k], events[k]))
  }

  // ----- Lease conservation -------------------------------------------------------------------

  // Each captured closable lease is held by exactly one state, or its close was attempted exactly once.
  ghost predicate Conserved(m: Model) {
    && (forall t :: t in m.live ==> m.live[t].lease in m.closable && m.closeCalls[m.live[t].lease] == 0)
    && (forall t, u :: t in m.live && u in m.live && t != u ==> m.live[t].lease != m.live[u].lease)
    && (forall l :: l in m.closable && m.closeCalls[l] == 0 ==> exists t :: t in m.live && m.live[t].lease == l)
    && (forall l :: m.closeCalls[l] <= 1 && (l in m.closeCalls ==> l in m.closable))
  }

  lemma ClosingConserves(m: Model, t: Thread, closes: bool)
    requires Conserved(m) && Counting(m) && t in m.live
    ensures Conserved(CloseHeld(m, t, closes)) && Counting(CloseHeld(m, t, closes))
  {
    var n := CloseHeld(m, t, closes);
    forall l | l in n.closable && n.closeCalls[l] == 0 ensures exists u :: u in n.live && n.live[u].lease == l {
      var u :| u in m.live && m.live[u].lease == l;
      assert u in n.live && n.live[u].lease == l;
    }
  }

  lemma StartingConserves(m: Model, t: Thread, a: Answers)
    requires Conserved(m) && Counting(m) && t !in m.live
    requires a.capture.Captured? ==> a.capture.lease !in m.closable
    ensures var (n, ok) := Start(m, t, a); Conserved(n) && Counting(n) && (ok <==> t in n.live)
  {
    if a.capture.Captured? && a.capture.canAssert && a.capture.canClose {
      var n := Installing(m, t, a.capture.snapshot, a.capture.lease);
      InstallingConserves(m, t, a.capture.snapshot, a.capture.lease);
      if !a.timerStarts {
        ClosingConserves(n, t, a.closes);
      }
    }
  }

  function Installing(m: Model, t: Thread, snapshot: Snapshot, lease: Lease): Model {
    m.(closable := m.closable + {lease}, live := m.live[t := Held(snapshot, lease, 0)],
       history := m.history + [Installed(t, snapshot, lease)])
  }

  lemma InstallingConserves(m: Model, t: Thread, snapshot: Snapshot, lease: Lease)
    requires Conserved(m) && Counting(m) && t !in m.live && lease !in m.closable
    ensures Conserved(Installing(m, t, snapshot, lease)) && Counting(Installing(m, t, snapshot, lease))
  {
    var n := Installing(m, t, snapshot, lease);
    forall l | l in n.closable && n.closeCalls[l] == 0 ensures exists u :: u in n.live && n.live[u].lease == l {
      var u :| if l == lease then u == t else u in m.live && m.live[u].lease == l;
      assert u in n.live && n.live[u].lease == l;
    }
  }

  lemma ConsumingConserves(m: Model, t: Thread, field: Field, repository: string, a: Answers)
    requires Conserved(m) && Counting(m) && t in m.live
    ensures var n := Consume(m, t, field, repository, a).0; Conserved(n) && Counting(n)
  {
    var n := Consume(m, t, field, repository, a).0;
    if t !in n.live {
      ClosingConserves(m, t, a.closes);
      ClosingConserves(m.(history := n.history), t, true);
    } else {
      forall l | l in n.closable && n.closeCalls[l] == 0 ensures exists u :: u in n.live && n.live[u].lease == l {
        var u :| u in m.live && m.live[u].lease == l;
        assert u in n.live && n.live[u].lease == l;
      }
    }
  }

  lemma BeginningConserves(m: Model, t: Thread, a: Answers)
    requires Conserved(m) && Counting(m)
    requires a.capture.Captured? ==> a.capture.lease !in m.closable
    ensures var (n, ok) := Begin(m, t, a); Conserved(n) && Counting(n) && (ok ==> t in n.live)
  {
    var begun := m.(history := m.history + [FirstRead(t)]);
    if t in m.live {
      ClosingConserves(begun, t, a.closesBefore);
      if a.stableBefore && a.closesBefore {
        StartingConserves(CloseHeld(begun, t, true), t, a);
      }
    } else {
      StartingConserves(begun, t, a);
    }
  }

  lemma StepConserves(m: Model, e: Event)
    requires Conserved(m) && Counting(m) && Fresh(m, e)
    ensures Conserved(Apply(m, e).0) && Counting(Apply(m, e).0)
  {
    match e
    case OnExpiry(t, lease, closes) =>
      if t in m.live && m.live[t].lease == lease {
        ClosingConserves(m, t, closes);
      }
    case OnRead(t, field, repository, a) =>
      if !m.cleanupFailed && field == Legacy {
        BeginningConserves(m, t, a);
        var (n, ok) := Begin(m, t, a);
        if ok {
          ConsumingConserves(n, t, field, repository, a);
        }
      } else if !m.cleanupFailed && t in m.live {
        ConsumingConserves(m, t, field, repository, a);
      }
  }

  // ----- Snapshot consistency -----------------------------------------------------------------

  // Where a thread stands: the snapshot captured at its latest first read and how many fields it has received.
  function Progress(h: seq<Record>, t: Thread): Option<Held> {
    if h == [] then None
    else
      var last, before := h[|h| - 1], h[..|h| - 1];
      if last.thread != t then Progress(before, t)
      else
        match last
        case FirstRead(_) => None
        case Installed(_, snapshot, lease) => Some(Held(snapshot, lease, 0))
        case Returned(_, _, _) =>
          match Progress(before, t)
          case None => None
          case Some(held) => Some(held.(nextField := held.nextField + 1))
  }

  // The value at `i` is the next field, in the fixed order, of the snapshot of the thread's latest first read.
  ghost predicate Consistent(h: seq<Record>, i: nat)
    requires i < |h| && h[i].Returned?
  {
    match Progress(h[..i], h[i].thread)
    case None => false
    case Some(held) =>
      && held.nextField == h[i].position < |FIELDS|
      && FIELDS[h[i].position] in held.snapshot.fields
      && h[i].value == held.snapshot.fields[FIELDS[h[i].position]]
  }

  ghost predicate ConsistentHistory(h: seq<Record>) {
    forall i :: 0 <= i < |h| && h[i].Returned? ==> Consistent(h, i)
  }

  // Installed states agree with the history.
  ghost predicate Tracked(m: Model) {
    && ConsistentHistory(m.history)
    && forall t :: t in m.live ==> Progress(m.history, t) == Some(m.live[t])
  }

  lemma AppendRecord(h: seq<Record>, r: Record)
    ensures forall t :: t != r.thread ==> Progress(h + [r], t) == Progress(h, t)
    ensures r.FirstRead? ==> Progress(h + [r], r.thread) == None
    ensures r.Installed? ==> Progress(h + [r], r.thread) == Some(Held(r.snapshot, r.lease, 0))
    ensures r.Returned? && Progress(h, r.thread).Some? ==>
              Progress(h + [r], r.thread) ==
              Some(Progress(h, r.thread).value.(nextField := Progress(h, r.thread).value.nextField + 1))
    ensures ConsistentHistory(h) && (r.Returned? ==> Consistent(h + [r], |h|)) ==> ConsistentHistory(h + [r])
  {
    var g := h + [r];
    assert g[..|g| - 1] == h;
    forall i | 0 <= i < |h| ensures g[..i] == h[..i] {
    }
  }

  lemma ConsumingIsTracked(m: Model, t: Thread, field: Field, repository: string, a: Answers)
    requires Tracked(m) && Counting(m) && t in m.live
    ensures Tracked(Consume(m, t, field, repository, a).0)
  {
    var h := m.live[t];
    var (n, value) := Consume(m, t, field, repository, a);
    if value.Some? {
      var r := Returned(t, h.nextField, value.value);
      AppendRecord(m.history, r);
      assert (m.history + [r])[..|m.history|] == m.history;
      assert Consistent(m.history + [r], |m.history|);
    }
  }

  lemma StartingIsTracked(m: Model, t: Thread, a: Answers)
    requires Tracked(m) && t !in m.live
    ensures Tracked(Start(m, t, a).0)
  {
    if a.capture.Captured? && a.capture.canAssert && a.capture.canClose {
      AppendRecord(m.history, Installed(t, a.capture.snapshot, a.capture.lease));
      var n := Installing(m, t, a.capture.snapshot, a.capture.lease);
      assert Tracked(n);
    }
  }

  lemma BeginningIsTracked(m: Model, t: Thread, a: Answers)
    requires Tracked(m)
    ensures Tracked(Begin(m, t, a).0)
  {
    AppendRecord(m.history, FirstRead(t));
    var begun := m.(history := m.history + [FirstRead(t)], live := m.live - {t});
    assert Tracked(begun);
    var added := m.(history := begun.history);
    var closed := if t in m.live then CloseHeld(added, t, a.closesBefore) else added;
    assert closed.live == begun.live && closed.history == begun.history;
    StartingIsTracked(closed, t, a);
  }

  lemma StepIsTracked(m: Model, e: Event)
    requires Tracked(m) && Conserved(m) && Counting(m) && Fresh(m, e)
    ensures Tracked(Apply(m, e).0)
  {
    match e
    case OnExpiry(t, lease, closes) =>
    case OnRead(t, field, repository, a) =>
      if !m.cleanupFailed && field == Legacy {
        BeginningConserves(m, t, a);
        BeginningIsTracked(m, t, a);
        var (n, ok) := Begin(m, t, a);
        if ok {
          ConsumingIsTracked(n, t, field, repository, a);
        }
      } else if !m.cleanupFailed && t in m.live {
        ConsumingIsTracked(m, t, field, repository, a);
      }
  }

  // What a step returns is what it records, after a successful stability check, for the field that was asked for.
  ghost predicate ReturnsRecorded(m: Model, n: Model, value: Option<Value>, t: Thread, field: Field, a: Answers) {
    && m.history <= n.history
    && if value.Some? then
         && a.stable && |m.history| < |n.history|
         && var r := n.history[|n.history| - 1];
            && r.Returned? && r.thread == t && r.value == value.value
            && r.position < |FIELDS| && FIELDS[r.position] == field
            && (r.position == |FIELDS| - 1 ==> a.stableAtEnd)
       else forall i :: |m.history| <= i < |n.history| ==> !n.history[i].Returned?
  }

  lemma ConsumptionRecordsReturns(m: Model, t: Thread, field: Field, repository: string, a: Answers)
    requires Counting(m) && t in m.live
    ensures var (n, value) := Consume(m, t, field, repository, a);
            && ReturnsRecorded(m, n, value, t, field, a)
            && (value.None? ==> n.history == m.history)
  {
  }

  // Only first reads and captures are added.
  ghost predicate Quiet(h: seq<Record>, g: seq<Record>) {
    h <= g && forall i :: |h| <= i < |g| ==> !g[i].Returned?
  }

  lemma StartReturnsNothing(m: Model, t: Thread, a: Answers)
    ensures Quiet(m.history, Start(m, t, a).0.history)
  {
  }

  lemma BeginReturnsNothing(m: Model, t: Thread, a: Answers)
    ensures Quiet(m.history, Begin(m, t, a).0.history)
  {
    var begun := m.(history := m.history + [FirstRead(t)]);
    var closed := if t in m.live then CloseHeld(begun, t, a.closesBefore) else begun;
    StartReturnsNothing(closed, t, a);
    assert Quiet(m.history, closed.history) && Quiet(closed.history, Start(closed, t, a).0.history);
  }

  lemma ReadRecordsReturns(m: Model, t: Thread, field: Field, repository: string, a: Answers)
    requires Conserved(m) && Counting(m)
    requires a.capture.Captured? ==> a.capture.lease !in m.closable
    ensures var (n, value) := Read(m, t, field, repository, a);
            ReturnsRecorded(m, n, value, t, field, a) && (value.Some? ==> !m.cleanupFailed)
  {
    if m.cleanupFailed {
    } else if field == Legacy {
      BeginningConserves(m, t, a);
      BeginReturnsNothing(m, t, a);
      var (begun, ok) := Begin(m, t, a);
      if ok {
        ConsumptionRecordsReturns(begun, t, field, repository, a);
        var (n, value) := Consume(begun, t, field, repository, a);
      }
    } else if t in m.live {
      ConsumptionRecordsReturns(m, t, field, repository, a);
    }
  }

  // ----- Runs ---------------------------------------------------------------------------------

  lemma {:induction false} EveryRunIsSafe(states: seq<Model>, events: seq<Event>, results: seq<Option<Value>>)
    requires IsRun(states, events, results)
    ensures forall k :: 0 <= k < |states| ==> Counting(states[k]) && Conserved(states[k]) && Tracked(states[k])
  {
    for n := 0 to |events|
      invariant forall k :: 0 <= k <= n ==> Counting(states[k]) && Conserved(states[k]) && Tracked(states[k])
    {
      StepConserves(states[n], events[n]);
      StepIsTracked(states[n], events[n]);
    }
  }

  // Once a cleanup error is recorded, no event returns a value and nothing is added to the history again.
  lemma {:induction false} FailStop(states: seq<Model>, events: seq<Event>, results: seq<Option<Value>>, from: nat)
    requires IsRun(states, events, results) && from < |states| && states[from].cleanupFailed
    ensures forall k :: from <= k < |states| ==> states[k].cleanupFailed && states[k].history == states[from].history
    ensures forall k :: from <= k < |results| ==> results[k] == None
  {
    EveryRunIsSafe(states, events, results);
    for n := from to |events|
      invariant forall k :: from <= k <= n ==> states[k].cleanupFailed && states[k].history == states[from].history
      invariant forall k :: from <= k < n ==> results[k] == None
    {
      assert (states[n + 1], results[n]) == Apply(states[n], events[n]);
    }
  }

  // ----- What the history says about one evaluation -----------------------------------------

  function ReturnsOf(h: seq<Record>, t: Thread): nat {
    if h == [] then 0
    else ReturnsOf(h[..|h| - 1], t) + if h[|h| - 1].Returned? && h[|h| - 1].thread == t then 1 else 0
  }

  // The standing of a thread comes from one capture with no later first read, and counts the values since then.
  lemma {:induction false} ProgressMeaning(h: seq<Record>, t: Thread) returns (j: nat)
    requires Progress(h, t).Some?
    ensures var held := Progress(h, t).value;
            && j < |h| && h[j] == Installed(t, held.snapshot, held.lease)
            && (forall k :: j < k < |h| && h[k].thread == t ==> h[k].Returned?)
            && ReturnsOf(h[j + 1..], t) == held.nextField
  {
    var n := |h| - 1;
    if h[n].thread == t && h[n].Installed? {
      j := n;
    } else {
      j := ProgressMeaning(h[..n], t);
      assert h[j + 1..][..n - j - 1] == h[..n][j + 1..];
    }
  }

  // A complete evaluation: the value at position p is preceded, since the same capture, by exactly the p values
  // before it, and all of them come from that one snapshot.
  lemma ValuesShareOneSnapshot(m: Model, i: nat) returns (j: nat)
    requires Tracked(m) && i < |m.history| && m.history[i].Returned?
    ensures j < i && m.history[j].Installed? && m.history[j].thread == m.history[i].thread
    ensures forall k :: j < k < i && m.history[k].thread == m.history[i].thread ==> m.history[k].Returned?
    ensures ReturnsOf(m.history[j + 1..i], m.history[i].thread) == m.history[i].position
    ensures var fields := m.history[j].snapshot.fields;
            && m.history[i].position < |FIELDS| && FIELDS[m.history[i].position] in fields
            && m.history[i].value == fields[FIELDS[m.history[i].position]]
  {
    var before := m.history[..i];
    assert Consistent(m.history, i);
    j := ProgressMeaning(before, m.history[i].thread);
    assert before[j + 1..] == m.history[j + 1..i];
  }

  // Over every run: a value comes back only from a read with no cleanup error before it and a successful stability
  // check in the same step, and it is the field that was asked for, in the snapshot that the thread's latest first read
  // captured, with exactly the fields before it in the fixed order returned since.
  lemma EveryReturnedValue(states: seq<Model>, events: seq<Event>, results: seq<Option<Value>>, k: nat)
    returns (j: nat, i: nat)
    requires IsRun(states, events, results) && k < |results| && results[k].Some?
    ensures events[k].OnRead? && events[k].answers.stable && !states[k].cleanupFailed
    ensures var h, t := states[k + 1].history, events[k].thread;
            && j < i == |h| - 1 && h[i].Returned? && h[i].thread == t && h[i].value == results[k].value
            && h[i].position < |FIELDS| && FIELDS[h[i].position] == events[k].field
            && h[j].Installed? && h[j].thread == t && (forall l :: j < l < i && h[l].thread == t ==> h[l].Returned?)
            && ReturnsOf(h[j + 1..i], t) == h[i].position
            && events[k].field in h[j].snapshot.fields && h[j].snapshot.fields[events[k].field] == results[k].value
            && h[j].snapshot.repository == events[k].repository
  {
    EveryRunIsSafe(states, events, results);
    var e := events[k];
    assert Fresh(states[k], e) && (states[k + 1], results[k]) == Apply(states[k], e);
    ReadRecordsReturns(states[k], e.thread, e.field, e.repository, e.answers);
    i := |states[k + 1].history| - 1;
    j := ValuesShareOneSnapshot(states[k + 1], i);
    SubjectIsRead(states[k], e.thread, e.field, e.repository, e.answers);
    SameStanding(states[k + 1], i, j);
  }

  // A returned value is of the repository that was asked for.
  lemma SubjectIsRead(m: Model, t: Thread, field: Field, repository: string, a: Answers)
    requires Conserved(m) && Counting(m) && Tracked(m) && Read(m, t, field, repository, a).1.Some?
    requires a.capture.Captured? ==> a.capture.lease !in m.closable
    ensures var h := Read(m, t, field, repository, a).0.history;
            && |h| > 0 && Progress(h[..|h| - 1], t).Some?
            && Progress(h[..|h| - 1], t).value.snapshot.repository == repository
  {
    var n := m;
    if field == Legacy {
      BeginningConserves(m, t, a);
      BeginningIsTracked(m, t, a);
      n := Begin(m, t, a).0;
    }
    var r := Returned(t, n.live[t].nextField, Read(m, t, field, repository, a).1.value);
    assert Read(m, t, field, repository, a).0.history == n.history + [r];
    assert (n.history + [r])[..|n.history|] == n.history;
  }

  // The capture from which a value comes is the one that the thread stands on.
  lemma SameStanding(m: Model, i: nat, j: nat)
    requires i < |m.history| && j < i && m.history[j].Installed? && m.history[j].thread == m.history[i].thread
    requires forall k :: j < k < i && m.history[k].thread == m.history[i].thread ==> m.history[k].Returned?
    requires Progress(m.history[..i], m.history[i].thread).Some?
    ensures Progress(m.history[..i], m.history[i].thread).value.snapshot == m.history[j].snapshot
  {
    var before, t := m.history[..i], m.history[i].thread;
    var l := ProgressMeaning(before, t);
    assert before[l] == m.history[l] && before[j] == m.history[j];
  }

  // ----- Closes that fail -------------------------------------------------------------------

  // How an event answers the closes that it may attempt.
  predicate ClosesAll(e: Event, answer: bool) {
    match e
    case OnExpiry(_, _, closes) => closes == answer
    case OnRead(_, _, _, a) => a.closesBefore == answer && a.closesRejected == answer && a.closes == answer
  }

  // A cleanup error is added exactly when a close was attempted and failed, where all closes are answered alike.
  ghost predicate FailureRecorded(m: Model, n: Model, closing: bool, failing: bool) {
    && |m.closeCalls| <= |n.closeCalls| && (m.cleanupFailed ==> n.cleanupFailed)
    && (closing ==> n.cleanupFailed == m.cleanupFailed)
    && (failing && |m.closeCalls| < |n.closeCalls| ==> n.cleanupFailed)
    && (|m.closeCalls| == |n.closeCalls| ==> n.cleanupFailed == m.cleanupFailed)
  }

  lemma BeginRecordsFailure(m: Model, t: Thread, a: Answers, closing: bool, failing: bool)
    requires closing ==> a.closesBefore && a.closesRejected && a.closes
    requires failing ==> !a.closesBefore && !a.closesRejected && !a.closes
    ensures FailureRecorded(m, Begin(m, t, a).0, closing, failing)
  {
    var begun := m.(history := m.history + [FirstRead(t)]);
    var closed := if t in m.live then CloseHeld(begun, t, a.closesBefore) else begun;
    assert FailureRecorded(m, closed, closing, failing);
    StartRecordsFailure(closed, t, a, closing, failing);
  }

  lemma StartRecordsFailure(m: Model, t: Thread, a: Answers, closing: bool, failing: bool)
    requires closing ==> a.closesRejected && a.closes
    requires failing ==> !a.closesRejected && !a.closes
    ensures FailureRecorded(m, Start(m, t, a).0, closing, failing)
  {
  }

  lemma ConsumeRecordsFailure(m: Model, t: Thread, field: Field, repository: string, a: Answers, closing: bool,
                              failing: bool)
    requires Counting(m) && t in m.live && (closing ==> a.closes) && (failing ==> !a.closes)
    ensures FailureRecorded(m, Consume(m, t, field, repository, a).0, closing, failing)
  {
  }

  lemma FailuresAreRecorded(m: Model, e: Event)
    requires Counting(m) && Conserved(m) && Fresh(m, e)
    ensures FailureRecorded(m, Apply(m, e).0, ClosesAll(e, true), ClosesAll(e, false))
  {
    var closing, failing := ClosesAll(e, true), ClosesAll(e, false);
    match e
    case OnExpiry(_, _, _) =>
    case OnRead(t, field, repository, a) =>
      if !m.cleanupFailed && field == Legacy {
        BeginningConserves(m, t, a);
        BeginRecordsFailure(m, t, a, closing, failing);
        var (n, ok) := Begin(m, t, a);
        if ok {
          ConsumeRecordsFailure(n, t, field, repository, a, closing, failing);
        }
      } else if !m.cleanupFailed && t in m.live {
        ConsumeRecordsFailure(m, t, field, repository, a, closing, failing);
      }
  }

  // A timer closes the snapshot whose lease it was armed for, and only while a thread holds it.
  lemma ExpiryCloses(m: Model, t: Thread, lease: Lease, closes: bool)
    ensures var n := Expire(m, t, lease, closes);
            if t in m.live && m.live[t].lease == lease
            then n.live == m.live - {t} && n.closeCalls == m.closeCalls + multiset{lease}
                 && (n.cleanupFailed <==> m.cleanupFailed || !closes)
            else n == m
  {
  }

  // ----- Reads that must succeed ------------------------------------------------------------

  // When exactly a read returns a value, and which.
  lemma ReadSucceeds(m: Model, t: Thread, field: Field, repository: string, a: Answers)
    requires Counting(m)
    ensures var value := Read(m, t, field, repository, a).1;
            value.Some? <==>
            && !m.cleanupFailed && a.stable
            && match field
               case Legacy =>
                 && (t in m.live ==> a.stableBefore && a.closesBefore)
                 && a.capture.Captured? && a.capture.canAssert && a.capture.canClose && a.timerStarts
                 && a.capture.snapshot.repository == repository && Legacy in a.capture.snapshot.fields
               case DurableState =>
                 t in m.live && m.live[t].nextField == 1 && Offers(m.live[t].snapshot, field, repository)
               case WriterFence =>
                 t in m.live && m.live[t].nextField == 2 && Offers(m.live[t].snapshot, field, repository)
               case Ownership =>
                 && t in m.live && m.live[t].nextField == 3 && Offers(m.live[t].snapshot, field, repository)
                 && a.stableAtEnd && a.closes
  {
  }

  predicate Offers(s: Snapshot, field: Field, repository: string) {
    s.repository == repository && field in s.fields
  }

  // Every check, close and timer answers as it should.
  predicate Favourable(a: Answers) {
    a.stableBefore && a.closesBefore && a.timerStarts && a.stable && a.stableAtEnd && a.closes
  }

  ghost predicate SameFor(m: Model, n: Model, t: Thread) {
    (t in m.live <==> t in n.live) && (t in m.live ==> n.live[t] == m.live[t])
  }

  lemma OthersConsume(m: Model, u: Thread, field: Field, repository: string, a: Answers, t: Thread)
    requires Counting(m) && u in m.live && u != t
    ensures SameFor(m, Consume(m, u, field, repository, a).0, t)
  {
  }

  lemma OthersBegin(m: Model, u: Thread, a: Answers, t: Thread)
    requires u != t
    ensures SameFor(m, Begin(m, u, a).0, t)
  {
    var begun := m.(history := m.history + [FirstRead(u)]);
    var closed := if u in m.live then CloseHeld(begun, u, a.closesBefore) else begun;
    assert SameFor(m, closed, t) && SameFor(closed, Start(closed, u, a).0, t);
  }

  // What leaves a thread's standing alone: whatever other threads do, and a timer for a lease that it does not hold.
  predicate Elsewhere(e: Event, t: Thread, lease: Lease) {
    e.thread != t || (e.OnExpiry? && e.lease != lease)
  }

  lemma OthersKeepStanding(m: Model, e: Event, t: Thread, lease: Lease)
    requires Conserved(m) && Counting(m) && Fresh(m, e) && Elsewhere(e, t, lease)
    requires t in m.live ==> m.live[t].lease == lease
    ensures SameFor(m, Apply(m, e).0, t)
  {
    match e
    case OnExpiry(u, lease, closes) =>
    case OnRead(u, field, repository, a) =>
      if !m.cleanupFailed && field == Legacy {
        BeginningConserves(m, u, a);
        OthersBegin(m, u, a, t);
        var (n, ok) := Begin(m, u, a);
        if ok {
          OthersConsume(n, u, field, repository, a, t);
        }
      } else if !m.cleanupFailed && u in m.live {
        OthersConsume(m, u, field, repository, a, t);
      }
  }

  // What a thread holds stays while only other threads and late timers act.
  lemma {:induction false} StaysHeld(states: seq<Model>, events: seq<Event>, results: seq<Option<Value>>, t: Thread,
                                     lease: Lease, from: nat, to: nat)
    requires IsRun(states, events, results) && from <= to < |states|
    requires t in states[from].live && states[from].live[t].lease == lease
    requires forall k :: from <= k < to ==> Elsewhere(events[k], t, lease)
    ensures t in states[to].live && states[to].live[t] == states[from].live[t]
  {
    EveryRunIsSafe(states, events, results);
    for n := from to to
      invariant t in states[n].live && states[n].live[t] == states[from].live[t]
    {
      OthersKeepStanding(states[n], events[n], t, lease);
    }
  }

  lemma NoFailureBefore(states: seq<Model>, events: seq<Event>, results: seq<Option<Value>>, k: nat, to: nat)
    requires IsRun(states, events, results) && k <= to < |states| && !states[to].cleanupFailed
    ensures !states[k].cleanupFailed
  {
    if states[k].cleanupFailed {
      FailStop(states, events, results, k);
    }
  }

  // One read of a thread's evaluation is event `k`.
  predicate ReadAt(events: seq<Event>, k: nat, t: Thread, field: Field, repository: string) {
    && k < |events| && events[k].OnRead? && events[k].thread == t && events[k].field == field
    && events[k].repository == repository && Favourable(events[k].answers)
  }

  // Whatever other threads and the timers of other leases do meanwhile: as long as no cleanup fails, four reads in the
  // fixed order for the snapshot's repository return its four fields, and the lease is closed afterwards.
  lemma FourReads(states: seq<Model>, events: seq<Event>, results: seq<Option<Value>>, t: Thread, s: Snapshot,
                  lease: Lease, at: seq<nat>)
    requires IsRun(states, events, results) && |at| == 4 && at[0] < at[1] < at[2] < at[3]
    requires ReadAt(events, at[0], t, Legacy, s.repository) && ReadAt(events, at[1], t, DurableState, s.repository)
    requires ReadAt(events, at[2], t, WriterFence, s.repository) && ReadAt(events, at[3], t, Ownership, s.repository)
    requires events[at[0]].answers.capture == Captured(s, lease, true, true)
    requires forall k :: at[0] < k < at[3] && k != at[1] && k != at[2] ==> Elsewhere(events[k], t, lease)
    requires !states[at[3]].cleanupFailed
    requires Legacy in s.fields && DurableState in s.fields && WriterFence in s.fields && Ownership in s.fields
    ensures results[at[0]] == Some(s.fields[Legacy]) && results[at[1]] == Some(s.fields[DurableState])
    ensures results[at[2]] == Some(s.fields[WriterFence]) && results[at[3]] == Some(s.fields[Ownership])
    ensures t !in states[at[3] + 1].live && states[at[3] + 1].closeCalls[lease] == 1
  {
    var k0, k1, k2, k3 := at[0], at[1], at[2], at[3];
    EveryRunIsSafe(states, events, results);
    NoFailureBefore(states, events, results, k0, k3);
    NoFailureBefore(states, events, results, k1, k3);
    NoFailureBefore(states, events, results, k2, k3);
    FirstOfFour(states[k0], t, s, lease, events[k0].answers);
    StaysHeld(states, events, results, t, lease, k0 + 1, k1);
    NextUntil(states, events, results, t, s, lease, DurableState, 1, k1, k2);
    NextUntil(states, events, results, t, s, lease, WriterFence, 2, k2, k3);
    LastInRun(states, events, results, t, s, lease, k3);
  }

  lemma NextUntil(states: seq<Model>, events: seq<Event>, results: seq<Option<Value>>, t: Thread, s: Snapshot,
                  lease: Lease, field: Field, position: nat, k: nat, next: nat)
    requires IsRun(states, events, results) && k < next < |states| && ReadAt(events, k, t, field, s.repository)
    requires forall l :: k < l < next ==> Elsewhere(events[l], t, lease)
    requires !states[k].cleanupFailed && t in states[k].live && states[k].live[t] == Held(s, lease, position)
    requires (position == 1 && field == DurableState) || (position == 2 && field == WriterFence)
    requires field in s.fields
    ensures results[k] == Some(s.fields[field])
    ensures t in states[next].live && states[next].live[t] == Held(s, lease, position + 1)
  {
    EveryRunIsSafe(states, events, results);
    NextOfFour(states[k], t, s, lease, field, position, events[k].answers);
    StaysHeld(states, events, results, t, lease, k + 1, next);
  }

  lemma LastInRun(states: seq<Model>, events: seq<Event>, results: seq<Option<Value>>, t: Thread, s: Snapshot,
                  lease: Lease, k: nat)
    requires IsRun(states, events, results) && ReadAt(events, k, t, Ownership, s.repository)
    requires !states[k].cleanupFailed && t in states[k].live && states[k].live[t] == Held(s, lease, 3)
    requires Ownership in s.fields
    ensures results[k] == Some(s.fields[Ownership])
    ensures t !in states[k + 1].live && states[k + 1].closeCalls[lease] == 1
  {
    EveryRunIsSafe(states, events, results);
    LastOfFour(states[k], t, s, lease, events[k].answers);
    assert (states[k + 1], results[k]) == Apply(states[k], events[k]);
  }

  lemma FirstOfFour(m: Model, t: Thread, s: Snapshot, lease: Lease, a: Answers)
    requires Counting(m) && !m.cleanupFailed && Favourable(a) && Legacy in s.fields
    requires a.capture == Captured(s, lease, true, true)
    ensures var (n, value) := Read(m, t, Legacy, s.repository, a);
            value == Some(s.fields[Legacy]) && t in n.live && n.live[t] == Held(s, lease, 1)
  {
  }

  lemma NextOfFour(m: Model, t: Thread, s: Snapshot, lease: Lease, field: Field, position: nat, a: Answers)
    requires Counting(m) && !m.cleanupFailed && Favourable(a) && field in s.fields
    requires t in m.live && m.live[t] == Held(s, lease, position)
    requires (position == 1 && field == DurableState) || (position == 2 && field == WriterFence)
    ensures var (n, value) := Read(m, t, field, s.repository, a);
            value == Some(s.fields[field]) && t in n.live && n.live[t] == Held(s, lease, position + 1)
  {
  }

  lemma LastOfFour(m: Model, t: Thread, s: Snapshot, lease: Lease, a: Answers)
    requires Conserved(m) && Counting(m) && !m.cleanupFailed && Favourable(a) && Ownership in s.fields
    requires t in m.live && m.live[t] == Held(s, lease, 3)
    ensures var (n, value) := Read(m, t, Ownership, s.repository, a);
            value == Some(s.fields[Ownership]) && t !in n.live && n.closeCalls[lease] == 1
  {
  }
}
