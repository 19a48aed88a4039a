/** The live attestation cycle: four ordered reads of one leased snapshot per thread, expiry, and fail-stop. */
module LiveCycle {
  import opened Wrappers

  type Thread = int
  type Lease = nat
  type Value = int

  datatype Field = Legacy | DurableState | WriterFence | Ownership

  const FIELDS: seq<Field> := [Legacy, DurableState, WriterFence, Ownership]

  // A field without a readback is absent from the map.
  datatype Snapshot = Snapshot(repository: string, fields: map<Field, Value>)

  datatype Capture = CaptureFails | Captured(snapshot: Snapshot, lease: Lease, canAssert: bool, canClose: bool)

  // What the outside world answers during one read: whether the stability checks hold, what a capture yields,
  // whether the timer starts, and whether each close succeeds.
  datatype Answers = Answers(stableBefore: bool, closesBefore: bool, capture: Capture, closesRejected: bool,
                             timerStarts: bool, stable: bool, stableAtEnd: bool, closes: bool)

  // ----- Specification on values -------------------------------------------------------------

  datatype Held = Held(snapshot: Snapshot, lease: Lease, nextField: nat)

  // The history of a cycle: first reads, captures that were installed, and values returned.
  datatype Record =
    | FirstRead(thread: Thread)
    | Installed(thread: Thread, snapshot: Snapshot, lease: Lease)
    | Returned(thread: Thread, position: nat, value: Value)

  datatype Model = Model(live: map<Thread, Held>, cleanupFailed: bool, closable: set<Lease>,
                         closeCalls: multiset<Lease>, history: seq<Record>)

  // Takes the state of a thread out and closes its lease.
  function CloseHeld(m: Model, t: Thread, closes: bool): Model
    requires t in m.live
  {
    m.(live := m.live - {t}, closeCalls := m.closeCalls + multiset{m.live[t].lease},
       cleanupFailed := m.cleanupFailed || !closes)
  }

  // A capture: installed under a timer, or refused. The flag says whether the read may go on.
  function Start(m: Model, t: Thread, a: Answers): (Model, bool) {
    match a.capture
    case CaptureFails => (m, false)
    case Captured(snapshot, lease, canAssert, canClose) =>
      var known := if canClose then m.(closable := m.closable + {lease}) else m;
      if !canAssert || !canClose then
        (if canClose then known.(closeCalls := known.closeCalls + multiset{lease},
                                 cleanupFailed := known.cleanupFailed || !a.closesRejected) else known, false)
      else
        var started := known.(live := known.live[t := Held(snapshot, lease, 0)],
                              history := known.history + [Installed(t, snapshot, lease)]);
        if a.timerStarts then (started, true) else (CloseHeld(started, t, a.closes), false)
  }

  // One field of the installed snapshot, if it is the next one and every check holds.
  function Consume(m: Model, t: Thread, field: Field, repository: string, a: Answers): (Model, Option<Value>)
    requires t in m.live && m.live[t].nextField < |FIELDS|
  {
    var h := m.live[t];
    if FIELDS[h.nextField] != field || !a.stable || h.snapshot.repository != repository || field !in h.snapshot.fields
       || (h.nextField == |FIELDS| - 1 && !a.stableAtEnd)
    then (CloseHeld(m, t, a.closes), None)
    else Deliver(m, t, h.snapshot.fields[field], a.closes)
  }

  // Returns a value of the installed snapshot; after the last field the snapshot is given up, and a failing close takes
  // the value back.
  function Deliver(m: Model, t: Thread, value: Value, closes: bool): (Model, Option<Value>)
    requires t in m.live && m.live[t].nextField < |FIELDS|
  {
    var h := m.live[t];
    var returned := m.(history := m.history + [Returned(t, h.nextField, value)]);
    if h.nextField + 1 < |FIELDS| then (returned.(live := m.live[t := h.(nextField := h.nextField + 1)]), Some(value))
    else if closes then (CloseHeld(returned, t, true), Some(value))
    else (CloseHeld(m, t, false), None)
  }

  ghost predicate Counting(m: Model) {
    forall t :: t in m.live ==> m.live[t].nextField < |FIELDS|
  }

  function Read(m: Model, t: Thread, field: Field, repository: string, a: Answers): (Model, Option<Value>)
    requires Counting(m)
  {
    if m.cleanupFailed then (m, None)
    else if field != Legacy then
      if t in m.live then Consume(m, t, field, repository, a) else (m, None)
    else
      var (started, ok) := Begin(m, t, a);
      if ok then Consume(started, t, field, repository, a) else (started, None)
  }

  // A first read: the previous state of the thread is checked and closed, then a new capture is started.
  function Begin(m: Model, t: Thread, a: Answers): (Model, bool) {
    var begun := m.(history := m.history + [FirstRead(t)]);
    var closed := if t in m.live then CloseHeld(begun, t, a.closesBefore) else begun;
    if t in m.live && (!a.stableBefore || !a.closesBefore) then (closed, false) else Start(closed, t, a)
  }

  // The timer of a state fires: nothing happens unless that very state is still installed.
  function Expire(m: Model, t: Thread, lease: Lease, closes: bool): Model {
    if t in m.live && m.live[t].lease == lease then CloseHeld(m, t, closes) else m
  }

  // ----- The objects --------------------------------------------------------------------------

  datatype Timer = NoTimer | Armed | Cancelled

  class LiveState {
    const snapshot: Snapshot
    const lease: Lease
    var nextField: nat
    var timer: Timer
    var closed: bool

    constructor (snapshot: Snapshot, lease: Lease)
      ensures this.snapshot == snapshot && this.lease == lease
      ensures nextField == 0 && timer == NoTimer && !closed
    {
      this.snapshot, this.lease := snapshot, lease;
      nextField, timer, closed := 0, NoTimer, false;
    }

    // Closes the lease once; `raised` when the close itself fails.
    method Close(closes: bool) returns (attempted: bool, raised: bool)
      modifies this
      ensures closed && nextField == old(nextField)
      ensures attempted == !old(closed) && raised == (attempted && !closes)
      ensures attempted && old(timer) == Armed ==> timer == Cancelled
    {
      if closed {
        return false, false;
      }
      closed := true;
      if timer == Armed {
        timer := Cancelled;
      }
      return true, !closes;
    }
  }

  class Cycle {
    var states: map<Thread, LiveState>
    var cleanupFailed: bool
    ghost var created: set<LiveState>
    ghost var closable: set<Lease>
    ghost var closeCalls: multiset<Lease>
    ghost var history: seq<Record>

    // Installed states are open and distinct; among all states ever created a lease names its state.
    ghost predicate Valid()
      reads this, created
    {
      && (forall t :: t in states ==> states[t] in created && !states[t].closed)
      && (forall t, u :: t in states && u in states && t != u ==> states[t] != states[u])
      && (forall s :: s in created ==> s.lease in closable)
      && (forall r, s :: r in created && s in created && r.lease == s.lease ==> r == s)
    }

    ghost function Abs(): Model
      reads this, created
      requires Valid()
    {
      Model(map t | t in states :: Held(states[t].snapshot, states[t].lease, states[t].nextField),
            cleanupFailed, closable, closeCalls, history)
    }

    constructor ()
      ensures Valid() && Abs() == Model(map[], false, {}, multiset{}, [])
    {
      states, cleanupFailed := map[], false;
      created, closable, closeCalls, history := {}, {}, multiset{}, [];
    }

    method CloseState(owner: Thread, state: LiveState, closes: bool)
      requires Valid() && owner in states && states[owner] == state
      modifies this, state
      ensures Valid() && created == old(created) && Abs() == CloseHeld(old(Abs()), owner, closes)
      ensures states == old(states) - {owner} && state.nextField == old(state.nextField)
    {
      states := states - {owner};
      var attempted, raised := state.Close(closes);
      if attempted {
        closeCalls := closeCalls + multiset{state.lease};
      }
      if raised {
        cleanupFailed := true;
      }
      assert Abs().live == old(Abs()).live - {owner};
    }

    // The timer callback; it may run at any time, also after the timer was cancelled.
    method Expired(owner: Thread, state: LiveState, closes: bool)
      requires Valid() && state in created
      modifies this, state
      ensures Valid() && created == old(created) && Abs() == Expire(old(Abs()), owner, state.lease, closes)
    {
      if owner !in states || states[owner] != state {
        return;
      }
      CloseState(owner, state, closes);
    }

    method StartState(owner: Thread, a: Answers) returns (ok: bool)
      requires Valid() && owner !in states
      requires a.capture.Captured? ==> a.capture.lease !in closable
      modifies this
      ensures Valid() && old(created) <= created && fresh(created - old(created))
      ensures (Abs(), ok) == Start(old(Abs()), owner, a)
    {
      if a.capture.CaptureFails? {
        return false;
      }
      var Captured(snapshot, lease, canAssert, canClose) := a.capture;
      if !canAssert || !canClose {
        if canClose {
          Refuse(lease, a.closesRejected);
        }
        return false;
      }
      var state := Install(owner, snapshot, lease);
      if !a.timerStarts {
        CloseState(owner, state, a.closes);
        return false;
      }
      ok := true;
    }

    // A closable lease that cannot be checked for stability is closed at once.
    method Refuse(lease: Lease, closes: bool)
      requires Valid()
      modifies this
      ensures Valid() && created == old(created)
      ensures Abs() == old(Abs()).(closable := old(closable) + {lease}, closeCalls := old(closeCalls) + multiset{lease},
                                   cleanupFailed := old(cleanupFailed) || !closes)
    {
      closable := closable + {lease};
      closeCalls := closeCalls + multiset{lease};
      if !closes {
        cleanupFailed := true;
      }
      assert Abs().live == old(Abs()).live;
    }

    static method Arm(snapshot: Snapshot, lease: Lease) returns (state: LiveState)
      ensures fresh(state) && state.snapshot == snapshot && state.lease == lease
      ensures state.nextField == 0 && !state.closed
    {
      state := new LiveState(snapshot, lease);
      state.timer := Armed;
    }

    method Install(owner: Thread, snapshot: Snapshot, lease: Lease) returns (state: LiveState)
      requires Valid() && owner !in states && lease !in closable
      modifies this
      ensures Valid() && fresh(state) && created == old(created) + {state}
      ensures owner in states && states[owner] == state && state.lease == lease
      ensures Abs() == old(Abs()).(closable := old(closable) + {lease},
                                   live := old(Abs()).live[owner := Held(snapshot, lease, 0)],
                                   history := old(history) + [Installed(owner, snapshot, lease)])
    {
      state := Arm(snapshot, lease);
      closable := closable + {lease};
      created := created + {state};
      states := states[owner := state];
      history := history + [Installed(owner, snapshot, lease)];
      assert forall t :: t in old(states) ==> states[t] == old(states)[t] && states[t] != state;
      assert Abs().live == old(Abs()).live[owner := Held(snapshot, lease, 0)];
    }

    method ReadField(owner: Thread, field: Field, repository: string, a: Answers) returns (value: Option<Value>)
      requires Valid() && Counting(Abs())
      requires a.capture.Captured? ==> a.capture.lease !in closable
      modifies this, created
      ensures Valid() && old(created) <= created && fresh(created - old(created))
      ensures (Abs(), value) == Read(old(Abs()), owner, field, repository, a)
    {
      if cleanupFailed {
        return None;
      }
      if field == Legacy {
        var started := Restart(owner, a);
        if !started {
          return None;
        }
      } else if owner !in states {
        return None;
      }
      assert owner in Abs().live;
      value := ConsumeField(owner, field, repository, a);
    }

    // A first read gives up the snapshot of the previous evaluation and captures a new one.
    method Restart(owner: Thread, a: Answers) returns (ok: bool)
      requires Valid()
      requires a.capture.Captured? ==> a.capture.lease !in closable
      modifies this, created
      ensures Valid() && old(created) <= created && fresh(created - old(created))
      ensures (Abs(), ok) == Begin(old(Abs()), owner, a)
    {
      Record(FirstRead(owner));
      if owner in states {
        var state := states[owner];
        CloseState(owner, state, a.closesBefore);
        if !a.stableBefore || !a.closesBefore {
          return false;
        }
      }
      ok := StartState(owner, a);
    }

    method ConsumeField(owner: Thread, field: Field, repository: string, a: Answers) returns (value: Option<Value>)
      requires Valid() && owner in states && states[owner].nextField < |FIELDS|
      modifies this, created
      ensures Valid() && created == old(created)
      ensures (Abs(), value) == Consume(old(Abs()), owner, field, repository, a)
    {
      var state := states[owner];
      if field != FIELDS[state.nextField] || !a.stable || state.snapshot.repository != repository
         || field !in state.snapshot.fields || (state.nextField == |FIELDS| - 1 && !a.stableAtEnd)
      {
        CloseState(owner, state, a.closes);
        return None;
      }
      value := DeliverField(owner, state, state.snapshot.fields[field], a.closes);
    }

    method DeliverField(owner: Thread, state: LiveState, field: Value, closes: bool) returns (value: Option<Value>)
      requires Valid() && owner in states && states[owner] == state && state.nextField < |FIELDS|
      modifies this, state
      ensures Valid() && created == old(created)
      ensures (Abs(), value) == Deliver(old(Abs()), owner, field, closes)
    {
      Advance(owner, state);
      if state.nextField == |FIELDS| {
        CloseState(owner, state, closes);
        assert Abs().live == old(Abs()).live - {owner};
        if !closes {
          return None;
        }
      }
      Record(Returned(owner, state.nextField - 1, field));
      value := Some(field);
    }

    method Advance(owner: Thread, state: LiveState)
      requires Valid() && owner in states && states[owner] == state
      modifies state
      ensures Valid() && state.nextField == old(state.nextField) + 1
      ensures var h := Held(state.snapshot, state.lease, state.nextField);
              Abs() == old(Abs()).(live := old(Abs()).live[owner := h])
    {
      assert forall t :: t in states && t != owner ==> states[t] != state;
      state.nextField := state.nextField + 1;
      assert Abs().live == old(Abs()).live[owner := Held(state.snapshot, state.lease, state.nextField)];
    }

    ghost method Record(r: Record)
      requires Valid()
      modifies this`history
      ensures Valid() && Abs() == old(Abs()).(history := old(history) + [r])
    {
      history := history + [r];
      assert Abs().live == old(Abs()).live;
    }
  }
}
