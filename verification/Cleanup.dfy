/** Removing a file one has created from a shared directory, step by step against other actors. */
module Cleanup {
  import opened Wrappers

  type Inode = nat

  datatype Kind = Regular | Directory | Link

  datatype File = File(kind: Kind, content: string)

  // The public name in the shared directory, the private directory and the name inside it, and the files themselves.
  // `known` are the files that ever had the public name, `removedByOthers` those that another actor took it from.
  datatype Disk = Disk(public: Option<Inode>, privateExists: bool, private: Option<Inode>, files: map<Inode, File>,
                       known: set<Inode>, removedByOthers: set<Inode>)

  const MAX_DIRECTORY_ATTEMPTS := 16

  // The next thing the cleanup does. `after` says whether the restoration follows a detached file.
  datatype Step =
    | OpenCurrent
    | CheckCurrent(current: Inode)
    | MakeDirectory(attempt: nat)
    | OpenDirectory
    | AbandonDirectory
    | Detach
    | OpenDetached
    | CheckDetached(detached: Inode)
    | UnlinkDetached
    | StatDetached
    | LinkBack
    | UnlinkRestored
    | RemoveDirectory
    | Finished

  datatype State = State(disk: Disk, next: Step)

  // What the environment answers to one step: success, the name already exists, or another error.
  datatype Answer = Succeeds | Exists | Fails

  predicate IsCreated(d: Disk, i: Inode, created: Inode, raw: string) {
    i == created && i in d.files && d.files[i] == File(Regular, raw)
  }

  // One step of the cleanup of the file `created` that was written with the content `raw`.
  function Advance(s: State, created: Inode, raw: string, answer: Answer): State {
    var d := s.disk;
    match s.next
    case OpenCurrent =>
      if d.public.None? || answer != Succeeds then s.(next := Finished) else s.(next := CheckCurrent(d.public.value))
    case CheckCurrent(current) =>
      if answer == Succeeds && IsCreated(d, current, created, raw) then s.(next := MakeDirectory(0))
      else s.(next := Finished)
    case MakeDirectory(attempt) =>
      if attempt >= MAX_DIRECTORY_ATTEMPTS || answer == Fails then s.(next := Finished)
      else if answer == Exists then s.(next := MakeDirectory(attempt + 1))
      else State(d.(privateExists := true, private := None), OpenDirectory)
    case OpenDirectory => s.(next := if answer == Succeeds then Detach else AbandonDirectory)
    case AbandonDirectory => RemovePrivate(s, answer)
    case Detach =>
      if d.public.None? || answer != Succeeds then s.(next := RemoveDirectory)
      else State(d.(public := None, private := d.public), OpenDetached)
    case OpenDetached =>
      if answer != Succeeds || d.private.None? || (d.private.value in d.files && d.files[d.private.value].kind == Link)
      then s.(next := StatDetached)
      else s.(next := CheckDetached(d.private.value))
    case CheckDetached(detached) =>
      s.(next := if answer == Succeeds && IsCreated(d, detached, created, raw) then UnlinkDetached else StatDetached)
    case UnlinkDetached =>
      if answer == Succeeds then State(d.(private := None), RemoveDirectory) else s.(next := StatDetached)
    case StatDetached =>
      if answer != Succeeds || d.private.None?
         || (d.private.value in d.files && d.files[d.private.value].kind == Directory)
      then s.(next := RemoveDirectory)
      else s.(next := LinkBack)
    case LinkBack =>
      if answer != Succeeds || d.public.Some? || d.private.None? then s.(next := RemoveDirectory)
      else State(d.(public := d.private), UnlinkRestored)
    case UnlinkRestored =>
      if answer == Succeeds then State(d.(private := None), RemoveDirectory) else s.(next := RemoveDirectory)
    case RemoveDirectory => RemovePrivate(s, answer)
    case Finished => s
  }

  // A directory that still holds a name cannot be removed.
  function RemovePrivate(s: State, answer: Answer): State {
    if answer == Succeeds && s.disk.private.None? then State(s.disk.(privateExists := false), Finished)
    else s.(next := Finished)
  }

  // ----- Other actors ---------------------------------------------------------------------------

  // Other actors may put any file under the public name, take the name away, or rewrite a file in place; the
  // private directory is out of their reach. A file that loses the public name this way was removed by them, until
  // one of them puts it back.
  ghost predicate Interferes(d: Disk, e: Disk) {
    && e.privateExists == d.privateExists && e.private == d.private
    && e.known == d.known + Occupant(e)
    && e.removedByOthers == d.removedByOthers + Occupant(d) - Occupant(e)
  }

  function Occupant(d: Disk): set<Inode> {
    if d.public.Some? then {d.public.value} else {}
  }

  datatype Move = ByCleanup(answer: Answer) | ByOthers(disk: Disk)

  ghost predicate Next(s: State, m: Move, t: State, created: Inode, raw: string) {
    match m
    case ByCleanup(answer) => t == Advance(s, created, raw, answer)
    case ByOthers(disk) => Interferes(s.disk, disk) && t == s.(disk := disk)
  }

  ghost predicate IsRun(states: seq<State>, moves: seq<Move>, created: Inode, raw: string) {
    && |states| == |moves| + 1
    && Initial(states[0])
    && forall k :: 0 <= k < |moves| ==> Next(states[k], moves[k], states[k + 1], created, raw)
  }

  ghost predicate Initial(s: State) {
    && s.next == OpenCurrent && !s.disk.privateExists && s.disk.private.None?
    && s.disk.known == Occupant(s.disk) && s.disk.removedByOthers == {}
  }

  // ----- No foreign file is lost --------------------------------------------------------------

  ghost predicate Kept(d: Disk, i: Inode) {
    d.public == Some(i) || d.private == Some(i) || i in d.removedByOthers
  }

  predicate BeforeDetaching(next: Step) {
    next in {OpenCurrent, OpenDirectory, AbandonDirectory, Detach} || next.CheckCurrent? || next.MakeDirectory?
  }

  ghost predicate Safe(s: State, created: Inode) {
    && Occupant(s.disk) <= s.disk.known
    && (forall i :: i in s.disk.known && i != created ==> Kept(s.disk, i))
    && (s.disk.private.Some? ==> s.disk.privateExists && s.disk.private.value in s.disk.known)
    && (BeforeDetaching(s.next) ==> s.disk.private.None?)
    && (s.next in {OpenDirectory, Detach} ==> s.disk.privateExists)
    && (s.next == UnlinkDetached ==> s.disk.private == Some(created))
    && (s.next.CheckDetached? ==> s.disk.private == Some(s.next.detached))
    && (s.next == UnlinkRestored && s.disk.private.Some? ==>
          s.disk.public == s.disk.private || s.disk.private.value in s.disk.removedByOthers)
  }

  // Over every interleaving, the cleanup never takes the last name from a file other than the one created, unless
  // another actor had itself removed or replaced that file.
  lemma {:induction false} NoForeignFileIsLost(states: seq<State>, moves: seq<Move>, created: Inode, raw: string)
    requires IsRun(states, moves, created, raw)
    ensures forall k, i :: 0 <= k < |states| && i in states[k].disk.known && i != created ==> Kept(states[k].disk, i)
  {
    for n := 0 to |moves|
      invariant forall k :: 0 <= k <= n ==> Safe(states[k], created)
    {
      assert Next(states[n], moves[n], states[n + 1], created, raw);
      match moves[n] {
        case ByCleanup(answer) =>
        case ByOthers(disk) =>
      }
    }
  }

  // The cleanup never replaces what has the public name: it may only take the name away into its own directory, or
  // give the name back when nobody has it. It never changes a file.
  lemma CleanupNeverReplaces(s: State, created: Inode, raw: string, answer: Answer)
    ensures var t := Advance(s, created, raw, answer);
            && t.disk.files == s.disk.files
            && (s.disk.public.Some? && t.disk.public != s.disk.public ==>
                 s.next == Detach && t.disk.public.None? && t.disk.private == s.disk.public)
            && (s.disk.public.None? && t.disk.public.Some? ==> s.next == LinkBack && t.disk.public == s.disk.private)
  {
  }

  // A file is unlinked from the private directory only after it was found there to be the created one, unchanged, or
  // after its public name was given back.
  lemma UnlinkedAfterCheck(s: State, created: Inode, raw: string, answer: Answer)
    ensures var t := Advance(s, created, raw, answer);
            && (t.next == UnlinkDetached && s.next != UnlinkDetached ==>
                 && s.next == CheckDetached(created) && answer == Succeeds
                 && created in s.disk.files && s.disk.files[created] == File(Regular, raw))
            && (t.next == UnlinkRestored && s.next != UnlinkRestored ==>
                 t.disk.public == t.disk.private == s.disk.private)
            && (s.disk.private.Some? && t.disk.private.None? ==>
                 s.next in {UnlinkDetached, UnlinkRestored} || s.next.MakeDirectory?)
  {
  }

  // ----- What the cleanup achieves when left alone ------------------------------------------

  // Whatever its steps are answered, the cleanup leaves a public name alone that is not that of the created file with
  // the content that was written.
  lemma {:induction false} ForeignFileIsLeftAlone(s: State, created: Inode, raw: string, answers: seq<Answer>)
    requires s.next == OpenCurrent && s.disk.public.Some?
    requires !(s.disk.public == Some(created) && created in s.disk.files && s.disk.files[created] == File(Regular, raw))
    ensures Alone(s, created, raw, answers).disk == s.disk
  {
    if |answers| > 1 {
      var s1 := Advance(s, created, raw, answers[0]);
      var s2 := Advance(s1, created, raw, answers[1]);
      assert s2.next == Finished && s2.disk == s.disk;
      assert Alone(s1, created, raw, answers[1..]) == Alone(s2, created, raw, answers[1..][1..]);
      StaysFinished(s2, created, raw, answers[1..][1..]);
    }
  }

  function Alone(s: State, created: Inode, raw: string, answers: seq<Answer>): State
    decreases |answers|
  {
    if answers == [] then s else Alone(Advance(s, created, raw, answers[0]), created, raw, answers[1..])
  }

  // How many steps are left at most.
  function StepsLeft(next: Step): nat {
    match next
    case OpenCurrent => 28
    case CheckCurrent(_) => 27
    case MakeDirectory(attempt) =>
      9 + if attempt < MAX_DIRECTORY_ATTEMPTS then 1 + MAX_DIRECTORY_ATTEMPTS - attempt else 0
    case OpenDirectory => 9
    case AbandonDirectory => 1
    case Detach => 8
    case OpenDetached => 7
    case CheckDetached(_) => 6
    case UnlinkDetached => 5
    case StatDetached => 4
    case LinkBack => 3
    case UnlinkRestored => 2
    case RemoveDirectory => 1
    case Finished => 0
  }

  lemma EveryStepCounts(s: State, created: Inode, raw: string, answer: Answer)
    requires s.next != Finished
    ensures StepsLeft(Advance(s, created, raw, answer).next) < StepsLeft(s.next)
  {
  }

  // The answers of a cleanup left alone: the private directory's name is taken `collisions` times.
  function Undisturbed(collisions: nat): seq<Answer> {
    [Succeeds, Succeeds] + seq(collisions, _ => Exists) + seq(7, _ => Succeeds)
  }

  // Left alone, the created file is gone, and with it the private directory, unless the directory's name was taken
  // sixteen times; nothing else changes.
  lemma CreatedFileIsRemoved(s: State, created: Inode, raw: string, collisions: nat)
    requires Initial(s) && s.disk.public == Some(created) && IsCreated(s.disk, created, created, raw)
    ensures Alone(s, created, raw, Undisturbed(collisions)) ==
            if collisions < 16
            then State(s.disk.(public := None, private := None, privateExists := false), Finished)
            else State(s.disk, Finished)
  {
    var made := State(s.disk, MakeDirectory(0));
    var collide, rest := seq(collisions, _ => Exists), seq(7, _ => Succeeds);
    Unfold(s, created, raw, [Succeeds, Succeeds]);
    Unfold(Advance(s, created, raw, Succeeds), created, raw, [Succeeds]);
    assert Alone(s, created, raw, [Succeeds, Succeeds]) == made;
    AloneConcat(s, created, raw, [Succeeds, Succeeds] + collide, rest);
    AloneConcat(s, created, raw, [Succeeds, Succeeds], collide);
    Collisions(made, created, raw, 0, collisions);
    if collisions < MAX_DIRECTORY_ATTEMPTS {
      FromMakeDirectory(State(s.disk, MakeDirectory(collisions)), created, raw, collisions);
    } else {
      var last := AfterCollisions(s.disk, collisions);
      assert Advance(last, created, raw, rest[0]) == State(s.disk, Finished);
      StaysFinished(State(s.disk, Finished), created, raw, rest[1..]);
    }
  }

  lemma {:induction false} AloneConcat(s: State, created: Inode, raw: string, a: seq<Answer>, b: seq<Answer>)
    ensures Alone(s, created, raw, a + b) == Alone(Alone(s, created, raw, a), created, raw, b)
    decreases |a|
  {
    if a == [] {
      assert a + b == b;
    } else {
      AloneConcat(Advance(s, created, raw, a[0]), created, raw, a[1..], b);
      assert (a + b)[1..] == a[1..] + b;
    }
  }

  // Where a number of collisions leads: to that many attempts, or past the last one to giving up.
  function AfterCollisions(d: Disk, attempts: nat): State {
    State(d, if attempts <= MAX_DIRECTORY_ATTEMPTS then MakeDirectory(attempts) else Finished)
  }

  lemma {:induction false} Collisions(s: State, created: Inode, raw: string, attempt: nat, n: nat)
    requires s == AfterCollisions(s.disk, attempt)
    ensures Alone(s, created, raw, seq(n, _ => Exists)) == AfterCollisions(s.disk, attempt + n)
    decreases n
  {
    var answers := seq(n, _ => Exists);
    if n > 0 {
      assert answers[1..] == seq(n - 1, _ => Exists);
      assert Advance(s, created, raw, Exists) == AfterCollisions(s.disk, attempt + 1);
      Collisions(AfterCollisions(s.disk, attempt + 1), created, raw, attempt + 1, n - 1);
    }
  }

  lemma {:induction false} StaysFinished(s: State, created: Inode, raw: string, answers: seq<Answer>)
    requires s.next == Finished
    ensures Alone(s, created, raw, answers) == s
    decreases |answers|
  {
    if answers != [] {
      StaysFinished(s, created, raw, answers[1..]);
    }
  }

  lemma FromMakeDirectory(s: State, created: Inode, raw: string, attempt: nat)
    requires s.next == MakeDirectory(attempt) && attempt < MAX_DIRECTORY_ATTEMPTS && s.disk.public == Some(created)
    requires IsCreated(s.disk, created, created, raw)
    ensures Alone(s, created, raw, seq(7, _ => Succeeds)) ==
            State(s.disk.(public := None, private := None, privateExists := false), Finished)
  {
    var a := seq(7, _ => Succeeds);
    var s1 := Advance(s, created, raw, Succeeds);
    var s2 := Advance(s1, created, raw, Succeeds);
    var s3 := Advance(s2, created, raw, Succeeds);
    var s4 := Advance(s3, created, raw, Succeeds);
    var s5 := Advance(s4, created, raw, Succeeds);
    var s6 := Advance(s5, created, raw, Succeeds);
    Unfold(s, created, raw, a);
    Unfold(s1, created, raw, a[1..]);
    Unfold(s2, created, raw, a[2..]);
    Unfold(s3, created, raw, a[3..]);
    Unfold(s4, created, raw, a[4..]);
    Unfold(s5, created, raw, a[5..]);
    Unfold(s6, created, raw, a[6..]);
  }

  // A foreign file that was taken away gets its name back when nobody interferes further; a directory stays where it
  // was put.
  lemma ForeignFileComesBack(d: Disk, i: Inode, created: Inode, raw: string)
    requires d.public == Some(i) && d.private.None? && d.privateExists && i in d.files
    requires !IsCreated(d, i, created, raw)
    ensures Alone(State(d, Detach), created, raw, seq(7, _ => Succeeds)) ==
            if d.files[i].kind == Directory then State(d.(public := None, private := Some(i)), Finished)
            else State(d.(privateExists := false), Finished)
  {
    var a := seq(7, _ => Succeeds);
    var s1 := Advance(State(d, Detach), created, raw, Succeeds);
    var s2 := Advance(s1, created, raw, Succeeds);
    var s3 := Advance(s2, created, raw, Succeeds);
    var s4 := Advance(s3, created, raw, Succeeds);
    var s5 := Advance(s4, created, raw, Succeeds);
    var s6 := Advance(s5, created, raw, Succeeds);
    Unfold(State(d, Detach), created, raw, a);
    Unfold(s1, created, raw, a[1..]);
    Unfold(s2, created, raw, a[2..]);
    Unfold(s3, created, raw, a[3..]);
    Unfold(s4, created, raw, a[4..]);
    Unfold(s5, created, raw, a[5..]);
    Unfold(s6, created, raw, a[6..]);
  }

  lemma Unfold(s: State, created: Inode, raw: string, answers: seq<Answer>)
    requires answers != [] && answers[0] == Succeeds
    ensures Alone(s, created, raw, answers) == Alone(Advance(s, created, raw, Succeeds), created, raw, answers[1..])
  {
  }
}
