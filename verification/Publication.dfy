/** Journalled publication of several documents, its recovery, and what a crash between any two steps leaves. */
module Publication {
  import opened Wrappers
  import opened Tuples
  import opened Sorting
  import opened Decimals
  import opened Paths

  // A journal names, for each target, the staged document and the backup of the old one, if there was one.
  datatype Entry = Entry(target: Path, staged: Path, backup: Option<Path>)

  // The JSON text of a journal is represented by its value.
  datatype Content = Document(text: string) | Journal(schema: string, entries: seq<Entry>)

  type Files = map<Path, Content>

  datatype Item = Item(target: Path, staged: Path)

  const JOURNAL_NAME := ".gwo-v8-ga-metadata-publication.json"
  const SCHEMA := "gwo-v8-ga-publication.v1"
  const STAGING_PREFIX := ".ga-metadata-"
  const BACKUPS := ".backups"
  const JOURNAL_TEMPORARY := ".publication-journal"

  // ----- Paths --------------------------------------------------------------------------------

  function SharedPrefix(a: Path, b: Path): Path {
    if a == [] || b == [] || a[0] != b[0] then [] else [a[0]] + SharedPrefix(a[1..], b[1..])
  }

  function CommonPath(paths: seq<Path>): Path
    requires paths != []
  {
    if |paths| == 1 then paths[0] else SharedPrefix(paths[0], CommonPath(paths[1..]))
  }

  function ItemKey(i: Item): seq<int> {
    PathKey(i.target)
  }

  function JournalPath(root: Path): Path {
    root + [JOURNAL_NAME]
  }

  function BackupPath(staging: Path, index: nat): Path {
    staging + [BACKUPS, Decimal(index) + ".bak"]
  }

  // Below some staging directory of the output root.
  predicate InStaging(root: Path, p: Path) {
    root < p && STAGING_PREFIX <= p[|root|]
  }

  // ----- Recovery as a function on files -----------------------------------------------------

  function Targets(entries: seq<Entry>): seq<Path> {
    seq(|entries|, i requires 0 <= i < |entries| => entries[i].target)
  }

  function EntriesStaged(entries: seq<Entry>): seq<Path> {
    seq(|entries|, i requires 0 <= i < |entries| => entries[i].staged)
  }

  function Parents(paths: seq<Path>): seq<Path> {
    seq(|paths|, i requires 0 <= i < |paths| => Parent(paths[i]))
  }

  function StagedPaths(items: seq<Item>): seq<Path> {
    seq(|items|, i requires 0 <= i < |items| => items[i].staged)
  }

  function ItemTargets(items: seq<Item>): seq<Path> {
    seq(|items|, i requires 0 <= i < |items| => items[i].target)
  }

  function TargetParents(items: seq<Item>): seq<Path> {
    Parents(ItemTargets(items))
  }

  predicate EntriesAccepted(schema: string, entries: seq<Entry>, root: Path) {
    && schema == SCHEMA
    && (forall e :: e in entries ==>
         root <= e.target && root <= e.staged && (e.backup.Some? ==> root <= e.backup.value))
    && Sort(PathKey, Targets(entries)) == Targets(entries)
  }

  predicate StagingAccepted(entries: seq<Entry>, root: Path, staging: Path) {
    && staging != root && staging != [] && Parent(staging) == root
    && STAGING_PREFIX <= staging[|staging| - 1] && |staging[|staging| - 1]| > |STAGING_PREFIX|
    && forall e :: e in entries ==> staging < e.staged
  }

  // The staging directory of a journal that recovery accepts.
  function AcceptedStaging(schema: string, entries: seq<Entry>, root: Path): Option<Path> {
    if entries == [] || !EntriesAccepted(schema, entries, root) then None
    else
      var staging := CommonPath(Parents(EntriesStaged(entries)));
      if StagingAccepted(entries, root, staging) then Some(staging) else None
  }

  function Restored(files: Files, e: Entry): Option<Files> {
    match e.backup
    case None => Some(files - {e.target})
    case Some(b) => if b in files then Some((files - {b})[e.target := files[b]]) else None
  }

  // Restoring the entries from the last to the first.
  function RolledBack(files: Files, entries: seq<Entry>): Option<Files>
    decreases |entries|
  {
    if entries == [] then Some(files)
    else
      match Restored(files, entries[|entries| - 1])
      case None => None
      case Some(next) => RolledBack(next, entries[..|entries| - 1])
  }

  // The files after the last `k` entries have been restored.
  function RestoredLast(files: Files, entries: seq<Entry>, k: nat): Option<Files>
    requires k <= |entries|
    decreases k
  {
    if k == 0 then Some(files)
    else
      match Restored(files, entries[|entries| - 1])
      case None => None
      case Some(next) => RestoredLast(next, entries[..|entries| - 1], k - 1)
  }

  function Without(files: Files, directory: Path): Files {
    map p | p in files && !(directory <= p) :: files[p]
  }

  // What undoing the entries of a journal leaves, whether or not the journal itself still stands.
  function Undone(files: Files, root: Path, schema: string, entries: seq<Entry>): Option<Files> {
    match AcceptedStaging(schema, entries, root)
    case None => None
    case Some(staging) =>
      match RolledBack(files, entries)
      case None => None
      case Some(restored) => Some(Without(restored - {JournalPath(root)}, staging))
  }

  // What one completed recovery leaves; None when it fails.
  function Recovered(files: Files, root: Path): Option<Files> {
    var journal := JournalPath(root);
    if journal !in files then Some(files)
    else if !files[journal].Journal? then None
    else Undone(files, root, files[journal].schema, files[journal].entries)
  }

  // ----- Comparing file systems ---------------------------------------------------------------

  ghost predicate SameAt(f: Files, g: Files, p: Path) {
    (p in f <==> p in g) && (p in f ==> f[p] == g[p])
  }

  lemma SameFiles(f: Files, g: Files)
    requires forall p :: SameAt(f, g, p)
    ensures f == g
  {
    assert forall p :: p in f ==> SameAt(f, g, p);
    assert forall p :: p in g ==> SameAt(f, g, p);
  }

  // Equal except below staging directories.
  ghost predicate SameOutside(f: Files, g: Files, root: Path) {
    forall p :: !InStaging(root, p) ==> SameAt(f, g, p)
  }

  // No journal is left, and everything outside staging directories is as a completed recovery leaves it.
  ghost predicate RecoveredOutside(f: Files, g: Files, root: Path) {
    Recovered(f, root).Some? && JournalPath(root) !in g && SameOutside(g, Recovered(f, root).value, root)
  }

  ghost predicate UndoneOutside(f: Files, g: Files, root: Path, schema: string, entries: seq<Entry>) {
    var undone := Undone(f, root, schema, entries);
    undone.Some? && JournalPath(root) !in g && SameOutside(g, undone.value, root)
  }

  // Some of the last entries are restored and nothing else has happened.
  ghost predicate CutOff(f: Files, g: Files, entries: seq<Entry>) {
    exists k :: 0 <= k <= |entries| && RestoredLast(f, entries, k) == Some(g)
  }

  // Every target holds what was staged for it, and every other file outside staging is as before.
  ghost predicate Installed(before: Files, items: seq<Item>, g: Files, root: Path) {
    && (forall i :: i in items ==> i.staged in before && i.target in g && g[i.target] == before[i.staged])
    && (forall p :: !InStaging(root, p) && (forall i :: i in items ==> i.target != p) ==> SameAt(g, before, p))
  }

  predicate IsStagingDirectory(root: Path, staging: Path) {
    && staging != [] && Parent(staging) == root
    && STAGING_PREFIX <= staging[|staging| - 1] && |staging[|staging| - 1]| > |STAGING_PREFIX|
  }

  // Targets lie below the root but outside staging; staged files lie in the staging directory, apart from the
  // backups and the journal being written; no two items share a target or a staged file.
  ghost predicate Separate(root: Path, staging: Path, items: seq<Item>) {
    && IsStagingDirectory(root, staging)
    && (forall i, j :: 0 <= i < j < |items| ==>
         items[i].target != items[j].target && items[i].staged != items[j].staged)
    && (forall i :: i in items ==> Placed(root, staging, i))
  }

  predicate Placed(root: Path, staging: Path, i: Item) {
    && root < i.target && !InStaging(root, i.target) && i.target != JournalPath(root)
    && staging < i.staged && i.staged[|staging|] != BACKUPS && i.staged[|staging|] != JOURNAL_TEMPORARY
  }

  // What the renderer hands over, as the common paths that publication and recovery compute see it.
  ghost predicate Layout(root: Path, staging: Path, items: seq<Item>) {
    && items != []
    && CommonPath(TargetParents(items)) == root
    && CommonPath(StagedPaths(items)) == staging && CommonPath(Parents(StagedPaths(items))) == staging
    && Separate(root, staging, items)
  }

  // ----- Rolling back -------------------------------------------------------------------------

  // The backups named by the entries still hold what `before` had, and nothing but targets and staging has changed.
  ghost predicate Guarded(files: Files, entries: seq<Entry>, before: Files, root: Path) {
    && (forall e :: e in entries ==> !InStaging(root, e.target))
    && (forall e :: e in entries && e.backup.None? ==> e.target !in before)
    && (forall e :: e in entries && e.backup.Some? ==>
         && InStaging(root, e.backup.value) && e.backup.value in files
         && e.target in before && files[e.backup.value] == before[e.target])
    && (forall i, j :: 0 <= i < j < |entries| ==>
         && entries[i].target != entries[j].target
         && (entries[i].backup.Some? ==> entries[i].backup != entries[j].backup))
    && (forall p :: !InStaging(root, p) && p != JournalPath(root) && (forall e :: e in entries ==> e.target != p) ==>
         SameAt(files, before, p))
  }

  lemma RestoreOne(files: Files, entries: seq<Entry>, before: Files, root: Path)
    requires Guarded(files, entries, before, root) && entries != []
    requires JournalPath(root) !in before && entries[|entries| - 1].target != JournalPath(root)
    ensures var next := Restored(files, entries[|entries| - 1]);
            && next.Some? && Guarded(next.value, entries[..|entries| - 1], before, root)
            && SameAt(next.value, files, JournalPath(root))
  {
    var last, rest := entries[|entries| - 1], entries[..|entries| - 1];
    JournalIsNotStaging(root);
    assert last in entries;
    var next := Restored(files, last).value;
    forall e | e in rest
      ensures e in entries && e.target != last.target
      ensures e.backup.Some? ==>
                e.backup != last.backup && e.backup.value in next && next[e.backup.value] == before[e.target]
    {
      var k :| 0 <= k < |rest| && rest[k] == e;
      assert entries[k] == e;
    }
    forall p | !InStaging(root, p) && p != JournalPath(root) && forall e :: e in rest ==> e.target != p
      ensures SameAt(next, before, p)
    {
      if p != last.target {
        assert forall e :: e in entries ==> e in rest || e == last;
      }
    }
  }

  lemma JournalIsNotStaging(root: Path)
    ensures !InStaging(root, JournalPath(root))
  {
    assert JOURNAL_NAME[2] == 'w' && STAGING_PREFIX[2] == 'a';
  }

  lemma {:induction false} RollbackRestores(files: Files, entries: seq<Entry>, before: Files, root: Path)
    requires Guarded(files, entries, before, root) && JournalPath(root) !in before
    requires forall e :: e in entries ==> e.target != JournalPath(root)
    ensures RolledBack(files, entries).Some?
    ensures var g := RolledBack(files, entries).value;
            forall p :: !InStaging(root, p) && p != JournalPath(root) ==> SameAt(g, before, p)
    decreases |entries|
  {
    if entries != [] {
      assert entries[|entries| - 1] in entries;
      RestoreOne(files, entries, before, root);
      RollbackRestores(Restored(files, entries[|entries| - 1]).value, entries[..|entries| - 1], before, root);
    }
  }

  // With the backups intact, undoing accepted entries brings back every file outside staging.
  lemma UndoingRestores(files: Files, entries: seq<Entry>, before: Files, root: Path)
    requires Guarded(files, entries, before, root) && JournalPath(root) !in before
    requires forall e :: e in entries ==> e.target != JournalPath(root)
    requires AcceptedStaging(SCHEMA, entries, root).Some?
    ensures Undone(files, root, SCHEMA, entries).Some?
    ensures JournalPath(root) !in Undone(files, root, SCHEMA, entries).value
    ensures SameOutside(Undone(files, root, SCHEMA, entries).value, before, root)
  {
    RollbackRestores(files, entries, before, root);
    JournalIsNotStaging(root);
    ClearingKeepsOutside(RolledBack(files, entries).value, before, root,
                         AcceptedStaging(SCHEMA, entries, root).value);
  }

  // With an accepted journal in place and the backups intact, recovery brings back every file outside staging.
  lemma RecoveryRestores(files: Files, entries: seq<Entry>, before: Files, root: Path)
    requires Guarded(files, entries, before, root) && JournalPath(root) !in before
    requires forall e :: e in entries ==> e.target != JournalPath(root)
    requires JournalPath(root) in files && files[JournalPath(root)] == Journal(SCHEMA, entries)
    requires AcceptedStaging(SCHEMA, entries, root).Some?
    ensures Recovered(files, root).Some? && JournalPath(root) !in Recovered(files, root).value
    ensures SameOutside(Recovered(files, root).value, before, root)
  {
    UndoingRestores(files, entries, before, root);
  }

  lemma ClearingKeepsOutside(restored: Files, before: Files, root: Path, staging: Path)
    requires forall p :: !InStaging(root, p) && p != JournalPath(root) ==> SameAt(restored, before, p)
    requires JournalPath(root) !in before
    requires staging != [] && Parent(staging) == root && STAGING_PREFIX <= staging[|staging| - 1]
    ensures JournalPath(root) !in Without(restored - {JournalPath(root)}, staging)
    ensures SameOutside(Without(restored - {JournalPath(root)}, staging), before, root)
  {
    forall p | staging <= p ensures InStaging(root, p) {
      BelowStaging(root, staging, p);
    }
  }

  lemma BelowStaging(root: Path, staging: Path, p: Path)
    requires staging != [] && Parent(staging) == root && STAGING_PREFIX <= staging[|staging| - 1]
    requires staging <= p
    ensures InStaging(root, p)
  {
    assert p[..|staging|] == staging;
    assert p[|root|] == staging[|root|];
    assert root == p[..|root|];
  }

  // ----- The journal that publication writes is one that recovery accepts --------------------

  lemma {:induction false} SharedPrefixIsGreatest(a: Path, b: Path, p: Path)
    ensures SharedPrefix(a, b) <= a && SharedPrefix(a, b) <= b
    ensures p <= a && p <= b ==> p <= SharedPrefix(a, b)
  {
    if a != [] && b != [] && a[0] == b[0] {
      SharedPrefixIsGreatest(a[1..], b[1..], if p == [] then [] else p[1..]);
      assert a == [a[0]] + a[1..] && b == [b[0]] + b[1..] && (p != [] ==> p == [p[0]] + p[1..]);
    }
  }

  lemma {:induction false} CommonPathIsGreatest(paths: seq<Path>, p: Path)
    requires paths != []
    ensures forall q :: q in paths ==> CommonPath(paths) <= q
    ensures (forall q :: q in paths ==> p <= q) ==> p <= CommonPath(paths)
  {
    assert paths[0] in paths;
    if |paths| > 1 {
      var rest := CommonPath(paths[1..]);
      CommonPathIsGreatest(paths[1..], p);
      SharedPrefixIsGreatest(paths[0], rest, p);
      forall q | q in paths ensures CommonPath(paths) <= q {
        assert q == paths[0] || (q in paths[1..] && rest <= q);
      }
      if forall q :: q in paths ==> p <= q {
        forall q | q in paths[1..] ensures p <= q {
          assert q in paths;
        }
        assert paths[0] in paths;
      }
    }
  }

  lemma CommonPathOfSame(a: seq<Path>, b: seq<Path>)
    requires a != [] && b != [] && forall p :: p in a <==> p in b
    ensures CommonPath(a) == CommonPath(b)
  {
    CommonPathIsGreatest(a, CommonPath(b));
    CommonPathIsGreatest(b, CommonPath(a));
  }

  // The entries written for items in sorted order.
  ghost predicate Prepared(entries: seq<Entry>, items: seq<Item>, staging: Path) {
    && |entries| == |items|
    && forall k :: 0 <= k < |items| ==>
         && entries[k].target == items[k].target && entries[k].staged == items[k].staged
         && (entries[k].backup.Some? ==> entries[k].backup.value == BackupPath(staging, k))
  }

  lemma SortedItems(items: seq<Item>)
    ensures Sort(PathKey, ItemTargets(Sort(ItemKey, items))) == ItemTargets(Sort(ItemKey, items))
    ensures |Sort(ItemKey, items)| == |items| && forall i :: i in Sort(ItemKey, items) <==> i in items
  {
    var sorted := Sort(ItemKey, items);
    SortKeepsMembers(ItemKey, items);
    forall i, j | 0 <= i < j < |sorted|
      ensures AtMost(PathKey(ItemTargets(sorted)[i]), PathKey(ItemTargets(sorted)[j]))
    {
      assert AtMost(ItemKey(sorted[i]), ItemKey(sorted[j]));
    }
    SortOfSorted(PathKey, ItemTargets(sorted));
  }

  // What recovery accepts, in plain terms: a journal of this schema with entries in the order of their target texts,
  // all below the root, whose staged files lie in one staging directory directly below the root.
  lemma AcceptedMeans(schema: string, entries: seq<Entry>, root: Path, staging: Path)
    ensures AcceptedStaging(schema, entries, root) == Some(staging) <==>
            && entries != [] && schema == "gwo-v8-ga-publication.v1"
            && (forall i, j :: 0 <= i < j < |entries| ==>
                 Precedes(PathText(entries[i].target), PathText(entries[j].target)))
            && (forall e :: e in entries ==>
                 root <= e.target && staging < e.staged && (e.backup.Some? ==> root <= e.backup.value))
            && staging == CommonPath(Parents(EntriesStaged(entries)))
            && exists name :: staging == root + [name] && ".ga-metadata-" < name
  {
    var targets := Targets(entries);
    assert Sort(PathKey, targets) == targets <==> Sorted(PathKey, targets) by {
      SortSorts(PathKey, targets);
      if Sorted(PathKey, targets) {
        SortOfSorted(PathKey, targets);
      }
    }
    forall i, j | 0 <= i < j < |entries|
      ensures AtMost(PathKey(targets[i]), PathKey(targets[j])) <==>
              Precedes(PathText(entries[i].target), PathText(entries[j].target))
    {
      OrderOfTexts(PathText(targets[i]), PathText(targets[j]));
    }
    DirectlyBelow(root, staging);
  }

  lemma DirectlyBelow(root: Path, staging: Path)
    ensures (&& staging != root && staging != [] && Parent(staging) == root
             && STAGING_PREFIX <= staging[|staging| - 1] && |staging[|staging| - 1]| > |STAGING_PREFIX|)
       <==> exists name :: staging == root + [name] && ".ga-metadata-" < name
  {
    if staging != [] && Parent(staging) == root {
      assert staging == root + [staging[|staging| - 1]];
    }
    if name :| staging == root + [name] && ".ga-metadata-" < name {
      assert Parent(staging) == root && staging[|staging| - 1] == name;
    }
  }

  lemma JournalIsAccepted(root: Path, staging: Path, items: seq<Item>, entries: seq<Entry>)
    requires Layout(root, staging, items) && Prepared(entries, Sort(ItemKey, items), staging)
    ensures AcceptedStaging(SCHEMA, entries, root) == Some(staging)
  {
    StagingIsCommon(root, staging, items, entries);
    EntriesFit(root, staging, items, entries);
  }

  lemma EntriesFit(root: Path, staging: Path, items: seq<Item>, entries: seq<Entry>)
    requires Layout(root, staging, items) && Prepared(entries, Sort(ItemKey, items), staging)
    ensures EntriesAccepted(SCHEMA, entries, root) && StagingAccepted(entries, root, staging)
  {
    var sorted := Sort(ItemKey, items);
    SortedItems(items);
    assert Targets(entries) == ItemTargets(sorted);
    forall e | e in entries
      ensures root <= e.target && root <= e.staged && (e.backup.Some? ==> root <= e.backup.value) && staging < e.staged
    {
      var k :| 0 <= k < |entries| && entries[k] == e;
      assert sorted[k] in items;
      EntryFits(root, staging, sorted[k], e, k);
    }
  }

  lemma EntryFits(root: Path, staging: Path, item: Item, e: Entry, k: nat)
    requires staging != [] && Parent(staging) == root && root < item.target && staging < item.staged
    requires e.target == item.target && e.staged == item.staged
    requires e.backup.Some? ==> e.backup.value == BackupPath(staging, k)
    ensures root <= e.target && root <= e.staged && (e.backup.Some? ==> root <= e.backup.value) && staging < e.staged
  {
    assert staging == root + [staging[|staging| - 1]];
    assert root <= staging;
  }

  lemma StagingIsCommon(root: Path, staging: Path, items: seq<Item>, entries: seq<Entry>)
    requires Layout(root, staging, items) && Prepared(entries, Sort(ItemKey, items), staging)
    ensures entries != [] && CommonPath(Parents(EntriesStaged(entries))) == staging
  {
    SortedItems(items);
    var mine, theirs := Parents(EntriesStaged(entries)), Parents(StagedPaths(items));
    forall p ensures p in mine <==> p in theirs {
      ParentsMatch(items, Sort(ItemKey, items), entries, p);
    }
    CommonPathOfSame(mine, theirs);
  }

  lemma ParentsMatch(items: seq<Item>, sorted: seq<Item>, entries: seq<Entry>, p: Path)
    requires forall i :: i in sorted <==> i in items
    requires |entries| == |sorted| && forall k :: 0 <= k < |sorted| ==> entries[k].staged == sorted[k].staged
    ensures p in Parents(EntriesStaged(entries)) <==> p in Parents(StagedPaths(items))
  {
    if p in Parents(EntriesStaged(entries)) {
      var k :| 0 <= k < |entries| && Parents(EntriesStaged(entries))[k] == p;
      assert sorted[k] in items;
      var l :| 0 <= l < |items| && items[l] == sorted[k];
      assert Parents(StagedPaths(items))[l] == p;
    }
    if p in Parents(StagedPaths(items)) {
      var l :| 0 <= l < |items| && Parents(StagedPaths(items))[l] == p;
      assert items[l] in sorted;
      var k :| 0 <= k < |sorted| && sorted[k] == items[l];
      assert Parents(EntriesStaged(entries))[k] == p;
    }
  }

  // ----- The disk, step by step ---------------------------------------------------------------

  // What the environment does to a step. A step that fails has no effect, except that a plain write may leave any
  // content behind. A crash may come before the step or, when `landed`, just after it.
  datatype Fault = Fine | Fails(torn: Option<Content>) | Crashes(landed: bool, torn: Option<Content>)

  // `Stranded`: an exception or a crash cut off a rollback, or an exception came right after the journal was installed,
  // where no rollback follows.
  datatype Outcome = Done | Failed | Crashed | Stranded(killed: bool)

  ghost predicate SameExcept(f: Files, g: Files, p: Path) {
    forall q :: q != p ==> SameAt(f, g, q)
  }

  class Disk {
    var files: Files
    var faults: seq<Fault>

    constructor (files: Files, faults: seq<Fault>)
      ensures this.files == files && this.faults == faults
    {
      this.files := files;
      this.faults := faults;
    }

    method NextFault() returns (fault: Fault)
      modifies this`faults
      ensures old(faults) == [] ==> fault == Fine && faults == []
    {
      if faults == [] {
        return Fine;
      }
      fault, faults := faults[0], faults[1..];
    }

    method Write(p: Path, content: Content) returns (o: Outcome)
      modifies this
      ensures !o.Stranded?
      ensures o == Done ==> files == old(files)[p := content]
      ensures o != Done ==> SameExcept(files, old(files), p)
      ensures old(faults) == [] ==> o == Done && faults == []
    {
      var fault := NextFault();
      match fault
      case Fine =>
        files, o := files[p := content], Done;
      case Fails(torn) =>
        files, o := if torn.Some? then files[p := torn.value] else files, Failed;
      case Crashes(landed, torn) =>
        files := if landed then files[p := content] else if torn.Some? then files[p := torn.value] else files;
        o := Crashed;
    }

    method Replace(source: Path, target: Path) returns (o: Outcome)
      modifies this
      ensures !o.Stranded?
      ensures o == Done || files != old(files) ==>
                source in old(files) && files == (old(files) - {source})[target := old(files)[source]]
      ensures o == Failed ==> files == old(files)
      ensures old(faults) == [] && source in old(files) ==> o == Done && faults == []
    {
      var fault := NextFault();
      if source !in files {
        return if fault.Crashes? then Crashed else Failed;
      }
      if fault.Fine? || (fault.Crashes? && fault.landed) {
        files := (files - {source})[target := files[source]];
      }
      o := if fault.Fine? then Done else if fault.Fails? then Failed else Crashed;
    }

    method Unlink(p: Path) returns (o: Outcome)
      modifies this
      ensures !o.Stranded?
      ensures o == Done || files != old(files) ==> files == old(files) - {p}
      ensures o == Failed ==> files == old(files)
      ensures old(faults) == [] ==> o == Done && faults == []
    {
      var fault := NextFault();
      if fault.Fine? || (fault.Crashes? && fault.landed) {
        files := files - {p};
      }
      o := if fault.Fine? then Done else if fault.Fails? then Failed else Crashed;
    }

    // Flushing changes no file that can be read, but it may fail like any other step.
    method Flush() returns (o: Outcome)
      modifies this`faults
      ensures !o.Stranded?
      ensures old(faults) == [] ==> o == Done && faults == []
    {
      var fault := NextFault();
      o := if fault.Fine? then Done else if fault.Fails? then Failed else Crashed;
    }

    // ----- Recovery ---------------------------------------------------------------------------

    // Restores the entries from the last to the first; wherever it stops, the last `k` of them are restored.
    method RestoreAll(entries: seq<Entry>) returns (o: Outcome, ghost k: nat)
      modifies this
      ensures !o.Stranded? && k <= |entries| && RestoredLast(old(files), entries, k) == Some(files)
      ensures o == Done ==> k == |entries| && RolledBack(old(files), entries) == Some(files)
      ensures old(faults) == [] ==> faults == [] && (o == Done <==> RolledBack(old(files), entries).Some?)
    {
      var n := |entries|;
      k := 0;
      for left := n downto 0
        invariant k == n - left && RestoredLast(old(files), entries, k) == Some(files)
        invariant old(faults) == [] ==> faults == []
      {
        RestoredNext(old(files), entries, k);
        RestoredAll(old(files), entries, k);
        o := RestoreOneEntry(entries[left]);
        if o != Done {
          k := if RestoredLast(old(files), entries, k) == Some(files) then k else k + 1;
          return;
        }
        k := k + 1;
      }
      RestoredAll(old(files), entries, n);
      o := Done;
    }

    method RestoreOneEntry(e: Entry) returns (o: Outcome)
      modifies this
      ensures !o.Stranded?
      ensures o == Done || files != old(files) ==> Restored(old(files), e) == Some(files)
      ensures old(faults) == [] ==> faults == [] && (o == Done <==> Restored(old(files), e).Some?)
    {
      if e.backup.None? {
        o := Unlink(e.target);
      } else if e.backup.value !in files {
        o := Failed;
      } else {
        o := Replace(e.backup.value, e.target);
      }
      if o == Done {
        o := Flush();
      }
    }

    // Removes the journal and flushes; when only the flush fails, the journal is gone all the same.
    method RemoveJournal(root: Path) returns (o: Outcome)
      modifies this
      ensures !o.Stranded?
      ensures o == Done || files != old(files) ==> files == old(files) - {JournalPath(root)}
      ensures old(faults) == [] ==> o == Done && faults == []
    {
      o := Unlink(JournalPath(root));
      if o == Done {
        o := Flush();
      }
    }

    // Checks the journal, restores, removes the journal and clears the staging directory, ignoring errors of the last.
    method Rollback(root: Path, schema: string, entries: seq<Entry>) returns (o: Outcome)
      modifies this
      ensures o in {Done, Crashed} ==> UndoneOutside(old(files), files, root, schema, entries)
      ensures o == Failed ==>
                || (files == old(files) && Undone(files, root, schema, entries).None?)
                || UndoneOutside(old(files), files, root, schema, entries)
      ensures o.Stranded? ==> CutOff(old(files), files, entries)
      ensures old(faults) == [] ==> faults == [] && (o == Done <==> Undone(old(files), root, schema, entries).Some?)
      ensures old(faults) == [] && o == Done ==> files == Undone(old(files), root, schema, entries).value
    {
      var staging := AcceptedStaging(schema, entries, root);
      if staging.None? {
        return Failed;
      }
      ghost var k;
      o, k := RestoreAll(entries);
      if o != Done {
        return Stranded(o == Crashed);
      }
      ghost var restored := files;
      o := RemoveJournal(root);
      if o != Done && JournalPath(root) in files {
        return Stranded(o == Crashed);
      }
      assert files == restored - {JournalPath(root)};
      ClearingIsOutside(files, root, staging.value);
      if o == Done {
        o := Clear(staging.value);
      }
    }

    method Clear(directory: Path) returns (o: Outcome)
      modifies this
      ensures o in {Done, Crashed} && (files == old(files) || files == Without(old(files), directory))
      ensures old(faults) == [] ==> faults == [] && o == Done && files == Without(old(files), directory)
    {
      var fault := NextFault();
      if fault.Fine? || (fault.Crashes? && fault.landed) {
        files := Without(files, directory);
      }
      o := if fault.Crashes? then Crashed else Done;
    }

    method Recover(root: Path) returns (o: Outcome)
      modifies this
      ensures o in {Done, Crashed} ==> RecoveredOutside(old(files), files, root)
      ensures o == Failed ==>
                (files == old(files) && Recovered(files, root).None?) || RecoveredOutside(old(files), files, root)
      ensures o.Stranded? ==> JournalPath(root) in old(files) && old(files)[JournalPath(root)].Journal?
                              && CutOff(old(files), files, old(files)[JournalPath(root)].entries)
      ensures JournalPath(root) !in old(files) ==> o == Done && files == old(files)
      ensures old(faults) == [] ==> faults == [] && (o == Done <==> Recovered(old(files), root).Some?)
      ensures old(faults) == [] && o == Done ==> files == Recovered(old(files), root).value
    {
      var journal := JournalPath(root);
      if journal !in files {
        return Done;
      }
      if !files[journal].Journal? {
        return Failed;
      }
      o := Rollback(root, files[journal].schema, files[journal].entries);
    }

    // ----- Publication ------------------------------------------------------------------------

    // Reads what is staged and copies every existing target aside.
    method BackUp(ghost root: Path, staging: Path, items: seq<Item>)
      returns (o: Outcome, entries: seq<Entry>, expected: seq<Content>)
      requires Separate(root, staging, items)
      modifies this
      ensures !o.Stranded? && SameOutsideBackups(files, old(files), staging)
      ensures o == Done ==> Prepared(entries, items, staging) && BackedUp(files, entries, old(files))
      ensures o == Done ==> Expected(expected, items, old(files))
      ensures old(faults) == [] && (forall i :: i in items ==> i.staged in old(files)) ==> o == Done && faults == []
    {
      entries, expected := [], [];
      for index := 0 to |items|
        invariant SameOutsideBackups(files, old(files), staging)
        invariant Prepared(entries, items[..index], staging) && BackedUp(files, entries, old(files))
        invariant Expected(expected, items[..index], old(files))
        invariant old(faults) == [] && (forall i :: i in items ==> i.staged in old(files)) ==> faults == []
      {
        var item := items[index];
        NotInBackups(root, staging, item);
        assert item in items && SameAt(files, old(files), item.staged) && SameAt(files, old(files), item.target);
        if item.staged !in files {
          return Failed, entries, expected;
        }
        expected := expected + [files[item.staged]];
        o := Flush();
        if o != Done {
          return;
        }
        var backup: Option<Path> := None;
        if item.target in files {
          backup := Some(BackupPath(staging, index));
          ghost var before := files;
          var written := Write(BackupPath(staging, index), files[item.target]);
          OneMoreBackup(files, before, old(files), staging, index);
          if written == Done {
            written := Flush();
          }
          if written != Done {
            return written, entries, expected;
          }
          BackupsStayApart(before, files, entries, old(files), items[..index], staging, index, before[item.target]);
        }
        entries := entries + [Entry(item.target, item.staged, backup)];
        assert items[..index + 1] == items[..index] + [item];
      }
      assert items[..|items|] == items;
      o := Done;
    }

    // Writes the journal beside the staged files and moves it into place. No rollback follows when the last flush
    // fails.
    method InstallJournal(root: Path, staging: Path, entries: seq<Entry>) returns (o: Outcome)
      requires IsStagingDirectory(root, staging)
      modifies this
      ensures forall p :: p != staging + [JOURNAL_TEMPORARY] && p != JournalPath(root) ==> SameAt(files, old(files), p)
      ensures o == Done || o.Stranded? || !SameAt(files, old(files), JournalPath(root)) ==>
                && JournalPath(root) == root + [".gwo-v8-ga-metadata-publication.json"]
                && JournalPath(root) in files
                && files[JournalPath(root)] == Journal("gwo-v8-ga-publication.v1", entries)
      ensures o == Failed ==> SameAt(files, old(files), JournalPath(root))
      ensures old(faults) == [] ==> o == Done && faults == []
    {
      assert |JournalPath(root)| != |staging + [JOURNAL_TEMPORARY]|;
      o := Write(staging + [JOURNAL_TEMPORARY], Journal(SCHEMA, entries));
      if o == Done {
        o := Flush();
      }
      if o == Done {
        o := Replace(staging + [JOURNAL_TEMPORARY], JournalPath(root));
      }
      if o == Done {
        o := Flush();
        o := if o == Failed then Stranded(false) else o;
      }
    }

    // Moves the staged files over the targets one by one and reads each of them back.
    method ReplaceTargets(ghost root: Path, ghost staging: Path, items: seq<Item>, expected: seq<Content>)
      returns (o: Outcome)
      requires Separate(root, staging, items) && Expected(expected, items, files)
      modifies this
      ensures !o.Stranded? && SameBesides(files, old(files), items)
      ensures o == Done ==> forall k :: 0 <= k < |items| ==>
                items[k].target in files && files[items[k].target] == expected[k]
      ensures old(faults) == [] ==> o == Done && faults == []
    {
      for k := 0 to |items|
        invariant SameBesides(files, old(files), items)
        invariant forall l :: 0 <= l < k ==> items[l].target in files && files[items[l].target] == expected[l]
        invariant forall l :: k <= l < |items| ==> items[l].staged in files && files[items[l].staged] == expected[l]
        invariant old(faults) == [] ==> faults == []
      {
        StagedIsNoTarget(root, staging, items);
        ghost var before := files;
        o := Replace(items[k].staged, items[k].target);
        OnlyItems(files, before, old(files), items, k);
        if o != Done {
          return;
        }
        o := Flush();
        if o != Done {
          return;
        }
        if items[k].target !in files || files[items[k].target] != expected[k] {
          return Failed;
        }
        o := Flush();
        if o != Done {
          return;
        }
      }
      o := Done;
    }

    // Publishes every staged document, rolling back when a step fails after the journal is in place. `start` is what
    // the first recovery leaves.
    method Publish(staged: seq<Item>) returns (o: Outcome, ghost start: Files)
      requires staged != [] ==> Layout(CommonPath(TargetParents(staged)), CommonPath(StagedPaths(staged)), staged)
      modifies this
      ensures staged == [] ==> o == Failed && files == old(files)
      ensures staged != [] ==>
                var root := CommonPath(TargetParents(staged));
                Recovered(old(files), root).Some? && (o.Stranded? ==> JournalPath(root) !in old(files)) ==>
                  RecoveredOutside(old(files), start, root) && Published(o, start, files, staged, root)
      ensures staged != [] && JournalPath(CommonPath(TargetParents(staged))) !in old(files) ==> start == old(files)
      ensures staged != [] ==>
                var root := CommonPath(TargetParents(staged));
                old(faults) == [] && Recovered(old(files), root).Some? ==>
                  && start == Recovered(old(files), root).value
                  && ((forall i :: i in staged ==> i.staged in start) ==> o == Done && faults == [])
    {
      start := files;
      if staged == [] {
        return Failed, start;
      }
      var root, staging := CommonPath(TargetParents(staged)), CommonPath(StagedPaths(staged));
      o := Recover(root);
      start := files;
      if o != Done {
        NoJournalRecovers(files, root);
        return;
      }
      o := PublishSorted(root, staging, staged, Sort(ItemKey, staged));
    }

    method PublishSorted(root: Path, staging: Path, ghost staged: seq<Item>, items: seq<Item>) returns (o: Outcome)
      requires Layout(root, staging, staged) && items == Sort(ItemKey, staged) && JournalPath(root) !in files
      modifies this
      ensures Published(o, old(files), files, staged, root)
      ensures old(faults) == [] && (forall i :: i in staged ==> i.staged in old(files)) ==> o == Done && faults == []
    {
      SortedIsSeparate(root, staging, staged);
      SortedItems(staged);
      var entries, expected;
      o, entries, expected := BackUp(root, staging, items);
      BackupsAreOutside(files, old(files), root, staging);
      if o != Done {
        return;
      }
      ghost var prepared := files;
      o := InstallJournal(root, staging, entries);
      JournalIsInstalled(files, prepared, old(files), entries, items, root, staging);
      if o != Done {
        NothingReplaced(o, files, entries, old(files), root, staging, staged);
        return;
      }
      StagedIsUntouched(files, prepared, old(files), expected, items, root, staging);
      o := Complete(root, staging, staged, items, entries, expected, old(files));
    }

    // The part of a publication whose failure is followed by a rollback.
    method Complete(root: Path, staging: Path, ghost staged: seq<Item>, items: seq<Item>, entries: seq<Entry>,
                    expected: seq<Content>, ghost before: Files)
      returns (o: Outcome)
      requires Layout(root, staging, staged) && items == Sort(ItemKey, staged) && JournalPath(root) !in before
      requires InFlight(files, entries, items, before, root, staging)
      requires Expected(expected, items, files) && Expected(expected, items, before)
      modifies this
      ensures Published(o, before, files, staged, root)
      ensures old(faults) == [] ==> o == Done && faults == []
    {
      SortedIsSeparate(root, staging, staged);
      SortedItems(staged);
      o := ReplaceTargets(root, staging, items, expected);
      StaysInFlight(files, old(files), entries, items, before, root, staging);
      ghost var replaced := files;
      if o == Done {
        o := RemoveJournal(root);
        AllReplaced(replaced, before, expected, items, entries, root, staging);
        InstalledInAnyOrder(before, replaced - {JournalPath(root)}, staged, root);
      }
      WithoutJournal(files, replaced, entries, items, before, root, staging);
      ghost var reached := files;
      if o == Failed {
        UnderwayUndoes(files, entries, before, root, staging, staged);
        o := RollBackFailure(root, entries, before);
        Ended(o, reached, files, entries, before, root, staging, staged);
      } else if o == Crashed {
        CrashedOnTheWay(files, entries, before, root, staging, staged);
      }
    }

    // The rollback after a failed step ends the publication with an error unless it is cut off itself. The journal is
    // gone already when the step that failed is the flush after its removal.
    method RollBackFailure(root: Path, entries: seq<Entry>, ghost before: Files) returns (o: Outcome)
      requires Undone(files, root, SCHEMA, entries).Some?
      requires SameOutside(Undone(files, root, SCHEMA, entries).value, before, root)
      modifies this
      ensures o in {Failed, Crashed} || o.Stranded?
      ensures o in {Failed, Crashed} ==> JournalPath(root) !in files && SameOutside(files, before, root)
      ensures o.Stranded? ==> CutOff(old(files), files, entries)
    {
      o := Rollback(root, SCHEMA, entries);
      if o == Done {
        o := Failed;
      }
    }
  }

  // How a publication that started from `before` may end. After a crash it is what one completed recovery leaves
  // that counts: everything old, or everything new; and everything old as long as the journal stands. A publication
  // that is stranded has restored some of its last entries, or none.
  ghost predicate Published(o: Outcome, before: Files, after: Files, items: seq<Item>, root: Path) {
    match o
    case Done => JournalPath(root) !in after && Installed(before, items, after, root)
    case Failed => JournalPath(root) !in after && SameOutside(after, before, root)
    case Crashed =>
      && Recovered(after, root).Some?
      && var g := Recovered(after, root).value;
         && JournalPath(root) !in g && (SameOutside(g, before, root) || Installed(before, items, g, root))
         && (JournalPath(root) in after ==>
              SameOutside(g, before, root) && items != [] && LeftOpen(before, after, items, root))
    case Stranded(_) => items != [] && LeftOpen(before, after, items, root)
  }

  ghost predicate LeftOpen(before: Files, after: Files, items: seq<Item>, root: Path)
    requires items != []
  {
    exists f, entries ::
      && Underway(f, entries, Sort(ItemKey, items), before, root, CommonPath(StagedPaths(items)))
      && CutOff(f, after, entries)
  }

  // The backups are intact, only targets have changed outside staging, and the journal, if it stands, is this one.
  ghost predicate Underway(f: Files, entries: seq<Entry>, items: seq<Item>, before: Files, root: Path, staging: Path) {
    && Prepared(entries, items, staging) && BackedUp(f, entries, before)
    && (JournalPath(root) in f ==> f[JournalPath(root)] == Journal(SCHEMA, entries))
    && (forall p :: !InStaging(root, p) && p != JournalPath(root) && (forall i :: i in items ==> i.target != p) ==>
         SameAt(f, before, p))
  }

  ghost predicate InFlight(f: Files, entries: seq<Entry>, items: seq<Item>, before: Files, root: Path, staging: Path) {
    JournalPath(root) in f && Underway(f, entries, items, before, root, staging)
  }

  // How a publication ends before it replaces a target.
  lemma NothingReplaced(o: Outcome, f: Files, entries: seq<Entry>, before: Files, root: Path, staging: Path,
                        staged: seq<Item>)
    requires Layout(root, staging, staged) && JournalPath(root) !in before && o != Done
    requires Prepared(entries, Sort(ItemKey, staged), staging) && BackedUp(f, entries, before)
    requires forall p :: !InStaging(root, p) && p != JournalPath(root) ==> SameAt(f, before, p)
    requires JournalPath(root) !in f ==> SameOutside(f, before, root)
    requires JournalPath(root) in f ==> f[JournalPath(root)] == Journal(SCHEMA, entries)
    requires o == Failed ==> JournalPath(root) !in f
    ensures Published(o, before, f, staged, root)
  {
    if o.Stranded? {
      Ended(o, f, f, entries, before, root, staging, staged);
    } else if JournalPath(root) in f {
      CrashedOnTheWay(f, entries, before, root, staging, staged);
    }
  }

  // How a publication ends with a rollback that reaches `f` from `reached`.
  lemma Ended(o: Outcome, reached: Files, f: Files, entries: seq<Entry>, before: Files, root: Path, staging: Path,
              staged: seq<Item>)
    requires Layout(root, staging, staged) && Underway(reached, entries, Sort(ItemKey, staged), before, root, staging)
    requires o in {Failed, Crashed} || o.Stranded?
    requires o in {Failed, Crashed} ==> JournalPath(root) !in f && SameOutside(f, before, root)
    requires o.Stranded? ==> f == reached || CutOff(reached, f, entries)
    ensures Published(o, before, f, staged, root)
  {
    if o.Stranded? {
      assert f == reached ==> RestoredLast(reached, entries, 0) == Some(f);
    }
  }

  // How a publication ends with a crash while it replaces its targets or removes the journal.
  lemma CrashedOnTheWay(f: Files, entries: seq<Entry>, before: Files, root: Path, staging: Path, staged: seq<Item>)
    requires Layout(root, staging, staged) && JournalPath(root) !in before
    requires Underway(f, entries, Sort(ItemKey, staged), before, root, staging)
    requires JournalPath(root) !in f ==> Installed(before, staged, f, root)
    ensures Published(Crashed, before, f, staged, root)
  {
    if JournalPath(root) in f {
      InFlightRecovers(f, entries, before, root, staging, staged);
      assert RestoredLast(f, entries, 0) == Some(f);
    }
  }

  // Removing the journal is no hindrance to undoing the entries.
  lemma WithoutJournal(f: Files, replaced: Files, entries: seq<Entry>, items: seq<Item>, before: Files, root: Path,
                       staging: Path)
    requires IsStagingDirectory(root, staging) && InFlight(replaced, entries, items, before, root, staging)
    requires f == replaced || f == replaced - {JournalPath(root)}
    ensures Underway(f, entries, items, before, root, staging)
  {
    forall k | 0 <= k < |entries| && entries[k].backup.Some? ensures SameAt(f, replaced, entries[k].backup.value) {
      TemporaryIsApart(root, staging, k);
    }
    forall p | !InStaging(root, p) && p != JournalPath(root) && forall i :: i in items ==> i.target != p
      ensures SameAt(f, before, p)
    {
      assert SameAt(replaced, before, p);
    }
  }

  ghost predicate SameOutsideBackups(f: Files, g: Files, staging: Path) {
    forall p :: !(staging + [BACKUPS] <= p) ==> SameAt(f, g, p)
  }

  ghost predicate SameBesides(f: Files, g: Files, items: seq<Item>) {
    forall p :: (forall i :: i in items ==> p != i.staged && p != i.target) ==> SameAt(f, g, p)
  }

  lemma OneMoreBackup(f: Files, g: Files, h: Files, staging: Path, index: nat)
    requires SameExcept(f, g, BackupPath(staging, index)) && SameOutsideBackups(g, h, staging)
    ensures SameOutsideBackups(f, h, staging)
  {
    forall p | !(staging + [BACKUPS] <= p) ensures SameAt(f, h, p) {
      assert staging + [BACKUPS] <= BackupPath(staging, index);
      assert SameAt(f, g, p) && SameAt(g, h, p);
    }
  }

  lemma OnlyItems(f: Files, g: Files, h: Files, items: seq<Item>, k: nat)
    requires k < |items| && SameBesides(g, h, items)
    requires forall p :: p != items[k].staged && p != items[k].target ==> SameAt(f, g, p)
    ensures SameBesides(f, h, items)
  {
    forall p | forall i :: i in items ==> p != i.staged && p != i.target ensures SameAt(f, h, p) {
      assert items[k] in items;
      assert SameAt(f, g, p) && SameAt(g, h, p);
    }
  }

  ghost predicate BackedUp(files: Files, entries: seq<Entry>, before: Files) {
    forall k :: 0 <= k < |entries| ==>
      match entries[k].backup
      case None => entries[k].target !in before
      case Some(b) => b in files && entries[k].target in before && files[b] == before[entries[k].target]
  }

  ghost predicate Expected(expected: seq<Content>, items: seq<Item>, before: Files) {
    |expected| == |items| && forall k :: 0 <= k < |items| ==>
      items[k].staged in before && expected[k] == before[items[k].staged]
  }

  lemma NotInBackups(root: Path, staging: Path, item: Item)
    requires IsStagingDirectory(root, staging) && Placed(root, staging, item)
    ensures !(staging + [BACKUPS] <= item.staged) && !(staging + [BACKUPS] <= item.target)
  {
    var d := staging + [BACKUPS];
    assert d[|staging|] == BACKUPS;
    if d <= item.target {
      assert staging <= d <= item.target;
      BelowStaging(root, staging, item.target);
    }
  }

  lemma BackupPathsDiffer(staging: Path, i: nat, j: nat)
    requires BackupPath(staging, i) == BackupPath(staging, j)
    ensures i == j
  {
    var a, b := Decimal(i) + ".bak", Decimal(j) + ".bak";
    assert BackupPath(staging, i)[|staging| + 1] == a && BackupPath(staging, j)[|staging| + 1] == b;
    assert a[..|a| - 4] == Decimal(i) && b[..|b| - 4] == Decimal(j);
    DecimalIsInjective(i, j);
  }

  // Writing one more backup leaves the earlier ones as they are.
  lemma BackupsStayApart(f: Files, g: Files, entries: seq<Entry>, before: Files, items: seq<Item>, staging: Path,
                         index: nat, content: Content)
    requires Prepared(entries, items, staging) && BackedUp(f, entries, before) && |entries| == index
    requires g == f[BackupPath(staging, index) := content]
    ensures BackedUp(g, entries, before)
  {
    forall k | 0 <= k < |entries| && entries[k].backup.Some?
      ensures BackupPath(staging, k) != BackupPath(staging, index)
    {
      if BackupPath(staging, k) == BackupPath(staging, index) {
        BackupPathsDiffer(staging, k, index);
      }
    }
  }

  lemma StagedIsNoTarget(root: Path, staging: Path, items: seq<Item>)
    requires Separate(root, staging, items)
    ensures forall i, j :: i in items && j in items ==> i.staged != j.target
  {
    forall i, j | i in items && j in items ensures i.staged != j.target {
      BelowStaging(root, staging, i.staged);
    }
  }

  lemma NoJournalRecovers(files: Files, root: Path)
    ensures JournalPath(root) !in files ==> Recovered(files, root) == Some(files)
  {
  }

  lemma SortedIsSeparate(root: Path, staging: Path, staged: seq<Item>)
    requires Separate(root, staging, staged)
    ensures Separate(root, staging, Sort(ItemKey, staged))
  {
    var items := Sort(ItemKey, staged);
    SortedItems(staged);
    SortSorts(ItemKey, staged);
    forall i, j | 0 <= i < j < |items|
      ensures items[i].target != items[j].target && items[i].staged != items[j].staged
    {
      assert items[i] in staged && items[j] in staged;
      if items[i] == items[j] {
        TwiceIn(items, i, j);
        OnlyOnce(staged, items[i]);
      }
    }
  }

  lemma {:induction false} OnlyOnce(items: seq<Item>, x: Item)
    requires forall i, j :: 0 <= i < j < |items| ==> items[i].target != items[j].target
    ensures multiset(items)[x] <= 1
  {
    if items != [] {
      OnlyOnce(items[1..], x);
      MultisetTail(items);
      if items[0] == x {
        assert x !in items[1..];
        assert multiset(items[1..])[x] == 0;
      }
    }
  }

  lemma InstalledInAnyOrder(before: Files, after: Files, staged: seq<Item>, root: Path)
    requires Installed(before, Sort(ItemKey, staged), after, root)
    ensures Installed(before, staged, after, root)
  {
    SortedItems(staged);
  }

  lemma BackupsAreOutside(f: Files, before: Files, root: Path, staging: Path)
    requires IsStagingDirectory(root, staging) && SameOutsideBackups(f, before, staging)
    ensures SameOutside(f, before, root) && SameAt(f, before, JournalPath(root))
  {
    JournalIsNotStaging(root);
    forall p | !InStaging(root, p) ensures SameAt(f, before, p) {
      if staging + [BACKUPS] <= p {
        assert staging <= staging + [BACKUPS] <= p;
        BelowStaging(root, staging, p);
      }
    }
  }

  lemma TemporaryIsApart(root: Path, staging: Path, index: nat)
    requires IsStagingDirectory(root, staging)
    ensures InStaging(root, staging + [JOURNAL_TEMPORARY]) && InStaging(root, BackupPath(staging, index))
    ensures BackupPath(staging, index) != staging + [JOURNAL_TEMPORARY]
    ensures BackupPath(staging, index) != JournalPath(root)
  {
    BelowStaging(root, staging, staging + [JOURNAL_TEMPORARY]);
    BelowStaging(root, staging, BackupPath(staging, index));
    JournalIsNotStaging(root);
    assert |BackupPath(staging, index)| != |staging + [JOURNAL_TEMPORARY]|;
  }

  // Installing the journal disturbs neither the backups nor anything outside staging.
  lemma JournalIsInstalled(f: Files, prepared: Files, before: Files, entries: seq<Entry>, items: seq<Item>, root: Path,
                           staging: Path)
    requires Separate(root, staging, items) && Prepared(entries, items, staging) && BackedUp(prepared, entries, before)
    requires SameOutside(prepared, before, root) && JournalPath(root) !in before
    requires forall p :: p != staging + [JOURNAL_TEMPORARY] && p != JournalPath(root) ==> SameAt(f, prepared, p)
    ensures forall p :: !InStaging(root, p) && p != JournalPath(root) ==> SameAt(f, before, p)
    ensures JournalPath(root) !in f ==> SameOutside(f, before, root)
    ensures BackedUp(f, entries, before)
  {
    forall p | !InStaging(root, p) && p != JournalPath(root) ensures SameAt(f, before, p) {
      TemporaryIsApart(root, staging, 0);
      assert SameAt(f, prepared, p) && SameAt(prepared, before, p);
    }
    forall k | 0 <= k < |entries| && entries[k].backup.Some? ensures SameAt(f, prepared, entries[k].backup.value) {
      TemporaryIsApart(root, staging, k);
    }
  }

  lemma StagedIsUntouched(f: Files, prepared: Files, before: Files, expected: seq<Content>, items: seq<Item>,
                          root: Path, staging: Path)
    requires Separate(root, staging, items) && Expected(expected, items, before)
    requires SameOutsideBackups(prepared, before, staging)
    requires forall p :: p != staging + [JOURNAL_TEMPORARY] && p != JournalPath(root) ==> SameAt(f, prepared, p)
    ensures Expected(expected, items, f)
  {
    forall k | 0 <= k < |items| ensures SameAt(f, before, items[k].staged) {
      var p := items[k].staged;
      assert items[k] in items;
      NotInBackups(root, staging, items[k]);
      BelowStaging(root, staging, p);
      JournalIsNotStaging(root);
      assert p[|staging|] != (staging + [JOURNAL_TEMPORARY])[|staging|];
      assert SameAt(f, prepared, p) && SameAt(prepared, before, p);
    }
  }

  // Replacing targets keeps the journal, the backups and everything else outside staging.
  lemma StaysInFlight(f: Files, installed: Files, entries: seq<Entry>, items: seq<Item>, before: Files, root: Path,
                      staging: Path)
    requires Separate(root, staging, items) && InFlight(installed, entries, items, before, root, staging)
    requires SameBesides(f, installed, items)
    ensures InFlight(f, entries, items, before, root, staging)
  {
    JournalIsNotStaging(root);
    forall i | i in items ensures InStaging(root, i.staged) && !InStaging(root, i.target) {
      BelowStaging(root, staging, i.staged);
    }
    assert SameAt(f, installed, JournalPath(root));
    forall k | 0 <= k < |entries| && entries[k].backup.Some? ensures SameAt(f, installed, entries[k].backup.value) {
      var b := entries[k].backup.value;
      TemporaryIsApart(root, staging, k);
      forall i | i in items ensures b != i.staged && b != i.target {
        assert b[|staging|] == BACKUPS;
      }
    }
    forall p | !InStaging(root, p) && p != JournalPath(root) && forall i :: i in items ==> i.target != p
      ensures SameAt(f, before, p)
    {
      assert SameAt(f, installed, p) && SameAt(installed, before, p);
    }
  }

  lemma UnderwayUndoes(f: Files, entries: seq<Entry>, before: Files, root: Path, staging: Path, staged: seq<Item>)
    requires Layout(root, staging, staged) && JournalPath(root) !in before
    requires Underway(f, entries, Sort(ItemKey, staged), before, root, staging)
    ensures Undone(f, root, SCHEMA, entries).Some?
    ensures JournalPath(root) !in Undone(f, root, SCHEMA, entries).value
    ensures SameOutside(Undone(f, root, SCHEMA, entries).value, before, root)
  {
    SortedIsSeparate(root, staging, staged);
    JournalIsAccepted(root, staging, staged, entries);
    InFlightIsGuarded(f, entries, Sort(ItemKey, staged), before, root, staging);
    UndoingRestores(f, entries, before, root);
  }

  // Whatever the crash point, a journal in flight recovers to the old files.
  lemma InFlightRecovers(f: Files, entries: seq<Entry>, before: Files, root: Path, staging: Path, staged: seq<Item>)
    requires Layout(root, staging, staged) && JournalPath(root) !in before
    requires InFlight(f, entries, Sort(ItemKey, staged), before, root, staging)
    ensures Recovered(f, root).Some? && JournalPath(root) !in Recovered(f, root).value
    ensures SameOutside(Recovered(f, root).value, before, root)
  {
    UnderwayUndoes(f, entries, before, root, staging, staged);
  }

  lemma InFlightIsGuarded(f: Files, entries: seq<Entry>, items: seq<Item>, before: Files, root: Path, staging: Path)
    requires Separate(root, staging, items) && Underway(f, entries, items, before, root, staging)
    ensures Guarded(f, entries, before, root) && forall e :: e in entries ==> e.target != JournalPath(root)
  {
    forall e | e in entries
      ensures !InStaging(root, e.target) && e.target != JournalPath(root)
      ensures e.backup.None? ==> e.target !in before
      ensures e.backup.Some? ==>
                && InStaging(root, e.backup.value) && e.backup.value in f
                && e.target in before && f[e.backup.value] == before[e.target]
    {
      var k :| 0 <= k < |entries| && entries[k] == e;
      assert items[k] in items;
      TemporaryIsApart(root, staging, k);
    }
    forall i, j | 0 <= i < j < |entries|
      ensures entries[i].target != entries[j].target
      ensures entries[i].backup.Some? ==> entries[i].backup != entries[j].backup
    {
      if entries[i].backup.Some? && entries[i].backup == entries[j].backup {
        BackupPathsDiffer(staging, i, j);
      }
    }
    forall p | !InStaging(root, p) && p != JournalPath(root) && forall e :: e in entries ==> e.target != p
      ensures SameAt(f, before, p)
    {
      forall i | i in items ensures i.target != p {
        var k :| 0 <= k < |items| && items[k] == i;
        assert entries[k] in entries;
      }
    }
  }

  lemma AllReplaced(replaced: Files, before: Files, expected: seq<Content>, items: seq<Item>, entries: seq<Entry>,
                    root: Path, staging: Path)
    requires Separate(root, staging, items) && InFlight(replaced, entries, items, before, root, staging)
    requires Expected(expected, items, before) && JournalPath(root) !in before
    requires forall k :: 0 <= k < |items| ==> items[k].target in replaced && replaced[items[k].target] == expected[k]
    ensures Installed(before, items, replaced - {JournalPath(root)}, root)
  {
    forall i | i in items ensures i.staged in before && i.target in replaced && replaced[i.target] == before[i.staged] {
      var k :| 0 <= k < |items| && items[k] == i;
    }
  }

  lemma ClearingIsOutside(restored: Files, root: Path, staging: Path)
    requires IsStagingDirectory(root, staging)
    ensures SameOutside(restored, Without(restored, staging), root)
  {
    forall p | !InStaging(root, p) ensures SameAt(restored, Without(restored, staging), p) {
      if staging <= p {
        BelowStaging(root, staging, p);
      }
    }
  }

  // ----- A rollback that is cut off ----------------------------------------------------------

  // One more restoration is that of the entry before.
  lemma {:induction false} RestoredNext(f: Files, entries: seq<Entry>, k: nat)
    requires k < |entries| && RestoredLast(f, entries, k).Some?
    ensures RestoredLast(f, entries, k + 1) == Restored(RestoredLast(f, entries, k).value, entries[|entries| - 1 - k])
    decreases k
  {
    if k > 0 {
      var rest := entries[..|entries| - 1];
      RestoredNext(Restored(f, entries[|entries| - 1]).value, rest, k - 1);
      assert rest[|rest| - k] == entries[|entries| - 1 - k];
    }
  }

  // Once some entries are restored, the rollback goes on from there.
  lemma {:induction false} RestoredAll(f: Files, entries: seq<Entry>, k: nat)
    requires k <= |entries| && RestoredLast(f, entries, k).Some?
    ensures RolledBack(f, entries) == RolledBack(RestoredLast(f, entries, k).value, entries[..|entries| - k])
    decreases k
  {
    if k == 0 {
      assert entries[..|entries|] == entries;
    } else {
      var rest := entries[..|entries| - 1];
      RestoredAll(Restored(f, entries[|entries| - 1]).value, rest, k - 1);
      assert rest[..|rest| - (k - 1)] == entries[..|entries| - k];
    }
  }

  // Recovery interrupted after `k` restorations can be repeated exactly when none of them used a backup: a used
  // backup is gone, and the next recovery refuses without it.
  lemma InterruptedRecovery(f: Files, entries: seq<Entry>, before: Files, root: Path, k: nat)
    requires Guarded(f, entries, before, root) && k <= |entries| && JournalPath(root) !in before
    requires forall e :: e in entries ==> e.target != JournalPath(root)
    requires JournalPath(root) in f && f[JournalPath(root)] == Journal(SCHEMA, entries)
    requires AcceptedStaging(SCHEMA, entries, root).Some?
    ensures RestoredLast(f, entries, k).Some?
    ensures Recovered(RestoredLast(f, entries, k).value, root).Some? <==>
            forall j :: |entries| - k <= j < |entries| ==> entries[j].backup.None?
  {
    UsedBackupsAreGone(f, entries, before, root, k);
    var h := RestoredLast(f, entries, k).value;
    if j :| |entries| - k <= j < |entries| && entries[j].backup.Some? {
      MissingBackup(h, entries, root, j);
    } else {
      UnusedBackupsStay(f, entries, before, root, k);
      RollbackRestores(h, entries, before, root);
    }
  }

  // What a program run can meet: with the journal of a publication in flight over a target that existed, a rollback
  // that dies between its last restoration and the removal of the journal can never be completed.
  lemma CutOffRollbackIsFinal(f: Files, entries: seq<Entry>, before: Files, root: Path, staging: Path,
                              staged: seq<Item>)
    requires Layout(root, staging, staged) && JournalPath(root) !in before
    requires InFlight(f, entries, Sort(ItemKey, staged), before, root, staging)
    requires exists i :: i in staged && i.target in before
    ensures RestoredLast(f, entries, |entries|).Some?
    ensures Recovered(RestoredLast(f, entries, |entries|).value, root).None?
  {
    var items := Sort(ItemKey, staged);
    SortedIsSeparate(root, staging, staged);
    SortedItems(staged);
    JournalIsAccepted(root, staging, staged, entries);
    InFlightIsGuarded(f, entries, items, before, root, staging);
    InterruptedRecovery(f, entries, before, root, |entries|);
    var i :| i in staged && i.target in before;
    var k :| 0 <= k < |items| && items[k] == i;
    assert entries[k] in entries && entries[k].target == i.target;
  }

  // When the staging directory is removed after a rollback was cut off, as the exception that ended it makes the
  // renderer do, the journal can be recovered exactly when no target had existed.
  lemma DiscardedBackups(f: Files, entries: seq<Entry>, before: Files, root: Path, staging: Path, k: nat)
    requires Guarded(f, entries, before, root) && k <= |entries| && JournalPath(root) !in before
    requires forall e :: e in entries ==> e.target != JournalPath(root)
    requires JournalPath(root) in f && f[JournalPath(root)] == Journal(SCHEMA, entries)
    requires AcceptedStaging(SCHEMA, entries, root) == Some(staging)
    requires forall e :: e in entries && e.backup.Some? ==> staging <= e.backup.value
    ensures RestoredLast(f, entries, k).Some?
    ensures Recovered(Without(RestoredLast(f, entries, k).value, staging), root).Some? <==>
            forall e :: e in entries ==> e.backup.None?
  {
    UsedBackupsAreGone(f, entries, before, root, k);
    var g := Without(RestoredLast(f, entries, k).value, staging);
    JournalIsNotStaging(root);
    if staging <= JournalPath(root) {
      BelowStaging(root, staging, JournalPath(root));
    }
    assert SameAt(g, RestoredLast(f, entries, k).value, JournalPath(root));
    if e :| e in entries && e.backup.Some? {
      var j :| 0 <= j < |entries| && entries[j] == e;
      MissingBackup(g, entries, root, j);
    } else {
      NothingToRestore(g, entries);
    }
  }

  // Wherever a publication is stranded, removing the staging directory leaves its journal recoverable exactly when no
  // target had existed.
  lemma StrandedAndDiscarded(before: Files, after: Files, staged: seq<Item>, root: Path, staging: Path)
    requires Layout(root, staging, staged) && JournalPath(root) !in before
    requires LeftOpen(before, after, staged, root) && JournalPath(root) in after
    ensures Recovered(Without(after, staging), root).Some? <==> forall i :: i in staged ==> i.target !in before
  {
    var f, entries, k := WhereItStopped(before, after, staged, root, staging);
    DiscardedBackups(f, entries, before, root, staging, k);
    BackedUpExactly(f, entries, before, staged, staging);
  }

  // The journal of a stranded publication, the files when its rollback started, and how far that came.
  lemma WhereItStopped(before: Files, after: Files, staged: seq<Item>, root: Path, staging: Path)
    returns (f: Files, entries: seq<Entry>, k: nat)
    requires Layout(root, staging, staged) && JournalPath(root) !in before
    requires LeftOpen(before, after, staged, root) && JournalPath(root) in after
    ensures InFlight(f, entries, Sort(ItemKey, staged), before, root, staging) && Guarded(f, entries, before, root)
    ensures k <= |entries| && RestoredLast(f, entries, k) == Some(after)
    ensures AcceptedStaging(SCHEMA, entries, root) == Some(staging) && SameAt(after, f, JournalPath(root))
    ensures forall e :: e in entries ==> e.target != JournalPath(root)
    ensures forall e :: e in entries && e.backup.Some? ==> staging <= e.backup.value
  {
    var items := Sort(ItemKey, staged);
    f, entries :| Underway(f, entries, items, before, root, staging) && CutOff(f, after, entries);
    k :| 0 <= k <= |entries| && RestoredLast(f, entries, k) == Some(after);
    SortedIsSeparate(root, staging, staged);
    JournalIsAccepted(root, staging, staged, entries);
    InFlightIsGuarded(f, entries, items, before, root, staging);
    UsedBackupsAreGone(f, entries, before, root, k);
  }

  lemma BackedUpExactly(f: Files, entries: seq<Entry>, before: Files, staged: seq<Item>, staging: Path)
    requires Prepared(entries, Sort(ItemKey, staged), staging) && BackedUp(f, entries, before)
    ensures (forall e :: e in entries ==> e.backup.None?) <==> (forall i :: i in staged ==> i.target !in before)
  {
    var items := Sort(ItemKey, staged);
    SortedItems(staged);
    if i :| i in staged && i.target in before {
      var k :| 0 <= k < |items| && items[k] == i;
      assert entries[k] in entries && entries[k].backup.Some?;
    }
    if e :| e in entries && e.backup.Some? {
      var k :| 0 <= k < |entries| && entries[k] == e;
      assert items[k] in staged && items[k].target in before;
    }
  }

  // A flush that fails right after the journal is installed is followed by no rollback, and the exception makes the
  // renderer remove its staging directory. Nothing is lost, but later runs are refused exactly when a target had
  // existed.
  lemma UnguardedFlush(f: Files, entries: seq<Entry>, before: Files, root: Path, staging: Path, staged: seq<Item>)
    requires Layout(root, staging, staged) && JournalPath(root) !in before
    requires InFlight(f, entries, Sort(ItemKey, staged), before, root, staging)
    requires forall i :: i in staged ==> SameAt(f, before, i.target)
    ensures Recovered(f, root).Some?
    ensures SameOutside(Without(f, staging) - {JournalPath(root)}, before, root)
    ensures Recovered(Without(f, staging), root).None? <==> exists i :: i in staged && i.target in before
  {
    InFlightRecovers(f, entries, before, root, staging, staged);
    NothingIsLost(f, entries, before, root, staging, staged);
    assert RestoredLast(f, entries, 0) == Some(f);
    StrandedAndDiscarded(before, f, staged, root, staging);
  }

  lemma NothingIsLost(f: Files, entries: seq<Entry>, before: Files, root: Path, staging: Path, staged: seq<Item>)
    requires IsStagingDirectory(root, staging) && JournalPath(root) !in before
    requires Underway(f, entries, Sort(ItemKey, staged), before, root, staging)
    requires forall i :: i in staged ==> SameAt(f, before, i.target)
    ensures SameOutside(Without(f, staging) - {JournalPath(root)}, before, root)
  {
    SortedItems(staged);
    ClearingKeepsOutside(f - {JournalPath(root)}, before, root, staging);
    assert Without(f, staging) - {JournalPath(root)}
        == Without(f - {JournalPath(root)} - {JournalPath(root)}, staging);
  }

  // ----- Journals that recovery can rely on ---------------------------------------------------

  // If a journal stands, it is acceptable and its backups are those of some earlier files.
  ghost predicate Trusted(f: Files, root: Path) {
    JournalPath(root) in f ==>
      && f[JournalPath(root)].Journal? && f[JournalPath(root)].schema == SCHEMA
      && AcceptedStaging(SCHEMA, f[JournalPath(root)].entries, root).Some?
      && (forall e :: e in f[JournalPath(root)].entries ==> e.target != JournalPath(root))
      && exists before :: JournalPath(root) !in before && Guarded(f, f[JournalPath(root)].entries, before, root)
  }

  lemma GuardedIsTrusted(f: Files, entries: seq<Entry>, before: Files, root: Path)
    requires Guarded(f, entries, before, root) && JournalPath(root) !in before
    requires forall e :: e in entries ==> e.target != JournalPath(root)
    requires JournalPath(root) in f && f[JournalPath(root)] == Journal(SCHEMA, entries)
    requires AcceptedStaging(SCHEMA, entries, root).Some?
    ensures Trusted(f, root) && Recovered(f, root).Some? && SameOutside(Recovered(f, root).value, before, root)
  {
    RecoveryRestores(f, entries, before, root);
  }

  lemma TrustedRecovers(f: Files, root: Path)
    requires Trusted(f, root)
    ensures Recovered(f, root).Some?
  {
    if JournalPath(root) in f {
      var entries := f[JournalPath(root)].entries;
      var before :| JournalPath(root) !in before && Guarded(f, entries, before, root);
      RecoveryRestores(f, entries, before, root);
    }
  }

  // A rollback that was cut off and can be repeated leaves the same old files to recover.
  lemma RepeatableKeepsOldFiles(f: Files, h: Files, entries: seq<Entry>, before: Files, root: Path)
    requires Guarded(f, entries, before, root) && JournalPath(root) !in before
    requires forall e :: e in entries ==> e.target != JournalPath(root)
    requires JournalPath(root) in f && f[JournalPath(root)] == Journal(SCHEMA, entries)
    requires AcceptedStaging(SCHEMA, entries, root).Some?
    requires CutOff(f, h, entries) && Recovered(h, root).Some?
    ensures Trusted(h, root) && SameOutside(Recovered(h, root).value, before, root)
  {
    var k :| 0 <= k <= |entries| && RestoredLast(f, entries, k) == Some(h);
    InterruptedRecovery(f, entries, before, root, k);
    UnusedBackupsStay(f, entries, before, root, k);
    UsedBackupsAreGone(f, entries, before, root, k);
    GuardedIsTrusted(h, entries, before, root);
  }

  lemma CutOffStaysTrusted(f: Files, h: Files, root: Path)
    requires Trusted(f, root) && JournalPath(root) in f
    requires CutOff(f, h, f[JournalPath(root)].entries) && Recovered(h, root).Some?
    ensures Trusted(h, root) && Recovered(f, root).Some?
    ensures SameOutside(Recovered(h, root).value, Recovered(f, root).value, root)
  {
    var entries := f[JournalPath(root)].entries;
    var before :| JournalPath(root) !in before && Guarded(f, entries, before, root);
    RecoveryRestores(f, entries, before, root);
    RepeatableKeepsOldFiles(f, h, entries, before, root);
    SameOutsideBoth(Recovered(h, root).value, Recovered(f, root).value, before, root);
  }

  lemma SameOutsideBoth(f: Files, g: Files, before: Files, root: Path)
    requires SameOutside(f, before, root) && SameOutside(g, before, root)
    ensures SameOutside(f, g, root)
  {
    forall p | !InStaging(root, p) ensures SameAt(f, g, p) {
      assert SameAt(f, before, p) && SameAt(g, before, p);
    }
  }

  // A stranded publication whose journal stands is refused or recovers to the old files, with its staging directory and
  // without it.
  lemma StrandedIsSafe(before: Files, after: Files, f: Files, staged: seq<Item>, root: Path, staging: Path)
    requires Layout(root, staging, staged) && JournalPath(root) !in before
    requires LeftOpen(before, after, staged, root) && JournalPath(root) in after
    requires (f == after || f == Without(after, staging)) && Recovered(f, root).Some?
    ensures Trusted(f, root) && SameOutside(Recovered(f, root).value, before, root)
  {
    var start, entries, k := WhereItStopped(before, after, staged, root, staging);
    if f == after {
      RepeatableKeepsOldFiles(start, after, entries, before, root);
    } else {
      DiscardedBackups(start, entries, before, root, staging, k);
      UnusedBackupsStay(start, entries, before, root, k);
      WithoutBackups(after, entries, before, root, staging);
    }
  }

  lemma WithoutBackups(f: Files, entries: seq<Entry>, before: Files, root: Path, staging: Path)
    requires Guarded(f, entries, before, root) && JournalPath(root) !in before && IsStagingDirectory(root, staging)
    requires forall e :: e in entries ==> e.target != JournalPath(root) && e.backup.None?
    requires JournalPath(root) in f && f[JournalPath(root)] == Journal(SCHEMA, entries)
    requires AcceptedStaging(SCHEMA, entries, root).Some?
    ensures var g := Without(f, staging);
            Trusted(g, root) && Recovered(g, root).Some? && SameOutside(Recovered(g, root).value, before, root)
  {
    var g := Without(f, staging);
    ClearingIsOutside(f, root, staging);
    JournalIsNotStaging(root);
    assert SameAt(f, g, JournalPath(root));
    forall p | !InStaging(root, p) && p != JournalPath(root) && forall e :: e in entries ==> e.target != p
      ensures SameAt(g, before, p)
    {
      assert SameAt(f, g, p) && SameAt(f, before, p);
    }
    GuardedIsTrusted(g, entries, before, root);
  }

  // What has been restored when the last `k` entries are.
  lemma {:induction false} RestoredPart(f: Files, entries: seq<Entry>, before: Files, root: Path, k: nat)
    requires Guarded(f, entries, before, root) && k <= |entries| && JournalPath(root) !in before
    requires forall e :: e in entries ==> e.target != JournalPath(root)
    ensures var h := RestoredLast(f, entries, k);
            h.Some? && Guarded(h.value, entries[..|entries| - k], before, root) && SameAt(h.value, f, JournalPath(root))
    decreases k, 0
  {
    if k == 0 {
      assert entries[..|entries|] == entries;
    } else {
      var rest, left := entries[..|entries| - 1], |entries| - k;
      RestoreOne(f, entries, before, root);
      var next := Restored(f, entries[|entries| - 1]).value;
      assert RestoredLast(f, entries, k) == RestoredLast(next, rest, k - 1);
      RestoredRest(next, rest, before, root, k - 1, entries[..left]) by {
        assert rest[..left] == entries[..left];
        assert forall e :: e in rest ==> e in entries;
      }
    }
  }

  lemma RestoredRest(f: Files, entries: seq<Entry>, before: Files, root: Path, k: nat, left: seq<Entry>)
    requires Guarded(f, entries, before, root) && k <= |entries| && JournalPath(root) !in before
    requires forall e :: e in entries ==> e.target != JournalPath(root)
    requires left == entries[..|entries| - k]
    ensures var h := RestoredLast(f, entries, k);
            h.Some? && Guarded(h.value, left, before, root) && SameAt(h.value, f, JournalPath(root))
    decreases k, 1
  {
    RestoredPart(f, entries, before, root, k);
  }

  // And what has not.
  lemma {:induction false} UnrestoredPart(f: Files, entries: seq<Entry>, before: Files, root: Path, k: nat)
    requires Guarded(f, entries, before, root) && k <= |entries| && JournalPath(root) !in before
    requires forall e :: e in entries ==> e.target != JournalPath(root)
    ensures RestoredLast(f, entries, k).Some?
    ensures SameTargets(RestoredLast(f, entries, k).value, f, entries, |entries| - k)
    decreases k
  {
    if k > 0 {
      var last, rest := entries[|entries| - 1], entries[..|entries| - 1];
      assert forall e :: e in rest ==> e in entries;
      RestoreOne(f, entries, before, root);
      LastTargetOnly(f, entries, before, root);
      UnrestoredPart(Restored(f, last).value, rest, before, root, k - 1);
      SameTargetsThrough(RestoredLast(f, entries, k).value, Restored(f, last).value, f, entries, |entries| - k);
    }
  }

  ghost predicate SameTargets(f: Files, g: Files, entries: seq<Entry>, n: nat)
    requires n <= |entries|
  {
    forall j :: 0 <= j < n ==> SameAt(f, g, entries[j].target)
  }

  lemma SameTargetsThrough(h: Files, next: Files, f: Files, entries: seq<Entry>, n: nat)
    requires n < |entries| && SameTargets(h, next, entries[..|entries| - 1], n)
    requires SameTargets(next, f, entries, |entries| - 1)
    ensures SameTargets(h, f, entries, n)
  {
    forall j | 0 <= j < n ensures SameAt(h, f, entries[j].target) {
      assert entries[..|entries| - 1][j] == entries[j];
    }
  }

  lemma LastTargetOnly(f: Files, entries: seq<Entry>, before: Files, root: Path)
    requires Guarded(f, entries, before, root) && entries != [] && Restored(f, entries[|entries| - 1]).Some?
    ensures SameTargets(Restored(f, entries[|entries| - 1]).value, f, entries, |entries| - 1)
  {
    forall j | 0 <= j < |entries| - 1
      ensures SameAt(Restored(f, entries[|entries| - 1]).value, f, entries[j].target)
    {
      assert entries[j] in entries && entries[|entries| - 1] in entries;
    }
  }

  // When only the flush after the removal of the journal fails, the rollback runs without a journal. Cut off after `k`
  // restorations it leaves nothing to recover from, and the old files exactly when the other targets hold them already.
  lemma UnrecordedRollback(f: Files, entries: seq<Entry>, before: Files, root: Path, k: nat)
    requires Guarded(f, entries, before, root) && k <= |entries| && JournalPath(root) !in before
    requires forall e :: e in entries ==> e.target != JournalPath(root)
    requires JournalPath(root) !in f
    ensures RestoredLast(f, entries, k).Some?
    ensures var h := RestoredLast(f, entries, k).value;
            && Recovered(h, root) == Some(h)
            && (SameOutside(h, before, root) <==> SameTargets(f, before, entries, |entries| - k))
  {
    RestoredPart(f, entries, before, root, k);
    UnrestoredPart(f, entries, before, root, k);
    var h, left := RestoredLast(f, entries, k).value, entries[..|entries| - k];
    JournalIsNotStaging(root);
    forall j | 0 <= j < |entries| - k ensures !InStaging(root, entries[j].target) && entries[j] == left[j] {
      assert entries[j] in entries;
    }
    if SameTargets(f, before, entries, |entries| - k) {
      forall p | !InStaging(root, p) ensures SameAt(h, before, p) {
        if j :| 0 <= j < |left| && left[j].target == p {
          assert SameAt(h, f, entries[j].target);
        } else {
          assert p != JournalPath(root) && (forall e :: e in left ==> e.target != p) ==> SameAt(h, before, p);
        }
      }
    } else {
      var j :| 0 <= j < |entries| - k && !SameAt(f, before, entries[j].target);
      assert SameAt(h, f, entries[j].target);
    }
  }

  lemma {:induction false} NothingToRestore(f: Files, entries: seq<Entry>)
    requires forall e :: e in entries ==> e.backup.None?
    ensures RolledBack(f, entries).Some?
    decreases |entries|
  {
    if entries != [] {
      var last := entries[|entries| - 1];
      assert last in entries;
      NothingToRestore(f - {last.target}, entries[..|entries| - 1]);
    }
  }

  // After the last entries have been restored: the journal is as it was, nothing new lies in the staging directory, and
  // the backups of those entries are used.
  ghost predicate UsedUp(f: Files, h: Files, entries: seq<Entry>, root: Path, k: nat)
    requires k <= |entries|
  {
    && SameAt(h, f, JournalPath(root))
    && (forall b :: InStaging(root, b) && b !in f ==> b !in h)
    && (forall j :: |entries| - k <= j < |entries| && entries[j].backup.Some? ==> entries[j].backup.value !in h)
  }

  lemma {:induction false} UsedBackupsAreGone(f: Files, entries: seq<Entry>, before: Files, root: Path, k: nat)
    requires Guarded(f, entries, before, root) && k <= |entries| && JournalPath(root) !in before
    requires forall e :: e in entries ==> e.target != JournalPath(root)
    ensures RestoredLast(f, entries, k).Some? && UsedUp(f, RestoredLast(f, entries, k).value, entries, root, k)
    decreases k
  {
    if k > 0 {
      var last, rest := entries[|entries| - 1], entries[..|entries| - 1];
      assert last in entries;
      assert forall e :: e in rest ==> e in entries;
      var next := Restored(f, last).value;
      RestoreOne(f, entries, before, root);
      UsedBackupsAreGone(next, rest, before, root, k - 1);
      UsedUpStep(f, next, RestoredLast(f, entries, k).value, entries, root, k);
    }
  }

  lemma UsedUpStep(f: Files, next: Files, h: Files, entries: seq<Entry>, root: Path, k: nat)
    requires 0 < k <= |entries| && UsedUp(next, h, entries[..|entries| - 1], root, k - 1)
    requires SameAt(next, f, JournalPath(root))
    requires forall b :: InStaging(root, b) && b !in f ==> b !in next
    requires var last := entries[|entries| - 1];
             last.backup.Some? ==> InStaging(root, last.backup.value) && last.backup.value !in next
    ensures UsedUp(f, h, entries, root, k)
  {
    assert SameAt(h, next, JournalPath(root)) && SameAt(next, f, JournalPath(root));
    assert forall j :: 0 <= j < |entries| - 1 ==> entries[j] == entries[..|entries| - 1][j];
  }

  // Entries without a backup only remove targets that were absent before, which leaves everything guarded.
  lemma {:induction false} UnusedBackupsStay(f: Files, entries: seq<Entry>, before: Files, root: Path, k: nat)
    requires Guarded(f, entries, before, root) && k <= |entries| && RestoredLast(f, entries, k).Some?
    requires forall j :: |entries| - k <= j < |entries| ==> entries[j].backup.None?
    ensures Guarded(RestoredLast(f, entries, k).value, entries, before, root)
  {
    OnlyAbsentTargets(f, entries, k);
    var h := RestoredLast(f, entries, k).value;
    forall e | e in entries && e.backup.Some? ensures SameAt(h, f, e.backup.value) {
    }
    forall p | forall e :: e in entries ==> e.target != p ensures SameAt(h, f, p) {
    }
  }

  lemma {:induction false} OnlyAbsentTargets(f: Files, entries: seq<Entry>, k: nat)
    requires k <= |entries| && RestoredLast(f, entries, k).Some?
    requires forall j :: |entries| - k <= j < |entries| ==> entries[j].backup.None?
    ensures forall p :: SameAt(RestoredLast(f, entries, k).value, f, p)
                        || (p !in RestoredLast(f, entries, k).value &&
                            exists e :: e in entries && e.backup.None? && e.target == p)
    decreases k
  {
    if k > 0 {
      var last, rest := entries[|entries| - 1], entries[..|entries| - 1];
      assert last in entries && last.backup.None?;
      assert forall e :: e in rest ==> e in entries;
      assert forall j :: 0 <= j < |rest| ==> entries[j] == rest[j];
      OnlyAbsentTargets(f - {last.target}, rest, k - 1);
      var h := RestoredLast(f, entries, k).value;
      forall p ensures SameAt(h, f, p) || (p !in h && exists e :: e in entries && e.backup.None? && e.target == p) {
        assert SameAt(h, f - {last.target}, p)
               || (p !in h && exists e :: e in rest && e.backup.None? && e.target == p);
      }
    }
  }

  lemma {:induction false} MissingBackup(f: Files, entries: seq<Entry>, root: Path, j: nat)
    requires j < |entries| && entries[j].backup.Some? && InStaging(root, entries[j].backup.value)
    requires entries[j].backup.value !in f && forall e :: e in entries ==> !InStaging(root, e.target)
    ensures RolledBack(f, entries).None?
    decreases |entries|
  {
    var last, rest := entries[|entries| - 1], entries[..|entries| - 1];
    assert last in entries;
    if j < |entries| - 1 && Restored(f, last).Some? {
      MissingBackup(Restored(f, last).value, rest, root, j);
    }
  }
}
