/** Package trees: the snapshot traversal, and the two digests of one package. */
module Packages {
  import opened Wrappers
  import opened Tuples
  import opened Sorting
  import opened Lists
  import opened Paths
  import opened Bytes

  // A directory tree; links, reparse points and special files are `Special`.
  datatype Node = File(content: seq<byte>) | Directory(entries: seq<Entry>) | Special

  datatype Entry = Entry(name: string, node: Node)

  datatype Snapshot = Snapshot(path: Path, content: seq<byte>)

  const CACHE := "__pycache__"
  const MANIFEST := ".skill-package.json"
  const TEXT_SUFFIXES: set<string> := {".json", ".md", ".py", ".toml", ".txt", ".yaml", ".yml"}

  function Name(p: Path): string {
    if p == [] then "" else p[|p| - 1]
  }

  // Not below a cache directory and not compiled.
  predicate Kept(p: Path) {
    CACHE !in p && Suffix(Name(p)) != ".pyc"
  }

  // The same in terms of the end of the name: compiled files are those that end in ".pyc" after something else.
  lemma KeptMeans(p: Path)
    requires p != []
    ensures Kept(p) <==> "__pycache__" !in p && !(|p[|p| - 1]| > 4 && EndsWith(p[|p| - 1], ".pyc"))
  {
    SuffixEnds(p[|p| - 1], ".pyc");
  }

  // In the order of the path texts.
  ghost predicate InPathOrder(files: seq<Snapshot>) {
    forall i, j :: 0 <= i < j < |files| ==> Precedes(PathText(files[i].path), PathText(files[j].path))
  }

  function SnapshotKey(s: Snapshot): seq<int> {
    PathKey(s.path)
  }

  function EntryKey(e: Entry): seq<int> {
    Codes(e.name)
  }

  // ----- Specification ------------------------------------------------------------------------

  // The kept regular files below a directory, cache directories left out.
  function Collect(keep: Path -> bool, path: Path, entries: seq<Entry>): seq<Snapshot>
    decreases entries
  {
    if entries == [] then [] else CollectOne(keep, path, entries[0]) + Collect(keep, path, entries[1..])
  }

  function CollectOne(keep: Path -> bool, path: Path, e: Entry): seq<Snapshot>
    decreases e
  {
    match e.node
    case File(content) => if keep(path + [e.name]) then [Snapshot(path + [e.name], content)] else []
    case Directory(inside) => if e.name == CACHE then [] else Collect(keep, path + [e.name], inside)
    case Special => []
  }

  // A special file is met somewhere outside cache directories.
  predicate MeetsSpecial(entries: seq<Entry>)
    decreases entries
  {
    entries != [] && (IsSpecial(entries[0]) || MeetsSpecial(entries[1..]))
  }

  predicate IsSpecial(e: Entry)
    decreases e
  {
    match e.node
    case File(_) => false
    case Directory(inside) => e.name != CACHE && MeetsSpecial(inside)
    case Special => true
  }

  function Size(entries: seq<Entry>): nat
    decreases entries
  {
    if entries == [] then 1 else SizeOne(entries[0]) + Size(entries[1..])
  }

  function SizeOne(e: Entry): (n: nat)
    ensures n > 0
    decreases e
  {
    match e.node
    case Directory(inside) => 1 + Size(inside)
    case _ => 1
  }

  // A directory that has been seen but not yet scanned.
  datatype Pending = Pending(path: Path, entries: seq<Entry>)

  function PendingFiles(keep: Path -> bool, pending: seq<Pending>): seq<Snapshot> {
    if pending == [] then []
    else
      var last := pending[|pending| - 1];
      PendingFiles(keep, pending[..|pending| - 1]) + Collect(keep, last.path, last.entries)
  }

  predicate PendingSpecial(pending: seq<Pending>) {
    pending != [] && (PendingSpecial(pending[..|pending| - 1]) || MeetsSpecial(pending[|pending| - 1].entries))
  }

  function PendingSize(pending: seq<Pending>): nat {
    if pending == [] then 0 else PendingSize(pending[..|pending| - 1]) + Size(pending[|pending| - 1].entries)
  }

  // ----- Traversal ------------------------------------------------------------------------------

  // The files and the directories that scanning one directory finds.
  function FilesIn(keep: Path -> bool, path: Path, entries: seq<Entry>): seq<Snapshot> {
    if entries == [] then [] else FileIn(keep, path, entries[0]) + FilesIn(keep, path, entries[1..])
  }

  function FileIn(keep: Path -> bool, path: Path, e: Entry): seq<Snapshot> {
    if e.node.File? && keep(path + [e.name]) then [Snapshot(path + [e.name], e.node.content)] else []
  }

  function DirectoriesIn(path: Path, entries: seq<Entry>): seq<Pending> {
    if entries == [] then [] else DirectoryIn(path, entries[0]) + DirectoriesIn(path, entries[1..])
  }

  function DirectoryIn(path: Path, e: Entry): seq<Pending> {
    if e.node.Directory? && e.name != CACHE then [Pending(path + [e.name], e.node.entries)] else []
  }

  // Scans one directory in name order: files are recorded, directories other than caches are left for later.
  method Scan(keep: Path -> bool, path: Path, entries: seq<Entry>)
    returns (ok: bool, files: seq<Snapshot>, found: seq<Pending>)
    ensures ok <==> forall e :: e in entries ==> !e.node.Special?
    ensures ok ==> files == FilesIn(keep, path, Sort(EntryKey, entries))
    ensures ok ==> found == DirectoriesIn(path, Sort(EntryKey, entries))
  {
    files, found := [], [];
    var sorted := Sort(EntryKey, entries);
    SortKeepsMembers(EntryKey, entries);
    for k := 0 to |sorted|
      invariant files == FilesIn(keep, path, sorted[..k]) && found == DirectoriesIn(path, sorted[..k])
      invariant forall j :: 0 <= j < k ==> !sorted[j].node.Special?
    {
      assert sorted[..k + 1] == sorted[..k] + [sorted[k]];
      ScanSnoc(keep, path, sorted[..k], sorted[k]);
      var regular, file, directory := Sift(keep, path, sorted[k]);
      if !regular {
        assert sorted[k] in sorted;
        return false, files, found;
      }
      files, found := files + file, found + directory;
    }
    assert sorted[..|sorted|] == sorted;
    ok := true;
  }

  // What one entry adds: a kept file, a directory for later, or nothing.
  method Sift(keep: Path -> bool, path: Path, e: Entry) returns (ok: bool, file: seq<Snapshot>, directory: seq<Pending>)
    ensures ok <==> !e.node.Special?
    ensures ok ==> file == FileIn(keep, path, e) && directory == DirectoryIn(path, e)
  {
    ok, file, directory := true, [], [];
    var here := path + [e.name];
    match e.node {
      case Special =>
        ok := false;
      case Directory(inside) =>
        if e.name != CACHE {
          directory := [Pending(here, inside)];
        }
      case File(content) =>
        if keep(here) {
          file := [Snapshot(here, content)];
        }
    }
  }

  lemma {:induction false} ScanSnoc(keep: Path -> bool, path: Path, entries: seq<Entry>, e: Entry)
    ensures FilesIn(keep, path, entries + [e]) == FilesIn(keep, path, entries) + FileIn(keep, path, e)
    ensures DirectoriesIn(path, entries + [e]) == DirectoriesIn(path, entries) + DirectoryIn(path, e)
  {
    if entries == [] {
      assert entries + [e] == [e];
    } else {
      ScanSnoc(keep, path, entries[1..], e);
      assert (entries + [e])[1..] == entries[1..] + [e];
      Associates(FileIn(keep, path, entries[0]), FilesIn(keep, path, entries[1..]), FileIn(keep, path, e));
      Associates(DirectoryIn(path, entries[0]), DirectoriesIn(path, entries[1..]), DirectoryIn(path, e));
    }
  }

  // What a scan finds and leaves for later accounts for everything below the directory.
  lemma {:induction false} ScanAccounts(keep: Path -> bool, path: Path, entries: seq<Entry>)
    requires forall e :: e in entries ==> !e.node.Special?
    ensures multiset(FilesIn(keep, path, entries)) + multiset(PendingFiles(keep, DirectoriesIn(path, entries)))
         == multiset(Collect(keep, path, entries))
    ensures PendingSize(DirectoriesIn(path, entries)) < Size(entries)
  {
    if entries != [] {
      var e, rest := entries[0], entries[1..];
      ScanAccounts(keep, path, rest);
      PendingConcat(keep, DirectoryIn(path, e), DirectoriesIn(path, rest));
      OnePending(keep, path, e);
    }
  }

  lemma OnePending(keep: Path -> bool, path: Path, e: Entry)
    ensures PendingFiles(keep, DirectoryIn(path, e)) == if e.node.Directory? then CollectOne(keep, path, e) else []
    ensures PendingSize(DirectoryIn(path, e)) < SizeOne(e)
    ensures !e.node.Special? ==> (PendingSpecial(DirectoryIn(path, e)) <==> IsSpecial(e))
  {
    if e.node.Directory? && e.name != CACHE {
      var p := Pending(path + [e.name], e.node.entries);
      PendingSnoc(keep, [], p);
      assert [] + [p] == [p];
    }
  }

  lemma {:induction false} ScanMeetsSpecial(keep: Path -> bool, path: Path, entries: seq<Entry>)
    requires forall e :: e in entries ==> !e.node.Special?
    ensures PendingSpecial(DirectoriesIn(path, entries)) <==> MeetsSpecial(entries)
  {
    if entries != [] {
      ScanMeetsSpecial(keep, path, entries[1..]);
      PendingConcat(keep, DirectoryIn(path, entries[0]), DirectoriesIn(path, entries[1..]));
      OnePending(keep, path, entries[0]);
    }
  }

  lemma {:induction false} SpecialMember(entries: seq<Entry>, e: Entry)
    requires e in entries && e.node.Special?
    ensures MeetsSpecial(entries)
  {
    if entries[0] != e {
      SpecialMember(entries[1..], e);
    }
  }

  // One turn of the traversal loop.
  lemma ScanTurn(keep: Path -> bool, directory: Pending)
    requires forall e :: e in directory.entries ==> !e.node.Special?
    ensures var sorted := Sort(EntryKey, directory.entries);
            var files, found := FilesIn(keep, directory.path, sorted), DirectoriesIn(directory.path, sorted);
            && multiset(files) + multiset(PendingFiles(keep, found)) ==
               multiset(Collect(keep, directory.path, directory.entries))
            && (PendingSpecial(found) <==> MeetsSpecial(directory.entries))
            && PendingSize(found) < Size(directory.entries)
  {
    SortKeepsMembers(EntryKey, directory.entries);
    ScanAccounts(keep, directory.path, Sort(EntryKey, directory.entries));
    ScanMeetsSpecial(keep, directory.path, Sort(EntryKey, directory.entries));
    PermutedEntries(keep, directory.path, Sort(EntryKey, directory.entries), directory.entries);
  }

  // The kept files of a tree, each once, in path order; refused exactly when a special file is met.
  method Snapshots(root: Path, tree: Node) returns (r: Option<seq<Snapshot>>)
    ensures r.Some? <==> tree.Directory? && !MeetsSpecial(tree.entries)
    ensures r.Some? ==> InPathOrder(r.value) && multiset(r.value) == multiset(Collect(Kept, root, tree.entries))
  {
    if !tree.Directory? {
      return None;
    }
    var result: seq<Snapshot> := [];
    var pending := [Pending(root, tree.entries)];
    PendingSnoc(Kept, [], Pending(root, tree.entries));
    assert [] + [Pending(root, tree.entries)] == pending;
    while pending != []
      invariant multiset(result) + multiset(PendingFiles(Kept, pending)) == multiset(Collect(Kept, root, tree.entries))
      invariant PendingSpecial(pending) <==> MeetsSpecial(tree.entries)
      decreases PendingSize(pending)
    {
      var directory, rest := pending[|pending| - 1], pending[..|pending| - 1];
      assert pending == rest + [directory];
      PendingSnoc(Kept, rest, directory);
      var ok, files, found := Scan(Kept, directory.path, directory.entries);
      if !ok {
        var e :| e in directory.entries && e.node.Special?;
        SpecialMember(directory.entries, e);
        return None;
      }
      ScanTurn(Kept, directory);
      PendingConcat(Kept, rest, found);
      Exchange(result, files, PendingFiles(Kept, rest), PendingFiles(Kept, found),
        Collect(Kept, directory.path, directory.entries));
      pending := rest + found;
      result := result + files;
    }
    SortSorts(SnapshotKey, result);
    SortedIsInPathOrder(Sort(SnapshotKey, result));
    r := Some(Sort(SnapshotKey, result));
  }

  lemma SortedIsInPathOrder(files: seq<Snapshot>)
    requires Sorted(SnapshotKey, files)
    ensures InPathOrder(files)
  {
    forall i, j | 0 <= i < j < |files| ensures Precedes(PathText(files[i].path), PathText(files[j].path)) {
      assert AtMost(SnapshotKey(files[i]), SnapshotKey(files[j]));
      OrderOfTexts(PathText(files[i].path), PathText(files[j].path));
    }
  }

  lemma PendingSnoc(keep: Path -> bool, pending: seq<Pending>, p: Pending)
    ensures PendingFiles(keep, pending + [p]) == PendingFiles(keep, pending) + Collect(keep, p.path, p.entries)
    ensures PendingSpecial(pending + [p]) <==> PendingSpecial(pending) || MeetsSpecial(p.entries)
    ensures PendingSize(pending + [p]) == PendingSize(pending) + Size(p.entries)
  {
    assert (pending + [p])[..|pending|] == pending;
  }

  lemma {:induction false} PendingConcat(keep: Path -> bool, a: seq<Pending>, b: seq<Pending>)
    ensures PendingFiles(keep, a + b) == PendingFiles(keep, a) + PendingFiles(keep, b)
    ensures PendingSpecial(a + b) <==> PendingSpecial(a) || PendingSpecial(b)
    ensures PendingSize(a + b) == PendingSize(a) + PendingSize(b)
  {
    if b == [] {
      assert a + b == a;
    } else {
      var front, last := b[..|b| - 1], b[|b| - 1];
      PendingConcat(keep, a, front);
      PendingSnoc(keep, a + front, last);
      assert a + b == (a + front) + [last];
      Associates(PendingFiles(keep, a), PendingFiles(keep, front), Collect(keep, last.path, last.entries));
    }
  }

  lemma Exchange<T>(done: seq<T>, files: seq<T>, rest: seq<T>, found: seq<T>, directory: seq<T>)
    requires multiset(files) + multiset(found) == multiset(directory)
    ensures multiset(done + files) + multiset(rest + found) == multiset(done) + multiset(rest + directory)
  {
  }

  lemma CollectStep(keep: Path -> bool, path: Path, entries: seq<Entry>)
    requires entries != []
    ensures Collect(keep, path, entries) == CollectOne(keep, path, entries[0]) + Collect(keep, path, entries[1..])
  {
  }

  lemma {:induction false} CollectConcat(keep: Path -> bool, path: Path, a: seq<Entry>, b: seq<Entry>)
    ensures Collect(keep, path, a + b) == Collect(keep, path, a) + Collect(keep, path, b)
  {
    if a == [] {
      assert a + b == b;
    } else {
      CollectConcat(keep, path, a[1..], b);
      CollectStep(keep, path, a + b);
      CollectStep(keep, path, a);
      assert (a + b)[1..] == a[1..] + b && (a + b)[0] == a[0];
      Associates(CollectOne(keep, path, a[0]), Collect(keep, path, a[1..]), Collect(keep, path, b));
    }
  }

  lemma {:induction false} SpecialConcat(a: seq<Entry>, b: seq<Entry>)
    ensures MeetsSpecial(a + b) <==> MeetsSpecial(a) || MeetsSpecial(b)
  {
    if a == [] {
      assert a + b == b;
    } else {
      SpecialConcat(a[1..], b);
      assert (a + b)[1..] == a[1..] + b;
    }
  }

  lemma {:induction false} SizeConcat(a: seq<Entry>, b: seq<Entry>)
    ensures Size(a + b) + 1 == Size(a) + Size(b)
  {
    if a == [] {
      assert a + b == b;
    } else {
      SizeConcat(a[1..], b);
      assert (a + b)[1..] == a[1..] + b;
    }
  }

  // The order of the entries does not matter.
  lemma {:induction false} PermutedEntries(keep: Path -> bool, path: Path, a: seq<Entry>, b: seq<Entry>)
    requires multiset(a) == multiset(b)
    ensures multiset(Collect(keep, path, a)) == multiset(Collect(keep, path, b))
    ensures MeetsSpecial(a) <==> MeetsSpecial(b)
    ensures Size(a) == Size(b)
    decreases |a|
  {
    if a == [] {
      assert |multiset(b)| == 0;
    } else {
      var k := PermutedIndex(a, b);
      PermutedEntries(keep, path, a[1..], b[..k] + b[k + 1..]);
      EntryMoves(keep, path, b, k);
      EntryMoves(keep, path, a, 0);
      assert a[..0] + a[1..] == a[1..];
    }
  }

  lemma EntryMoves(keep: Path -> bool, path: Path, s: seq<Entry>, k: nat)
    requires k < |s|
    ensures multiset(Collect(keep, path, s)) ==
            multiset(Collect(keep, path, [s[k]])) + multiset(Collect(keep, path, s[..k] + s[k + 1..]))
    ensures MeetsSpecial(s) <==> MeetsSpecial([s[k]]) || MeetsSpecial(s[..k] + s[k + 1..])
    ensures Size(s) + 1 == Size([s[k]]) + Size(s[..k] + s[k + 1..])
  {
    var before, one, after := s[..k], [s[k]], s[k + 1..];
    assert s == before + (one + after);
    CollectConcat(keep, path, before, one + after);
    CollectConcat(keep, path, one, after);
    CollectConcat(keep, path, before, after);
    SpecialConcat(before, one + after);
    SpecialConcat(one, after);
    SpecialConcat(before, after);
    SizeConcat(before, one + after);
    SizeConcat(one, after);
    SizeConcat(before, after);
  }
}
