/** Rendering the three GA documents: one run, interrupted runs, and any number of repetitions. */
module Rendering {
  import opened Lists
  import opened Paths
  import opened Publication

  const VERSION := "## 8.0.0"
  const TITLE := "# Changelog"

  // The documents that the inputs determine: the body of the changelog entry and the two evidence documents.
  datatype Request = Request(body: string, acceptance: string, releaseNote: string)

  // `CleanupFailed`: the documents are published, but removing the staging directory raised.
  // `CutShort`: the recovery or the publication was stranded.
  datatype RenderOutcome = Rendered | AlreadyPresent | RenderFailed | CleanupFailed | Killed | CutShort

  function Changelog(root: Path): Path { root + ["CHANGELOG.md"] }

  function Acceptance(root: Path): Path { root + ["docs", "e2e", "gwo-v8-root-canary.md"] }

  function ReleaseNote(root: Path): Path { root + ["docs", "releases", "v8.0.0.md"] }

  function DropNewlines(s: string): string {
    if s != "" && s[0] == '\n' then DropNewlines(s[1..]) else s
  }

  function NewChangelog(previous: string, request: Request): string {
    var rest := if TITLE <= previous then DropNewlines(previous[|TITLE|..]) else previous;
    TITLE + "\n\n" + VERSION + "\n\n" + request.body + (if rest != "" then "\n" + rest else "")
  }

  // The text of the changelog, empty when there is none.
  function PreviousText(files: Files, root: Path): string {
    if Changelog(root) in files && files[Changelog(root)].Document? then files[Changelog(root)].text else ""
  }

  predicate Readable(files: Files, root: Path) {
    Changelog(root) in files ==> files[Changelog(root)].Document?
  }

  predicate HasVersion(files: Files, root: Path) {
    Contains(PreviousText(files, root), VERSION)
  }

  // ----- What becomes of the old changelog ------------------------------------------------------

  // The old entries of a changelog: what follows its title and the newlines after that, or all of it without a title.
  ghost predicate OldEntries(previous: string, newlines: string, entries: string) {
    && (forall c :: c in newlines ==> c == '\n')
    && if "# Changelog" <= previous
       then previous == "# Changelog" + newlines + entries && (entries == "" || entries[0] != '\n')
       else newlines == "" && entries == previous
  }

  lemma {:induction false} DroppedNewlines(s: string) returns (newlines: string)
    ensures s == newlines + DropNewlines(s) && forall c :: c in newlines ==> c == '\n'
    ensures DropNewlines(s) == "" || DropNewlines(s)[0] != '\n'
  {
    newlines := "";
    if s != "" && s[0] == '\n' {
      newlines := DroppedNewlines(s[1..]);
      newlines := [s[0]] + newlines;
      assert s == [s[0]] + s[1..];
    }
  }

  lemma OldEntriesExist(previous: string) returns (newlines: string, entries: string)
    ensures OldEntries(previous, newlines, entries)
  {
    newlines, entries := "", previous;
    if TITLE <= previous {
      newlines := DroppedNewlines(previous[|TITLE|..]);
      entries := DropNewlines(previous[|TITLE|..]);
      assert previous == TITLE + previous[|TITLE|..];
    }
  }

  lemma {:induction false} DropAll(newlines: string, entries: string)
    requires forall c :: c in newlines ==> c == '\n'
    requires entries == "" || entries[0] != '\n'
    ensures DropNewlines(newlines + entries) == entries
  {
    if newlines == "" {
      assert newlines + entries == entries;
    } else {
      assert newlines[0] in newlines && forall c :: c in newlines[1..] ==> c in newlines;
      DropAll(newlines[1..], entries);
      assert (newlines + entries)[1..] == newlines[1..] + entries;
    }
  }

  // The new entry comes first, and every old one is kept below it.
  lemma HistoryIsKept(previous: string, request: Request, newlines: string, entries: string)
    requires OldEntries(previous, newlines, entries)
    ensures NewChangelog(previous, request) ==
            "# Changelog\n\n## 8.0.0\n\n" + request.body + (if entries == "" then "" else "\n" + entries)
  {
    assert TITLE + "\n\n" + VERSION + "\n\n" == "# Changelog\n\n## 8.0.0\n\n";
    if TITLE <= previous {
      assert previous[|TITLE|..] == newlines + entries by {
        assert previous == TITLE + (newlines + entries);
      }
      DropAll(newlines, entries);
    }
  }

  // The documents that a call publishes, at their places, with every old entry of the changelog below the new one.
  ghost predicate KeepsHistory(before: Files, g: Files, root: Path, request: Request) {
    && root + ["CHANGELOG.md"] in g && g[root + ["CHANGELOG.md"]].Document?
    && (forall newlines, entries :: OldEntries(PreviousText(before, root), newlines, entries) ==>
         g[root + ["CHANGELOG.md"]].text ==
         "# Changelog\n\n## 8.0.0\n\n" + request.body + (if entries == "" then "" else "\n" + entries))
    && root + ["docs", "e2e", "gwo-v8-root-canary.md"] in g
    && g[root + ["docs", "e2e", "gwo-v8-root-canary.md"]] == Document(request.acceptance)
    && root + ["docs", "releases", "v8.0.0.md"] in g
    && g[root + ["docs", "releases", "v8.0.0.md"]] == Document(request.releaseNote)
  }

  lemma UpdatedKeepsHistory(before: Files, g: Files, root: Path, request: Request)
    requires Updated(before, g, root, request)
    ensures KeepsHistory(before, g, root, request)
  {
    var previous := PreviousText(before, root);
    forall newlines, entries | OldEntries(previous, newlines, entries)
      ensures NewChangelog(previous, request) ==
              "# Changelog\n\n## 8.0.0\n\n" + request.body + (if entries == "" then "" else "\n" + entries)
    {
      HistoryIsKept(previous, request, newlines, entries);
    }
  }

  // ----- Specification ------------------------------------------------------------------------

  // The three targets hold the new documents and everything else outside staging is as before.
  ghost predicate Updated(before: Files, g: Files, root: Path, request: Request) {
    && Changelog(root) in g && g[Changelog(root)] == Document(NewChangelog(PreviousText(before, root), request))
    && Acceptance(root) in g && g[Acceptance(root)] == Document(request.acceptance)
    && ReleaseNote(root) in g && g[ReleaseNote(root)] == Document(request.releaseNote)
    && forall p :: !InStaging(root, p) && p != Changelog(root) && p != Acceptance(root) && p != ReleaseNote(root) ==>
         SameAt(g, before, p)
  }

  // One run as an atomic step on what recovery would leave: nothing happens, or the update happens once; and while a
  // journal stands, nothing has happened.
  ghost predicate RenderStep(o: RenderOutcome, f: Files, f': Files, root: Path, request: Request) {
    Recovered(f, root).Some? && o != CutShort ==>
      && Recovered(f', root).Some?
      && var before, g := Recovered(f, root).value, Recovered(f', root).value;
         match o
         case Rendered => f' == g && !HasVersion(before, root) && Updated(before, g, root, request)
         case AlreadyPresent => f' == g && HasVersion(before, root) && SameOutside(g, before, root)
         case CleanupFailed => f' == g && !HasVersion(before, root) && Updated(before, g, root, request)
         case RenderFailed => f' == g && SameOutside(g, before, root)
         case Killed =>
           && (|| SameOutside(g, before, root)
               || (!HasVersion(before, root) && Updated(before, g, root, request)))
           && (JournalPath(root) in f' ==> SameOutside(g, before, root))
         case CutShort => true
  }

  // A run leaves journals that recovery can rely on. One that is cut short leaves, as long as the journal stands, one
  // that is refused or that brings back the files from before the run.
  ghost predicate TrustStep(o: RenderOutcome, f: Files, f': Files, root: Path) {
    Trusted(f, root) && Recovered(f, root).Some? ==>
      if o != CutShort then Trusted(f', root)
      else
        JournalPath(root) in f' && Recovered(f', root).Some? ==>
          Trusted(f', root) && SameOutside(Recovered(f', root).value, Recovered(f, root).value, root)
  }

  // ----- One run ------------------------------------------------------------------------------

  function StagingDirectory(root: Path, name: string): Path {
    root + [STAGING_PREFIX + name]
  }

  function StagedItems(root: Path, name: string): seq<Item> {
    var staging := StagingDirectory(root, name);
    [Item(Changelog(root), Changelog(staging)), Item(Acceptance(root), Acceptance(staging)),
     Item(ReleaseNote(root), ReleaseNote(staging))]
  }

  function Texts(previous: string, request: Request): seq<string> {
    [NewChangelog(previous, request), request.acceptance, request.releaseNote]
  }

  method WriteStaged(disk: Disk, root: Path, name: string, texts: seq<string>) returns (o: Outcome)
    requires |texts| == 3
    modifies disk
    ensures !o.Stranded?
    ensures forall p :: !(StagingDirectory(root, name) <= p) ==> SameAt(disk.files, old(disk.files), p)
    ensures o == Done ==> forall k :: 0 <= k < 3 ==>
              var p := StagedItems(root, name)[k].staged; p in disk.files && disk.files[p] == Document(texts[k])
    ensures old(disk.faults) == [] ==> o == Done && disk.faults == []
  {
    var items := StagedItems(root, name);
    StagedItemsAreApart(root, name);
    for k := 0 to 3
      invariant forall p :: !(StagingDirectory(root, name) <= p) ==> SameAt(disk.files, old(disk.files), p)
      invariant forall l :: 0 <= l < k ==>
                  items[l].staged in disk.files && disk.files[items[l].staged] == Document(texts[l])
      invariant old(disk.faults) == [] ==> disk.faults == []
    {
      ghost var before := disk.files;
      o := disk.Write(items[k].staged, Document(texts[k]));
      forall p | !(StagingDirectory(root, name) <= p) ensures SameAt(disk.files, old(disk.files), p) {
        assert SameAt(disk.files, before, p) && SameAt(before, old(disk.files), p);
      }
      if o == Done {
        o := disk.Flush();
      }
      if o != Done {
        return;
      }
    }
    o := Done;
  }

  lemma StagedItemsAreApart(root: Path, name: string)
    ensures var items := StagedItems(root, name);
            && (forall i, j :: 0 <= i < j < 3 ==>
                 items[i].target != items[j].target && items[i].staged != items[j].staged)
            && (forall i :: 0 <= i < 3 ==> StagingDirectory(root, name) <= items[i].staged)
  {
    var staging := StagingDirectory(root, name);
    assert Acceptance(root)[|root| + 1] != ReleaseNote(root)[|root| + 1];
    assert Acceptance(staging)[|staging| + 1] != ReleaseNote(staging)[|staging| + 1];
    assert |Changelog(root)| != |Acceptance(root)| && |Changelog(staging)| != |Acceptance(staging)|;
    assert |Changelog(root)| != |ReleaseNote(root)| && |Changelog(staging)| != |ReleaseNote(staging)|;
  }

  // Removes the staging directory; a crash may come before or after.
  method Discard(disk: Disk, staging: Path) returns (o: Outcome)
    modifies disk
    ensures disk.files == old(disk.files) || disk.files == Without(old(disk.files), staging)
    ensures old(disk.faults) == [] ==> o == Done && disk.faults == []
  {
    var fault := disk.NextFault();
    if fault.Fine? || (fault.Crashes? && fault.landed) {
      disk.files := Without(disk.files, staging);
    }
    o := if fault.Fine? then Done else if fault.Fails? then Failed else Crashed;
  }

  // How staging and publishing end, seen from the files `before` them.
  ghost predicate PublishedStep(o: Outcome, before: Files, after: Files, root: Path, name: string, request: Request) {
    match o
    case Done => JournalPath(root) !in after && Updated(before, after, root, request)
    case Failed => JournalPath(root) !in after && SameOutside(after, before, root)
    case Crashed =>
      && Recovered(after, root).Some?
      && var g := Recovered(after, root).value;
         && (SameOutside(g, before, root) || Updated(before, g, root, request))
         && (JournalPath(root) in after ==>
              SameOutside(g, before, root) && exists staged :: LeftOpenFrom(staged, before, after, root, name))
    case Stranded(_) => exists staged :: LeftOpenFrom(staged, before, after, root, name)
  }

  ghost predicate LeftOpenFrom(staged: Files, before: Files, after: Files, root: Path, name: string) {
    SameOutside(staged, before, root) && LeftOpen(staged, after, StagedItems(root, name), root)
  }

  predicate NoDocuments(files: Files, root: Path) {
    Changelog(root) !in files && Acceptance(root) !in files && ReleaseNote(root) !in files
  }

  lemma StrandedRun(before: Files, after: Files, f: Files, root: Path, name: string, request: Request)
    requires name != "" && JournalPath(root) !in before
    requires PublishedStep(Stranded(false), before, after, root, name, request)
    requires forall p :: !(StagingDirectory(root, name) <= p) ==> SameAt(f, after, p)
    requires JournalPath(root) in f && f == Without(f, StagingDirectory(root, name))
    ensures Recovered(f, root).Some? <==> NoDocuments(before, root)
  {
    var staging, items := StagingDirectory(root, name), StagedItems(root, name);
    var staged :| LeftOpenFrom(staged, before, after, root, name);
    OutsideStaging(f, after, root, name);
    JournalIsNotStaging(root);
    assert SameAt(staged, before, JournalPath(root));
    RendererLayout(root, name);
    StrandedAndDiscarded(staged, after, items, root, staging);
    forall p ensures SameAt(f, Without(after, staging), p) {
      assert !(staging <= p) ==> SameAt(f, after, p);
    }
    SameFiles(f, Without(after, staging));
    DocumentsOutside(staged, before, root, name);
  }

  lemma DocumentsOutside(f: Files, g: Files, root: Path, name: string)
    requires SameOutside(f, g, root)
    ensures (forall i :: i in StagedItems(root, name) ==> i.target !in f) <==> NoDocuments(g, root)
  {
    var items := StagedItems(root, name);
    TargetsAreOutside(root);
    assert items[0] in items && items[1] in items && items[2] in items;
    assert SameAt(f, g, Changelog(root)) && SameAt(f, g, Acceptance(root)) && SameAt(f, g, ReleaseNote(root));
  }

  // Whatever stays of a publication that was stranded or crashed, with or without the staging directory.
  lemma LeftIsSafe(o: Outcome, before: Files, after: Files, f: Files, root: Path, name: string, request: Request)
    requires name != "" && JournalPath(root) !in before && PublishedStep(o, before, after, root, name, request)
    requires f == after || f == Without(after, StagingDirectory(root, name))
    ensures JournalPath(root) in f && Recovered(f, root).Some? ==>
              Trusted(f, root) && SameOutside(Recovered(f, root).value, before, root)
    ensures o.Stranded? && JournalPath(root) in f && f == Without(f, StagingDirectory(root, name)) ==>
              (Recovered(f, root).Some? <==> NoDocuments(before, root))
  {
    if JournalPath(root) in f {
      if Recovered(f, root).Some? {
        LeftIsTrusted(before, after, f, root, name);
      }
      if o.Stranded? && f == Without(f, StagingDirectory(root, name)) {
        StrandedRun(before, after, f, root, name, request);
      }
    }
  }

  lemma LeftIsTrusted(before: Files, after: Files, f: Files, root: Path, name: string)
    requires name != "" && JournalPath(root) !in before && JournalPath(root) in f && Recovered(f, root).Some?
    requires f == after || f == Without(after, StagingDirectory(root, name))
    requires exists staged :: LeftOpenFrom(staged, before, after, root, name)
    ensures Trusted(f, root) && SameOutside(Recovered(f, root).value, before, root)
  {
    var staged :| LeftOpenFrom(staged, before, after, root, name);
    JournalIsNotStaging(root);
    assert SameAt(staged, before, JournalPath(root));
    RendererRoots(root, name);
    RendererLayout(root, name);
    StrandedIsSafe(staged, after, f, StagedItems(root, name), root, StagingDirectory(root, name));
    forall p | !InStaging(root, p) ensures SameAt(Recovered(f, root).value, before, p) {
      assert SameAt(Recovered(f, root).value, staged, p) && SameAt(staged, before, p);
    }
  }

  method PublishStaged(disk: Disk, root: Path, name: string, request: Request) returns (o: Outcome)
    requires name != "" && JournalPath(root) !in disk.files
    modifies disk
    ensures PublishedStep(o, old(disk.files), disk.files, root, name, request)
    ensures old(disk.faults) == [] ==> o == Done && disk.faults == []
  {
    ghost var before := disk.files;
    StagingIsOutside(root, name);
    o := WriteStaged(disk, root, name, Texts(PreviousText(disk.files, root), request));
    ghost var staged := disk.files;
    OutsideStaging(staged, before, root, name);
    NoJournalRecovers(staged, root);
    if o == Done {
      RendererRoots(root, name);
      RendererLayout(root, name);
      ghost var start;
      o, start := disk.Publish(StagedItems(root, name));
      assert LeftOpen(staged, disk.files, StagedItems(root, name), root) ==>
          LeftOpenFrom(staged, before, disk.files, root, name);
      if !o.Stranded? {
        PublishedMeansUpdated(o, before, staged, disk.files, root, name, request);
      }
    }
  }

  // A run once nothing is left to recover. When it is cut short and has removed its staging directory, a journal that
  // still stands can be recovered exactly when none of the documents had existed.
  method RenderFrom(disk: Disk, root: Path, name: string, request: Request) returns (o: RenderOutcome)
    requires name != "" && JournalPath(root) !in disk.files
    modifies disk
    ensures RenderStep(o, old(disk.files), disk.files, root, request) && TrustStep(o, old(disk.files), disk.files, root)
    ensures o == Rendered && Changelog(root) in old(disk.files) ==> old(disk.files)[Changelog(root)].Document?
    ensures o == CutShort && JournalPath(root) in disk.files
            && disk.files == Without(disk.files, StagingDirectory(root, name)) ==>
              (Recovered(disk.files, root).Some? <==> NoDocuments(old(disk.files), root))
    ensures old(disk.faults) == [] && Readable(old(disk.files), root) ==> o in {Rendered, AlreadyPresent}
  {
    ghost var before := disk.files;
    if !Readable(disk.files, root) {
      return RenderFailed;
    }
    var previous := PreviousText(disk.files, root);
    if Contains(previous, VERSION) {
      return AlreadyPresent;
    }
    var published := PublishStaged(disk, root, name, request);
    ghost var left := disk.files;
    if published == Crashed || published == Stranded(true) {
      o := if published == Crashed then Killed else CutShort;
      LeftIsSafe(published, before, left, disk.files, root, name, request);
      return;
    }
    StagingIsOutside(root, name);
    var discarded := Discard(disk, StagingDirectory(root, name));
    OutsideStaging(disk.files, left, root, name);
    StaysUpdated(disk.files, left, before, root, request);
    NoJournalRecovers(disk.files, root);
    LeftIsSafe(published, before, left, disk.files, root, name, request);
    o := if published.Stranded? then CutShort else if discarded == Crashed then Killed
         else if published == Failed then RenderFailed else if discarded == Failed then CleanupFailed else Rendered;
  }

  method Render(disk: Disk, root: Path, name: string, request: Request) returns (o: RenderOutcome)
    requires name != ""
    modifies disk
    ensures RenderStep(o, old(disk.files), disk.files, root, request) && TrustStep(o, old(disk.files), disk.files, root)
    ensures o == Rendered && Recovered(old(disk.files), root).Some? ==>
              var before := Recovered(old(disk.files), root).value;
              && KeepsHistory(before, disk.files, root, request)
              && (root + ["CHANGELOG.md"] in before ==> before[root + ["CHANGELOG.md"]].Document?)
    ensures old(disk.faults) == [] ==>
              match Recovered(old(disk.files), root)
              case None => o in {RenderFailed, CutShort}
              case Some(before) => Readable(before, root) ==> o in {Rendered, AlreadyPresent}
  {
    var recovered := disk.Recover(root);
    NoJournalRecovers(disk.files, root);
    if recovered != Done {
      RecoverTrusts(recovered, old(disk.files), disk.files, root);
      return if recovered == Failed then RenderFailed else if recovered == Crashed then Killed else CutShort;
    }
    ghost var start := disk.files;
    o := RenderFrom(disk, root, name, request);
    StepFromRecovered(o, old(disk.files), start, disk.files, root, request);
    TargetsAreOutside(root);
    if o == Rendered {
      assert SameAt(start, Recovered(old(disk.files), root).value, Changelog(root));
      UpdatedKeepsHistory(Recovered(old(disk.files), root).value, disk.files, root, request);
    }
  }

  // A recovery that does not succeed leaves a journal that can be relied on, or none.
  lemma RecoverTrusts(o: Outcome, f: Files, f': Files, root: Path)
    requires o == Crashed ==> RecoveredOutside(f, f', root)
    requires o == Failed ==> (f' == f && Recovered(f, root).None?) || RecoveredOutside(f, f', root)
    requires o.Stranded? ==> JournalPath(root) in f && f[JournalPath(root)].Journal?
                             && CutOff(f, f', f[JournalPath(root)].entries)
    requires o != Done
    ensures TrustStep(if o == Failed then RenderFailed else if o == Crashed then Killed else CutShort, f, f', root)
  {
    if o.Stranded? && Trusted(f, root) && Recovered(f', root).Some? {
      CutOffStaysTrusted(f, f', root);
    }
  }

  lemma StagingIsOutside(root: Path, name: string)
    requires name != ""
    ensures IsStagingDirectory(root, StagingDirectory(root, name))
    ensures forall p :: StagingDirectory(root, name) <= p ==> InStaging(root, p)
  {
    var staging := StagingDirectory(root, name);
    assert Parent(staging) == root;
    forall p | staging <= p ensures InStaging(root, p) {
      BelowStaging(root, staging, p);
    }
  }

  lemma OutsideStaging(f: Files, g: Files, root: Path, name: string)
    requires name != "" && forall p :: !(StagingDirectory(root, name) <= p) ==> SameAt(f, g, p)
    ensures SameOutside(f, g, root) && SameAt(f, g, JournalPath(root))
  {
    StagingIsOutside(root, name);
    JournalIsNotStaging(root);
  }

  // The three documents of the renderer form a layout that publication and recovery agree on.
  lemma RendererRoots(root: Path, name: string)
    requires name != ""
    ensures CommonPath(TargetParents(StagedItems(root, name))) == root
    ensures CommonPath(StagedPaths(StagedItems(root, name))) == StagingDirectory(root, name)
  {
    CommonOf(TargetParents(StagedItems(root, name)), root, 0);
    CommonOfStaged(root, name);
  }

  lemma RendererLayout(root: Path, name: string)
    requires name != ""
    ensures Layout(root, StagingDirectory(root, name), StagedItems(root, name))
  {
    var staging, items := StagingDirectory(root, name), StagedItems(root, name);
    assert Parent(Changelog(root)) == root && Parent(Changelog(staging)) == staging;
    CommonOf(TargetParents(items), root, 0);
    CommonOf(Parents(StagedPaths(items)), staging, 0);
    CommonOfStaged(root, name);
    RendererSeparates(root, name);
  }

  lemma RendererSeparates(root: Path, name: string)
    requires name != ""
    ensures Separate(root, StagingDirectory(root, name), StagedItems(root, name))
  {
    StagingIsOutside(root, name);
    StagedItemsAreApart(root, name);
    PlacedItem(root, name, ["CHANGELOG.md"]);
    PlacedItem(root, name, ["docs", "e2e", "gwo-v8-root-canary.md"]);
    PlacedItem(root, name, ["docs", "releases", "v8.0.0.md"]);
  }

  lemma PlacedItem(root: Path, name: string, tail: Path)
    requires name != "" && tail != [] && (tail[0] == "CHANGELOG.md" || tail[0] == "docs")
    ensures Placed(root, StagingDirectory(root, name), Item(root + tail, StagingDirectory(root, name) + tail))
  {
    var staging := StagingDirectory(root, name);
    assert (root + tail)[|root|] == tail[0] && (staging + tail)[|staging|] == tail[0];
    assert tail[0][0] != '.';
    assert STAGING_PREFIX[0] == '.' && BACKUPS[0] == '.' && JOURNAL_TEMPORARY[0] == '.' && JOURNAL_NAME[0] == '.';
    assert JournalPath(root)[|root|] == JOURNAL_NAME;
  }

  lemma CommonOf(paths: seq<Path>, p: Path, k: nat)
    requires k < |paths| && paths[k] == p && forall q :: q in paths ==> p <= q
    ensures CommonPath(paths) == p
  {
    CommonPathIsGreatest(paths, p);
    assert paths[k] in paths;
  }

  lemma CommonOfStaged(root: Path, name: string)
    ensures CommonPath(StagedPaths(StagedItems(root, name))) == StagingDirectory(root, name)
  {
    var staging := StagingDirectory(root, name);
    var paths := StagedPaths(StagedItems(root, name));
    CommonPathIsGreatest(paths, staging);
    var common := CommonPath(paths);
    assert paths[0] in paths && paths[1] in paths;
    assert paths[0][|staging|] == "CHANGELOG.md" && paths[1][|staging|] == "docs";
    assert |common| <= |staging|;
  }

  lemma PublishedMeansUpdated(o: Outcome, before: Files, staged: Files, after: Files, root: Path, name: string,
                              request: Request)
    requires name != "" && SameOutside(staged, before, root) && JournalPath(root) !in before
    requires SameAt(staged, before, JournalPath(root))
    requires forall k :: 0 <= k < 3 ==>
               var p := StagedItems(root, name)[k].staged;
               p in staged && staged[p] == Document(Texts(PreviousText(before, root), request)[k])
    requires Published(o, staged, after, StagedItems(root, name), root) && !o.Stranded?
    ensures o == Done ==> Updated(before, after, root, request)
    ensures o == Failed ==> SameOutside(after, before, root)
    ensures o == Crashed ==>
              && Recovered(after, root).Some?
              && var g := Recovered(after, root).value;
                 && (SameOutside(g, before, root) || Updated(before, g, root, request))
                 && (JournalPath(root) in after ==> SameOutside(g, before, root))
  {
    var g := if o == Crashed then Recovered(after, root).value else after;
    if SameOutside(g, staged, root) {
      forall p | !InStaging(root, p) ensures SameAt(g, before, p) {
        assert SameAt(g, staged, p) && SameAt(staged, before, p);
      }
    }
    if Installed(staged, StagedItems(root, name), g, root) {
      var items := StagedItems(root, name);
      assert items[0] in items && items[1] in items && items[2] in items;
      forall p | !InStaging(root, p) && p != Changelog(root) && p != Acceptance(root) && p != ReleaseNote(root)
        ensures SameAt(g, before, p)
      {
        assert SameAt(g, staged, p) && SameAt(staged, before, p);
      }
    }
  }

  // Clearing staging afterwards changes neither verdict.
  lemma StaysUpdated(f: Files, left: Files, before: Files, root: Path, request: Request)
    requires SameOutside(f, left, root)
    ensures SameOutside(left, before, root) ==> SameOutside(f, before, root)
    ensures Updated(before, left, root, request) ==> Updated(before, f, root, request)
  {
    TargetsAreOutside(root);
    assert SameAt(f, left, Changelog(root)) && SameAt(f, left, Acceptance(root)) && SameAt(f, left, ReleaseNote(root));
    forall p | !InStaging(root, p) && SameAt(left, before, p) ensures SameAt(f, before, p) {
      assert SameAt(f, left, p);
    }
  }

  lemma TargetsAreOutside(root: Path)
    ensures !InStaging(root, Changelog(root)) && !InStaging(root, Acceptance(root))
    ensures !InStaging(root, ReleaseNote(root))
  {
    assert STAGING_PREFIX[0] == '.';
    assert Changelog(root)[|root|][0] == 'C' && Acceptance(root)[|root|][0] == 'd';
    assert ReleaseNote(root)[|root|][0] == 'd';
  }

  // ----- Any number of runs -------------------------------------------------------------------

  lemma NewChangelogHasVersion(previous: string, request: Request)
    ensures Contains(NewChangelog(previous, request), VERSION)
  {
    var text := NewChangelog(previous, request);
    var start := |TITLE| + 2;
    assert text[start..start + |VERSION|] == VERSION;
    assert VERSION <= text[start..];
  }

  // How the files stand after some runs that began with `before`: as they were, or updated once.
  ghost predicate Settled(before: Files, g: Files, root: Path, request: Request) {
    SameOutside(g, before, root) || (!HasVersion(before, root) && Updated(before, g, root, request))
  }

  lemma StepSettles(o: RenderOutcome, before: Files, f: Files, f': Files, root: Path, request: Request)
    requires Recovered(f, root).Some? && Settled(before, Recovered(f, root).value, root, request)
    requires RenderStep(o, f, f', root, request)
    requires o == CutShort ==>
               Recovered(f', root).Some? && SameOutside(Recovered(f', root).value, Recovered(f, root).value, root)
    ensures Recovered(f', root).Some? && Settled(before, Recovered(f', root).value, root, request)
    ensures Updated(before, Recovered(f, root).value, root, request) ==>
              Updated(before, Recovered(f', root).value, root, request)
    ensures o in {Rendered, AlreadyPresent} && !HasVersion(before, root) ==>
              f' == Recovered(f', root).value && Updated(before, f', root, request)
  {
    var mid, g := Recovered(f, root).value, Recovered(f', root).value;
    TargetsAreOutside(root);
    if Updated(before, mid, root, request) {
      NewChangelogHasVersion(PreviousText(before, root), request);
      assert HasVersion(mid, root);
      StaysUpdated(g, mid, before, root, request);
    } else {
      assert SameAt(mid, before, Changelog(root));
      assert PreviousText(mid, root) == PreviousText(before, root);
      if SameOutside(g, mid, root) {
        StaysUpdated(g, mid, before, root, request);
      } else {
        UpdatedFromSame(g, mid, before, root, request);
      }
    }
  }

  // A step from the files that a recovery has left is a step from the files before that recovery.
  lemma StepFromRecovered(o: RenderOutcome, f: Files, mid: Files, f': Files, root: Path, request: Request)
    requires RecoveredOutside(f, mid, root) && RenderStep(o, mid, f', root, request)
    ensures RenderStep(o, f, f', root, request)
    ensures TrustStep(o, mid, f', root) ==> TrustStep(o, f, f', root)
  {
    var before := Recovered(f, root).value;
    NoJournalRecovers(mid, root);
    TargetsAreOutside(root);
    assert SameAt(mid, before, Changelog(root));
    if Recovered(f', root).Some? {
      var g := Recovered(f', root).value;
      if SameOutside(g, mid, root) {
        StaysUpdated(g, mid, before, root, request);
        assert SameOutside(g, before, root);
      }
      if Updated(mid, g, root, request) {
        UpdatedFromSame(g, mid, before, root, request);
      }
    }
  }

  lemma UpdatedFromSame(g: Files, mid: Files, before: Files, root: Path, request: Request)
    requires SameOutside(mid, before, root) && Updated(mid, g, root, request)
    ensures Updated(before, g, root, request)
  {
    TargetsAreOutside(root);
    assert SameAt(mid, before, Changelog(root));
    forall p | !InStaging(root, p) && p != Changelog(root) && p != Acceptance(root) && p != ReleaseNote(root)
      ensures SameAt(g, before, p)
    {
      assert SameAt(g, mid, p) && SameAt(mid, before, p);
    }
  }

  // Runs one after the other. A run may be cut short when its journal still stands and can be recovered.
  ghost predicate IsHistory(states: seq<Files>, outcomes: seq<RenderOutcome>, root: Path, request: Request) {
    && |states| == |outcomes| + 1
    && (CutShort in outcomes ==> Trusted(states[0], root))
    && forall k :: 0 <= k < |outcomes| ==>
         && RenderStep(outcomes[k], states[k], states[k + 1], root, request)
         && TrustStep(outcomes[k], states[k], states[k + 1], root)
         && (outcomes[k] == CutShort ==>
              JournalPath(root) in states[k + 1] && Recovered(states[k + 1], root).Some?)
  }

  // Over any number of runs, killed, failed or complete, the files are as before or updated once; and once a run has
  // completed on inputs without the entry, they are exactly what one uninterrupted run makes of the first state.
  lemma {:induction false} RetriesAreOneRun(states: seq<Files>, outcomes: seq<RenderOutcome>, root: Path,
                                            request: Request)
    requires IsHistory(states, outcomes, root, request) && Recovered(states[0], root).Some?
    ensures var before := Recovered(states[0], root).value;
            && (forall k :: 0 <= k < |states| ==> Recovered(states[k], root).Some?)
            && (forall k :: 0 <= k < |states| ==> Settled(before, Recovered(states[k], root).value, root, request))
            && (forall j, k :: 0 <= j < k < |states| && outcomes[j] in {Rendered, AlreadyPresent}
                               && !HasVersion(before, root)
                  ==> Updated(before, Recovered(states[k], root).value, root, request))
  {
    var before := Recovered(states[0], root).value;
    for n := 0 to |outcomes|
      invariant CutShort in outcomes ==> Trusted(states[n], root)
      invariant forall k :: 0 <= k <= n ==> Recovered(states[k], root).Some?
      invariant forall k :: 0 <= k <= n ==> Settled(before, Recovered(states[k], root).value, root, request)
      invariant forall j, k :: 0 <= j < k <= n && outcomes[j] in {Rendered, AlreadyPresent} && !HasVersion(before, root)
                  ==> Updated(before, Recovered(states[k], root).value, root, request)
    {
      StepSettles(outcomes[n], before, states[n], states[n + 1], root, request);
    }
  }

  // Two updates of the same state agree everywhere outside staging.
  lemma UpdateIsUnique(before: Files, f: Files, g: Files, root: Path, request: Request)
    requires Updated(before, f, root, request) && Updated(before, g, root, request)
    ensures SameOutside(f, g, root)
  {
    forall p | !InStaging(root, p) ensures SameAt(f, g, p) {
      assert p != Changelog(root) && p != Acceptance(root) && p != ReleaseNote(root) ==>
          SameAt(f, before, p) && SameAt(g, before, p);
    }
  }
}
