/** The root canary tickets and the repository's issues that they are looked up among. */
module Tickets {
  import opened Wrappers
  import opened Lists

  datatype Spec = Spec(key: string, title: string, body: string)

  // An issue or a pull request, with everything a complete readback compares. `rest` stands for the identities and
  // timestamps that are compared for equality only.
  datatype Issue = Issue(number: int, title: string, pull: bool, body: string, open: bool, labels: seq<string>,
                         blockers: seq<int>, rest: string)

  datatype Code = ApprovalRequired | LockUnavailable | LockNotReleased | TicketMissing | ReadbackUnavailable
                | ReadbackInvalid | TitleDuplicate | NotReady | ConcurrentChange

  // What the environment answers to one call: a reply, or a failure without or with the call's effect.
  datatype Answer = Reply | Fails | FailsAfter

  const LABEL := "ready-for-agent"

  function CanonicalBody(path: string, acceptance: seq<string>): string {
    "## Outcome\n" + "Create `" + path + "` as one GA root-Canary marker.\n\n" + "## Acceptance criteria\n"
    + CheckBoxes(acceptance) + "\n\n## Scope exclusions\n- Do not edit another path.\n"
    + "- Do not change dependencies, labels, authority, or release state.\n"
  }

  function CheckBoxes(items: seq<string>): string {
    if items == [] then "" else if |items| == 1 then "- [ ] " + items[0]
    else "- [ ] " + items[0] + "\n" + CheckBoxes(items[1..])
  }

  const TITLES := [
    "GWO V8 GA Canary A: document Candidate receipt readback",
    "GWO V8 GA Canary B: document permission binding readback",
    "GWO V8 GA Canary C: document restart reconstruction",
    "GWO V8 GA Canary D: update the protected GA marker"
  ]

  const MULTI := ["Add the named document only.", "Repository validation passes."]
  const SINGLETON := ["Add the protected marker only.", "Repository validation passes."]

  function RootSpec(key: string, title: string, path: string, acceptance: seq<string>): Spec {
    Spec(key, title, CanonicalBody(path, acceptance))
  }

  function RootSpecs(): seq<Spec> {
    [ RootSpec("alpha", TITLES[0], "docs/canary/gwo-v8-ga-alpha.md", MULTI),
      RootSpec("beta", TITLES[1], "docs/canary/gwo-v8-ga-beta.md", MULTI),
      RootSpec("gamma", TITLES[2], "docs/canary/gwo-v8-ga-gamma.md", MULTI),
      RootSpec("delta", TITLES[3], "docs/canary/protected/gwo-v8-ga-delta.md", SINGLETON) ]
  }

  // Every root ticket asks for one marker file and lists two criteria, each with a box of its own.
  lemma RootBody(k: nat)
    requires k < 4
    ensures var spec := RootSpecs()[k];
            var path := ["docs/canary/gwo-v8-ga-alpha.md", "docs/canary/gwo-v8-ga-beta.md",
                         "docs/canary/gwo-v8-ga-gamma.md", "docs/canary/protected/gwo-v8-ga-delta.md"][k];
            var criterion := if k < 3 then "Add the named document only." else "Add the protected marker only.";
            && spec.key == ["alpha", "beta", "gamma", "delta"][k]
            && spec.body ==
               "## Outcome\n" + "Create `" + path + "` as one GA root-Canary marker.\n\n" + "## Acceptance criteria\n"
               + ("- [ ] " + criterion + "\n" + ("- [ ] " + "Repository validation passes."))
               + "\n\n## Scope exclusions\n- Do not edit another path.\n"
               + "- Do not change dependencies, labels, authority, or release state.\n"
  {
    TwoBoxes(MULTI[0], MULTI[1]);
    TwoBoxes(SINGLETON[0], SINGLETON[1]);
    assert MULTI == [MULTI[0], MULTI[1]] && SINGLETON == [SINGLETON[0], SINGLETON[1]];
  }

  lemma TwoBoxes(a: string, b: string)
    ensures CheckBoxes([a, b]) == "- [ ] " + a + "\n" + ("- [ ] " + b)
  {
    assert [a, b][1..] == [b];
  }

  predicate DistinctTitles(specs: seq<Spec>) {
    forall i, j :: 0 <= i < j < |specs| ==> specs[i].title != specs[j].title
  }

  lemma TitlesDiffer()
    ensures TITLES[0] != TITLES[1] && TITLES[0] != TITLES[2] && TITLES[0] != TITLES[3]
    ensures TITLES[1] != TITLES[2] && TITLES[1] != TITLES[3] && TITLES[2] != TITLES[3]
  {
    assert TITLES[0][17] == 'A' && TITLES[1][17] == 'B' && TITLES[2][17] == 'C' && TITLES[3][17] == 'D';
  }

  lemma FourTitles(specs: seq<Spec>, titles: seq<string>)
    requires |specs| == |titles| == 4 && forall k :: 0 <= k < 4 ==> specs[k].title == titles[k]
    requires titles[0] != titles[1] && titles[0] != titles[2] && titles[0] != titles[3]
    requires titles[1] != titles[2] && titles[1] != titles[3] && titles[2] != titles[3]
    ensures DistinctTitles(specs)
  {
  }

  lemma RootTitlesAreDistinct()
    ensures |RootSpecs()| == 4 && DistinctTitles(RootSpecs())
  {
    TitlesDiffer();
    FourTitles(RootSpecs(), TITLES);
  }

  // A readback that satisfies its ticket's contract.
  predicate Ready(spec: Spec, i: Issue, number: int) {
    && i.number == number >= 1 && i.title == spec.title && i.open && i.body == spec.body
    && i.labels == [LABEL] && i.blockers == []
  }

  // A listing that the port accepts: positive numbers, each once, and no empty title.
  predicate ValidListing(rows: seq<Issue>) {
    && (forall i :: i in rows ==> i.number >= 1 && i.title != "")
    && forall i, j :: 0 <= i < j < |rows| ==> rows[i].number != rows[j].number
  }

  function HasTitle(title: string): Issue -> bool {
    (i: Issue) => !i.pull && i.title == title
  }

  function Titled(rows: seq<Issue>, title: string): seq<Issue> {
    Filter(HasTitle(title), rows)
  }

  predicate Absent(rows: seq<Issue>, title: string) {
    Titled(rows, title) == []
  }

  predicate Sole(rows: seq<Issue>, title: string, i: Issue) {
    Titled(rows, title) == [i]
  }

  // The issue of a number, as the service answers for it.
  function ReadComplete(rows: seq<Issue>, number: int): Option<Issue> {
    if rows == [] then None else if rows[0].number == number then Some(rows[0]) else ReadComplete(rows[1..], number)
  }

  predicate AllPresent(rows: seq<Issue>, specs: seq<Spec>) {
    forall k :: 0 <= k < |specs| ==> !Absent(rows, specs[k].title)
  }

  predicate Unambiguous(rows: seq<Issue>, specs: seq<Spec>) {
    forall k :: 0 <= k < |specs| ==> |Titled(rows, specs[k].title)| <= 1
  }

  // Every existing ticket is alone under its title and satisfies its contract.
  predicate Sound(rows: seq<Issue>, specs: seq<Spec>) {
    forall k :: 0 <= k < |specs| ==> SoundTitle(rows, specs[k])
  }

  predicate SoundTitle(rows: seq<Issue>, spec: Spec) {
    Absent(rows, spec.title) || (|Titled(rows, spec.title)| == 1 && Good(spec, Titled(rows, spec.title)[0]))
  }

  predicate Good(spec: Spec, i: Issue) {
    Ready(spec, i, i.number)
  }

  predicate Known(rows: seq<Issue>, spec: Spec, i: Issue) {
    Sole(rows, spec.title, i) && Good(spec, i)
  }

  // The entries of a complete provision: for every ticket the one issue of its title, satisfying its contract.
  predicate Complete(rows: seq<Issue>, specs: seq<Spec>, entries: seq<Issue>) {
    |entries| == |specs| && forall k :: 0 <= k < |specs| ==> Known(rows, specs[k], entries[k])
  }

  // ----- The same in plain terms ------------------------------------------------------------------

  // An open issue, no pull request, with exactly what the ticket asks for: its title and body, one label, no blocker.
  predicate Fulfils(spec: Spec, i: Issue) {
    && !i.pull && i.number >= 1 && i.title == spec.title && i.body == spec.body && i.open
    && i.labels == ["ready-for-agent"] && |i.blockers| == 0
  }

  lemma SoleMeans(rows: seq<Issue>, title: string, i: Issue)
    requires ValidListing(rows)
    ensures Sole(rows, title, i) <==>
            i in rows && !i.pull && i.title == title && forall j :: j in rows && !j.pull && j.title == title ==> j == i
  {
    FilterMembers(HasTitle(title), rows);
    assert NoDuplicates(rows);
    OnlyMember(Titled(rows, title), i);
  }

  lemma OnlyMember(found: seq<Issue>, i: Issue)
    requires NoDuplicates(found)
    ensures found == [i] <==> i in found && forall j :: j in found ==> j == i
  {
    assert found != [] ==> found[0] in found;
    assert |found| > 1 ==> found[1] in found && found[0] != found[1];
  }

  // Entries are complete when each is the only issue of its ticket's title and fulfils the ticket.
  lemma CompleteMeans(rows: seq<Issue>, specs: seq<Spec>, entries: seq<Issue>)
    requires ValidListing(rows)
    ensures Complete(rows, specs, entries) <==>
            && |entries| == |specs|
            && forall k :: 0 <= k < |specs| ==>
                 && entries[k] in rows && Fulfils(specs[k], entries[k])
                 && forall j :: j in rows && !j.pull && j.title == specs[k].title ==> j == entries[k]
  {
    forall k | 0 <= k < |specs| && k < |entries|
      ensures Known(rows, specs[k], entries[k]) <==>
              && entries[k] in rows && Fulfils(specs[k], entries[k])
              && forall j :: j in rows && !j.pull && j.title == specs[k].title ==> j == entries[k]
    {
      SoleMeans(rows, specs[k].title, entries[k]);
    }
  }

  // The existing tickets are sound when every issue of a ticket's title fulfils the ticket and is the only one.
  lemma SoundMeans(rows: seq<Issue>, specs: seq<Spec>)
    requires ValidListing(rows)
    ensures Sound(rows, specs) <==>
            forall k, i :: 0 <= k < |specs| && i in rows && !i.pull && i.title == specs[k].title ==>
              Fulfils(specs[k], i) && forall j :: j in rows && !j.pull && j.title == specs[k].title ==> j == i
  {
    forall k | 0 <= k < |specs|
      ensures SoundTitle(rows, specs[k]) <==>
              forall i :: i in rows && !i.pull && i.title == specs[k].title ==>
                Fulfils(specs[k], i) && forall j :: j in rows && !j.pull && j.title == specs[k].title ==> j == i
    {
      SoundTitleMeans(rows, specs[k]);
    }
  }

  lemma SoundTitleMeans(rows: seq<Issue>, spec: Spec)
    requires ValidListing(rows)
    ensures SoundTitle(rows, spec) <==>
            forall i :: i in rows && !i.pull && i.title == spec.title ==>
              Fulfils(spec, i) && forall j :: j in rows && !j.pull && j.title == spec.title ==> j == i
  {
    FilterMembers(HasTitle(spec.title), rows);
    if !Absent(rows, spec.title) {
      var i := Titled(rows, spec.title)[0];
      assert i in Titled(rows, spec.title);
      SoleMeans(rows, spec.title, i);
      assert |Titled(rows, spec.title)| == 1 <==> Sole(rows, spec.title, i);
    }
  }

  // What the service may answer a creation with: a new number, the title asked for; everything else is open.
  predicate Made(rows: seq<Issue>, title: string, made: Issue) {
    && made.title == title && !made.pull
    && ReadComplete(rows, made.number).None?
  }

  // ----- How lookups change when an issue is added ------------------------------------------------

  lemma AddedTitled(rows: seq<Issue>, made: Issue, title: string)
    ensures Titled(rows + [made], title) == Titled(rows, title) + if HasTitle(title)(made) then [made] else []
  {
    FilterSnoc(HasTitle(title), rows, made);
  }

  lemma {:induction false} AddedReadComplete(rows: seq<Issue>, made: Issue, number: int)
    ensures ReadComplete(rows + [made], number)
         == if ReadComplete(rows, number).Some? then ReadComplete(rows, number)
            else if made.number == number then Some(made) else None
  {
    if rows == [] {
      assert rows + [made] == [made];
    } else {
      AddedReadComplete(rows[1..], made, number);
      assert (rows + [made])[1..] == rows[1..] + [made];
    }
  }

  // A listed issue reads back as itself.
  lemma {:induction false} ListedReadsBack(rows: seq<Issue>, i: Issue)
    requires ValidListing(rows) && i in rows
    ensures ReadComplete(rows, i.number) == Some(i)
  {
    if rows[0] != i {
      ListedReadsBack(rows[1..], i);
    }
  }

  lemma TitledMember(rows: seq<Issue>, title: string)
    requires !Absent(rows, title)
    ensures Titled(rows, title)[0] in rows && HasTitle(title)(Titled(rows, title)[0])
  {
    FilterMembers(HasTitle(title), rows);
    assert Titled(rows, title)[0] in Titled(rows, title);
  }

  lemma KnownStays(rows: seq<Issue>, made: Issue, spec: Spec, i: Issue)
    requires Known(rows, spec, i) && Absent(rows, made.title)
    ensures Known(rows + [made], spec, i)
  {
    AddedTitled(rows, made, spec.title);
  }

  // Only one list of entries can be complete.
  lemma CompleteIsUnique(rows: seq<Issue>, specs: seq<Spec>, a: seq<Issue>, b: seq<Issue>)
    requires Complete(rows, specs, a) && Complete(rows, specs, b)
    ensures a == b
  {
    forall k | 0 <= k < |specs| ensures a[k] == b[k] {
      assert Known(rows, specs[k], a[k]) && Known(rows, specs[k], b[k]);
      assert [a[k]] == [b[k]];
    }
  }
}
