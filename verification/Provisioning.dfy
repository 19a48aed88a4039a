/** One provisioning run as the program performs it, on a port with a cache of the preflight's readbacks. */
module Provisioning {
  import opened Wrappers
  import opened Tickets

  function Found(rows: seq<Issue>, title: string): Option<Issue> {
    if Absent(rows, title) then None else Some(Titled(rows, title)[0])
  }

  function TitleSet(specs: seq<Spec>): set<string> {
    set k | 0 <= k < |specs| :: specs[k].title
  }

  // What a preflight that succeeds leaves in the cache.
  function CacheOf(rows: seq<Issue>, specs: seq<Spec>): map<string, Option<Issue>> {
    map title | title in TitleSet(specs) :: Found(rows, title)
  }

  predicate Titles(specs: seq<Spec>) {
    DistinctTitles(specs) && forall k :: 0 <= k < |specs| ==> specs[k].title != ""
  }

  predicate MissingTicket(before: seq<Issue>, specs: seq<Spec>, title: string) {
    Absent(before, title) && exists k :: 0 <= k < |specs| && specs[k].title == title
  }

  // Everything is there that was there, only tickets that were missing have been added, and each of them at most once.
  ghost predicate Provisions(before: seq<Issue>, after: seq<Issue>, specs: seq<Spec>) {
    && before <= after
    && (forall i :: |before| <= i < |after| ==> MissingTicket(before, specs, after[i].title))
    && forall k :: 0 <= k < |specs| ==>
         if Absent(before, specs[k].title) then |Titled(after, specs[k].title)| <= 1
         else Titled(after, specs[k].title) == Titled(before, specs[k].title)
  }

  predicate Numbered(rows: seq<Issue>, next: int) {
    next >= 1 && forall i :: i in rows ==> i.number < next
  }

  lemma {:induction false} NumberIsNew(rows: seq<Issue>, next: int)
    requires Numbered(rows, next)
    ensures ReadComplete(rows, next).None?
  {
    if rows != [] {
      assert rows[0] in rows;
      NumberIsNew(rows[1..], next);
    }
  }

  // The loop that screens a listing's numbers and titles.
  method Screen(rows: seq<Issue>) returns (ok: bool)
    ensures ok <==> ValidListing(rows)
  {
    var seen: set<int> := {};
    for k := 0 to |rows|
      invariant ValidListing(rows[..k])
      invariant forall n :: n in seen <==> exists j :: 0 <= j < k && rows[j].number == n
    {
      var row := rows[k];
      if row.number < 1 || row.title == "" || row.number in seen {
        assert row in rows;
        return false;
      }
      seen := seen + {row.number};
      assert rows[..k + 1] == rows[..k] + [row];
    }
    assert rows[..|rows|] == rows;
    ok := true;
  }

  // What the service makes of a title, a body and labels, before it gives the issue its number.
  type Service = (string, string, seq<string>) -> Issue

  function MadeBy(service: Service, spec: Spec, number: int): Issue {
    service(spec.title, spec.body, [LABEL]).(number := number, title := spec.title, pull := false)
  }

  // A service that creates what it is asked for.
  ghost predicate Honours(service: Service, specs: seq<Spec>) {
    forall k, number :: 0 <= k < |specs| && number >= 1 ==> Good(specs[k], MadeBy(service, specs[k], number))
  }

  class Port {
    const service: Service
    var remote: seq<Issue>
    var next: int
    var cache: map<string, Option<Issue>>
    var answers: seq<Answer>

    constructor (service: Service, remote: seq<Issue>, next: int, answers: seq<Answer>)
      requires Numbered(remote, next)
      ensures Valid() && this.service == service && this.remote == remote && this.answers == answers && cache == map[]
    {
      this.service, this.remote, this.next, this.cache, this.answers := service, remote, next, map[], answers;
    }

    predicate Valid()
      reads this
    {
      Numbered(remote, next)
    }

    // Once the list of answers is used up, every further call is answered.
    method NextAnswer() returns (a: Answer)
      modifies this`answers
      ensures old(answers) == [] ==> a == Reply && answers == []
    {
      if answers == [] {
        return Reply;
      }
      a, answers := answers[0], answers[1..];
    }

    method IssueRows() returns (r: Result<seq<Issue>, Code>)
      modifies this`answers
      ensures r.Ok? ==> ValidListing(remote) && r.value == remote
      ensures old(answers) == [] ==> answers == [] && (r.Ok? <==> ValidListing(remote))
      ensures old(answers) == [] && r.Err? ==> r.error == ReadbackInvalid
    {
      var a := NextAnswer();
      if a != Reply {
        return Err(ReadbackUnavailable);
      }
      var ok := Screen(remote);
      r := if ok then Ok(remote) else Err(ReadbackInvalid);
    }

    method ReadBack(number: int) returns (r: Result<Issue, Code>)
      modifies this`answers
      ensures r.Ok? ==> ReadComplete(remote, number) == Some(r.value)
      ensures old(answers) == [] ==> answers == [] && (r.Ok? <==> ReadComplete(remote, number).Some?)
    {
      var a := NextAnswer();
      var i := ReadComplete(remote, number);
      r := if a == Reply && i.Some? then Ok(i.value) else Err(ReadbackUnavailable);
    }

    // Lists the issues, refuses a title held twice, and reads every ticket that exists back into the cache.
    method PreflightReadback(specs: seq<Spec>) returns (error: Option<Code>)
      requires DistinctTitles(specs)
      modifies this`answers, this`cache
      ensures error.None? ==> ValidListing(remote) && Sound(remote, specs) && cache == CacheOf(remote, specs)
      ensures old(answers) == [] ==> answers == [] && (error.None? <==> ValidListing(remote) && Sound(remote, specs))
      ensures old(answers) == [] && error.Some? ==>
                error.value == if !ValidListing(remote) then ReadbackInvalid
                               else if !Unambiguous(remote, specs) then TitleDuplicate else NotReady
    {
      var listing := IssueRows();
      if listing.Err? {
        return Some(listing.error);
      }
      var unambiguous := NoTitleTwice(remote, specs);
      if !unambiguous {
        return Some(TitleDuplicate);
      }
      cache := map[];
      for k := 0 to |specs|
        invariant ValidListing(remote) && Sound(remote, specs[..k])
        invariant cache == CacheOf(remote, specs[..k])
        invariant old(answers) == [] ==> answers == []
      {
        var spec := specs[k];
        assert specs[..k + 1] == specs[..k] + [spec];
        SoundSnoc(remote, specs[..k], spec);
        var listed := Titled(remote, spec.title);
        if listed == [] {
          cache := cache[spec.title := None];
        } else {
          FoundReadsBack(remote, spec.title);
          var readback := ReadBack(listed[0].number);
          if readback.Err? {
            return Some(readback.error);
          }
          if !Ready(spec, readback.value, listed[0].number) {
            NotGood(remote, specs, k);
            return Some(NotReady);
          }
          assert |listed| <= 1;
          cache := cache[spec.title := Some(readback.value)];
        }
        CacheSnoc(remote, specs, k);
      }
      assert specs[..|specs|] == specs;
      error := None;
    }

    // A title from the cache is used once; any other is listed and read back.
    method FindExactTitle(title: string) returns (r: Result<Option<Issue>, Code>)
      modifies this`answers, this`cache
      ensures title in old(cache) ==>
                r == Ok(old(cache)[title]) && cache == old(cache) - {title} && answers == old(answers)
      ensures title !in old(cache) ==> cache == old(cache)
      ensures title !in old(cache) && r.Ok? ==> r.value == Found(remote, title) && |Titled(remote, title)| <= 1
      ensures title !in old(cache) && old(answers) == [] ==>
                answers == [] && (r.Ok? <==> ValidListing(remote) && |Titled(remote, title)| <= 1)
    {
      if title in cache {
        r := Ok(cache[title]);
        cache := cache - {title};
        return;
      }
      var listing := IssueRows();
      if listing.Err? {
        return Err(listing.error);
      }
      var matches := Titled(remote, title);
      if |matches| > 1 {
        return Err(TitleDuplicate);
      }
      if matches == [] {
        return Ok(None);
      }
      FoundReadsBack(remote, title);
      var readback := ReadBack(matches[0].number);
      r := if readback.Ok? then Ok(Some(readback.value)) else Err(readback.error);
    }

    // A creation may take effect and still fail; what it returns is only the number of the new issue.
    method CreateIssue(spec: Spec) returns (r: Result<int, Code>)
      requires Valid()
      modifies this`answers, this`remote, this`next
      ensures Valid()
      ensures remote == old(remote) || CreatedFor(old(remote), remote, spec)
      ensures r.Ok? ==> CreatedFor(old(remote), remote, spec) && r.value == remote[|remote| - 1].number
                        && remote[|remote| - 1] == MadeBy(service, spec, r.value)
                        && remote[|remote| - 1].body == service(spec.title, spec.body, ["ready-for-agent"]).body
                        && remote[|remote| - 1].labels == service(spec.title, spec.body, ["ready-for-agent"]).labels
      ensures old(answers) == [] ==> answers == [] && r.Ok?
    {
      var a := NextAnswer();
      if a == Fails {
        return Err(ReadbackUnavailable);
      }
      var made := MadeBy(service, spec, next);
      NumberIsNew(remote, next);
      remote, next := remote + [made], next + 1;
      r := if a == Reply then Ok(made.number) else Err(ReadbackUnavailable);
    }
  }

  // One issue was added under a ticket's title; whether it satisfies the ticket's contract is up to the service.
  predicate CreatedFor(before: seq<Issue>, after: seq<Issue>, spec: Spec) {
    && |after| == |before| + 1 && after[..|before|] == before
    && var made := after[|before|];
       Made(before, spec.title, made) && made.number >= 1
  }

  method NoTitleTwice(rows: seq<Issue>, specs: seq<Spec>) returns (ok: bool)
    ensures ok <==> Unambiguous(rows, specs)
  {
    for k := 0 to |specs|
      invariant forall j :: 0 <= j < k ==> |Titled(rows, specs[j].title)| <= 1
    {
      if |Titled(rows, specs[k].title)| > 1 {
        return false;
      }
    }
    ok := true;
  }

  lemma SoundSnoc(rows: seq<Issue>, specs: seq<Spec>, spec: Spec)
    ensures Sound(rows, specs + [spec]) <==> Sound(rows, specs) && SoundTitle(rows, spec)
  {
    if Sound(rows, specs + [spec]) {
      assert (specs + [spec])[|specs|] == spec;
      forall k | 0 <= k < |specs| ensures SoundTitle(rows, specs[k]) {
        assert (specs + [spec])[k] == specs[k];
      }
    }
  }

  lemma NotGood(rows: seq<Issue>, specs: seq<Spec>, k: nat)
    requires k < |specs| && !Absent(rows, specs[k].title) && !Good(specs[k], Titled(rows, specs[k].title)[0])
    ensures !Sound(rows, specs)
  {
    assert !SoundTitle(rows, specs[k]);
  }

  lemma CacheSnoc(rows: seq<Issue>, specs: seq<Spec>, k: nat)
    requires k < |specs|
    ensures CacheOf(rows, specs[..k + 1]) == CacheOf(rows, specs[..k])[specs[k].title := Found(rows, specs[k].title)]
  {
    assert TitleSet(specs[..k + 1]) == TitleSet(specs[..k]) + {specs[k].title} by {
      assert specs[..k + 1] == specs[..k] + [specs[k]];
      assert (specs[..k] + [specs[k]])[k] == specs[k];
      forall t | t in TitleSet(specs[..k]) ensures t in TitleSet(specs[..k + 1]) {
        var j :| 0 <= j < k && specs[..k][j].title == t;
        assert specs[..k + 1][j].title == t;
      }
    }
  }

  lemma FoundReadsBack(rows: seq<Issue>, title: string)
    requires ValidListing(rows) && !Absent(rows, title)
    ensures ReadComplete(rows, Titled(rows, title)[0].number) == Some(Titled(rows, title)[0])
  {
    TitledMember(rows, title);
    ListedReadsBack(rows, Titled(rows, title)[0]);
  }

  // ----- One run ------------------------------------------------------------------------------------

  ghost predicate AreFound(rows: seq<Issue>, specs: seq<Spec>, staged: seq<Option<Issue>>) {
    |staged| == |specs| && forall k :: 0 <= k < |specs| ==> staged[k] == Found(rows, specs[k].title)
  }

  // The first ticket's title is taken out of the cache of the rest.
  lemma CacheShrinks(rows: seq<Issue>, specs: seq<Spec>, k: nat)
    requires DistinctTitles(specs) && k < |specs|
    ensures specs[k].title in CacheOf(rows, specs[k..])
    ensures CacheOf(rows, specs[k..])[specs[k].title] == Found(rows, specs[k].title)
    ensures CacheOf(rows, specs[k..]) - {specs[k].title} == CacheOf(rows, specs[k + 1..])
  {
    TitlesOfRest(specs[k..]);
    assert specs[k..][1..] == specs[k + 1..];
  }

  lemma TitlesOfRest(specs: seq<Spec>)
    requires DistinctTitles(specs) && specs != []
    ensures specs[0].title in TitleSet(specs) && specs[0].title !in TitleSet(specs[1..])
    ensures TitleSet(specs) == {specs[0].title} + TitleSet(specs[1..])
  {
    assert specs == [specs[0]] + specs[1..];
    forall t | t in TitleSet(specs) && t != specs[0].title ensures t in TitleSet(specs[1..]) {
      var j :| 0 <= j < |specs| && specs[j].title == t;
      assert specs[1..][j - 1].title == t;
    }
  }

  // The next ticket, from the cache; the preflight has already validated what it finds there.
  method LocateOne(port: Port, specs: seq<Spec>, k: nat) returns (issue: Option<Issue>)
    requires DistinctTitles(specs) && k < |specs| && port.cache == CacheOf(port.remote, specs[k..])
    modifies port`answers, port`cache
    ensures issue == Found(port.remote, specs[k].title)
    ensures port.cache == CacheOf(port.remote, specs[k + 1..]) && port.answers == old(port.answers)
  {
    CacheShrinks(port.remote, specs, k);
    var located := port.FindExactTitle(specs[k].title);
    issue := located.value;
  }

  // Resolves every existing ticket from the cache before anything is created.
  method Locate(port: Port, specs: seq<Spec>) returns (staged: seq<Option<Issue>>)
    requires DistinctTitles(specs) && port.cache == CacheOf(port.remote, specs)
    modifies port`answers, port`cache
    ensures AreFound(port.remote, specs, staged)
    ensures port.cache == map[] && port.answers == old(port.answers)
  {
    staged := [];
    assert specs[0..] == specs;
    for k := 0 to |specs|
      invariant AreFound(port.remote, specs[..k], staged)
      invariant port.cache == CacheOf(port.remote, specs[k..]) && port.answers == old(port.answers)
    {
      var issue := LocateOne(port, specs, k);
      staged := staged + [issue];
    }
    assert specs[..|specs|] == specs && specs[|specs|..] == [];
  }

  lemma CreationAdds(before: seq<Issue>, after: seq<Issue>, spec: Spec, title: string)
    requires CreatedFor(before, after, spec)
    ensures before <= after && after == before + [after[|before|]]
    ensures Titled(after, title) == Titled(before, title) + if title == spec.title then [after[|before|]] else []
    ensures ReadComplete(after, after[|before|].number) == Some(after[|before|])
    ensures ValidListing(before) && spec.title != "" ==> ValidListing(after)
  {
    var made := after[|before|];
    assert after == before + [made];
    AddedTitled(before, made, title);
    AddedReadComplete(before, made, made.number);
    if ValidListing(before) && spec.title != "" {
      forall i | i in before ensures i.number != made.number {
        ListedReadsBack(before, i);
      }
    }
  }

  // What the building loop has done once the first `k` tickets are there.
  ghost predicate Built(before: seq<Issue>, after: seq<Issue>, specs: seq<Spec>, k: nat,
                    result: seq<Issue>)
    requires k <= |specs|
  {
    && before <= after && ValidListing(after) && |result| == k
    && (forall j :: 0 <= j < k ==> Known(after, specs[j], result[j]))
    && (forall j :: k <= j < |specs| ==> Titled(after, specs[j].title) == Titled(before, specs[j].title))
    && Provisions(before, after, specs)
  }

  lemma TakenOver(before: seq<Issue>, after: seq<Issue>, specs: seq<Spec>, k: nat,
                    result: seq<Issue>)
    requires k < |specs| && Built(before, after, specs, k, result)
    requires Sound(before, specs) && !Absent(before, specs[k].title)
    ensures Built(before, after, specs, k + 1, result + [Titled(before, specs[k].title)[0]])
  {
    assert SoundTitle(before, specs[k]);
    var i := Titled(before, specs[k].title)[0];
    assert Titled(before, specs[k].title) == [i];
    assert Known(after, specs[k], i);
  }

  lemma AddedProvisions(before: seq<Issue>, middle: seq<Issue>, after: seq<Issue>, specs: seq<Spec>, k: nat)
    requires k < |specs| && DistinctTitles(specs) && Provisions(before, middle, specs)
    requires Absent(before, specs[k].title) && Absent(middle, specs[k].title) && CreatedFor(middle, after, specs[k])
    ensures Provisions(before, after, specs)
    ensures forall j :: 0 <= j < |specs| && j != k ==> Titled(after, specs[j].title) == Titled(middle, specs[j].title)
  {
    CreationAdds(middle, after, specs[k], specs[k].title);
    forall j | 0 <= j < |specs| && j != k ensures Titled(after, specs[j].title) == Titled(middle, specs[j].title) {
      CreationAdds(middle, after, specs[k], specs[j].title);
    }
    forall i | |before| <= i < |after| ensures MissingTicket(before, specs, after[i].title) {
      if i < |middle| {
        assert after[i] == middle[i] && MissingTicket(before, specs, middle[i].title);
      } else {
        assert specs[k].title == after[i].title;
      }
    }
  }

  // What was known of other tickets stays known.
  lemma AddedKnown(middle: seq<Issue>, after: seq<Issue>, specs: seq<Spec>, k: nat, result: seq<Issue>)
    requires k < |specs| && k == |result|
    requires forall j :: 0 <= j < k ==> Known(middle, specs[j], result[j])
    requires forall j :: 0 <= j < |specs| && j != k ==> Titled(after, specs[j].title) == Titled(middle, specs[j].title)
    ensures forall j :: 0 <= j < k ==> Known(after, specs[j], result[j])
  {
    forall j | 0 <= j < k ensures Known(after, specs[j], result[j]) {
      assert Known(middle, specs[j], result[j]);
    }
  }

  lemma AddedTicket(before: seq<Issue>, middle: seq<Issue>, after: seq<Issue>, specs: seq<Spec>, k: nat,
                    result: seq<Issue>)
    requires k < |specs| && Titles(specs) && Built(before, middle, specs, k, result)
    requires Absent(before, specs[k].title) && CreatedFor(middle, after, specs[k])
    ensures before <= after && ValidListing(after) && Provisions(before, after, specs)
    ensures Good(specs[k], after[|middle|]) ==> Built(before, after, specs, k + 1, result + [after[|middle|]])
    ensures |after| == |middle| + 1 && ReadComplete(after, after[|middle|].number) == Some(after[|middle|])
  {
    var made := after[|middle|];
    CreationAdds(middle, after, specs[k], specs[k].title);
    AddedProvisions(before, middle, after, specs, k);
    AddedKnown(middle, after, specs, k, result);
    assert Sole(after, specs[k].title, made);
    if Good(specs[k], made) {
      BuiltNext(before, after, specs, k, result, made);
    }
  }

  lemma BuiltNext(before: seq<Issue>, after: seq<Issue>, specs: seq<Spec>, k: nat, result: seq<Issue>, made: Issue)
    requires k < |specs| && before <= after && ValidListing(after) && |result| == k && Known(after, specs[k], made)
    requires forall j :: 0 <= j < k ==> Known(after, specs[j], result[j])
    requires forall j :: k < j < |specs| ==> Titled(after, specs[j].title) == Titled(before, specs[j].title)
    requires Provisions(before, after, specs)
    ensures Built(before, after, specs, k + 1, result + [made])
  {
  }

  // Creates one missing ticket; the new issue is read back before it counts.
  method CreateTicket(port: Port, specs: seq<Spec>, k: nat, ghost before: seq<Issue>, ghost result: seq<Issue>)
    returns (r: Result<Issue, Code>)
    requires port.Valid() && Titles(specs) && k < |specs| && Built(before, port.remote, specs, k, result)
    requires Absent(before, specs[k].title)
    modifies port`answers, port`remote, port`next
    ensures port.Valid() && Provisions(before, port.remote, specs)
    ensures r.Ok? ==> Built(before, port.remote, specs, k + 1, result + [r.value])
    ensures old(port.answers) == [] ==> port.answers == []
    ensures old(port.answers) == [] && Honours(port.service, specs) ==> r.Ok?
  {
    ghost var middle := port.remote;
    var created := port.CreateIssue(specs[k]);
    if port.remote != middle {
      AddedTicket(before, middle, port.remote, specs, k, result);
    }
    if created.Err? {
      return Err(created.error);
    }
    var issue := port.ReadBack(created.value);
    if issue.Err? {
      return Err(issue.error);
    }
    if !Ready(specs[k], issue.value, created.value) {
      return Err(NotReady);
    }
    r := Ok(issue.value);
  }

  // Takes over what is there and creates what is missing.
  method Build(port: Port, specs: seq<Spec>, staged: seq<Option<Issue>>) returns (r: Result<seq<Issue>, Code>)
    requires port.Valid() && Titles(specs) && ValidListing(port.remote) && Sound(port.remote, specs)
    requires AreFound(port.remote, specs, staged)
    modifies port`answers, port`remote, port`next
    ensures port.Valid() && Provisions(old(port.remote), port.remote, specs)
    ensures AllPresent(old(port.remote), specs) ==> port.remote == old(port.remote)
    ensures r.Ok? ==> Complete(port.remote, specs, r.value) && ValidListing(port.remote)
    ensures old(port.answers) == [] ==> port.answers == []
    ensures old(port.answers) == [] && (AllPresent(old(port.remote), specs) || Honours(port.service, specs)) ==> r.Ok?
  {
    ghost var before := port.remote;
    var result: seq<Issue> := [];
    for k := 0 to |specs|
      invariant port.Valid() && Built(before, port.remote, specs, k, result)
      invariant AllPresent(before, specs) ==> port.remote == before
      invariant AreFound(before, specs, staged)
      invariant old(port.answers) == [] ==> port.answers == []
    {
      if staged[k].Some? {
        TakenOver(before, port.remote, specs, k, result);
        result := result + [staged[k].value];
      } else {
        var created := CreateTicket(port, specs, k, before, result);
        if created.Err? {
          return Err(created.error);
        }
        result := result + [created.value];
      }
    }
    r := Ok(result);
  }

  // Looks every ticket up again: the run succeeds only when each is still what it took over or created.
  method Barrier(port: Port, specs: seq<Spec>, result: seq<Issue>) returns (r: Result<seq<Issue>, Code>)
    requires port.cache == map[] && Complete(port.remote, specs, result)
    modifies port`answers, port`cache
    ensures r.Ok? ==> r.value == result
    ensures old(port.answers) == [] && ValidListing(port.remote) ==> r.Ok?
  {
    var barrier: seq<Issue> := [];
    for k := 0 to |specs|
      invariant barrier == result[..k] && port.cache == map[]
      invariant old(port.answers) == [] ==> port.answers == []
    {
      assert Known(port.remote, specs[k], result[k]);
      var observed := port.FindExactTitle(specs[k].title);
      if observed.Err? {
        return Err(observed.error);
      }
      if observed.value.None? {
        return Err(ConcurrentChange);
      }
      if !Ready(specs[k], observed.value.value, result[k].number) {
        return Err(NotReady);
      }
      if observed.value.value != result[k] {
        return Err(ConcurrentChange);
      }
      barrier := barrier + [observed.value.value];
    }
    r := Ok(barrier);
  }

  class ProvisionLock {
    var file: bool

    constructor (file: bool)
      ensures this.file == file
    {
      this.file := file;
    }

    // Exclusive creation of the lock file; it may be left behind when writing it fails.
    method Enter(a: Answer) returns (ok: bool)
      modifies this
      ensures ok <==> !old(file) && a == Reply
      ensures file <==> old(file) || a != Fails
    {
      ok := !file && a == Reply;
      file := file || a != Fails;
    }

    // A lock file that cannot be removed stays; a descriptor that cannot be closed is an error, removed or not.
    method Exit(closes: bool, removes: bool) returns (ok: bool)
      modifies this
      ensures ok == closes
      ensures file <==> old(file) && !removes
    {
      ok := closes;
      file := file && !removes;
    }
  }

  method UnderLock(port: Port, specs: seq<Spec>, readOnly: bool) returns (r: Result<seq<Issue>, Code>)
    requires port.Valid() && Titles(specs)
    modifies port
    ensures port.Valid() && Provisions(old(port.remote), port.remote, specs)
    ensures AllPresent(old(port.remote), specs) ==> port.remote == old(port.remote)
    ensures port.remote != old(port.remote) ==>
              !readOnly && ValidListing(old(port.remote)) && Sound(old(port.remote), specs)
    ensures r.Ok? ==> Complete(port.remote, specs, r.value)
    ensures old(port.answers) == [] && r.Err? && (readOnly || Honours(port.service, specs)) ==>
              r.error == if !ValidListing(old(port.remote)) then ReadbackInvalid
                         else if !Unambiguous(old(port.remote), specs) then TitleDuplicate
                         else if !Sound(old(port.remote), specs) then NotReady else TicketMissing
    ensures old(port.answers) == [] && (AllPresent(old(port.remote), specs) || Honours(port.service, specs)) ==>
              (r.Ok? <==> ValidListing(old(port.remote)) && Sound(old(port.remote), specs)
                          && (readOnly ==> AllPresent(old(port.remote), specs)))
  {
    var error := port.PreflightReadback(specs);
    if error.Some? {
      return Err(error.value);
    }
    var staged := Locate(port, specs);
    if readOnly && None in staged {
      return Err(TicketMissing);
    }
    var built := Build(port, specs, staged);
    if built.Err? {
      return built;
    }
    r := Barrier(port, specs, built.value);
  }

  /** One whole run. Without faults it succeeds exactly when the run is allowed, the lock is free, every existing ticket
      is sound and, for a run that only reads, no ticket is missing; a success returns the complete entries. Whatever
      fails, each title gets at most one new issue, and none while an existing ticket is unsound. */
  method Provision(port: Port, lock: ProvisionLock, specs: seq<Spec>, rightRepository: bool, approved: bool,
                   readOnly: bool, enter: Answer, closes: bool, removes: bool)
    returns (r: Result<seq<Issue>, Code>)
    requires port.Valid() && Titles(specs)
    modifies port, lock
    ensures port.Valid() && Provisions(old(port.remote), port.remote, specs)
    ensures AllPresent(old(port.remote), specs) ==> port.remote == old(port.remote)
    ensures port.remote != old(port.remote) ==>
              && rightRepository && approved && !readOnly && !old(lock.file)
              && ValidListing(old(port.remote)) && Sound(old(port.remote), specs)
    ensures r.Ok? ==> Complete(port.remote, specs, r.value)
    ensures !rightRepository || (!readOnly && !approved) ==> r == Err(ApprovalRequired)
    ensures rightRepository && !readOnly && approved && (old(lock.file) || enter != Reply) ==> r == Err(LockUnavailable)
    ensures old(port.answers) == [] && rightRepository && r.Err?
            && (readOnly || (approved && !old(lock.file) && enter == Reply && closes && Honours(port.service, specs)))
            ==>
              r.error == if !ValidListing(old(port.remote)) then ReadbackInvalid
                         else if !Unambiguous(old(port.remote), specs) then TitleDuplicate
                         else if !Sound(old(port.remote), specs) then NotReady else TicketMissing
    ensures old(port.answers) == [] && enter == Reply && closes
            && (AllPresent(old(port.remote), specs) || Honours(port.service, specs)) ==>
              (r.Ok? <==> rightRepository && (readOnly || (approved && !old(lock.file)))
                          && ValidListing(old(port.remote)) && Sound(old(port.remote), specs)
                          && (readOnly ==> AllPresent(old(port.remote), specs)))
    ensures readOnly || !rightRepository || !approved ==> lock.file == old(lock.file)
    ensures old(lock.file) ==> lock.file
    ensures enter == Reply && removes ==> lock.file == old(lock.file)
  {
    if !rightRepository || (!readOnly && !approved) {
      return Err(ApprovalRequired);
    }
    if readOnly {
      r := UnderLock(port, specs, true);
      return;
    }
    var entered := lock.Enter(enter);
    if !entered {
      return Err(LockUnavailable);
    }
    r := UnderLock(port, specs, false);
    var left := lock.Exit(closes, removes);
    if !left {
      r := Err(LockNotReleased);
    }
  }

  // Where the tickets are complete a further run changes nothing, and what it returns is what was returned before.
  lemma RetryReturnsTheSame(before: seq<Issue>, after: seq<Issue>, specs: seq<Spec>, first: seq<Issue>,
                            again: seq<Issue>)
    requires Complete(before, specs, first) && Provisions(before, after, specs) && Complete(after, specs, again)
    ensures again == first && Sound(before, specs) && AllPresent(before, specs)
  {
    forall k | 0 <= k < |specs|
      ensures again[k] == first[k] && SoundTitle(before, specs[k]) && !Absent(before, specs[k].title)
    {
      assert Known(before, specs[k], first[k]) && Known(after, specs[k], again[k]);
      assert Titled(after, specs[k].title) == [first[k]] == [again[k]];
    }
  }
}
