/** The activation ledger: receipts are accepted exactly when they are one linear chain ending in the active plan. */
module Lineage {
  import opened Wrappers
  import opened Sorting
  import opened Lists

  type Digest = string

  datatype Receipt = Receipt(schemaVersion: int, repository: string, writerGeneration: string, activationId: string,
                             planDigest: string, expectedPreviousDigest: Option<string>, planRecordRef: string,
                             createdAt: string)

  datatype Ledger = Ledger(schemaVersion: int, repository: string, activePlanDigest: string, receipts: seq<Receipt>)

  // Why a ledger is refused; the source reports all of them under one code.
  datatype Refusal =
    | IdentityInvalid | ReceiptInvalid | ActiveAmbiguous | PredecessorInvalid | RootsInvalid | Cyclic | Orphaned

  predicate IsDigest(s: string) {
    |s| == 64 && forall c :: c in s ==> '0' <= c <= '9' || 'a' <= c <= 'f'
  }

  predicate WellFormed(r: Receipt, repository: string) {
    && r.schemaVersion == 1 && r.repository == repository && r.writerGeneration != "" && r.activationId != ""
    && IsDigest(r.planDigest) && (r.expectedPreviousDigest.Some? ==> IsDigest(r.expectedPreviousDigest.value))
    && r.planRecordRef != "" && r.createdAt != ""
  }

  predicate IdentityValid(l: Ledger, repository: string) {
    l.schemaVersion == 1 && l.repository == repository && IsDigest(l.activePlanDigest)
  }

  // ----- Specification ------------------------------------------------------------------------

  ghost predicate DistinctReceipts(rs: seq<Receipt>) {
    forall i, j :: 0 <= i < j < |rs| ==>
      rs[i].activationId != rs[j].activationId && rs[i].planDigest != rs[j].planDigest
  }

  // One chain: a root without predecessor, each next receipt naming the one before, the last being the active plan.
  ghost predicate IsChain(chain: seq<Receipt>, active: Digest) {
    && chain != [] && chain[0].expectedPreviousDigest == None
    && (forall i :: 0 < i < |chain| ==> chain[i].expectedPreviousDigest == Some(chain[i - 1].planDigest))
    && chain[|chain| - 1].planDigest == active
  }

  ghost predicate IsLinear(rs: seq<Receipt>, active: Digest) {
    exists chain :: multiset(chain) == multiset(rs) && IsChain(chain, active)
  }

  ghost predicate Acceptable(l: Ledger, repository: string) {
    && IdentityValid(l, repository)
    && (forall r :: r in l.receipts ==> WellFormed(r, repository))
    && DistinctReceipts(l.receipts) && IsLinear(l.receipts, l.activePlanDigest)
  }

  // The same written out: which texts are digests, what a receipt holds, and that the receipts form a chain.
  lemma AcceptableMeans(l: Ledger, repository: string)
    ensures Acceptable(l, repository) <==>
            && l.schemaVersion == 1 && l.repository == repository && Hex64(l.activePlanDigest)
            && (forall r :: r in l.receipts ==>
                 && r.schemaVersion == 1 && r.repository == repository && Hex64(r.planDigest)
                 && r.writerGeneration != "" && r.activationId != "" && r.planRecordRef != "" && r.createdAt != ""
                 && (r.expectedPreviousDigest == None || Hex64(r.expectedPreviousDigest.value)))
            && (forall i, j :: 0 <= i < j < |l.receipts| ==>
                 && l.receipts[i].activationId != l.receipts[j].activationId
                 && l.receipts[i].planDigest != l.receipts[j].planDigest)
            && IsLinear(l.receipts, l.activePlanDigest)
  {
    HexDigits();
  }

  predicate Hex64(s: string) {
    |s| == 64 && forall c :: c in s ==> c in "0123456789abcdef"
  }

  lemma HexDigits()
    ensures forall s :: IsDigest(s) <==> Hex64(s)
  {
    forall c: char ensures c in "0123456789abcdef" <==> '0' <= c <= '9' || 'a' <= c <= 'f' {
      var digits := "0123456789abcdef";
      if '0' <= c <= '9' {
        assert digits[c as int - '0' as int] == c;
      } else if 'a' <= c <= 'f' {
        assert digits[c as int - 'a' as int + 10] == c;
      }
    }
  }

  // ----- The check ----------------------------------------------------------------------------

  // The receipts indexed by their plan digest.
  ghost predicate Indexed(byPlan: map<Digest, Receipt>, rs: seq<Receipt>) {
    && (forall d :: d in byPlan ==> byPlan[d] in rs && byPlan[d].planDigest == d)
    && (forall r :: r in rs ==> r.planDigest in byPlan && byPlan[r.planDigest] == r)
  }

  // The receipts under their activation ids.
  ghost predicate Registered(receipts: map<string, Receipt>, rs: seq<Receipt>) {
    && (forall a :: a in receipts ==> receipts[a] in rs && receipts[a].activationId == a)
    && (forall r :: r in rs ==> r.activationId in receipts && receipts[r.activationId] == r)
  }

  method IndexReceipts(rs: seq<Receipt>, repository: string)
    returns (ok: bool, receipts: map<string, Receipt>, byPlan: map<Digest, Receipt>)
    ensures ok <==> (forall r :: r in rs ==> WellFormed(r, repository)) && DistinctReceipts(rs)
    ensures ok ==> Indexed(byPlan, rs) && Registered(receipts, rs)
  {
    receipts, byPlan := map[], map[];
    for k := 0 to |rs|
      invariant forall j :: 0 <= j < k ==> WellFormed(rs[j], repository)
      invariant DistinctReceipts(rs[..k]) && Indexed(byPlan, rs[..k]) && Registered(receipts, rs[..k])
    {
      var r := rs[k];
      assert rs[..k + 1] == rs[..k] + [r];
      if !WellFormed(r, repository) || r.activationId in receipts || r.planDigest in byPlan {
        TakenMeansRepeated(rs, k, receipts, byPlan);
        return false, receipts, byPlan;
      }
      OneMoreIndexed(rs[..k], r, receipts, byPlan);
      receipts := receipts[r.activationId := r];
      byPlan := byPlan[r.planDigest := r];
    }
    assert rs[..|rs|] == rs;
    ok := true;
  }

  lemma OneMoreIndexed(rs: seq<Receipt>, r: Receipt, receipts: map<string, Receipt>, byPlan: map<Digest, Receipt>)
    requires DistinctReceipts(rs) && Indexed(byPlan, rs) && Registered(receipts, rs)
    requires r.activationId !in receipts && r.planDigest !in byPlan
    ensures DistinctReceipts(rs + [r])
    ensures Indexed(byPlan[r.planDigest := r], rs + [r]) && Registered(receipts[r.activationId := r], rs + [r])
  {
    forall i | 0 <= i < |rs| ensures rs[i].activationId != r.activationId && rs[i].planDigest != r.planDigest {
      assert rs[i] in rs;
    }
  }

  lemma TakenMeansRepeated(rs: seq<Receipt>, k: nat, receipts: map<string, Receipt>, byPlan: map<Digest, Receipt>)
    requires k < |rs| && Indexed(byPlan, rs[..k]) && Registered(receipts, rs[..k])
    ensures rs[k].planDigest in byPlan || rs[k].activationId in receipts ==> !DistinctReceipts(rs)
  {
    if rs[k].planDigest in byPlan {
      assert byPlan[rs[k].planDigest] in rs[..k];
    } else if rs[k].activationId in receipts {
      assert receipts[rs[k].activationId] in rs[..k];
    }
  }

  // Every predecessor exists and has at most one successor; counts the receipts without predecessor.
  method LinkReceipts(rs: seq<Receipt>, byPlan: map<Digest, Receipt>) returns (ok: bool, roots: seq<Digest>)
    requires DistinctReceipts(rs) && Indexed(byPlan, rs)
    ensures ok <==> Linked(rs, byPlan)
    ensures ok ==> roots == RootsOf(rs)
  {
    var successors: set<Digest> := {};
    roots := [];
    for k := 0 to |rs|
      invariant roots == RootsOf(rs[..k]) && Linked(rs[..k], byPlan)
      invariant successors == Predecessors(rs[..k])
    {
      var r := rs[k];
      assert rs[..k + 1] == rs[..k] + [r];
      RootsOfSnoc(rs[..k], r);
      LinkedSnoc(rs[..k], r, byPlan, successors);
      assert Linked(rs, byPlan) ==> Linked(rs[..k + 1], byPlan);
      match r.expectedPreviousDigest {
        case None =>
          roots := roots + [r.planDigest];
        case Some(p) =>
          if p !in byPlan || p in successors {
            return false, roots;
          }
          successors := successors + {p};
      }
    }
    assert rs[..|rs|] == rs;
    ok := true;
  }

  ghost predicate Linked(rs: seq<Receipt>, byPlan: map<Digest, Receipt>) {
    && (forall i :: 0 <= i < |rs| && rs[i].expectedPreviousDigest.Some? ==>
         rs[i].expectedPreviousDigest.value in byPlan)
    && (forall i, j :: 0 <= i < j < |rs| && rs[i].expectedPreviousDigest.Some? ==>
         rs[i].expectedPreviousDigest != rs[j].expectedPreviousDigest)
  }

  function RootsOf(rs: seq<Receipt>): seq<Digest> {
    if rs == [] then [] else RootOf(rs[0]) + RootsOf(rs[1..])
  }

  function RootOf(r: Receipt): seq<Digest> {
    if r.expectedPreviousDigest.None? then [r.planDigest] else []
  }

  lemma {:induction false} RootsOfSnoc(rs: seq<Receipt>, r: Receipt)
    ensures RootsOf(rs + [r]) == RootsOf(rs) + if r.expectedPreviousDigest.None? then [r.planDigest] else []
  {
    if rs == [] {
      assert rs + [r] == [r];
    } else {
      RootsOfSnoc(rs[1..], r);
      assert (rs + [r])[1..] == rs[1..] + [r];
    }
  }

  ghost function Predecessors(rs: seq<Receipt>): set<Digest> {
    set r | r in rs && r.expectedPreviousDigest.Some? :: r.expectedPreviousDigest.value
  }

  lemma LinkedSnoc(rs: seq<Receipt>, r: Receipt, byPlan: map<Digest, Receipt>, successors: set<Digest>)
    requires Linked(rs, byPlan) && successors == Predecessors(rs)
    ensures match r.expectedPreviousDigest
            case None => Predecessors(rs + [r]) == successors
            case Some(p) => Predecessors(rs + [r]) == successors + {p}
    ensures Linked(rs + [r], byPlan) <==>
            match r.expectedPreviousDigest
            case None => true
            case Some(p) => p in byPlan && p !in successors
  {
    var all := rs + [r];
    if r.expectedPreviousDigest.Some? && r.expectedPreviousDigest.value in successors {
      var q :| q in rs && q.expectedPreviousDigest == r.expectedPreviousDigest;
      var k :| 0 <= k < |rs| && rs[k] == q;
      assert all[k].expectedPreviousDigest == all[|rs|].expectedPreviousDigest;
    }
    if r.expectedPreviousDigest.Some? {
      assert all[|rs|] == r;
      assert forall i :: 0 <= i < |rs| ==> all[i] == rs[i] && rs[i] in rs;
    }
  }

  // Walks from the active receipt back to the root; the path is the chain read backwards.
  method WalkBack(active: Receipt, byPlan: map<Digest, Receipt>)
    returns (r: Result<set<Digest>, Refusal>, ghost path: seq<Receipt>)
    requires active.planDigest in byPlan && byPlan[active.planDigest] == active
    requires forall d :: d in byPlan ==> byPlan[d].planDigest == d
    requires forall d :: d in byPlan && byPlan[d].expectedPreviousDigest.Some? ==>
               byPlan[d].expectedPreviousDigest.value in byPlan
    ensures IsPath(path, active, byPlan)
    ensures r.Ok? ==> path[|path| - 1].expectedPreviousDigest.None? && DistinctPlans(path) && r.value == PlansOf(path)
    ensures r.Err? ==> r.error == Cyclic && !DistinctPlans(path)
  {
    var seen: set<Digest> := {};
    var cursor := active;
    path := [active];
    while true
      invariant IsPath(path, active, byPlan) && path[|path| - 1] == cursor
      invariant DistinctPlans(path[..|path| - 1]) && seen == PlansOf(path[..|path| - 1]) && seen <= byPlan.Keys
      decreases byPlan.Keys - seen
    {
      var digest := cursor.planDigest;
      PlansOfSnoc(path);
      if digest in seen {
        return Err(Cyclic), path;
      }
      seen := seen + {digest};
      if cursor.expectedPreviousDigest.None? {
        return Ok(seen), path;
      }
      cursor := byPlan[cursor.expectedPreviousDigest.value];
      ghost var walked := path;
      path := path + [cursor];
      assert path[..|path| - 1] == walked;
    }
  }

  ghost predicate IsPath(path: seq<Receipt>, active: Receipt, byPlan: map<Digest, Receipt>) {
    && path != [] && path[0] == active
    && (forall i :: 0 <= i < |path| ==> path[i].planDigest in byPlan && byPlan[path[i].planDigest] == path[i])
    && (forall i :: 0 < i < |path| ==> path[i - 1].expectedPreviousDigest == Some(path[i].planDigest))
  }

  ghost predicate DistinctPlans(rs: seq<Receipt>) {
    forall i, j :: 0 <= i < j < |rs| ==> rs[i].planDigest != rs[j].planDigest
  }

  ghost function PlansOf(rs: seq<Receipt>): set<Digest> {
    set r | r in rs :: r.planDigest
  }

  lemma PlansOfSnoc(path: seq<Receipt>)
    requires path != [] && DistinctPlans(path[..|path| - 1])
    ensures var d := path[|path| - 1].planDigest;
            && PlansOf(path) == PlansOf(path[..|path| - 1]) + {d}
            && (d in PlansOf(path[..|path| - 1]) <==> !DistinctPlans(path))
  {
    var front, last := path[..|path| - 1], path[|path| - 1];
    assert path == front + [last];
    if last.planDigest in PlansOf(front) {
      var r :| r in front && r.planDigest == last.planDigest;
      var k :| 0 <= k < |front| && front[k] == r;
      assert path[k].planDigest == path[|path| - 1].planDigest;
    }
  }

  // Returns the receipts under their activation ids when the ledger is one chain.
  method CheckLedger(l: Ledger, repository: string) returns (r: Result<map<string, Receipt>, Refusal>)
    ensures r.Ok? <==> Acceptable(l, repository)
    ensures r.Ok? ==> Registered(r.value, l.receipts)
  {
    if !IdentityValid(l, repository) {
      return Err(IdentityInvalid);
    }
    var wellFormed, receipts, byPlan := IndexReceipts(l.receipts, repository);
    if !wellFormed {
      return Err(ReceiptInvalid);
    }
    var active := l.activePlanDigest;
    ActiveIsIndexed(l.receipts, active, byPlan);
    if active !in byPlan {
      return Err(ActiveAmbiguous);
    }
    var linked, roots := LinkReceipts(l.receipts, byPlan);
    LinearIsLinked(l.receipts, active, byPlan);
    if !linked {
      return Err(PredecessorInvalid);
    }
    LinearHasOneRoot(l.receipts, active);
    if |roots| != 1 {
      return Err(RootsInvalid);
    }
    var walk;
    ghost var path;
    walk, path := WalkBack(byPlan[active], byPlan);
    LinearIsTheWalk(l.receipts, active, byPlan, path);
    if walk.Err? {
      return Err(Cyclic);
    }
    if walk.value != byPlan.Keys {
      return Err(Orphaned);
    }
    WalkIsLinear(l.receipts, active, byPlan, path);
    r := Ok(receipts);
  }

  // ----- Chains, both directions --------------------------------------------------------------

  // A chain of the receipts holds each of them once.
  lemma ChainIsDistinct(rs: seq<Receipt>, chain: seq<Receipt>)
    requires DistinctReceipts(rs) && multiset(chain) == multiset(rs)
    ensures DistinctPlans(chain) && |chain| == |rs| && forall r :: r in chain <==> r in rs
  {
    assert |multiset(chain)| == |multiset(rs)|;
    ReceiptsAreNoDuplicates(rs);
    forall r ensures r in chain <==> r in rs {
      assert r in chain <==> r in multiset(chain);
    }
    forall i, j | 0 <= i < j < |chain| ensures chain[i].planDigest != chain[j].planDigest {
      if chain[i].planDigest == chain[j].planDigest {
        assert chain[i] in rs && chain[j] in rs;
        TwiceIn(chain, i, j);
        CountWithoutDuplicates(rs, chain[i]);
      }
    }
  }

  lemma ActiveIsIndexed(rs: seq<Receipt>, active: Digest, byPlan: map<Digest, Receipt>)
    requires DistinctReceipts(rs) && Indexed(byPlan, rs)
    ensures IsLinear(rs, active) ==> active in byPlan
  {
    if chain: seq<Receipt> :| multiset(chain) == multiset(rs) && IsChain(chain, active) {
      ChainIsDistinct(rs, chain);
      assert chain[|chain| - 1] in rs;
    }
  }

  lemma LinearIsLinked(rs: seq<Receipt>, active: Digest, byPlan: map<Digest, Receipt>)
    requires DistinctReceipts(rs) && Indexed(byPlan, rs)
    ensures IsLinear(rs, active) ==> Linked(rs, byPlan)
  {
    if chain: seq<Receipt> :| multiset(chain) == multiset(rs) && IsChain(chain, active) {
      ChainIsDistinct(rs, chain);
      forall i | 0 <= i < |rs| && rs[i].expectedPreviousDigest.Some?
        ensures rs[i].expectedPreviousDigest.value in byPlan
      {
        var k := PlaceInChain(chain, rs[i]);
        assert chain[k - 1] in rs;
      }
      forall i, j | 0 <= i < j < |rs| && rs[i].expectedPreviousDigest.Some?
        ensures rs[i].expectedPreviousDigest != rs[j].expectedPreviousDigest
      {
        assert rs[i] in rs && rs[j] in rs;
        PredecessorsDiffer(chain, active, PlaceInChain(chain, rs[i]), PlaceInChain(chain, rs[j]));
      }
    }
  }

  lemma LinearHasOneRoot(rs: seq<Receipt>, active: Digest)
    requires DistinctReceipts(rs)
    ensures IsLinear(rs, active) ==> |RootsOf(rs)| == 1
  {
    if chain: seq<Receipt> :| multiset(chain) == multiset(rs) && IsChain(chain, active) {
      RootCount(rs, chain);
      forall r | r in chain[1..] ensures r.expectedPreviousDigest.Some? {
        var k :| 0 <= k < |chain| - 1 && chain[1..][k] == r;
        OnlyTheFirstIsRoot(chain, active, k + 1);
      }
      NoRoots(chain[1..]);
    }
  }

  // The walk follows the chain backwards, step by step.
  lemma {:induction false} WalkFollowsChain(rs: seq<Receipt>, active: Digest, byPlan: map<Digest, Receipt>,
                                            path: seq<Receipt>, chain: seq<Receipt>, k: nat)
    requires DistinctReceipts(rs) && Indexed(byPlan, rs) && active in byPlan && IsPath(path, byPlan[active], byPlan)
    requires multiset(chain) == multiset(rs) && IsChain(chain, active) && k < |path|
    ensures k < |chain| && path[k] == chain[|chain| - 1 - k]
  {
    ChainIsDistinct(rs, chain);
    if k == 0 {
      assert chain[|chain| - 1] in rs;
    } else {
      WalkFollowsChain(rs, active, byPlan, path, chain, k - 1);
      assert chain[|chain| - k].expectedPreviousDigest == Some(path[k].planDigest);
      assert chain[|chain| - k - 1] in rs;
    }
  }

  lemma LinearIsTheWalk(rs: seq<Receipt>, active: Digest, byPlan: map<Digest, Receipt>, path: seq<Receipt>)
    requires DistinctReceipts(rs) && Indexed(byPlan, rs) && active in byPlan && IsPath(path, byPlan[active], byPlan)
    ensures IsLinear(rs, active) ==>
              DistinctPlans(path) && (path[|path| - 1].expectedPreviousDigest.None? ==> PlansOf(path) == byPlan.Keys)
  {
    if chain: seq<Receipt> :| multiset(chain) == multiset(rs) && IsChain(chain, active) {
      ChainIsDistinct(rs, chain);
      forall k | 0 <= k < |path| ensures k < |chain| && path[k] == chain[|chain| - 1 - k] {
        WalkFollowsChain(rs, active, byPlan, path, chain, k);
      }
      if path[|path| - 1].expectedPreviousDigest.None? {
        var last := |chain| - |path|;
        assert path[|path| - 1] == chain[last];
        OnlyTheFirstIsRoot(chain, active, last);
        forall d | d in byPlan ensures d in PlansOf(path) {
          var k := PlaceInChain(chain, byPlan[d]);
          assert path[|chain| - 1 - k] == byPlan[d];
        }
      }
    }
  }

  lemma WalkIsLinear(rs: seq<Receipt>, active: Digest, byPlan: map<Digest, Receipt>, path: seq<Receipt>)
    requires DistinctReceipts(rs) && Indexed(byPlan, rs) && active in byPlan && IsPath(path, byPlan[active], byPlan)
    requires DistinctPlans(path) && path[|path| - 1].expectedPreviousDigest.None? && PlansOf(path) == byPlan.Keys
    ensures IsLinear(rs, active)
  {
    var n := |path|;
    var chain := seq(n, i requires 0 <= i < n => path[n - 1 - i]);
    assert IsChain(chain, active);
    PathHoldsAll(rs, byPlan, byPlan[active], path);
    ReversedIsDistinct(path, chain);
    ReceiptsAreNoDuplicates(rs);
    SameMembersPermute(chain, rs);
  }

  // ----- Places, roots and members ------------------------------------------------------------

  lemma ReceiptsAreNoDuplicates(rs: seq<Receipt>)
    requires DistinctReceipts(rs)
    ensures NoDuplicates(rs)
  {
  }

  lemma OnlyTheFirstIsRoot(chain: seq<Receipt>, active: Digest, k: nat)
    requires IsChain(chain, active) && k < |chain|
    ensures chain[k].expectedPreviousDigest.None? <==> k == 0
  {
    if k > 0 {
      assert chain[k].expectedPreviousDigest == Some(chain[k - 1].planDigest);
    }
  }

  lemma PredecessorsDiffer(chain: seq<Receipt>, active: Digest, k: nat, l: nat)
    requires IsChain(chain, active) && DistinctPlans(chain) && k < |chain| && l < |chain| && k != l
    requires chain[k].expectedPreviousDigest.Some?
    ensures chain[k].expectedPreviousDigest != chain[l].expectedPreviousDigest
  {
    assert chain[k].expectedPreviousDigest == Some(chain[k - 1].planDigest);
    assert l > 0 ==> chain[l].expectedPreviousDigest == Some(chain[l - 1].planDigest);
  }

  function PlaceInChain(chain: seq<Receipt>, r: Receipt): (k: nat)
    requires r in chain
    ensures k < |chain| && chain[k] == r
  {
    if chain[0] == r then 0 else 1 + PlaceInChain(chain[1..], r)
  }

  lemma {:induction false} RootsOfConcat(a: seq<Receipt>, b: seq<Receipt>)
    ensures RootsOf(a + b) == RootsOf(a) + RootsOf(b)
  {
    if a == [] {
      assert a + b == b;
    } else {
      RootsOfConcat(a[1..], b);
      assert (a + b)[1..] == a[1..] + b;
      Associates(RootOf(a[0]), RootsOf(a[1..]), RootsOf(b));
    }
  }

  lemma {:induction false} RootCount(a: seq<Receipt>, b: seq<Receipt>)
    requires multiset(a) == multiset(b)
    ensures |RootsOf(a)| == |RootsOf(b)|
    decreases |a|
  {
    if a == [] {
      assert |multiset(b)| == 0;
    } else {
      var k := PermutedIndex(a, b);
      RootCount(a[1..], b[..k] + b[k + 1..]);
      RootMoves(b, k);
    }
  }

  lemma RootMoves(rs: seq<Receipt>, k: nat)
    requires k < |rs|
    ensures |RootsOf(rs)| == |RootOf(rs[k])| + |RootsOf(rs[..k] + rs[k + 1..])|
  {
    var before, after := rs[..k], rs[k + 1..];
    assert rs[k..] == [rs[k]] + after && rs == before + rs[k..];
    RootsOfConcat(before, rs[k..]);
    RootsOfConcat(before, after);
  }

  lemma {:induction false} NoRoots(rs: seq<Receipt>)
    requires forall r :: r in rs ==> r.expectedPreviousDigest.Some?
    ensures RootsOf(rs) == []
  {
    if rs != [] {
      NoRoots(rs[1..]);
    }
  }

  lemma PathHoldsAll(rs: seq<Receipt>, byPlan: map<Digest, Receipt>, from: Receipt, path: seq<Receipt>)
    requires Indexed(byPlan, rs) && IsPath(path, from, byPlan) && PlansOf(path) == byPlan.Keys
    ensures forall r :: r in path <==> r in rs
  {
    forall r ensures r in path <==> r in rs {
      if r in path {
        assert byPlan[r.planDigest] in rs;
      }
      if r in rs {
        var q :| q in path && q.planDigest == r.planDigest;
      }
    }
  }

  lemma ReversedIsDistinct(path: seq<Receipt>, chain: seq<Receipt>)
    requires DistinctPlans(path) && |chain| == |path|
    requires forall i :: 0 <= i < |path| ==> chain[i] == path[|path| - 1 - i]
    ensures NoDuplicates(chain)
    ensures forall r :: r in chain <==> r in path
  {
    forall r ensures r in chain <==> r in path {
      if r in path {
        var k :| 0 <= k < |path| && path[k] == r;
        assert chain[|path| - 1 - k] == r;
      }
    }
  }
}
