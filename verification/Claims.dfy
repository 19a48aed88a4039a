/** Write claims of an Issue, when two of them conflict, and what freedom from conflict means for files. */
module Claims {
  import opened Implied
  import opened Paths

  // One item of a JSON list: only text is meaningful in a claim.
  datatype Item = Text(text: string) | NotText

  // `implied` holds the resources that the paths stand for; see `ClaimOf`.
  datatype Claim = Claim(paths: seq<Item>, resources: seq<Item>, implied: set<string>)

  const WHITESPACE: set<char> :=
    {'\t', '\n', '\U{B}', '\U{C}', '\r', '\U{1C}', '\U{1D}', '\U{1E}', '\U{1F}', ' ', '\U{85}', '\U{A0}', '\U{1680}',
     '\U{2000}', '\U{2001}', '\U{2002}', '\U{2003}', '\U{2004}', '\U{2005}', '\U{2006}', '\U{2007}', '\U{2008}',
     '\U{2009}', '\U{200A}', '\U{2028}', '\U{2029}', '\U{202F}', '\U{205F}', '\U{3000}'}

  const WILDCARDS: set<char> := {'*', '?', '[', ']', '\0'}

  function Strip(s: string, drop: set<char>): string {
    if s == "" then ""
    else if s[0] in drop then Strip(s[1..], drop)
    else if s[|s| - 1] in drop then Strip(s[..|s| - 1], drop)
    else s
  }

  function PathParts(raw: string): seq<string> {
    Components(Lower(Strip(Slashed(Strip(raw, WHITESPACE)), {'/'})))
  }

  predicate PathsOverlap(left: string, right: string) {
    var a, b := PathParts(left), PathParts(right);
    b <= a || a <= b
  }

  function ImpliedByAll(paths: seq<Item>): set<string> {
    set p, r | p in paths && p.Text? && r in ImpliedBy(p.text) :: r
  }

  // The claim that an Issue makes with these paths and resources. What is proved of claims holds for any implied
  // resources, and so for these.
  function ClaimOf(paths: seq<Item>, resources: seq<Item>): Claim {
    Claim(paths, resources, ImpliedByAll(paths))
  }

  function Named(resources: seq<Item>): set<string> {
    set r | r in resources && r.Text? && Strip(r.text, WHITESPACE) != "" :: Lower(Strip(r.text, WHITESPACE))
  }

  // The resources named outright, and those that the paths imply.
  function Resources(c: Claim): set<string> {
    Named(c.resources) + c.implied
  }

  predicate ClaimsOverlap(left: Claim, right: Claim) {
    || (exists a, b :: a in left.paths && b in right.paths && a.Text? && b.Text? && PathsOverlap(a.text, b.text))
    || Resources(left) * Resources(right) != {}
  }

  predicate ExclusivePath(item: Item) {
    || item.NotText?
    || Strip(item.text, WHITESPACE) == ""
    || var value := Slashed(item.text);
       || value[0] == '/'
       || (|value| > 1 && value[1] == ':')
       || ".." in Components(value) || Components(value) == []
       || exists c :: c in value && c in WILDCARDS
  }

  // An incomplete claim takes the whole repository.
  predicate Exclusive(c: Claim) {
    || c.paths == []
    || (exists p :: p in c.paths && ExclusivePath(p))
    || (exists r :: r in c.resources && (r.NotText? || Strip(r.text, WHITESPACE) == ""))
  }

  predicate Conflict(left: Claim, right: Claim) {
    Exclusive(left) || Exclusive(right) || ClaimsOverlap(left, right)
  }

  // ----- Claims in plain terms ---------------------------------------------------------------------

  // Stripping drops such characters from both ends, and as many as there are.
  lemma {:induction false} StripMeans(s: string, drop: set<char>) returns (before: string, after: string)
    ensures s == before + Strip(s, drop) + after
    ensures (forall c :: c in before ==> c in drop) && (forall c :: c in after ==> c in drop)
    ensures var t := Strip(s, drop); t != "" ==> t[0] !in drop && t[|t| - 1] !in drop
  {
    before, after := "", "";
    if s != "" {
      if s[0] in drop {
        before, after := StripMeans(s[1..], drop);
        before := [s[0]] + before;
        assert s == [s[0]] + s[1..];
      } else if s[|s| - 1] in drop {
        before, after := StripMeans(s[..|s| - 1], drop);
        after := after + [s[|s| - 1]];
        assert s == s[..|s| - 1] + [s[|s| - 1]];
      }
    }
  }

  // Two named resources are the same exactly when they differ at most in letter case and blanks around them.
  lemma SameResource(a: string, b: string)
    ensures Named([Text(a)]) * Named([Text(b)]) != {} <==>
            Strip(a, WHITESPACE) != "" && Strip(b, WHITESPACE) != ""
            && Lower(Strip(a, WHITESPACE)) == Lower(Strip(b, WHITESPACE))
  {
    NamedOne(a);
    NamedOne(b);
    if Named([Text(a)]) * Named([Text(b)]) != {} {
      var r :| r in Named([Text(a)]) * Named([Text(b)]);
    } else if Strip(a, WHITESPACE) != "" && Strip(b, WHITESPACE) != "" {
      assert Lower(Strip(a, WHITESPACE)) in Named([Text(a)]) && Lower(Strip(b, WHITESPACE)) in Named([Text(b)]);
      assert Lower(Strip(a, WHITESPACE)) !in Named([Text(a)]) * Named([Text(b)]);
    }
  }

  lemma NamedOne(a: string)
    ensures forall r :: r in Named([Text(a)]) <==> Strip(a, WHITESPACE) != "" && r == Lower(Strip(a, WHITESPACE))
  {
    assert Text(a) in [Text(a)];
  }

  // A relative path below the repository: no slash of either kind and no drive at its start, a name in it, none of them
  // "..", and no wildcard.
  predicate Inside(path: string) {
    && Strip(path, WHITESPACE) != ""
    && path[0] != '/' && path[0] != '\\' && !(|path| > 1 && path[1] == ':')
    && Components(Slashed(path)) != [] && ".." !in Components(Slashed(path))
    && forall c :: c in path ==> c !in {'*', '?', '[', ']', '\0'}
  }

  lemma InsideMeans(item: Item)
    ensures !ExclusivePath(item) <==> item.Text? && Inside(item.text)
  {
    if item.Text? && Strip(item.text, WHITESPACE) != "" {
      var path, value := item.text, Slashed(item.text);
      assert forall i :: 0 <= i < |path| ==> value[i] == if path[i] == '\\' then '/' else path[i];
      if c :| c in value && c in WILDCARDS {
        var i :| 0 <= i < |value| && value[i] == c;
        assert path[i] == c;
      }
      if c :| c in path && c in WILDCARDS {
        var i :| 0 <= i < |path| && path[i] == c;
        assert value[i] == c;
      }
    }
  }

  // What does not take the whole repository: some paths, all of them inside it, and resources that all have a name.
  lemma BoundedMeans(c: Claim)
    ensures !Exclusive(c) <==>
            && c.paths != []
            && (forall p :: p in c.paths ==> p.Text? && Inside(p.text))
            && (forall r :: r in c.resources ==> r.Text? && Strip(r.text, WHITESPACE) != "")
  {
    forall p | p in c.paths ensures !ExclusivePath(p) <==> p.Text? && Inside(p.text) {
      InsideMeans(p);
    }
  }

  // Nothing to strip.
  predicate Trimmed(s: string) {
    s != "" && s[0] !in WHITESPACE + {'/', '\\'} && s[|s| - 1] !in WHITESPACE + {'/', '\\'}
  }

  lemma TrimmedParts(s: string)
    requires Trimmed(s)
    ensures PathParts(s) == Components(Lower(Slashed(s)))
  {
    assert Strip(s, WHITESPACE) == s;
    assert Slashed(s)[0] == s[0] && Slashed(s)[|s| - 1] == s[|s| - 1];
    assert Strip(Slashed(s), {'/'}) == Slashed(s);
  }

  // The parts of a relative path are those between its slashes of either kind, whatever their letter case.
  lemma PartsOfPath(a: string, slash: char, b: string)
    requires Trimmed(a) && Trimmed(b) && slash in {'/', '\\'}
    ensures PathParts(a + [slash] + b) == PathParts(a) + PathParts(b)
  {
    TrimmedParts(a);
    TrimmedParts(b);
    var whole := a + [slash] + b;
    assert whole[0] == a[0] && whole[|whole| - 1] == b[|b| - 1];
    TrimmedParts(whole);
    LowerSlashedJoined(a, slash, b);
    ComponentsSplit(Lower(Slashed(a)), Lower(Slashed(b)), "");
  }

  lemma LowerSlashedJoined(a: string, slash: char, b: string)
    requires slash in {'/', '\\'}
    ensures Lower(Slashed(a + [slash] + b)) == Lower(Slashed(a)) + "/" + Lower(Slashed(b))
  {
  }

  lemma PartsIgnoreCase(a: string, b: string)
    requires Trimmed(a) && Trimmed(b) && Lower(a) == Lower(b)
    ensures PathParts(a) == PathParts(b)
  {
    TrimmedParts(a);
    TrimmedParts(b);
    LowerThenSlashed(a);
    LowerThenSlashed(b);
  }

  lemma LowerThenSlashed(s: string)
    ensures Lower(Slashed(s)) == Slashed(Lower(s))
  {
  }

  // ---------------------------------------------------------------------------------------------

  // The file, given by its path components, is the named path or lies below it.
  predicate Under(path: string, file: seq<string>) {
    PathParts(path) <= file
  }

  ghost predicate Covers(c: Claim, file: seq<string>) {
    exists p :: p in c.paths && p.Text? && Under(p.text, file)
  }

  lemma OverlapIsSharedDescendant(left: string, right: string)
    ensures PathsOverlap(left, right) <==> exists file :: Under(left, file) && Under(right, file)
  {
    var a, b := PathParts(left), PathParts(right);
    if PathsOverlap(left, right) {
      var file := if b <= a then a else b;
      assert Under(left, file) && Under(right, file);
    }
    forall file | Under(left, file) && Under(right, file) ensures PathsOverlap(left, right) {
      assert a == file[..|a|] && b == file[..|b|];
    }
  }

  lemma ConflictIsSymmetric(left: Claim, right: Claim)
    ensures Conflict(left, right) == Conflict(right, left)
  {
    assert Resources(left) * Resources(right) == Resources(right) * Resources(left);
    if ClaimsOverlap(left, right) && Resources(left) * Resources(right) == {} {
      var a, b :| a in left.paths && b in right.paths && a.Text? && b.Text? && PathsOverlap(a.text, b.text);
      assert PathsOverlap(b.text, a.text);
    }
    if ClaimsOverlap(right, left) && Resources(left) * Resources(right) == {} {
      var a, b :| a in right.paths && b in left.paths && a.Text? && b.Text? && PathsOverlap(a.text, b.text);
      assert PathsOverlap(b.text, a.text);
    }
  }

  // Two claims overlap exactly when they contend for some file or for some resource.
  lemma OverlapIsContention(left: Claim, right: Claim)
    ensures ClaimsOverlap(left, right) <==>
            || (exists file :: Covers(left, file) && Covers(right, file))
            || (exists r :: r in Resources(left) && r in Resources(right))
  {
    if a, b :| a in left.paths && b in right.paths && a.Text? && b.Text? && PathsOverlap(a.text, b.text) {
      OverlapIsSharedDescendant(a.text, b.text);
      var file :| Under(a.text, file) && Under(b.text, file);
      assert Covers(left, file) && Covers(right, file);
    }
    forall file | Covers(left, file) && Covers(right, file) ensures ClaimsOverlap(left, right) {
      var p :| p in left.paths && p.Text? && Under(p.text, file);
      var q :| q in right.paths && q.Text? && Under(q.text, file);
      OverlapIsSharedDescendant(p.text, q.text);
      assert PathsOverlap(p.text, q.text);
    }
    forall r | r in Resources(left) && r in Resources(right) ensures ClaimsOverlap(left, right) {
      assert r in Resources(left) * Resources(right);
    }
    if Resources(left) * Resources(right) != {} {
      var r :| r in Resources(left) * Resources(right);
      assert r in Resources(left) && r in Resources(right);
    }
  }

  predicate Implies(paths: seq<Item>, r: string) {
    exists p :: p in paths && p.Text? && r in ImpliedBy(p.text)
  }

  // For the claims that Issues make: they overlap exactly when they contend for a file, or for a resource that each of
  // them names or implies by one of its paths.
  lemma IssueClaimsContend(leftPaths: seq<Item>, leftResources: seq<Item>, rightPaths: seq<Item>,
                            rightResources: seq<Item>)
    ensures var left, right := ClaimOf(leftPaths, leftResources), ClaimOf(rightPaths, rightResources);
            ClaimsOverlap(left, right) <==>
            || (exists file :: Covers(left, file) && Covers(right, file))
            || (exists r :: (r in Named(leftResources) || Implies(leftPaths, r))
                            && (r in Named(rightResources) || Implies(rightPaths, r)))
  {
    var left, right := ClaimOf(leftPaths, leftResources), ClaimOf(rightPaths, rightResources);
    OverlapIsContention(left, right);
    forall r ensures r in Resources(left) <==> r in Named(leftResources) || Implies(leftPaths, r) {
      assert r in ImpliedByAll(leftPaths) <==> Implies(leftPaths, r);
    }
    forall r ensures r in Resources(right) <==> r in Named(rightResources) || Implies(rightPaths, r) {
      assert r in ImpliedByAll(rightPaths) <==> Implies(rightPaths, r);
    }
  }
}
