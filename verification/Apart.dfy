/** Claims of which any number can be held at once. */
module Apart {
  import opened Paths
  import opened Implied
  import opened Claims
  import Lists

  // A file name of its own for every number.
  function Letters(k: nat): string {
    seq(k + 1, _ => 'a')
  }

  // A claim of one such file at the top of the repository.
  function Alone(k: nat): Claim {
    ClaimOf([Text(Letters(k))], [])
  }

  predicate OnlyLetters(s: string) {
    s != "" && forall i :: 0 <= i < |s| ==> s[i] == 'a'
  }

  lemma Unchanged(s: string)
    requires OnlyLetters(s)
    ensures Slashed(s) == s && Lower(s) == s && Strip(s, WHITESPACE) == s && Strip(s, {'/'}) == s
  {
    assert s[0] == 'a';
  }

  lemma OneName(s: string)
    requires OnlyLetters(s)
    ensures Components(s) == [s]
  {
    OneComponent(s, "");
    assert "" + s == s;
    assert s[0] == 'a';
  }

  lemma NothingImplied(s: string)
    requires OnlyLetters(s)
    ensures ImpliedBy(s) == {}
  {
    Unchanged(s);
    OneName(s);
    var p := Parse(s);
    assert p.names == [s] && s[0] == 'a';
    assert FileName(p) == s;
    NoFamily(s);
    NoMarkers(s);
    assert "migrations" !in p.names && "schema" !in p.names && "generated" !in p.names;
  }

  lemma NoFamily(s: string)
    requires s != "" && s[0] == 'a'
    ensures Family(s).None? && s != "migrations" && s != "schema" && s != "generated"
  {
  }

  lemma NoMarkers(s: string)
    requires OnlyLetters(s)
    ensures !Lists.Contains(s, "schema") && !GeneratorInput(s)
  {
    forall i | 0 <= i <= |s| ensures !("schema" <= s[i..]) {
      assert i < |s| ==> s[i..][0] == 'a';
    }
    forall end | EndsWith(s, end) && end != "" ensures end[0] == 'a' {
      assert s[|s| - |end|..][0] == 'a';
    }
  }

  lemma NotExclusive(s: string)
    requires OnlyLetters(s)
    ensures !ExclusivePath(Text(s))
  {
    Unchanged(s);
    OneName(s);
    assert s[0] == 'a';
  }

  lemma PathsAreApart(a: string, b: string)
    requires OnlyLetters(a) && OnlyLetters(b) && |a| != |b|
    ensures !PathsOverlap(a, b)
  {
    Unchanged(a);
    Unchanged(b);
    OneName(a);
    OneName(b);
    assert PathParts(a) == [a] && PathParts(b) == [b];
    assert [a][0] != [b][0];
  }

  lemma OnlyItsPath(k: nat)
    ensures !Exclusive(Alone(k)) && Resources(Alone(k)) == {}
  {
    NotExclusive(Letters(k));
    NothingImplied(Letters(k));
  }

  // Two of these claims never conflict.
  lemma AloneIsApart(k: nat, l: nat)
    requires k != l
    ensures !Conflict(Alone(k), Alone(l))
  {
    PathsAreApart(Letters(k), Letters(l));
    OnlyItsPath(k);
    OnlyItsPath(l);
  }
}
