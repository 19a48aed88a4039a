/** POSIX paths as text, and the shared resources that a claimed path implies by its name. */
module Implied {
  import opened Lists
  import opened Wrappers
  import opened Paths

  function Slashed(s: string): string {
    seq(|s|, i requires 0 <= i < |s| => if s[i] == '\\' then '/' else s[i])
  }

  function Component(part: string): seq<string> {
    if part == "" || part == "." then [] else [part]
  }

  // The components of a POSIX path below its root: empty ones and "." are dropped.
  function Components(s: string, part: string := ""): seq<string> {
    if s == "" then Component(part)
    else if s[0] == '/' then Component(part) + Components(s[1..])
    else Components(s[1..], part + [s[0]])
  }

  // One leading slash is the root, and so are three or more; two are a root of their own.
  function Root(s: string): string {
    if s == "" || s[0] != '/' then ""
    else if |s| >= 2 && s[1] == '/' && (|s| == 2 || s[2] != '/') then "//"
    else "/"
  }

  lemma RootMeans(rest: string)
    requires rest == "" || rest[0] != '/'
    ensures Root(rest) == "" && Root("/" + rest) == "/" && Root("//" + rest) == "//"
    ensures Root("///" + rest) == "/" && Root("////" + rest) == "/"
  {
  }

  datatype Posix = Posix(root: string, names: seq<string>)

  function Parse(raw: string): Posix {
    var s := Lower(Slashed(raw));
    Posix(Root(s), Components(s))
  }

  function Text(p: Posix): string {
    if p.root == "" && p.names == [] then "." else p.root + Joined(p.names)
  }

  function FileName(p: Posix): string {
    if p.names == [] then "" else p.names[|p.names| - 1]
  }

  function Directory(p: Posix): Posix {
    p.(names := Parent(p.names))
  }

  // A directory as part of a resource: the current one is empty.
  function Scope(p: Posix): string {
    if Text(p) == "." then "" else Text(p)
  }

  // The directory in which a name first occurs.
  function Before(p: Posix, name: string): Posix {
    p.(names := UpTo(p.names, name))
  }

  function UpTo(names: seq<string>, name: string): seq<string> {
    if names == [] || names[0] == name then [] else [names[0]] + UpTo(names[1..], name)
  }

  // ----- Manifests --------------------------------------------------------------------------------

  // The family of a package manifest or lock file.
  function Family(name: string): Option<string> {
    if name in {"package.json", "package-lock.json", "npm-shrinkwrap.json", "pnpm-lock.yaml", "yarn.lock"}
    then Some("node")
    else if name in {"pyproject.toml", "poetry.lock", "pdm.lock", "uv.lock"} then Some("python")
    else if name in {"cargo.toml", "cargo.lock"} then Some("rust")
    else if name in {"go.mod", "go.sum"} then Some("go")
    else if name in {"pom.xml", "gradle.lockfile"} then Some("java")
    else None
  }

  function Manifest(p: Posix): Option<string> {
    match Family(FileName(p))
    case None => None
    case Some(family) => Some("manifest:" + family + ":" + Scope(Directory(p)))
  }

  // ----- Schemas ----------------------------------------------------------------------------------

  // Unlike a schema directory, a migrations directory at the top keeps the text of the current directory.
  function Schema(p: Posix): Option<string> {
    if "migrations" in p.names then Some("schema:" + Text(Before(p, "migrations")))
    else if "schema" in p.names then Some("schema:" + Scope(Before(p, "schema")))
    else if Contains(FileName(p), "schema") then Some("schema:" + Scope(Directory(p)))
    else None
  }

  // ----- Generated code ---------------------------------------------------------------------------

  const CONVENTIONAL: set<string> := {"api", "lib", "proto", "protos", "schema", "schemas", "src"}

  predicate GeneratorInput(name: string) {
    EndsWith(name, ".proto") || EndsWith(name, ".graphql")
    || EndsWith(name, ".openapi.json") || EndsWith(name, ".openapi.yaml")
  }

  // The directory that owns generated code: conventional directories at its end do not count.
  function Owner(p: Posix): Posix
    decreases |p.names|
  {
    if p.names != [] && p.names[|p.names| - 1] in CONVENTIONAL then Owner(Directory(p)) else p
  }

  function Stem(name: string): string {
    StemWithout(name, [".openapi.json", ".openapi.yaml", ".graphql", ".proto", Suffix(name)])
  }

  function StemWithout(name: string, suffixes: seq<string>): string {
    if suffixes == [] then name
    else if suffixes[0] != "" && EndsWith(name, suffixes[0]) then name[..|name| - |suffixes[0]|]
    else StemWithout(name, suffixes[1..])
  }

  function Generated(p: Posix): Option<string> {
    if "generated" in p.names then Some("generated:" + Scope(Owner(Before(p, "generated"))) + ":" + Stem(FileName(p)))
    else if GeneratorInput(FileName(p)) then Some("generated:" + Scope(Owner(Directory(p))) + ":" + Stem(FileName(p)))
    else None
  }

  // ----- All of them ------------------------------------------------------------------------------

  function Present(r: Option<string>): set<string> {
    if r.Some? then {r.value} else {}
  }

  function ImpliedBy(raw: string): set<string> {
    var p := Parse(raw);
    Present(Manifest(p)) + Present(Schema(p)) + Present(Generated(p))
  }

  // ----- Components in plain terms ----------------------------------------------------------------

  // Slashes separate, and components that are empty or "." do not count.
  lemma {:induction false} ComponentsSplit(a: string, b: string, part: string)
    ensures Components(a + "/" + b, part) == Components(a, part) + Components(b)
  {
    var s := a + "/" + b;
    if a == "" {
      assert s == "/" + b && s[1..] == b;
    } else {
      assert s[1..] == a[1..] + "/" + b;
      if a[0] == '/' {
        ComponentsSplit(a[1..], b, "");
        Associates(Component(part), Components(a[1..]), Components(b));
      } else {
        ComponentsSplit(a[1..], b, part + [a[0]]);
      }
    }
  }

  lemma {:induction false} OneComponent(s: string, part: string)
    requires forall i :: 0 <= i < |s| ==> s[i] != '/'
    ensures Components(s, part) == if part + s == "" || part + s == "." then [] else [part + s]
  {
    if s == "" {
      assert part + s == part;
    } else {
      OneComponent(s[1..], part + [s[0]]);
      assert part + [s[0]] + s[1..] == part + s;
    }
  }

  // What parsing leaves: names that are neither empty nor "." and hold no slash.
  predicate Plain(names: seq<string>) {
    SlashFree(names) && forall n :: n in names ==> n != "" && n != "."
  }

  lemma {:induction false} ComponentsArePlain(s: string, part: string)
    requires forall i :: 0 <= i < |part| ==> part[i] != '/'
    ensures Plain(Components(s, part))
  {
    if s != "" {
      if s[0] == '/' {
        ComponentsArePlain(s[1..], "");
      } else {
        ComponentsArePlain(s[1..], part + [s[0]]);
      }
    }
  }

  // ----- Which paths share a resource ---------------------------------------------------------------

  predicate WellFormed(p: Posix) {
    p.root in {"", "/", "//"} && Plain(p.names)
  }

  lemma ParseIsWellFormed(raw: string)
    ensures WellFormed(Parse(raw))
  {
    ComponentsArePlain(Lower(Slashed(raw)), "");
  }

  lemma JoinedStart(names: seq<string>)
    requires Plain(names)
    ensures names == [] <==> Joined(names) == ""
    ensures names != [] ==> Joined(names)[0] != '/' && Joined(names) != "."
  {
    if names != [] {
      assert names[0] in names;
      assert names[0][0] != '/';
      if |names| > 1 {
        assert |names[0] + "/" + Joined(names[1..])| > 1;
      }
    }
  }

  // The slashes that a text begins with are the root.
  lemma TextStart(p: Posix)
    requires WellFormed(p)
    ensures p.root <= Text(p) && (|Text(p)| > |p.root| ==> Text(p)[|p.root|] != '/')
    ensures Text(p) == "." <==> p.root == "" && p.names == []
  {
    JoinedStart(p.names);
    var joined := Joined(p.names);
    if p.names != [] {
      assert (p.root + joined)[|p.root|] == joined[0];
    }
    if p.root == "" {
      assert p.root + joined == joined;
    } else {
      assert (p.root + joined)[0] == '/';
    }
  }

  // The text of a path determines it.
  lemma TextIsInjective(p: Posix, q: Posix)
    requires WellFormed(p) && WellFormed(q) && Text(p) == Text(q)
    ensures p == q
  {
    TextStart(p);
    TextStart(q);
    JoinedStart(p.names);
    JoinedStart(q.names);
    assert |p.root| == |q.root|;
    if Text(p) != "." {
      assert Joined(p.names) == Text(p)[|p.root|..] == Joined(q.names);
      if p.names != [] {
        JoinedIsInjective(p.names, q.names);
      }
    }
  }

  lemma ScopeIsInjective(p: Posix, q: Posix)
    requires WellFormed(p) && WellFormed(q) && Scope(p) == Scope(q)
    ensures p == q
  {
    JoinedStart(p.names);
    JoinedStart(q.names);
    TextIsInjective(p, q);
  }

  // The package managers, each with the manifests and lock files that stand for one another.
  ghost predicate SameManager(a: string, b: string) {
    || (a in NODE && b in NODE)
    || (a in {"pyproject.toml", "poetry.lock", "pdm.lock", "uv.lock"}
        && b in {"pyproject.toml", "poetry.lock", "pdm.lock", "uv.lock"})
    || (a in {"cargo.toml", "cargo.lock"} && b in {"cargo.toml", "cargo.lock"})
    || (a in {"go.mod", "go.sum"} && b in {"go.mod", "go.sum"})
    || (a in {"pom.xml", "gradle.lockfile"} && b in {"pom.xml", "gradle.lockfile"})
  }

  const NODE: set<string> :=
    {"package.json", "package-lock.json", "npm-shrinkwrap.json", "pnpm-lock.yaml", "yarn.lock"}

  lemma SameFamily(a: string, b: string)
    ensures Family(a).Some? && Family(a) == Family(b) <==> SameManager(a, b)
  {
  }

  lemma FamilyNames(name: string)
    ensures Family(name).Some? ==> Family(name).value in {"node", "python", "rust", "go", "java"}
  {
  }

  lemma FamilyEnds(f: string, x: string, g: string, y: string)
    requires f in {"node", "python", "rust", "go", "java"} && g in {"node", "python", "rust", "go", "java"}
    requires "manifest:" + f + ":" + x == "manifest:" + g + ":" + y
    ensures f == g && x == y
  {
    var s, t := "manifest:" + f + ":" + x, "manifest:" + g + ":" + y;
    assert s[9] == f[0] && t[9] == g[0];
    assert x == s[|s| - |x|..] && y == t[|t| - |y|..];
  }

  // Two manifests stand for one resource exactly when they belong to one package manager and one directory.
  lemma ManifestsContend(p: Posix, q: Posix)
    requires WellFormed(p) && WellFormed(q)
    ensures Manifest(p).Some? && Manifest(p) == Manifest(q) <==>
            SameManager(FileName(p), FileName(q)) && Directory(p) == Directory(q)
  {
    SameFamily(FileName(p), FileName(q));
    PartIsPlain(p.names, Directory(p).names);
    PartIsPlain(q.names, Directory(q).names);
    if Manifest(p).Some? && Manifest(p) == Manifest(q) {
      FamilyNames(FileName(p));
      FamilyNames(FileName(q));
      FamilyEnds(Family(FileName(p)).value, Scope(Directory(p)), Family(FileName(q)).value, Scope(Directory(q)));
      ScopeIsInjective(Directory(p), Directory(q));
    }
  }

  predicate TouchesSchema(p: Posix) {
    "migrations" in p.names || "schema" in p.names || Contains(FileName(p), "schema")
  }

  function SchemaDirectory(p: Posix): Posix {
    if "migrations" in p.names then Before(p, "migrations")
    else if "schema" in p.names then Before(p, "schema")
    else Directory(p)
  }

  lemma {:induction false} UpToFirst(names: seq<string>, name: string)
    requires name in names
    ensures UpTo(names, name) + [name] <= names && name !in UpTo(names, name)
  {
    if names[0] != name {
      UpToFirst(names[1..], name);
    }
  }

  lemma PartIsPlain(names: seq<string>, part: seq<string>)
    requires Plain(names) && part <= names
    ensures Plain(part)
  {
    assert forall i :: 0 <= i < |part| ==> part[i] == names[i];
    forall n | n in part ensures n in names {
      var i :| 0 <= i < |part| && part[i] == n;
      assert names[i] == n;
    }
  }

  lemma SchemaDirectoryIsWellFormed(p: Posix)
    requires WellFormed(p)
    ensures WellFormed(SchemaDirectory(p))
  {
    if "migrations" in p.names {
      UpToFirst(p.names, "migrations");
    } else if "schema" in p.names {
      UpToFirst(p.names, "schema");
    }
    PartIsPlain(p.names, SchemaDirectory(p).names);
  }

  // Two paths stand for one schema exactly when they belong to one directory; only at the top of the repository are
  // migrations and schemas told apart.
  lemma SchemasContend(p: Posix, q: Posix)
    requires WellFormed(p) && WellFormed(q)
    ensures Schema(p).Some? <==> TouchesSchema(p)
    ensures Schema(p).Some? && Schema(p) == Schema(q) <==>
            && TouchesSchema(p) && TouchesSchema(q) && SchemaDirectory(p) == SchemaDirectory(q)
            && (SchemaDirectory(p) == Posix("", []) ==> ("migrations" in p.names <==> "migrations" in q.names))
  {
    if TouchesSchema(p) && TouchesSchema(q) {
      SchemaDirectoryIsWellFormed(p);
      SchemaDirectoryIsWellFormed(q);
      var d, e := SchemaDirectory(p), SchemaDirectory(q);
      TextStart(d);
      TextStart(e);
      var x := if "migrations" in p.names then Text(d) else Scope(d);
      var y := if "migrations" in q.names then Text(e) else Scope(e);
      assert ("schema:" + x)[7..] == x && ("schema:" + y)[7..] == y;
      if x == y {
        if Text(d) == Text(e) {
          TextIsInjective(d, e);
        } else {
          ScopeIsInjective(d, e);
        }
      }
    }
  }

  predicate TouchesGenerated(p: Posix) {
    "generated" in p.names || exists end :: end in {".proto", ".graphql", ".openapi.json", ".openapi.yaml"}
                                           && EndsWith(FileName(p), end)
  }

  function GeneratedOwner(p: Posix): Posix {
    Owner(if "generated" in p.names then Before(p, "generated") else Directory(p))
  }

  // The owner is what is left when conventional directories at the end are dropped.
  lemma {:induction false} OwnerMeans(p: Posix)
    ensures Owner(p).root == p.root && Owner(p).names <= p.names
    ensures forall n :: n in p.names[|Owner(p).names|..] ==>
              n in {"api", "lib", "proto", "protos", "schema", "schemas", "src"}
    ensures var names := Owner(p).names;
            names == [] || names[|names| - 1] !in {"api", "lib", "proto", "protos", "schema", "schemas", "src"}
    decreases |p.names|
  {
    if p.names != [] && p.names[|p.names| - 1] in CONVENTIONAL {
      OwnerMeans(Directory(p));
      var names, kept := p.names, |Owner(p).names|;
      assert names[kept..] == Directory(p).names[kept..] + [names[|names| - 1]];
    }
  }

  lemma Ends(base: string, end: string)
    ensures EndsWith(base + end, end) && (base + end)[..|base|] == base
  {
    assert (base + end)[|base|..] == end;
  }

  lemma LastTwo(s: string, end: string)
    requires |end| > 1 && EndsWith(s, end)
    ensures |s| > 1 && s[|s| - 1] == end[|end| - 1] && s[|s| - 2] == end[|end| - 2]
  {
    assert s[|s| - |end|..][|end| - 1] == s[|s| - 1] && s[|s| - |end|..][|end| - 2] == s[|s| - 2];
  }

  // A name has at most one of the four endings.
  lemma EndsOnce(s: string)
    ensures EndsWith(s, ".openapi.yaml") ==> !EndsWith(s, ".openapi.json")
    ensures EndsWith(s, ".graphql") ==> !EndsWith(s, ".openapi.json") && !EndsWith(s, ".openapi.yaml")
    ensures EndsWith(s, ".proto") ==>
              !EndsWith(s, ".openapi.json") && !EndsWith(s, ".openapi.yaml") && !EndsWith(s, ".graphql")
  {
    if EndsWith(s, ".openapi.json") {
      LastTwo(s, ".openapi.json");
    }
    if EndsWith(s, ".openapi.yaml") {
      LastTwo(s, ".openapi.yaml");
    }
    if EndsWith(s, ".graphql") {
      LastTwo(s, ".graphql");
    }
    if EndsWith(s, ".proto") {
      LastTwo(s, ".proto");
    }
  }

  // The stem is the name without the ending of a generator's input, or else without its suffix.
  lemma StemMeans(base: string)
    ensures Stem(base + ".openapi.json") == base && Stem(base + ".openapi.yaml") == base
    ensures Stem(base + ".graphql") == base && Stem(base + ".proto") == base
  {
    Ends(base, ".openapi.json");
    Ends(base, ".openapi.yaml");
    Ends(base, ".graphql");
    Ends(base, ".proto");
    EndsOnce(base + ".openapi.yaml");
    EndsOnce(base + ".graphql");
    EndsOnce(base + ".proto");
    StemSkips(base + ".openapi.yaml");
    StemSkips(base + ".graphql");
    StemSkips(base + ".proto");
  }

  lemma StemSkips(name: string)
    ensures EndsWith(name, ".openapi.json") ==> Stem(name) == name[..|name| - 13]
    ensures !EndsWith(name, ".openapi.json") && EndsWith(name, ".openapi.yaml") ==> Stem(name) == name[..|name| - 13]
    ensures !EndsWith(name, ".openapi.json") && !EndsWith(name, ".openapi.yaml") && EndsWith(name, ".graphql") ==>
              Stem(name) == name[..|name| - 8]
    ensures !EndsWith(name, ".openapi.json") && !EndsWith(name, ".openapi.yaml") && !EndsWith(name, ".graphql") ==>
              (EndsWith(name, ".proto") ==> Stem(name) == name[..|name| - 6])
              && (!EndsWith(name, ".proto") ==> Stem(name) + Suffix(name) == name)
  {
    FiveEndings(name, ".openapi.json", ".openapi.yaml", ".graphql", ".proto", Suffix(name));
    if Suffix(name) != "" {
      assert name[..|name| - |Suffix(name)|] + Suffix(name) == name;
    }
  }

  function Cut(name: string, end: string): string
    requires EndsWith(name, end)
  {
    name[..|name| - |end|]
  }

  lemma FiveEndings(name: string, a: string, b: string, c: string, d: string, e: string)
    requires a != "" && b != "" && c != "" && d != ""
    ensures StemWithout(name, [a, b, c, d, e]) ==
            if EndsWith(name, a) then Cut(name, a)
            else if EndsWith(name, b) then Cut(name, b)
            else if EndsWith(name, c) then Cut(name, c)
            else if EndsWith(name, d) then Cut(name, d)
            else if e != "" && EndsWith(name, e) then Cut(name, e) else name
  {
    assert [a, b, c, d, e][1..] == [b, c, d, e] && [b, c, d, e][1..] == [c, d, e];
    assert [c, d, e][1..] == [d, e] && [d, e][1..] == [e] && [e][1..] == [];
    assert StemWithout(name, [d, e]) == if EndsWith(name, d) then Cut(name, d) else StemWithout(name, [e]);
    assert StemWithout(name, [c, d, e]) == if EndsWith(name, c) then Cut(name, c) else StemWithout(name, [d, e]);
    assert StemWithout(name, [b, c, d, e]) == if EndsWith(name, b) then Cut(name, b) else StemWithout(name, [c, d, e]);
  }

  // Generated code of one owner is shared exactly when the stems agree.
  lemma GeneratedContend(p: Posix, q: Posix)
    requires GeneratedOwner(p) == GeneratedOwner(q)
    ensures Generated(p).Some? <==> TouchesGenerated(p)
    ensures Generated(p).Some? && Generated(p) == Generated(q) <==>
            TouchesGenerated(p) && TouchesGenerated(q) && Stem(FileName(p)) == Stem(FileName(q))
  {
    var start := "generated:" + Scope(GeneratedOwner(p)) + ":";
    assert (start + Stem(FileName(p)))[|start|..] == Stem(FileName(p));
    assert (start + Stem(FileName(q)))[|start|..] == Stem(FileName(q));
  }

  lemma KindsDiffer(p: Posix, q: Posix)
    ensures Manifest(p).Some? ==> Manifest(p) != Schema(q) && Manifest(p) != Generated(q)
    ensures Schema(p).Some? ==> Schema(p) != Manifest(q) && Schema(p) != Generated(q)
    ensures Generated(p).Some? ==> Generated(p) != Manifest(q) && Generated(p) != Schema(q)
  {
    KindShows(p);
    KindShows(q);
  }

  lemma KindShows(p: Posix)
    ensures Manifest(p).Some? ==> Manifest(p).value != "" && Manifest(p).value[0] == 'm'
    ensures Schema(p).Some? ==> Schema(p).value != "" && Schema(p).value[0] == 's'
    ensures Generated(p).Some? ==> Generated(p).value != "" && Generated(p).value[0] == 'g'
  {
  }

  lemma SharesByKind(a: string, b: string)
    ensures var p, q := Parse(a), Parse(b);
            (exists r :: r in ImpliedBy(a) && r in ImpliedBy(b)) <==>
            || (Manifest(p).Some? && Manifest(p) == Manifest(q))
            || (Schema(p).Some? && Schema(p) == Schema(q))
            || (Generated(p).Some? && Generated(p) == Generated(q))
  {
    var p, q := Parse(a), Parse(b);
    KindsDiffer(p, q);
    if r :| r in ImpliedBy(a) && r in ImpliedBy(b) {
      ImpliedIs(a, r);
      ImpliedIs(b, r);
    }
    if Manifest(p).Some? && Manifest(p) == Manifest(q) {
      ImpliedIs(a, Manifest(p).value);
      ImpliedIs(b, Manifest(p).value);
    }
    if Schema(p).Some? && Schema(p) == Schema(q) {
      ImpliedIs(a, Schema(p).value);
      ImpliedIs(b, Schema(p).value);
    }
    if Generated(p).Some? && Generated(p) == Generated(q) {
      ImpliedIs(a, Generated(p).value);
      ImpliedIs(b, Generated(p).value);
    }
  }

  lemma ImpliedIs(raw: string, r: string)
    ensures var p := Parse(raw);
            r in ImpliedBy(raw) <==> Manifest(p) == Some(r) || Schema(p) == Some(r) || Generated(p) == Some(r)
  {
  }

  // Two paths imply a common resource exactly when they are manifests of one package manager in one directory, touch
  // the schema of one directory, or have the same generated code.
  lemma ImpliedContend(a: string, b: string)
    ensures var p, q := Parse(a), Parse(b);
            (exists r :: r in ImpliedBy(a) && r in ImpliedBy(b)) <==>
            || (SameManager(FileName(p), FileName(q)) && Directory(p) == Directory(q))
            || (&& TouchesSchema(p) && TouchesSchema(q) && SchemaDirectory(p) == SchemaDirectory(q)
                && (SchemaDirectory(p) == Posix("", []) ==> ("migrations" in p.names <==> "migrations" in q.names)))
            || (Generated(p).Some? && Generated(p) == Generated(q))
  {
    ParseIsWellFormed(a);
    ParseIsWellFormed(b);
    ManifestsContend(Parse(a), Parse(b));
    SchemasContend(Parse(a), Parse(b));
    SharesByKind(a, b);
  }
}
