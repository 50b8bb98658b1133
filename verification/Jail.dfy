/** The lexical half of the filesystem jail, and directories reached through it. */
module Jail {
  import opened Text
  import Paths

  const MAX_PATH_BYTES: nat := 4096
  const MAX_COMPONENT_BYTES: nat := 255

  /** The kernel's own limit on a path, its terminator included. */
  const PATH_MAX: nat := 4096

  type Path = seq<string>

  /** The components of a path that name something. */
  function Named(comps: seq<string>): Path {
    if comps == [] then []
    else Named(comps[..|comps| - 1]) + (if comps[|comps| - 1] in ["", "."] then [] else [comps[|comps| - 1]])
  }

  predicate ComponentsOk(comps: seq<string>) {
    forall i :: 0 <= i < |comps| ==> comps[i] != "" && comps[i] != "." && Utf8Len(comps[i]) <= MAX_COMPONENT_BYTES
  }

  /** sanitize: reject `..`, NUL and overlong paths, and return the cleaned relative path. */
  function Sanitize(rel: string): Outcome<string> {
    if rel == "" then Ok(".")
    else if '\0' in rel || Utf8Len(rel) > MAX_PATH_BYTES || ".." in Split(rel, '/') then Err("invalid path")
    else
      var clean := Paths.Clean("/" + rel)[1..];
      if clean == "" || clean == "." then Ok(".")
      else if !ComponentsOk(Split(clean, '/')) then Err("invalid path")
      else Ok(clean)
  }

  /** The cleaned path as components; the root is the empty path. */
  function Resolve(rel: string): Outcome<Path> {
    var clean := Sanitize(rel);
    if clean.Err? then Err(clean.reason)
    else Ok(if clean.value == "." then [] else Split(clean.value, '/'))
  }

  function Rel(p: Path): string {
    if p == [] then "." else Join(p, "/")
  }

  /** What the lexical checks let through. */
  predicate Acceptable(rel: string) {
    && '\0' !in rel && Utf8Len(rel) <= 4096 && ".." !in Split(rel, '/')
    && forall i :: 0 <= i < |Named(Split(rel, '/'))| ==> Utf8Len(Named(Split(rel, '/'))[i]) <= 255
  }

  // ----- sanitize keeps exactly the naming components -----

  lemma {:induction false} ResolveIsNamed(comps: seq<string>)
    requires ".." !in comps
    ensures Paths.Resolve(true, comps) == Named(comps)
  {
    if comps != [] {
      ResolveIsNamed(comps[..|comps| - 1]);
      assert comps[|comps| - 1] in comps;
    }
  }

  lemma {:induction false} NamedFacts(comps: seq<string>)
    ensures forall i :: 0 <= i < |Named(comps)| ==> Named(comps)[i] in comps && Named(comps)[i] != "" && Named(comps)[i] != "."
  {
    if comps != [] {
      NamedFacts(comps[..|comps| - 1]);
    }
  }

  lemma {:induction false} NamedOfNames(comps: seq<string>)
    requires forall i :: 0 <= i < |comps| ==> comps[i] != "" && comps[i] != "."
    ensures Named(comps) == comps
  {
    if comps != [] {
      NamedOfNames(comps[..|comps| - 1]);
      assert comps == comps[..|comps| - 1] + [comps[|comps| - 1]];
    }
  }

  lemma {:induction false} NamedOfRooted(comps: seq<string>)
    ensures Named([""] + comps) == Named(comps)
  {
    var all := [""] + comps;
    if comps == [] {
      assert all[..0] == [];
    } else {
      NamedOfRooted(comps[..|comps| - 1]);
      assert all[..|all| - 1] == [""] + comps[..|comps| - 1];
    }
  }

  lemma {:induction false} SplitJoin(p: seq<string>)
    requires p != [] && forall i :: 0 <= i < |p| ==> '/' !in p[i]
    ensures Split(Join(p, "/"), '/') == p
  {
    if |p| == 1 {
      SplitNone(p[0], '/');
    } else {
      SplitJoin(p[1..]);
      SplitHead(p[0], Join(p[1..], "/"), '/');
      assert Join(p, "/") == p[0] + ['/'] + Join(p[1..], "/");
      assert p == [p[0]] + p[1..];
    }
  }

  lemma {:induction false} CleanRooted(rel: string)
    requires ".." !in Split(rel, '/')
    ensures Paths.Clean("/" + rel) == "/" + Join(Named(Split(rel, '/')), "/")
  {
    SplitHead("", rel, '/');
    assert "" + ['/'] + rel == "/" + rel;
    var comps := [""] + Split(rel, '/');
    assert ".." !in comps;
    ResolveIsNamed(comps);
    NamedOfRooted(Split(rel, '/'));
  }

  /** sanitize accepts exactly the acceptable paths, and resolves them to their naming components. */
  lemma {:induction false} ResolveSpec(rel: string)
    ensures Resolve(rel).Ok? <==> Acceptable(rel)
    ensures Resolve(rel).Ok? ==> Resolve(rel).value == Named(Split(rel, '/'))
  {
    var comps := Split(rel, '/');
    var named := Named(comps);
    NamedFacts(comps);
    if rel == "" {
      assert comps == [""] && comps[..0] == [];
    } else if ".." !in comps {
      CleanRooted(rel);
      var clean := Join(named, "/");
      assert Paths.Clean("/" + rel)[1..] == clean;
      if named == [] {
        assert clean == "";
      } else {
        SplitJoin(named);
        NotADot(named);
      }
    }
  }

  lemma {:induction false} NotADot(p: seq<string>)
    requires p != [] && forall i :: 0 <= i < |p| ==> '/' !in p[i] && p[i] != "" && p[i] != "."
    ensures Join(p, "/") != "" && Join(p, "/") != "."
  {
    SplitJoin(p);
    assert Split("", '/') == [""];
    SplitNone(".", '/');
    assert p[0] != "" && p[0] != ".";
  }

  /** A path whose components are names. */
  predicate IsName(n: string) {
    n != "" && n != "." && n != ".." && '/' !in n && '\0' !in n && Utf8Len(n) <= MAX_COMPONENT_BYTES
  }

  predicate IsNames(p: Path) {
    forall i :: 0 <= i < |p| ==> IsName(p[i])
  }

  lemma {:induction false} SplitNames(p: Path)
    requires IsNames(p) && p != []
    ensures Split(Rel(p), '/') == p && Named(p) == p
  {
    SplitJoin(p);
    NamedOfNames(p);
  }

  /** A path of names is acceptable unless it is too long. */
  lemma {:induction false} AcceptableNames(rel: string, p: Path)
    requires IsNames(p) && Split(rel, '/') == p && Named(p) == p && '\0' !in rel
    ensures Acceptable(rel) <==> Utf8Len(rel) <= MAX_PATH_BYTES
  {
    forall i | 0 <= i < |p| ensures p[i] != ".." && Utf8Len(p[i]) <= MAX_COMPONENT_BYTES {
      assert IsName(p[i]);
    }
  }

  /** A path of names within the length limit resolves to itself. */
  lemma {:induction false} ResolveNames(p: Path)
    requires IsNames(p) && p != []
    ensures Resolve(Rel(p)).Ok? <==> Utf8Len(Rel(p)) <= MAX_PATH_BYTES
    ensures Resolve(Rel(p)).Ok? ==> Resolve(Rel(p)).value == p
  {
    SplitNames(p);
    NoNul(p);
    AcceptableNames(Rel(p), p);
    ResolveSpec(Rel(p));
  }

  lemma {:induction false} NoNul(p: Path)
    requires IsNames(p)
    ensures '\0' !in Join(p, "/")
  {
    if |p| > 1 {
      NoNul(p[1..]);
    }
  }

  lemma {:induction false} JoinSnoc(p: seq<string>, n: string)
    requires p != []
    ensures Join(p + [n], "/") == Join(p, "/") + "/" + n
  {
    if |p| == 1 {
      assert (p + [n])[1..] == [n];
    } else {
      JoinSnoc(p[1..], n);
      assert (p + [n])[1..] == p[1..] + [n];
      Regroup(p[0] + "/", Join(p[1..], "/"), "/", n);
    }
  }

  lemma {:induction false} Regroup(a: string, b: string, c: string, d: string)
    ensures a + (b + c + d) == a + b + c + d
  {
  }

  lemma {:induction false} JoinOfSplit(s: string)
    ensures Join(Split(s, '/'), "/") == s
  {
    if s != [] {
      JoinOfSplit(s[1..]);
      var rest := Split(s[1..], '/');
      if s[0] == '/' {
        assert ([[]] + rest)[1..] == rest;
        assert [] + "/" + s[1..] == s;
      } else {
        var parts := [[s[0]] + rest[0]] + rest[1..];
        assert parts[1..] == rest[1..];
        assert [s[0]] + s[1..] == s;
        if |rest| > 1 {
          Regroup([s[0]], rest[0], "/", Join(rest[1..], "/"));
        }
      }
    }
  }

  lemma {:induction false} JoinSnocFacts(p: seq<string>, n: string)
    requires p != []
    ensures Utf8Len(Join(p + [n], "/")) == Utf8Len(Join(p, "/")) + 1 + Utf8Len(n)
    ensures '\0' in Join(p + [n], "/") <==> '\0' in Join(p, "/") || '\0' in n
  {
    JoinSnoc(p, n);
    Utf8Append(Join(p, "/") + "/", n);
    Utf8Append(Join(p, "/"), "/");
    assert Utf8Len("/") == 1;
  }

  /** No longer, and no NUL of its own. */
  predicate NoWorse(s: string, t: string) {
    Utf8Len(s) <= Utf8Len(t) && ('\0' in s ==> '\0' in t)
  }

  lemma {:induction false} NoWorseSnoc(p: seq<string>, q: seq<string>, n: string)
    requires p != [] && q != [] && NoWorse(Join(p, "/"), Join(q, "/"))
    ensures NoWorse(Join(p, "/"), Join(q + [n], "/")) && NoWorse(Join(p + [n], "/"), Join(q + [n], "/"))
  {
    JoinSnocFacts(p, n);
    JoinSnocFacts(q, n);
  }

  lemma {:induction false} NoWorseFirst(q: seq<string>, n: string)
    requires q != []
    ensures NoWorse([], Join(q + [n], "/")) && NoWorse(n, Join(q + [n], "/"))
  {
    JoinSnocFacts(q, n);
  }

  lemma {:induction false} NamedStep(init: seq<string>, last: string)
    requires init != [] && NoWorse(Join(Named(init), "/"), Join(init, "/"))
    ensures NoWorse(Join(Named(init + [last]), "/"), Join(init + [last], "/"))
  {
    NamedEnd(init, last);
    if Named(init) == [] {
      NoWorseFirst(init, last);
    } else {
      NoWorseSnoc(Named(init), init, last);
    }
  }

  /** Dropping components never lengthens a path or adds a NUL. */
  lemma {:induction false} NamedShorter(comps: seq<string>)
    requires comps != []
    ensures NoWorse(Join(Named(comps), "/"), Join(comps, "/"))
  {
    if |comps| == 1 {
      NamedOne(comps[0]);
      assert comps == [comps[0]];
    } else {
      var init, last := comps[..|comps| - 1], comps[|comps| - 1];
      NamedShorter(init);
      NamedStep(init, last);
      assert comps == init + [last];
    }
  }

  lemma {:induction false} NamedOne(n: string)
    ensures NoWorse(Join(Named([n]), "/"), Join([n], "/"))
  {
    assert [n] == [] + [n];
    NamedEnd([], n);
    assert Join([n], "/") == n;
  }

  lemma {:induction false} NamedEnd(init: seq<string>, last: string)
    ensures Named(init + [last]) == Named(init) || Named(init + [last]) == Named(init) + [last]
    ensures Named(init) == [] ==> Join(Named(init) + [last], "/") == last
  {
    assert (init + [last])[..|init|] == init;
  }

  lemma {:induction false} SanitizeIsRel(rel: string)
    requires Sanitize(rel).Ok?
    ensures Sanitize(rel).value == Rel(Resolve(rel).value)
  {
    JoinOfSplit(Sanitize(rel).value);
  }

  lemma {:induction false} AcceptableAgain(comps: seq<string>)
    requires comps != [] && ".." !in comps && '\0' !in Join(comps, "/") && Utf8Len(Join(comps, "/")) <= MAX_PATH_BYTES
    requires forall i :: 0 <= i < |comps| ==> '/' !in comps[i]
    requires forall i :: 0 <= i < |Named(comps)| ==> Utf8Len(Named(comps)[i]) <= MAX_COMPONENT_BYTES
    ensures Acceptable(Rel(Named(comps))) && Named(Split(Rel(Named(comps)), '/')) == Named(comps)
  {
    var p := Named(comps);
    NamedFacts(comps);
    NamedShorter(comps);
    if p == [] {
      SplitNone(".", '/');
      assert ["."][..0] == [] && Utf8Len(".") == 1;
    } else {
      NamedAgain(comps);
    }
  }

  lemma {:induction false} NamedAgain(comps: seq<string>)
    requires Named(comps) != [] && forall i :: 0 <= i < |comps| ==> '/' !in comps[i]
    ensures var p := Named(comps); Split(Join(p, "/"), '/') == p && Named(p) == p
  {
    var p := Named(comps);
    NamedFacts(comps);
    SplitJoin(p);
    NamedOfNames(p);
  }

  /** Sanitizing a sanitized path changes nothing. */
  lemma {:induction false} SanitizeIdempotent(rel: string)
    requires Sanitize(rel).Ok?
    ensures Sanitize(Sanitize(rel).value) == Sanitize(rel)
  {
    ResolveSpec(rel);
    SanitizeIsRel(rel);
    JoinOfSplit(rel);
    AcceptableAgain(Split(rel, '/'));
    var clean := Sanitize(rel).value;
    ResolveSpec(clean);
    SanitizeIsRel(clean);
  }

  // ----- the kernel's half -----

  /** openat2 takes the path. */
  predicate Opens(p: Path) {
    Utf8Len(Rel(p)) < PATH_MAX
  }

  /** A path through the jail: sanitize, then the kernel. */
  function Locate(rel: string): Outcome<Path> {
    var p := Resolve(rel);
    if p.Ok? && !Opens(p.value) then Err("file name too long") else p
  }

  lemma {:induction false} RootResolves()
    ensures Resolve(".") == Ok([]) && Opens([])
  {
    SplitNone(".", '/');
    assert ["."][..0] == [] && Utf8Len(".") == 1;
    ResolveSpec(".");
  }

  /** sanitize never refuses a path of names that the kernel takes. */
  lemma {:induction false} LocateNames(p: Path)
    requires IsNames(p)
    ensures Locate(Rel(p)).Ok? <==> Opens(p)
    ensures Opens(p) ==> Locate(Rel(p)) == Ok(p)
  {
    if p == [] {
      RootResolves();
    } else {
      ResolveNames(p);
    }
  }

  /** A directory above a path that opens also opens. */
  lemma {:induction false} OpensAbove(p: Path, k: nat)
    requires k <= |p| && Opens(p)
    ensures Opens(p[..k])
    decreases |p|
  {
    if k == |p| {
      assert p[..k] == p;
    } else if k == 0 {
      RootResolves();
    } else {
      var init := p[..|p| - 1];
      assert p == init + [p[|p| - 1]] && init[..k] == p[..k];
      JoinSnocFacts(init, p[|p| - 1]);
      OpensAbove(init, k);
    }
  }

  lemma {:induction false} NamesSnoc(p: Path, n: string)
    requires IsNames(p) && IsName(n)
    ensures IsNames(p + [n])
  {
    forall i | 0 <= i < |p + [n]| ensures IsName((p + [n])[i]) {
      assert (p + [n])[i] == if i < |p| then p[i] else n;
    }
  }

  lemma {:induction false} NoDots(p: Path)
    requires IsNames(p)
    ensures ".." !in p
  {
    forall i | 0 <= i < |p| ensures p[i] != ".." {
      assert IsName(p[i]);
    }
  }

  lemma {:induction false} CleanOfNames(p: Path)
    requires IsNames(p) && p != []
    ensures Paths.Clean("/" + Join(p, "/")) == "/" + Join(p, "/")
  {
    SplitNames(p);
    NoDots(p);
    CleanRooted(Join(p, "/"));
  }

  /** A name joined to a rooted directory is that name below it. */
  lemma {:induction false} JoinPlain(p: Path, n: string)
    requires p != [] && IsNames(p) && n != "" && IsName(n)
    ensures Paths.JoinPath("/" + Join(p, "/"), n) == "/" + Join(p, "/") + "/" + n
  {
    NamesSnoc(p, n);
    CleanOfNames(p + [n]);
    JoinSnoc(p, n);
    Regroup("/", Join(p, "/"), "/", n);
    Joined("/" + Join(p, "/"), n);
  }

  lemma {:induction false} Joined(a: string, n: string)
    requires a != "" && n != ""
    ensures Paths.JoinPath(a, n) == Paths.Clean(a + "/" + n)
  {
  }
}
