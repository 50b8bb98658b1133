/**
 Backup archives: walking a directory tree into a tar stream.

 A tree is made of files and directories with distinct names. An archive is its sequence of headers with
 their bytes.
 */
module Archive {
  import opened Text
  import opened Jail
  import Paths

  type Bytes = string

  datatype Node = File(data: Bytes) | Dir(entries: seq<Entry>)
  datatype Entry = Entry(name: string, node: Node)

  datatype TarEntry = TarFile(name: string, data: Bytes) | TarDir(name: string, size: int64) | TarOther(name: string, size: int64)

  // ----- ignore patterns -----

  /** Glob matching is a library matter; an ignore set carries it as a function of pattern and name. */
  datatype IgnoreSet = IgnoreSet(patterns: seq<string>, glob: (string, string) -> bool)

  /** Match: the whole path, its base name, or a directory prefix. */
  predicate Match(ignore: IgnoreSet, rel: string) {
    exists i :: 0 <= i < |ignore.patterns| && MatchOne(ignore, ignore.patterns[i], rel)
  }

  /** strings.TrimSuffix(p, "/"). */
  function Trimmed(p: string): string {
    if p != "" && p[|p| - 1] == '/' then p[..|p| - 1] else p
  }

  predicate MatchOne(ignore: IgnoreSet, p: string, rel: string) {
    ignore.glob(p, rel) || ignore.glob(p, Paths.Base(rel)) || rel == Trimmed(p) || Trimmed(p) + "/" <= rel
  }

  // ----- trees -----

  /** Names are distinct within a directory and every name is a path component. */
  ghost predicate TreeOk(node: Node) {
    match node
    case File(_) => true
    case Dir(es) =>
      && (forall i, j :: 0 <= i < j < |es| ==> es[i].name != es[j].name)
      && forall e | e in es :: IsName(e.name) && TreeOk(e.node)
  }

  /** The file `data` stands at path `q` below the node. */
  ghost predicate HasFile(node: Node, q: Path, data: Bytes) {
    match node
    case File(d) => q == [] && d == data
    case Dir(es) => q != [] && exists e :: e in es && e.name == q[0] && HasFile(e.node, q[1..], data)
  }

  /** No path from `at` down to `at + q`, end included, is ignored. */
  ghost predicate Kept(ignore: IgnoreSet, at: Path, q: Path) {
    forall k :: 0 < k <= |q| ==> !Match(ignore, Rel(at + q[..k]))
  }

  // ----- the walk -----

  datatype Item = Item(path: Path, data: Bytes)

  /** List drops what it cannot open, and the walk skips what is ignored. */
  predicate Visits(ignore: IgnoreSet, p: Path) {
    Opens(p) && !Match(ignore, Rel(p))
  }

  /** Every path from below `at` down to `at + q`, end included, is visited. */
  ghost predicate Reached(ignore: IgnoreSet, at: Path, q: Path) {
    forall k :: 0 < k <= |q| ==> Visits(ignore, at + q[..k])
  }

  /** The files a walk visits, in order. */
  function Walk(at: Path, node: Node, ignore: IgnoreSet): seq<Item>
    decreases node, 1
  {
    match node
    case File(d) => [Item(at, d)]
    case Dir(es) => WalkEntries(at, es, ignore)
  }

  function WalkEntries(at: Path, es: seq<Entry>, ignore: IgnoreSet): seq<Item>
    decreases es, 0
  {
    if es == [] then []
    else
      var n := |es| - 1;
      var child := at + [es[n].name];
      WalkEntries(at, es[..n], ignore) + if Visits(ignore, child) then Walk(child, es[n].node, ignore) else []
  }

  function ToTar(items: seq<Item>): seq<TarEntry> {
    seq(|items|, i requires 0 <= i < |items| => TarFile(Rel(items[i].path), items[i].data))
  }

  lemma {:induction false} ToTarAppend(a: seq<Item>, b: seq<Item>)
    ensures ToTar(a + b) == ToTar(a) + ToTar(b)
  {
  }

  lemma {:induction false} RelOfChild(at: Path, name: string)
    requires IsName(name)
    ensures Rel(at + [name]) == if at == [] then name else Rel(at) + "/" + name
  {
    if at == [] {
      assert at + [name] == [name];
    } else {
      JoinSnoc(at, name);
    }
  }

  /** One more entry: its own files follow what is already written. */
  lemma {:induction false} TarStep(tw: seq<TarEntry>, at: Path, es: seq<Entry>, i: nat, ignore: IgnoreSet)
    requires i < |es|
    ensures var child := at + [es[i].name];
      tw + ToTar(WalkEntries(at, es[..i + 1], ignore)) ==
      tw + ToTar(WalkEntries(at, es[..i], ignore)) + if Visits(ignore, child) then ToTar(Walk(child, es[i].node, ignore)) else []
  {
    assert es[..i + 1][..i] == es[..i];
    var child := at + [es[i].name];
    var before, here := WalkEntries(at, es[..i], ignore), if Visits(ignore, child) then Walk(child, es[i].node, ignore) else [];
    assert WalkEntries(at, es[..i + 1], ignore) == before + here;
    ToTarAppend(before, here);
  }

  /** tarOneFile, or the walk of a subdirectory. A path that was listed is never refused when it is opened. */
  method TarNode(tw: seq<TarEntry>, rel: string, ghost at: Path, node: Node, ignore: IgnoreSet)
      returns (tw': seq<TarEntry>)
    requires IsNames(at) && Opens(at) && rel == Rel(at) && TreeOk(node)
    ensures tw' == tw + ToTar(Walk(at, node, ignore))
    decreases node, 1
  {
    assert Locate(rel) == Ok(at) by { LocateNames(at); }
    match node {
      case File(data) =>
        tw' := tw + [TarFile(rel, data)];
      case Dir(es) =>
        tw' := WalkAndTar(tw, rel, at, es, ignore);
    }
  }

  /** walkAndTar: list what can be opened, skip what is ignored, visit the others in order. */
  method WalkAndTar(tw: seq<TarEntry>, relDir: string, ghost at: Path, es: seq<Entry>, ignore: IgnoreSet)
      returns (tw': seq<TarEntry>)
    requires IsNames(at) && relDir == Rel(at) && TreeOk(Dir(es))
    ensures tw' == tw + ToTar(WalkEntries(at, es, ignore))
    decreases es, 0
  {
    tw' := tw;
    NotRoot(at);
    for i := 0 to |es|
      invariant tw' == tw + ToTar(WalkEntries(at, es[..i], ignore))
    {
      ghost var child := at + [es[i].name];
      RelOfChild(at, es[i].name);
      var rel := if relDir == "." then es[i].name else relDir + "/" + es[i].name;
      TarStep(tw, at, es, i, ignore);
      if Utf8Len(rel) < PATH_MAX && !Match(ignore, rel) {
        tw' := TarNode(tw', rel, child, es[i].node, ignore);
      }
    }
    assert es[..|es|] == es;
  }

  lemma {:induction false} NotRoot(at: Path)
    requires IsNames(at)
    ensures Rel(at) == "." <==> at == []
  {
    if at != [] {
      NotADot(at);
    }
  }

  // ----- what the walk visits -----

  lemma {:induction false} WalkBelow(at: Path, node: Node, ignore: IgnoreSet)
    ensures forall it | it in Walk(at, node, ignore) :: at <= it.path
    decreases node, 1
  {
    if node.Dir? {
      EntriesBelow(at, node.entries, ignore);
    }
  }

  /** Every visited file lies below one of the entries. */
  lemma {:induction false} EntriesBelow(at: Path, es: seq<Entry>, ignore: IgnoreSet)
    ensures forall it | it in WalkEntries(at, es, ignore) ::
      at < it.path && exists e :: e in es && e.name == it.path[|at|]
    decreases es, 0
  {
    if es != [] {
      var n := |es| - 1;
      EntriesBelow(at, es[..n], ignore);
      if Visits(ignore, at + [es[n].name]) {
        WalkBelow(at + [es[n].name], es[n].node, ignore);
      }
      forall it | it in WalkEntries(at, es, ignore)
        ensures at < it.path && exists e :: e in es && e.name == it.path[|at|]
      {
        if it in WalkEntries(at, es[..n], ignore) {
          var e :| e in es[..n] && e.name == it.path[|at|];
          assert e in es;
        } else {
          assert at + [es[n].name] <= it.path && es[n] in es;
        }
      }
    }
  }

  /** No visited path is a prefix of another. */
  ghost predicate PrefixFree(items: seq<Item>) {
    forall i, j :: 0 <= i < |items| && 0 <= j < |items| && i != j ==> !(items[i].path <= items[j].path)
  }

  lemma {:induction false} WalkPrefixFree(at: Path, node: Node, ignore: IgnoreSet)
    requires TreeOk(node)
    ensures PrefixFree(Walk(at, node, ignore))
    decreases node, 1
  {
    if node.Dir? {
      EntriesPrefixFree(at, node.entries, ignore);
    }
  }

  lemma {:induction false} EntriesPrefixFree(at: Path, es: seq<Entry>, ignore: IgnoreSet)
    requires TreeOk(Dir(es))
    ensures PrefixFree(WalkEntries(at, es, ignore))
    decreases es, 0
  {
    if es != [] {
      var n := |es| - 1;
      assert TreeOk(Dir(es[..n])) && es[n] in es;
      EntriesPrefixFree(at, es[..n], ignore);
      if Visits(ignore, at + [es[n].name]) {
        EntriesBelow(at, es[..n], ignore);
        WalkBelow(at + [es[n].name], es[n].node, ignore);
        WalkPrefixFree(at + [es[n].name], es[n].node, ignore);
        Apart(at, es, WalkEntries(at, es[..n], ignore), Walk(at + [es[n].name], es[n].node, ignore));
      }
    }
  }

  /** Files below different entries of one directory differ at that entry's name. */
  lemma {:induction false} Apart(at: Path, es: seq<Entry>, a: seq<Item>, b: seq<Item>)
    requires es != [] && TreeOk(Dir(es)) && PrefixFree(a) && PrefixFree(b)
    requires forall it | it in a :: at < it.path && exists e :: e in es[..|es| - 1] && e.name == it.path[|at|]
    requires forall it | it in b :: at + [es[|es| - 1].name] <= it.path
    ensures PrefixFree(a + b)
  {
    var last := es[|es| - 1].name;
    forall i, j | 0 <= i < |a| && 0 <= j < |b| ensures !(a[i].path <= b[j].path) && !(b[j].path <= a[i].path) {
      assert a[i] in a && b[j] in b;
      var e :| e in es[..|es| - 1] && e.name == a[i].path[|at|];
      assert e.name != last;
      assert b[j].path[|at|] == (at + [last])[|at|];
    }
  }

  /** A visited file is a file of the tree whose way down the walk can open and nothing ignores. */
  lemma {:induction false} WalkVisits(at: Path, node: Node, ignore: IgnoreSet, q: Path, data: Bytes)
    requires TreeOk(node)
    ensures Item(at + q, data) in Walk(at, node, ignore) <==> HasFile(node, q, data) && Reached(ignore, at, q)
    decreases node, 1
  {
    match node
    case File(d) =>
      assert at + q == at <==> q == [];
    case Dir(es) =>
      if q == [] {
        EntriesBelow(at, es, ignore);
        assert at + q == at;
      } else {
        EntriesVisit(at, es, ignore, q, data);
      }
  }

  lemma {:induction false} EntriesVisit(at: Path, es: seq<Entry>, ignore: IgnoreSet, q: Path, data: Bytes)
    requires TreeOk(Dir(es)) && q != []
    ensures Item(at + q, data) in WalkEntries(at, es, ignore) <==> HasFile(Dir(es), q, data) && Reached(ignore, at, q)
    decreases es, 0
  {
    if es != [] {
      var n := |es| - 1;
      assert TreeOk(Dir(es[..n])) && es[n] in es;
      EntriesVisit(at, es[..n], ignore, q, data);
      EntryVisits(at, es[n], ignore, q, data);
      HasFileLast(es, q, data);
    }
  }

  lemma {:induction false} EntryVisits(at: Path, e: Entry, ignore: IgnoreSet, q: Path, data: Bytes)
    requires TreeOk(e.node) && q != []
    ensures Visits(ignore, at + [e.name]) && Item(at + q, data) in Walk(at + [e.name], e.node, ignore)
            <==> e.name == q[0] && HasFile(e.node, q[1..], data) && Reached(ignore, at, q)
    decreases e.node, 2
  {
    ReachedHead(ignore, at, q);
    if q[0] == e.name {
      assert at + q == at + [e.name] + q[1..];
      if Visits(ignore, at + [e.name]) {
        WalkVisits(at + [e.name], e.node, ignore, q[1..], data);
      }
    } else if Visits(ignore, at + [e.name]) {
      WalkBelow(at + [e.name], e.node, ignore);
      assert (at + q)[|at|] != (at + [e.name])[|at|];
    }
  }

  lemma {:induction false} HasFileLast(es: seq<Entry>, q: Path, data: Bytes)
    requires es != [] && q != []
    ensures var n := |es| - 1;
      HasFile(Dir(es), q, data) <==>
      HasFile(Dir(es[..n]), q, data) || (es[n].name == q[0] && HasFile(es[n].node, q[1..], data))
  {
    var n := |es| - 1;
    assert es == es[..n] + [es[n]];
  }

  lemma {:induction false} ReachedHead(ignore: IgnoreSet, at: Path, q: Path)
    requires q != []
    ensures Reached(ignore, at, q) <==> Visits(ignore, at + [q[0]]) && Reached(ignore, at + [q[0]], q[1..])
  {
    assert q[..1] == [q[0]];
    forall k | 0 < k <= |q| - 1 ensures at + [q[0]] + q[1..][..k] == at + q[..k + 1] {
      assert [q[0]] + q[1..][..k] == q[..k + 1];
    }
    if Visits(ignore, at + [q[0]]) && Reached(ignore, at + [q[0]], q[1..]) {
      forall k | 0 < k <= |q| ensures Visits(ignore, at + q[..k]) {
        if k > 1 {
          assert at + [q[0]] + q[1..][..k - 1] == at + q[..k];
        }
      }
    }
  }

  /** Paths grow on the way down, so only the file's own length counts. */
  lemma {:induction false} ReachedIff(ignore: IgnoreSet, at: Path, q: Path)
    requires q != []
    ensures Reached(ignore, at, q) <==> Kept(ignore, at, q) && Opens(at + q)
  {
    assert q[..|q|] == q;
    if Opens(at + q) {
      forall k | 0 < k <= |q| ensures Opens(at + q[..k]) {
        OpensAbove(at + q, |at| + k);
        assert (at + q)[..|at| + k] == at + q[..k];
      }
    }
  }

  /** Visited paths are names that can be opened. */
  lemma {:induction false} WalkOpens(at: Path, node: Node, ignore: IgnoreSet)
    requires TreeOk(node) && IsNames(at) && Opens(at)
    ensures forall it | it in Walk(at, node, ignore) :: IsNames(it.path) && Opens(it.path)
    decreases node, 1
  {
    if node.Dir? {
      EntriesOpen(at, node.entries, ignore);
    }
  }

  lemma {:induction false} EntriesOpen(at: Path, es: seq<Entry>, ignore: IgnoreSet)
    requires TreeOk(Dir(es)) && IsNames(at)
    ensures forall it | it in WalkEntries(at, es, ignore) :: IsNames(it.path) && Opens(it.path)
    decreases es, 0
  {
    if es != [] {
      var n := |es| - 1;
      assert TreeOk(Dir(es[..n])) && es[n] in es;
      EntriesOpen(at, es[..n], ignore);
      if Visits(ignore, at + [es[n].name]) {
        WalkOpens(at + [es[n].name], es[n].node, ignore);
      }
    }
  }

  // ----- what a pattern ignores -----

  lemma {:induction false} JoinAt(q: Path, k: nat)
    requires 0 < k < |q|
    ensures Join(q, "/") == Join(q[..k], "/") + "/" + Join(q[k..], "/")
  {
    if k == 1 {
      assert q[..1] == [q[0]];
    } else {
      JoinAt(q[1..], k - 1);
      assert q[..k][1..] == q[1..][..k - 1] && q[1..][k - 1..] == q[k..];
      Regroup(q[0] + "/", Join(q[1..][..k - 1], "/"), "/", Join(q[k..], "/"));
    }
  }

  lemma {:induction false} SplitAppend(a: string, b: string)
    ensures Split(a + "/" + b, '/') == Split(a, '/') + Split(b, '/')
  {
    var s := a + "/" + b;
    if a == [] {
      assert s[1..] == b;
    } else {
      SplitAppend(a[1..], b);
      assert s[0] == a[0] && s[1..] == a[1..] + "/" + b;
      FirstPart(a[0], Split(a[1..], '/'), Split(b, '/'));
    }
  }

  lemma {:induction false} FirstPart(c: char, rest: seq<string>, more: seq<string>)
    requires rest != []
    ensures [[]] + (rest + more) == [[]] + rest + more
    ensures [[c] + (rest + more)[0]] + (rest + more)[1..] == [[c] + rest[0]] + rest[1..] + more
  {
    assert (rest + more)[0] == rest[0] && (rest + more)[1..] == rest[1..] + more;
  }

  /** The texts that stand before a slash of a path are its directories. */
  lemma {:induction false} DirsOfRel(s: string, q: Path)
    requires IsNames(q) && q != []
    ensures s + "/" <= Rel(q) <==> exists k :: 0 < k < |q| && s == Rel(q[..k])
  {
    if s + "/" <= Rel(q) {
      var t := Rel(q)[|s| + 1..];
      assert Rel(q) == s + "/" + t;
      SplitAppend(s, t);
      SplitNames(q);
      var k := |Split(s, '/')|;
      assert q[..k] == Split(s, '/');
      JoinOfSplit(s);
      assert s == Rel(q[..k]);
    }
    if k :| 0 < k < |q| && s == Rel(q[..k]) {
      JoinAt(q, k);
    }
  }

  lemma {:induction false} LastRune(q: Path)
    requires IsNames(q) && q != []
    ensures Rel(q) != [] && Rel(q)[|Rel(q)| - 1] != '/'
  {
    var n := q[|q| - 1];
    assert IsName(n) && n[|n| - 1] in n;
    if |q| > 1 {
      JoinAt(q, |q| - 1);
      assert q[|q| - 1..] == [n];
    }
  }

  lemma {:induction false} BaseOfRel(q: Path)
    requires IsNames(q) && q != []
    ensures Paths.Base(Rel(q)) == q[|q| - 1]
  {
    LastRune(q);
    SplitNames(q);
    NotADot(q);
  }

  /** The pattern ignores the path by itself: as a glob of the path or of its last name, or by naming it or a directory above it. */
  ghost predicate Hides(ignore: IgnoreSet, p: string, q: Path)
    requires q != []
  {
    ignore.glob(p, Rel(q)) || ignore.glob(p, q[|q| - 1]) || Names(p, q)
  }

  lemma {:induction false} TrimmedIs(p: string, s: string)
    requires s != [] && s[|s| - 1] != '/'
    ensures Trimmed(p) == s <==> p == s || p == s + "/"
  {
    assert p != "" && p[|p| - 1] == '/' ==> p == Trimmed(p) + "/";
    assert (s + "/")[..|s|] == s;
  }

  /** A pattern names the path or a directory above it. */
  ghost predicate Names(p: string, q: Path) {
    exists k :: 0 < k <= |q| && (p == Rel(q[..k]) || p == Rel(q[..k]) + "/")
  }

  lemma {:induction false} NamesIff(p: string, q: Path)
    requires IsNames(q) && q != []
    ensures Rel(q) == Trimmed(p) || Trimmed(p) + "/" <= Rel(q) <==> Names(p, q)
  {
    DirsOfRel(Trimmed(p), q);
    assert q[..|q|] == q;
    forall k | 0 < k <= |q| ensures Trimmed(p) == Rel(q[..k]) <==> p == Rel(q[..k]) || p == Rel(q[..k]) + "/" {
      assert IsNames(q[..k]);
      LastRune(q[..k]);
      TrimmedIs(p, Rel(q[..k]));
    }
  }

  lemma {:induction false} MatchOneIff(ignore: IgnoreSet, p: string, q: Path)
    requires IsNames(q) && q != []
    ensures MatchOne(ignore, p, Rel(q)) <==> Hides(ignore, p, q)
  {
    BaseOfRel(q);
    NamesIff(p, q);
  }

  /** A path is kept exactly when no pattern ignores it or a directory above it. */
  lemma {:induction false} KeptIff(ignore: IgnoreSet, q: Path)
    requires IsNames(q)
    ensures Kept(ignore, [], q) <==>
      forall i, k :: 0 <= i < |ignore.patterns| && 0 < k <= |q| ==> !Hides(ignore, ignore.patterns[i], q[..k])
  {
    forall k, p | 0 < k <= |q| ensures MatchOne(ignore, p, Rel([] + q[..k])) <==> Hides(ignore, p, q[..k]) {
      assert [] + q[..k] == q[..k] && IsNames(q[..k]);
      MatchOneIff(ignore, p, q[..k]);
    }
    if Kept(ignore, [], q) {
      forall i, k | 0 <= i < |ignore.patterns| && 0 < k <= |q| ensures !Hides(ignore, ignore.patterns[i], q[..k]) {
        assert !Match(ignore, Rel([] + q[..k]));
      }
    }
  }

  /** A pattern that names a directory, with or without a slash behind it, drops everything below it. */
  lemma {:induction false} DirectoryPattern(ignore: IgnoreSet, i: nat, d: Path, q: Path)
    requires i < |ignore.patterns| && d != [] && d <= q && IsNames(q)
    requires ignore.patterns[i] == Rel(d) || ignore.patterns[i] == Rel(d) + "/"
    ensures !Kept(ignore, [], q)
  {
    KeptIff(ignore, q);
    assert q[..|d|] == d && d[..|d|] == d;
    assert Names(ignore.patterns[i], d);
    assert Hides(ignore, ignore.patterns[i], q[..|d|]);
  }

  /** A glob of a name drops that name at any depth, and everything below it. */
  lemma {:induction false} NamePattern(ignore: IgnoreSet, i: nat, q: Path, k: nat)
    requires i < |ignore.patterns| && k < |q| && IsNames(q) && ignore.glob(ignore.patterns[i], q[k])
    ensures !Kept(ignore, [], q)
  {
    KeptIff(ignore, q);
    assert q[..k + 1][k] == q[k];
    assert Hides(ignore, ignore.patterns[i], q[..k + 1]);
  }
}
