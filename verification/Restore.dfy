/** Restoring an archive into a staging directory, and the round trip from tree to tree. */
module Restore {
  import opened Text
  import opened Jail
  import opened Archive
  import Paths

  /** A directory's contents: its files and the directories below it. */
  datatype Store = Store(files: map<Path, Bytes>, dirs: set<Path>)

  const EMPTY: Store := Store(map[], {})

  const MAX_RESTORE_ENTRIES: nat := 200_000
  const MAX_RESTORE_BYTES: nat := 50 * 1024 * 1024 * 1024

  // ----- file operations through the jail -----

  /** mkdirAllRelative on a resolved path: existing paths are left alone, missing ancestors come first. */
  function MkdirAll(st: Store, p: Path): (r: Outcome<Store>)
    decreases |p|
  {
    if p == [] || p in st.dirs || p in st.files then Ok(st)
    else
      var parent := p[..|p| - 1];
      var above := MkdirAll(st, parent);
      if above.Err? then above
      else if parent != [] && parent !in above.value.dirs then Err("not a directory")
      else Ok(above.value.(dirs := above.value.dirs + {p}))
  }

  function WriteFile(st: Store, rel: string, data: Bytes): Outcome<Store> {
    var p := Locate(rel);
    if p.Err? then Err(p.reason)
    else if p.value == [] || p.value in st.dirs then Err("is a directory")
    else if |p.value| > 1 && p.value[..|p.value| - 1] !in st.dirs then Err("not a directory")
    else Ok(st.(files := st.files[p.value := data]))
  }

  function MkdirAllRel(st: Store, rel: string): Outcome<Store> {
    var p := Locate(rel);
    if p.Err? then Err(p.reason) else MkdirAll(st, p.value)
  }

  /** One archive entry: directories and regular files are created, anything else is skipped. */
  function ExtractOne(st: Store, e: TarEntry): Outcome<Store> {
    match e
    case TarDir(name, _) => MkdirAllRel(st, name)
    case TarFile(name, data) =>
      var above := MkdirAllRel(st, Paths.Dir(name));
      if above.Err? then above else WriteFile(above.value, name, data)
    case TarOther(_, _) => Ok(st)
  }

  function Extract(st: Store, es: seq<TarEntry>): Outcome<Store> {
    if es == [] then Ok(st)
    else
      var before := Extract(st, es[..|es| - 1]);
      if before.Err? then before else ExtractOne(before.value, es[|es| - 1])
  }

  /** The size a header declares. */
  function EntrySize(e: TarEntry): int {
    if e.TarFile? then |e.data| else e.size
  }

  /** The declared sizes summed in 64 bits, as validation sums them. */
  function RunningTotal(es: seq<TarEntry>): int64 {
    if es == [] then 0 else Wrap64(RunningTotal(es[..|es| - 1]) + EntrySize(es[|es| - 1]))
  }

  /** Not too many headers, and the running total never above the limit. */
  predicate WithinLimits(es: seq<TarEntry>) {
    |es| <= MAX_RESTORE_ENTRIES && forall i :: 0 <= i <= |es| ==> RunningTotal(es[..i]) <= MAX_RESTORE_BYTES
  }

  /** validateRestoreArchive: stop at the first header that breaks a limit. */
  method ValidateRestoreArchive(es: seq<TarEntry>) returns (ok: bool)
    ensures ok == WithinLimits(es)
  {
    var entries: int, total: int64 := 0, 0;
    for i := 0 to |es|
      invariant entries == i && total == RunningTotal(es[..i])
      invariant entries <= MAX_RESTORE_ENTRIES && forall k :: 0 <= k <= i ==> RunningTotal(es[..k]) <= MAX_RESTORE_BYTES
    {
      entries := entries + 1;
      if entries > MAX_RESTORE_ENTRIES {
        return false;
      }
      assert es[..i + 1][..i] == es[..i];
      total := Wrap64(total + EntrySize(es[i]));
      if total > MAX_RESTORE_BYTES {
        assert RunningTotal(es[..i + 1]) > MAX_RESTORE_BYTES;
        return false;
      }
    }
    return true;
  }

  function TotalSize(es: seq<TarEntry>): int {
    if es == [] then 0 else TotalSize(es[..|es| - 1]) + EntrySize(es[|es| - 1])
  }

  /** Sizes far from the 64-bit edge. */
  predicate PlainSizes(es: seq<TarEntry>) {
    forall i :: 0 <= i < |es| ==> 0 <= EntrySize(es[i]) <= MAX_PLAIN_SIZE
  }

  const MAX_PLAIN_SIZE: int := 0x4000_0000_0000_0000

  /** When no sum can wrap, the limits are on the number of entries and on the sum of their sizes. */
  lemma {:induction false} LimitsAreTotals(es: seq<TarEntry>)
    requires PlainSizes(es)
    ensures WithinLimits(es) <==> |es| <= 200000 && TotalSize(es) <= 53687091200
  {
    assert es[..|es|] == es;
    if TotalSize(es) <= MAX_RESTORE_BYTES {
      forall i | 0 <= i <= |es| ensures RunningTotal(es[..i]) <= MAX_RESTORE_BYTES {
        TotalSizeGrows(es, i);
        TotalIsExact(es[..i]);
      }
    } else {
      PassesLimit(es);
    }
  }

  lemma {:induction false} TotalSizeGrows(es: seq<TarEntry>, i: nat)
    requires i <= |es| && PlainSizes(es)
    ensures 0 <= TotalSize(es[..i]) <= TotalSize(es)
  {
    if i == |es| {
      assert es[..i] == es;
      if i > 0 {
        TotalSizeGrows(es[..i - 1], 0);
      }
    } else {
      assert es[..|es| - 1][..i] == es[..i];
      TotalSizeGrows(es[..|es| - 1], i);
    }
  }

  lemma {:induction false} TotalIsExact(es: seq<TarEntry>)
    requires PlainSizes(es) && TotalSize(es) <= MAX_RESTORE_BYTES
    ensures RunningTotal(es) == TotalSize(es)
  {
    if es != [] {
      TotalSizeGrows(es, |es| - 1);
      TotalIsExact(es[..|es| - 1]);
    }
  }

  /** The first prefix over the limit is seen over the limit. */
  lemma {:induction false} PassesLimit(es: seq<TarEntry>)
    requires PlainSizes(es) && TotalSize(es) > MAX_RESTORE_BYTES
    ensures exists i :: 0 <= i <= |es| && RunningTotal(es[..i]) > MAX_RESTORE_BYTES
  {
    var init := es[..|es| - 1];
    assert es[..|es|] == es;
    if TotalSize(init) > MAX_RESTORE_BYTES {
      PassesLimit(init);
      var i :| 0 <= i <= |init| && RunningTotal(init[..i]) > MAX_RESTORE_BYTES;
      assert init[..i] == es[..i];
    } else {
      TotalSizeGrows(init, 0);
      TotalIsExact(init);
      assert RunningTotal(es[..|es|]) > MAX_RESTORE_BYTES;
    }
  }

  lemma {:induction false} ExtractErrs(st: Store, es: seq<TarEntry>, i: nat)
    requires i <= |es| && Extract(st, es[..i]).Err?
    ensures Extract(st, es).Err?
  {
    if i == |es| {
      assert es[..i] == es;
    } else {
      assert es[..|es| - 1][..i] == es[..i];
      ExtractErrs(st, es[..|es| - 1], i);
    }
  }

  /** Restore: validate every header before a byte is written, then extract onto what the destination holds. */
  method RestoreArchive(dest: Store, es: seq<TarEntry>) returns (r: Outcome<Store>)
    ensures r.Ok? <==> WithinLimits(es) && Extract(dest, es).Ok?
    ensures r.Ok? ==> r == Extract(dest, es)
  {
    var ok := ValidateRestoreArchive(es);
    if !ok {
      return Err("archive too large");
    }
    var st := dest;
    for i := 0 to |es|
      invariant Extract(dest, es[..i]) == Ok(st)
    {
      assert es[..i + 1][..i] == es[..i];
      var next := ExtractOne(st, es[i]);
      if next.Err? {
        ExtractErrs(dest, es, i + 1);
        return Err(next.reason);
      }
      st := next.value;
    }
    assert es[..|es|] == es;
    return Ok(st);
  }

  // ----- mkdirAll makes every prefix exist -----

  ghost predicate Closed(st: Store) {
    forall d :: d in st.dirs && |d| > 1 ==> d[..|d| - 1] in st.dirs
  }

  /** `q` is a non-empty prefix of `p`. */
  predicate Above(q: Path, p: Path) {
    q != [] && q <= p
  }

  /** With no file in the way, mkdirAll succeeds, adds exactly the missing prefixes and touches no file. */
  lemma {:induction false} MkdirAllMakesPrefixes(st: Store, p: Path)
    requires Closed(st) && forall q :: Above(q, p) ==> q !in st.files
    ensures MkdirAll(st, p).Ok?
    ensures var st' := MkdirAll(st, p).value;
      Closed(st') && st'.files == st.files && forall q :: q in st'.dirs <==> q in st.dirs || Above(q, p)
    decreases |p|
  {
    if p != [] {
      assert Above(p, p);
      var parent := p[..|p| - 1];
      PrefixesOf(p);
      MkdirAllMakesPrefixes(st, parent);
      if p in st.dirs {
        DirPrefixes(st, p);
      } else {
        assert parent != [] ==> Above(parent, parent);
      }
    }
  }

  /** Files stand in directories and are not directories themselves. */
  ghost predicate WellPlaced(st: Store) {
    && Closed(st)
    && forall f :: f in st.files ==> f !in st.dirs && (|f| > 1 ==> f[..|f| - 1] in st.dirs)
  }

  /** mkdirAll succeeds exactly when no proper prefix is a file, and then every prefix exists; a failure changes nothing. */
  lemma {:induction false} MkdirAllExact(st: Store, p: Path)
    requires WellPlaced(st)
    ensures MkdirAll(st, p).Ok? <==> forall q :: Above(q, p) && q != p ==> q !in st.files
    ensures MkdirAll(st, p).Ok? ==>
      forall q :: Above(q, p) ==> q in MkdirAll(st, p).value.dirs || q in st.files
    decreases |p|
  {
    if p == [] {
      assert forall q :: !Above(q, p);
    } else if p in st.files {
      PrefixesOf(p);
      if |p| > 1 {
        DirPrefixes(st, p[..|p| - 1]);
      }
    } else if exists q :: Above(q, p) && q in st.files {
      PrefixesOf(p);
      var parent := p[..|p| - 1];
      MkdirAllExact(st, parent);
      var q :| Above(q, p) && q in st.files;
      assert Above(q, parent);
      if p in st.dirs {
        DirPrefixes(st, p);
      }
      if q == parent {
        assert MkdirAll(st, parent) == Ok(st);
      }
    } else {
      MkdirAllMakesPrefixes(st, p);
    }
  }

  lemma {:induction false} PrefixesOf(p: Path)
    requires p != []
    ensures forall q :: Above(q, p) <==> Above(q, p[..|p| - 1]) || q == p
  {
    forall q ensures Above(q, p) <==> Above(q, p[..|p| - 1]) || q == p {
      if Above(q, p) && q != p {
        assert |q| < |p| ==> q == p[..|p| - 1][..|q|];
      }
    }
  }

  lemma {:induction false} DirPrefixes(st: Store, p: Path)
    requires Closed(st) && p in st.dirs
    ensures forall q :: Above(q, p) ==> q in st.dirs
    decreases |p|
  {
    if p != [] {
      PrefixesOf(p);
      if |p| > 1 {
        DirPrefixes(st, p[..|p| - 1]);
      }
    }
  }

  // ----- extracting what a walk wrote -----

  lemma {:induction false} DirOfRel(p: Path)
    requires IsNames(p) && p != []
    ensures Paths.Dir(Rel(p)) == Rel(p[..|p| - 1])
  {
    var init := p[..|p| - 1];
    SplitJoin(p);
    if init != [] {
      var s := Join(init, "/") + "/";
      JoinSnoc(init, "");
      assert s == Join(init, "/") + "/" + "";
      SplitJoin(init + [""]);
      PlainStack(init);
      NotADot(init);
      FirstRune(init);
    }
  }

  lemma {:induction false} PlainStack(p: Path)
    requires IsNames(p)
    ensures Paths.Resolve(false, p + [""]) == p && Paths.Resolve(false, p) == p
  {
    assert (p + [""])[..|p|] == p;
    if p != [] {
      PlainStack(p[..|p| - 1]);
      assert p == p[..|p| - 1] + [p[|p| - 1]];
    }
  }

  lemma {:induction false} FirstRune(p: Path)
    requires IsNames(p) && p != []
    ensures Join(p, "/") != [] && (Join(p, "/") + "/")[0] != '/'
  {
    assert p[0] != [] && p[0][0] in p[0];
    assert Join(p, "/")[0] == p[0][0];
  }

  lemma {:induction false} ParentLocated(p: Path)
    requires IsNames(p) && p != [] && Opens(p)
    ensures Locate(Rel(p)) == Ok(p) && Locate(Paths.Dir(Rel(p))) == Ok(p[..|p| - 1])
  {
    LocateNames(p);
    DirOfRel(p);
    OpensAbove(p, |p| - 1);
    LocateNames(p[..|p| - 1]);
  }

  /** The item's place is no directory and no file stands where one of its directories should be. */
  ghost predicate Fits(base: Store, p: Path) {
    p !in base.dirs && forall q :: Above(q, p) && q != p ==> q !in base.files
  }

  ghost predicate AllFit(base: Store, items: seq<Item>) {
    forall i :: 0 <= i < |items| ==> Fits(base, items[i].path)
  }

  /** The store is the base with these items written over it, and the directories on the way to them. */
  ghost predicate Holds(base: Store, st: Store, items: seq<Item>) {
    && WellPlaced(st)
    && FilesOf(base, st.files, items)
    && DirsOf(base, st.dirs, items)
  }

  ghost predicate FilesOf(base: Store, files: map<Path, Bytes>, items: seq<Item>) {
    && (forall q :: q in files <==> q in base.files || HasPath(items, q))
    && (forall i :: 0 <= i < |items| ==> items[i].path in files && files[items[i].path] == items[i].data)
    && (forall q :: q in base.files && !HasPath(items, q) ==> files[q] == base.files[q])
  }

  ghost predicate HasPath(items: seq<Item>, q: Path) {
    exists i :: 0 <= i < |items| && items[i].path == q
  }

  ghost predicate DirsOf(base: Store, dirs: set<Path>, items: seq<Item>) {
    forall d :: d in dirs <==> d in base.dirs || Leads(items, d)
  }

  /** A directory on the way to one of the items. */
  ghost predicate Leads(items: seq<Item>, d: Path) {
    exists i :: 0 <= i < |items| && Above(d, items[i].path) && d != items[i].path
  }

  lemma {:induction false} PathsNext(items: seq<Item>, it: Item)
    ensures forall q :: HasPath(items + [it], q) <==> HasPath(items, q) || q == it.path
    ensures forall d :: Leads(items + [it], d) <==> Leads(items, d) || (Above(d, it.path) && d != it.path)
  {
    var all := items + [it];
    assert all[|items|] == it && forall i :: 0 <= i < |items| ==> all[i] == items[i];
    forall q ensures HasPath(all, q) <==> HasPath(items, q) || q == it.path {
      if HasPath(items, q) {
        var i :| 0 <= i < |items| && items[i].path == q;
        assert all[i].path == q;
      }
    }
    forall d ensures Leads(all, d) <==> Leads(items, d) || (Above(d, it.path) && d != it.path) {
      if Leads(items, d) {
        var i :| 0 <= i < |items| && Above(d, items[i].path) && d != items[i].path;
        assert Above(d, all[i].path);
      }
    }
  }

  /** What was already extracted is in the way of the next item only where the base was. */
  lemma {:induction false} FitsStill(base: Store, st: Store, items: seq<Item>, it: Item)
    requires Holds(base, st, items) && PrefixFree(items + [it])
    ensures Fits(base, it.path) <==> Fits(st, it.path)
    ensures !HasPath(items, it.path)
  {
    LastApart(items, it);
    assert forall q :: Above(q, it.path) ==> !HasPath(items, q);
    assert !Leads(items, it.path);
  }

  lemma {:induction false} LastApart(items: seq<Item>, it: Item)
    requires PrefixFree(items + [it])
    ensures forall i :: 0 <= i < |items| ==> !(items[i].path <= it.path) && !(it.path <= items[i].path)
  {
    var all := items + [it];
    assert all[|items|] == it && forall i :: 0 <= i < |items| ==> all[i] == items[i];
  }

  /** Writing one file: it succeeds exactly when it fits, and adds the file and its directories. */
  lemma {:induction false} ExtractFile(st: Store, p: Path, data: Bytes)
    requires WellPlaced(st) && IsNames(p) && p != [] && Opens(p)
    ensures var r := ExtractOne(st, TarFile(Rel(p), data));
      && (r.Ok? <==> Fits(st, p))
      && (r.Ok? ==> WellPlaced(r.value) && r.value.files == st.files[p := data])
      && (r.Ok? ==> forall d :: d in r.value.dirs <==> d in st.dirs || (Above(d, p) && d != p))
  {
    var parent := p[..|p| - 1];
    ParentLocated(p);
    PrefixesOf(p);
    assert |parent| < |p| && forall q :: Above(q, parent) ==> q != p;
    if Fits(st, p) {
      MkdirAllMakesPrefixes(st, parent);
      assert parent != [] ==> Above(parent, parent);
      PlacedStill(st, MkdirAll(st, parent).value, p, data);
    } else {
      DoesNotFit(st, p, data);
    }
  }

  lemma {:induction false} PlacedStill(st: Store, above: Store, p: Path, data: Bytes)
    requires WellPlaced(st) && p != [] && Fits(st, p)
    requires Closed(above) && above.files == st.files
    requires forall q :: q in above.dirs <==> q in st.dirs || Above(q, p[..|p| - 1])
    ensures WellPlaced(above.(files := above.files[p := data])) && p !in above.dirs
  {
    PrefixesOf(p);
    var parent := p[..|p| - 1];
    assert |p| > 1 ==> Above(parent, parent);
  }

  lemma {:induction false} DoesNotFit(st: Store, p: Path, data: Bytes)
    requires WellPlaced(st) && p != [] && !Fits(st, p)
    requires Locate(Rel(p)) == Ok(p) && Locate(Paths.Dir(Rel(p))) == Ok(p[..|p| - 1])
    ensures ExtractOne(st, TarFile(Rel(p), data)).Err?
  {
    var parent := p[..|p| - 1];
    PrefixesOf(p);
    if p in st.dirs {
      MkdirAllGrows(st, parent);
    } else {
      var q :| Above(q, p) && q != p && q in st.files;
      MkdirAllExact(st, parent);
      if q == parent {
        assert MkdirAll(st, parent) == Ok(st);
      }
    }
  }

  lemma {:induction false} MkdirAllGrows(st: Store, p: Path)
    ensures MkdirAll(st, p).Ok? ==> st.dirs <= MkdirAll(st, p).value.dirs
    decreases |p|
  {
    if p != [] {
      MkdirAllGrows(st, p[..|p| - 1]);
    }
  }

  lemma {:induction false} ExtractNext(base: Store, st: Store, items: seq<Item>, it: Item)
    requires Holds(base, st, items) && PrefixFree(items + [it]) && it.path != []
    requires IsNames(it.path) && Opens(it.path)
    ensures var r := ExtractOne(st, TarFile(Rel(it.path), it.data));
      (r.Ok? <==> Fits(base, it.path)) && (r.Ok? ==> Holds(base, r.value, items + [it]))
  {
    FitsStill(base, st, items, it);
    ExtractFile(st, it.path, it.data);
    PathsNext(items, it);
    var r := ExtractOne(st, TarFile(Rel(it.path), it.data));
    if r.Ok? {
      FilesNext(base, st.files, items, it);
      assert DirsOf(base, r.value.dirs, items + [it]);
    }
  }

  lemma {:induction false} FilesNext(base: Store, files: map<Path, Bytes>, items: seq<Item>, it: Item)
    requires FilesOf(base, files, items) && !HasPath(items, it.path)
    ensures FilesOf(base, files[it.path := it.data], items + [it])
  {
    PathsNext(items, it);
    var all, files' := items + [it], files[it.path := it.data];
    forall i | 0 <= i < |all| ensures all[i].path in files' && files'[all[i].path] == all[i].data {
      if i < |items| {
        assert all[i] == items[i] && HasPath(items, items[i].path);
      }
    }
  }

  ghost predicate Writable(items: seq<Item>) {
    PrefixFree(items) && forall it | it in items :: it.path != [] && IsNames(it.path) && Opens(it.path)
  }

  /** Extraction onto any directory succeeds exactly when every file fits, and writes exactly the files. */
  lemma {:induction false} ExtractItems(base: Store, items: seq<Item>)
    requires WellPlaced(base) && Writable(items)
    ensures Extract(base, ToTar(items)).Ok? <==> AllFit(base, items)
    ensures Extract(base, ToTar(items)).Ok? ==> Holds(base, Extract(base, ToTar(items)).value, items)
  {
    if items == [] {
      HoldsNothing(base);
    } else {
      var init, last := items[..|items| - 1], items[|items| - 1];
      assert items == init + [last];
      WritableInit(init, last);
      ExtractItems(base, init);
      ExtractSnoc(base, init, last);
      FitSnoc(base, init, last);
      if AllFit(base, init) {
        ExtractNext(base, Extract(base, ToTar(init)).value, init, last);
      }
    }
  }

  lemma {:induction false} HoldsNothing(base: Store)
    requires WellPlaced(base)
    ensures Holds(base, base, [])
  {
    assert forall q :: !HasPath([], q) && !Leads([], q);
  }

  lemma {:induction false} WritableInit(init: seq<Item>, last: Item)
    requires Writable(init + [last])
    ensures Writable(init) && last.path != [] && IsNames(last.path) && Opens(last.path)
  {
    var all := init + [last];
    assert all[|init|] == last && last in all && forall i :: 0 <= i < |init| ==> all[i] == init[i] && init[i] in all;
  }

  lemma {:induction false} ExtractSnoc(base: Store, init: seq<Item>, last: Item)
    ensures Extract(base, ToTar(init + [last])) ==
      var before := Extract(base, ToTar(init));
      if before.Err? then before else ExtractOne(before.value, TarFile(Rel(last.path), last.data))
  {
    var tar := ToTar(init + [last]);
    assert tar[..|tar| - 1] == ToTar(init) && tar[|tar| - 1] == TarFile(Rel(last.path), last.data);
  }

  lemma {:induction false} FitSnoc(base: Store, init: seq<Item>, last: Item)
    ensures AllFit(base, init + [last]) <==> AllFit(base, init) && Fits(base, last.path)
  {
    var all := init + [last];
    assert all[|init|] == last && forall i :: 0 <= i < |init| ==> all[i] == init[i];
  }

  // ----- from tree to tree -----

  /** The files of the tree that a backup keeps. */
  ghost predicate Backed(es: seq<Entry>, ignore: IgnoreSet, q: Path, data: Bytes) {
    HasFile(Dir(es), q, data) && Kept(ignore, [], q) && Opens(q)
  }

  lemma {:induction false} WalkIsBacked(es: seq<Entry>, ignore: IgnoreSet)
    requires TreeOk(Dir(es))
    ensures Writable(WalkEntries([], es, ignore))
    ensures forall q, data :: Item(q, data) in WalkEntries([], es, ignore) <==> Backed(es, ignore, q, data)
  {
    EntriesBelow([], es, ignore);
    EntriesPrefixFree([], es, ignore);
    EntriesOpen([], es, ignore);
    forall q, data ensures Item(q, data) in WalkEntries([], es, ignore) <==> Backed(es, ignore, q, data) {
      WalkVisits([], Dir(es), ignore, q, data);
      assert [] + q == q;
      if q != [] {
        ReachedIff(ignore, [], q);
      }
    }
  }

  /**
   Restoring a backup of any tree onto any directory succeeds exactly when no file or directory there is in the
   way of a backed-up file, and then the backed-up files stand there byte for byte and the other files are
   untouched.
   */
  lemma {:induction false} BackupRestores(base: Store, es: seq<Entry>, ignore: IgnoreSet)
    requires TreeOk(Dir(es)) && WellPlaced(base)
    ensures var r := Extract(base, ToTar(WalkEntries([], es, ignore)));
      && (r.Ok? <==> forall q, data :: Backed(es, ignore, q, data) ==> Fits(base, q))
      && (r.Ok? ==> forall q, data :: Backed(es, ignore, q, data) ==> q in r.value.files && r.value.files[q] == data)
      && (r.Ok? ==> forall q :: q in r.value.files && (forall data :: !Backed(es, ignore, q, data)) ==>
            q in base.files && r.value.files[q] == base.files[q])
      && (r.Ok? ==> forall q :: q in base.files ==> q in r.value.files)
  {
    var items := WalkEntries([], es, ignore);
    WalkIsBacked(es, ignore);
    ExtractItems(base, items);
    FitIsBacked(base, es, ignore, items);
    var r := Extract(base, ToTar(items));
    if r.Ok? {
      forall q, data | Backed(es, ignore, q, data) ensures q in r.value.files && r.value.files[q] == data {
        assert Item(q, data) in items;
      }
      forall q | q in r.value.files && (forall data :: !Backed(es, ignore, q, data))
        ensures q in base.files && r.value.files[q] == base.files[q]
      {
        PathIsBacked(es, ignore, items, q);
      }
    }
  }

  lemma {:induction false} PathIsBacked(es: seq<Entry>, ignore: IgnoreSet, items: seq<Item>, q: Path)
    requires forall q, data :: Item(q, data) in items <==> Backed(es, ignore, q, data)
    ensures HasPath(items, q) ==> exists data :: Backed(es, ignore, q, data)
  {
    if HasPath(items, q) {
      var i :| 0 <= i < |items| && items[i].path == q;
      assert Item(q, items[i].data) in items;
    }
  }

  lemma {:induction false} FitIsBacked(base: Store, es: seq<Entry>, ignore: IgnoreSet, items: seq<Item>)
    requires forall q, data :: Item(q, data) in items <==> Backed(es, ignore, q, data)
    ensures AllFit(base, items) <==> forall q, data :: Backed(es, ignore, q, data) ==> Fits(base, q)
  {
    if AllFit(base, items) {
      forall q, data | Backed(es, ignore, q, data) ensures Fits(base, q) {
        assert Item(q, data) in items;
      }
    } else {
      var i :| 0 <= i < |items| && !Fits(base, items[i].path);
      assert Item(items[i].path, items[i].data) in items;
    }
  }

  /** Into an empty directory nothing is in the way, so the kept files come back and no others. */
  lemma {:induction false} FreshRestore(es: seq<Entry>, ignore: IgnoreSet)
    requires TreeOk(Dir(es))
    ensures var r := Extract(EMPTY, ToTar(WalkEntries([], es, ignore)));
      r.Ok? && forall q, data :: q in r.value.files && r.value.files[q] == data <==> Backed(es, ignore, q, data)
  {
    BackupRestores(EMPTY, es, ignore);
  }

  /** Without patterns the whole tree survives if and only if each of its files has a path short enough to open. */
  lemma {:induction false} FullBackupRestores(es: seq<Entry>, glob: (string, string) -> bool)
    requires TreeOk(Dir(es))
    ensures var r := Extract(EMPTY, ToTar(WalkEntries([], es, IgnoreSet([], glob))));
      && r.Ok?
      && ((forall q, data :: q in r.value.files && r.value.files[q] == data <==> HasFile(Dir(es), q, data))
          <==> forall q, data :: HasFile(Dir(es), q, data) ==> Opens(q))
  {
    var ignore := IgnoreSet([], glob);
    FreshRestore(es, ignore);
    forall q, data ensures Backed(es, ignore, q, data) <==> HasFile(Dir(es), q, data) && Opens(q) {
      NothingIgnored(es, glob, q, data);
    }
    WholeIff(es, ignore, Extract(EMPTY, ToTar(WalkEntries([], es, ignore))).value.files);
  }

  lemma {:induction false} NothingIgnored(es: seq<Entry>, glob: (string, string) -> bool, q: Path, data: Bytes)
    ensures Backed(es, IgnoreSet([], glob), q, data) <==> HasFile(Dir(es), q, data) && Opens(q)
  {
  }

  lemma {:induction false} WholeIff(es: seq<Entry>, ignore: IgnoreSet, files: map<Path, Bytes>)
    requires forall q, data :: Backed(es, ignore, q, data) <==> HasFile(Dir(es), q, data) && Opens(q)
    requires forall q, data :: q in files && files[q] == data <==> Backed(es, ignore, q, data)
    ensures (forall q, data :: q in files && files[q] == data <==> HasFile(Dir(es), q, data))
            <==> forall q, data :: HasFile(Dir(es), q, data) ==> Opens(q)
  {
    forall q, data ensures q in files && files[q] == data <==> HasFile(Dir(es), q, data) && Opens(q) {
      assert Backed(es, ignore, q, data) <==> HasFile(Dir(es), q, data) && Opens(q);
    }
  }

  // ----- a file that does not survive -----

  /** `n` nested directories named `a` around one file. */
  function Deep(n: nat): Node {
    if n == 0 then File("x") else Dir([Entry("a", Deep(n - 1))])
  }

  function DeepPath(n: nat): Path {
    if n == 0 then [] else DeepPath(n - 1) + ["a"]
  }

  lemma {:induction false} DeepTree(n: nat)
    ensures TreeOk(Deep(n)) && HasFile(Deep(n), DeepPath(n), "x")
  {
    if n > 0 {
      DeepTree(n - 1);
      DeepFront(n);
      assert IsName("a") by {
        assert Utf8Len("a") == 1;
      }
      assert Entry("a", Deep(n - 1)) in [Entry("a", Deep(n - 1))];
    }
  }

  lemma {:induction false} DeepFront(n: nat)
    requires n > 0
    ensures DeepPath(n) == ["a"] + DeepPath(n - 1)
  {
    if n > 1 {
      DeepFront(n - 1);
    }
  }

  lemma {:induction false} DeepLength(n: nat)
    requires n > 0
    ensures DeepPath(n) != [] && Utf8Len(Rel(DeepPath(n))) == 2 * n - 1
  {
    assert Utf8Len("a") == 1;
    if n == 1 {
      assert DeepPath(1) == ["a"];
    } else {
      DeepLength(n - 1);
      JoinSnocFacts(DeepPath(n - 1), "a");
    }
  }

  /** From 2049 levels on, and not before, the file is missing from the backup, which succeeds all the same. */
  lemma {:induction false} DeepFileIsLost(n: nat, glob: (string, string) -> bool)
    requires n > 0
    ensures var es := Deep(n).entries;
      && TreeOk(Dir(es)) && HasFile(Dir(es), DeepPath(n), "x")
      && var r := Extract(EMPTY, ToTar(WalkEntries([], es, IgnoreSet([], glob))));
         r.Ok? && (DeepPath(n) in r.value.files <==> n <= 2048)
  {
    var es := Deep(n).entries;
    DeepTree(n);
    DeepLength(n);
    BackedIffOpens(es, glob, DeepPath(n), "x");
  }

  lemma {:induction false} BackedIffOpens(es: seq<Entry>, glob: (string, string) -> bool, q: Path, data: Bytes)
    requires TreeOk(Dir(es)) && HasFile(Dir(es), q, data)
    ensures var r := Extract(EMPTY, ToTar(WalkEntries([], es, IgnoreSet([], glob))));
      r.Ok? && (q in r.value.files <==> Opens(q))
  {
    var ignore := IgnoreSet([], glob);
    FreshRestore(es, ignore);
    NothingIgnored(es, glob, q, data);
    var files := Extract(EMPTY, ToTar(WalkEntries([], es, ignore))).value.files;
    assert q in files ==> Backed(es, ignore, q, files[q]);
  }

  // ----- the other kinds of entries -----

  /** Entries that are neither files nor directories are skipped, wherever they stand. */
  lemma {:induction false} OthersAreSkipped(st: Store, es: seq<TarEntry>, name: string, size: int64)
    ensures Extract(st, es + [TarOther(name, size)]) == Extract(st, es)
  {
    var all := es + [TarOther(name, size)];
    assert all[..|all| - 1] == es;
  }

  /** A directory entry is made with everything above it unless a file stands above it, and changes no file. */
  lemma {:induction false} DirectoriesAreMade(st: Store, p: Path, size: int64)
    requires WellPlaced(st) && IsNames(p)
    ensures var r := ExtractOne(st, TarDir(Rel(p), size));
      && (r.Ok? <==> Opens(p) && forall q :: Above(q, p) && q != p ==> q !in st.files)
      && (r.Ok? && p !in st.files ==>
            r.value.files == st.files && forall q :: q in r.value.dirs <==> q in st.dirs || Above(q, p))
  {
    LocateNames(p);
    MkdirAllExact(st, p);
    if Opens(p) && p !in st.files && forall q :: Above(q, p) && q != p ==> q !in st.files {
      MkdirAllMakesPrefixes(st, p);
    }
  }
}
