/**
 The modpack installation: back up, install, start, wait for the boot, and put the old files back on failure.

 Everything outside the agent is an argument: download and Docker outcomes, the state a boot ends in, and
 what the running game writes into the live directory before it is killed.
 */
module ModpackInstall {
  import opened Text
  import opened Jail
  import opened Archive
  import opened Restore
  import opened DataSwap

  datatype Report =
    | Downloading | Installing | Configuring | RollingBack
    | Completed
    | FailedWithoutBackup
    | FailedAndNotRestored
    | FailedAndRestored

  predicate IsFinal(r: Report) {
    r.Completed? || r.FailedWithoutBackup? || r.FailedAndNotRestored? || r.FailedAndRestored?
  }

  /** Progress reports, then exactly one final report. */
  ghost predicate EndsOnce(reports: seq<Report>) {
    && |reports| > 0 && IsFinal(reports[|reports| - 1])
    && forall i :: 0 <= i < |reports| - 1 ==> !IsFinal(reports[i])
  }

  ghost predicate NeverEnds(reports: seq<Report>) {
    forall i :: 0 <= i < |reports| ==> !IsFinal(reports[i])
  }

  /** The outcomes of one run; `prepareFails` is a backup that fails before it walks the tree. */
  datatype Run = Run(
    prepareFails: bool, backupFails: bool,
    stopped: bool, built: Outcome<Store>, swap: Script, progress: nat,
    startFails: bool, boots: bool, written: Store,
    stoppedAfterKill: bool, restoreFails: bool, restore: Script)

  /** The directory's files are the tree's files. */
  ghost predicate Represents(es: seq<Entry>, st: Store) {
    forall q, data :: q in st.files && st.files[q] == data <==> HasFile(Dir(es), q, data)
  }

  /** How a restore ends, and the handle it leaves when it fails. */
  datatype RestoreResult = Restored | NotRestored(jail: JailHandle) | Panicked

  /** What clearing a directory leaves in it; a failed clean-up is ignored. */
  function LeftIn(d: Volume, name: string, r: Removal): Store {
    if name in d && r.left.Some? then r.left.value else EMPTY
  }

  /** What the restore's staging directory holds when extraction starts. */
  function Leftovers(d: Volume, uuid: string, run: Run): Store {
    LeftIn(d, RestoreNames(uuid).staging, run.restore.cleanStaging)
  }

  /** How a restore ends, `taken` saying whether the archive extracts onto the leftovers. */
  function RestoreOutcome(d: Volume, uuid: string, taken: bool, jail: JailHandle, run: Run): RestoreResult {
    if !run.stoppedAfterKill || run.restoreFails || !taken then NotRestored(jail)
    else if jail.Missing? then Panicked
    else
      match SwapOutcome(AsideCleared(d, RestoreNames(uuid), run.restore), ClosedFirst(run.restore, jail), false)
      case Swapped => Restored
      case Failed(left) => NotRestored(left)
  }

  /** Closing a handle that is already closed fails. */
  function ClosedFirst(s: Script, jail: JailHandle): Script {
    s.(closeFails := s.closeFails || jail.Closed?)
  }

  predicate Takes(left: Store, archive: seq<TarEntry>) {
    WithinLimits(archive) && Extract(left, archive).Ok?
  }

  /** Restore: refuse a running server, extract onto what staging still holds, then close the jail and swap. */
  method RestoreBackup(d0: Volume, uuid: string, archive: seq<TarEntry>, jail: JailHandle, run: Run)
      returns (r: RestoreResult, d: Volume)
    requires uuid !in d0 ==> jail == Missing
    ensures r == RestoreOutcome(d0, uuid, Takes(Leftovers(d0, uuid, run), archive), jail, run)
    ensures r.Restored? ==> uuid in d && Ok(d[uuid]) == Extract(Leftovers(d0, uuid, run), archive)
  {
    if !run.stoppedAfterKill {
      return NotRestored(jail), d0;
    }
    NamesDistinct(uuid);
    var n := RestoreNames(uuid);
    var staged := RestoreArchive(Leftovers(d0, uuid, run), archive);
    if run.restoreFails && staged.Ok? {
      staged := Err("restoring backup");
    }
    var seen;
    if jail.Missing? {
      // The staging work is done before the missing handle is touched.
      d, seen := RemoveAll(d0, n.staging, run.restore.cleanStaging);
      d, seen := RemoveAll(d, n.aside, run.restore.cleanOld);
      return if staged.Ok? then Panicked else NotRestored(jail), d;
    }
    var swapped;
    swapped, d, seen := Replace(d0, n, staged, ClosedFirst(run.restore, jail), false);
    r := if swapped.Swapped? then Restored else NotRestored(if staged.Err? then jail else swapped.jail);
  }

  // ----- what a restore brings back -----

  /** The files whose paths a backup can open. */
  function Opened(files: map<Path, Bytes>): map<Path, Bytes> {
    map q | q in files && Opens(q) :: files[q]
  }

  /** Nothing left in staging is in the way of a backed-up file. */
  ghost predicate MakesWay(left: Store, files: map<Path, Bytes>) {
    forall q :: q in Opened(files) ==> Fits(left, q)
  }

  function WholeArchive(es: seq<Entry>, glob: (string, string) -> bool): seq<TarEntry> {
    ToTar(WalkEntries([], es, IgnoreSet([], glob)))
  }

  /** The archive of the live directory, extracted onto leftovers: the leftovers with the backed-up files over them. */
  lemma {:induction false} RestoredFiles(left: Store, es: seq<Entry>, live: Store, glob: (string, string) -> bool)
    requires TreeOk(Dir(es)) && Represents(es, live) && WellPlaced(left)
    ensures var r := Extract(left, WholeArchive(es, glob));
      (r.Ok? <==> MakesWay(left, live.files)) && (r.Ok? ==> r.value.files == left.files + Opened(live.files))
  {
    var ignore := IgnoreSet([], glob);
    BackupRestores(left, es, ignore);
    forall q, data ensures Backed(es, ignore, q, data) <==> q in Opened(live.files) && live.files[q] == data {
      NothingIgnored(es, glob, q, data);
      assert q in live.files && live.files[q] == data <==> HasFile(Dir(es), q, data);
    }
    WaysAgree(left, es, ignore, live.files);
    var r := Extract(left, WholeArchive(es, glob));
    if r.Ok? {
      OverLeftovers(left.files, es, ignore, live.files, r.value.files);
    }
  }

  lemma {:induction false} WaysAgree(left: Store, es: seq<Entry>, ignore: IgnoreSet, files: map<Path, Bytes>)
    requires forall q, data :: Backed(es, ignore, q, data) <==> q in Opened(files) && files[q] == data
    ensures MakesWay(left, files) <==> forall q, data :: Backed(es, ignore, q, data) ==> Fits(left, q)
  {
    if forall q, data :: Backed(es, ignore, q, data) ==> Fits(left, q) {
      forall q | q in Opened(files) ensures Fits(left, q) {
        assert Backed(es, ignore, q, files[q]);
      }
    }
  }

  lemma {:induction false} OverLeftovers(left: map<Path, Bytes>, es: seq<Entry>, ignore: IgnoreSet,
                                         files: map<Path, Bytes>, after: map<Path, Bytes>)
    requires forall q, data :: Backed(es, ignore, q, data) <==> q in Opened(files) && files[q] == data
    requires forall q, data :: Backed(es, ignore, q, data) ==> q in after && after[q] == data
    requires forall q :: q in after && (forall data :: !Backed(es, ignore, q, data)) ==> q in left && after[q] == left[q]
    requires forall q :: q in left ==> q in after
    ensures after == left + Opened(files)
  {
    var both := left + Opened(files);
    forall q ensures q in both ==> q in after && after[q] == both[q] {
      if q in Opened(files) {
        assert Backed(es, ignore, q, files[q]);
      }
    }
    forall q | q in after ensures q in both {
      if q !in Opened(files) {
        assert forall data :: !Backed(es, ignore, q, data);
      }
    }
  }

  /**
   The restored files are the previous ones if and only if staging kept no file of its own, and every previous
   file can be opened by a backup or was left in staging unchanged.
   */
  lemma {:induction false} RestoredExactly(left: map<Path, Bytes>, files: map<Path, Bytes>)
    ensures left + Opened(files) == files <==>
      && (forall q :: q in left ==> q in files)
      && (forall q :: q in files ==> Opens(q) || (q in left && left[q] == files[q]))
  {
    var both := left + Opened(files);
    forall q | q in files ensures q in both && both[q] == files[q] <==> Opens(q) || (q in left && left[q] == files[q]) {
      assert q in Opened(files) <==> Opens(q);
    }
    if (forall q :: q in left ==> q in files) && forall q :: q in files ==> Opens(q) || (q in left && left[q] == files[q]) {
      assert both.Keys == files.Keys;
    }
  }

  datatype BackupResult = BackedUp(archive: seq<TarEntry>) | NoBackup | NoHandle

  /** The safety backup: the archive of everything the walk can open. It fails on a closed handle and dies without one. */
  method BackUp(es: seq<Entry>, glob: (string, string) -> bool, jail: JailHandle, run: Run) returns (r: BackupResult)
    requires jail.Open? ==> TreeOk(Dir(es))
    ensures r.NoHandle? <==> jail.Missing? && !run.prepareFails
    ensures r.BackedUp? <==> BacksUp(jail, run)
    ensures r.BackedUp? ==> r.archive == WholeArchive(es, glob)
  {
    if run.prepareFails {
      return NoBackup;
    }
    if jail.Missing? {
      return NoHandle;
    }
    if jail.Closed? {
      return NoBackup;
    }
    var tar := WalkAndTar([], ".", [], es, IgnoreSet([], glob));
    assert tar == WholeArchive(es, glob);
    return if run.backupFails then NoBackup else BackedUp(tar);
  }

  predicate BacksUp(jail: JailHandle, run: Run) {
    jail.Open? && !run.prepareFails && !run.backupFails
  }

  // ----- the installation -----

  /** The data replacement goes through. */
  predicate Installs(d0: Volume, uuid: string, run: Run) {
    && run.stopped && run.built.Ok?
    && SwapOutcome(AsideCleared(d0, ModpackNames(uuid), run.swap), run.swap, true).Swapped?
  }

  /** The handle the installation leaves behind. */
  function JailAfter(d0: Volume, uuid: string, run: Run): JailHandle {
    if !run.stopped || run.built.Err? then Open
    else
      match SwapOutcome(AsideCleared(d0, ModpackNames(uuid), run.swap), run.swap, true)
      case Swapped => Open
      case Failed(jail) => jail
  }

  predicate Boots(d0: Volume, uuid: string, run: Run) {
    Installs(d0, uuid, run) && !run.startFails && run.boots
  }

  /** The siblings of a restore are not those of an installation. */
  ghost predicate SameSiblings(d0: Volume, d: Volume, uuid: string) {
    var n := RestoreNames(uuid);
    (n.staging in d <==> n.staging in d0) && (n.aside in d <==> n.aside in d0)
  }

  lemma {:induction false} SiblingsApart(d0: Volume, d: Volume, uuid: string, built: Outcome<Store>)
    requires uuid in d0 && Safe(d0, d, ModpackNames(uuid), built)
    ensures SameSiblings(d0, d, uuid)
  {
    var r, m := RestoreNames(uuid), ModpackNames(uuid);
    NamesDistinct(uuid);
    assert r.staging[|uuid| + 1] == 'r' && r.aside[|uuid| + 1] == 'r';
    assert m.staging[|uuid| + 1] == 'm' && m.aside[|uuid| + 1] == 'm';
  }

  /** A restore depends on its own two siblings only. */
  lemma {:induction false} SameRestore(d0: Volume, d: Volume, uuid: string, archive: seq<TarEntry>, jail: JailHandle, run: Run)
    requires SameSiblings(d0, d, uuid)
    ensures Leftovers(d, uuid, run) == Leftovers(d0, uuid, run)
    ensures forall taken :: RestoreOutcome(d, uuid, taken, jail, run) == RestoreOutcome(d0, uuid, taken, jail, run)
  {
  }

  /** Installing with an open handle: refused unless stopped, otherwise a data replacement that reopens the jail when it fails. */
  method Install(d0: Volume, uuid: string, run: Run) returns (installed: bool, jail: JailHandle, d: Volume)
    requires uuid in d0
    ensures installed == Installs(d0, uuid, run) && jail == JailAfter(d0, uuid, run)
    ensures installed ==> uuid in d && d[uuid] == run.built.value
    ensures uuid !in d ==> jail == Missing
    ensures SameSiblings(d0, d, uuid)
  {
    if !run.stopped {
      return false, Open, d0;
    }
    NamesDistinct(uuid);
    var seen;
    var swapped;
    swapped, d, seen := Replace(d0, ModpackNames(uuid), run.built, run.swap, true);
    SiblingsApart(d0, seen[|seen| - 1], uuid, run.built);
    return swapped.Swapped?, if swapped.Swapped? then Open else swapped.jail, d;
  }

  /** The handle after a restore that started with `jail`. */
  function HandleOf(r: RestoreResult, jail: JailHandle): JailHandle {
    match r
    case Restored => Open
    case NotRestored(left) => left
    case Panicked => jail
  }

  /** Putting the backup back, and the one report that says whether it worked. */
  method RollBack(d0: Volume, uuid: string, archive: seq<TarEntry>, jail: JailHandle, run: Run, before: seq<Report>)
      returns (reports: seq<Report>, panicked: bool, jail': JailHandle, d: Volume)
    requires uuid !in d0 ==> jail == Missing
    requires NeverEnds(before)
    ensures if panicked then NeverEnds(reports) else EndsOnce(reports)
    ensures Completed !in reports && FailedWithoutBackup !in reports && RollingBack in reports
    ensures var outcome := RestoreOutcome(d0, uuid, Takes(Leftovers(d0, uuid, run), archive), jail, run);
      && (panicked <==> outcome == Panicked) && (FailedAndRestored in reports <==> outcome == Restored)
      && jail' == HandleOf(outcome, jail)
    ensures FailedAndRestored in reports ==> uuid in d && Ok(d[uuid]) == Extract(Leftovers(d0, uuid, run), archive)
  {
    reports, panicked, jail' := before + [RollingBack], false, jail;
    var restored;
    restored, d := RestoreBackup(d0, uuid, archive, jail, run);
    if restored.Panicked? {
      panicked := true;
    } else {
      reports := reports + [if restored.Restored? then FailedAndRestored else FailedAndNotRestored];
      jail' := HandleOf(restored, jail);
    }
  }

  /** Everything after the backup: install, start, wait for the boot, and roll back unless it came up. */
  method InstallAndValidate(d0: Volume, uuid: string, archive: seq<TarEntry>, run: Run, before: seq<Report>)
      returns (reports: seq<Report>, panicked: bool, jail: JailHandle, d: Volume)
    requires uuid in d0 && NeverEnds(before)
    ensures if panicked then NeverEnds(reports) else EndsOnce(reports)
    ensures FailedWithoutBackup !in reports
    ensures Completed in reports <==> Boots(d0, uuid, run)
    ensures RollingBack !in before ==> (RollingBack in reports <==> !Boots(d0, uuid, run))
    ensures Completed in reports ==> uuid in d && d[uuid] == run.written
    ensures var outcome := RestoreOutcome(d0, uuid, Takes(Leftovers(d0, uuid, run), archive), JailAfter(d0, uuid, run), run);
      && (panicked <==> !Boots(d0, uuid, run) && outcome == Panicked)
      && (FailedAndRestored in reports <==> !Boots(d0, uuid, run) && outcome == Restored)
      && jail == if Boots(d0, uuid, run) then Open else HandleOf(outcome, JailAfter(d0, uuid, run))
    ensures FailedAndRestored in reports ==> uuid in d && Ok(d[uuid]) == Extract(Leftovers(d0, uuid, run), archive)
  {
    var installed;
    installed, jail, d := Install(d0, uuid, run);
    reports, panicked := before + seq(run.progress, i => Installing), false;
    if installed {
      reports := reports + [Configuring];
      NamesDistinct(uuid);
      d := d[uuid := run.written];
      if !run.startFails {
        reports := reports + [Configuring];
        if run.boots {
          reports := reports + [Completed];
          return;
        }
      }
    }
    SameRestore(d0, d, uuid, archive, jail, run);
    reports, panicked, jail, d := RollBack(d, uuid, archive, jail, run, reports);
  }

  /** How the rollback ends: staging takes the archive when it is within limits and nothing left there is in the way. */
  ghost function RollbackOutcome(d0: Volume, uuid: string, es: seq<Entry>, glob: (string, string) -> bool, run: Run): RestoreResult
    requires uuid in d0
  {
    var taken := WithinLimits(WholeArchive(es, glob)) && MakesWay(Leftovers(d0, uuid, run), d0[uuid].files);
    RestoreOutcome(d0, uuid, taken, JailAfter(d0, uuid, run), run)
  }

  /** The run rolls back, and its restore ends this way. */
  ghost predicate RollsBack(d0: Volume, uuid: string, es: seq<Entry>, glob: (string, string) -> bool, jail: JailHandle, run: Run,
                            outcome: RestoreResult)
    requires jail.Open? ==> uuid in d0
  {
    BacksUp(jail, run) && !Boots(d0, uuid, run) && RollbackOutcome(d0, uuid, es, glob, run) == outcome
  }

  /** The run dies in the backup, which has no handle to walk with. */
  predicate DiesInBackup(jail: JailHandle, run: Run) {
    jail.Missing? && !run.prepareFails
  }

  /** The handle a run leaves behind, unless it dies. */
  ghost function HandleAfter(d0: Volume, uuid: string, es: seq<Entry>, glob: (string, string) -> bool, jail: JailHandle, run: Run): JailHandle
    requires jail.Open? ==> uuid in d0
  {
    if !BacksUp(jail, run) then jail
    else if Boots(d0, uuid, run) then Open
    else HandleOf(RollbackOutcome(d0, uuid, es, glob, run), JailAfter(d0, uuid, run))
  }

  /**
   The whole run, from whatever handle the server has. It ends in one final report unless the backup or the rollback
   finds no handle, and each report is made exactly when its condition holds. After a restored report the live files
   are those the backup could open, over whatever an ignored failure to clear staging left there.
   */
  method RunModpackInstall(d0: Volume, uuid: string, es: seq<Entry>, glob: (string, string) -> bool, jail: JailHandle, run: Run)
      returns (reports: seq<Report>, panicked: bool, jail': JailHandle, d: Volume)
    requires jail.Open? ==> uuid in d0 && TreeOk(Dir(es)) && Represents(es, d0[uuid]) && WellPlaced(Leftovers(d0, uuid, run))
    ensures if panicked then NeverEnds(reports) else EndsOnce(reports)
    ensures panicked <==> DiesInBackup(jail, run) || RollsBack(d0, uuid, es, glob, jail, run, Panicked)
    ensures !panicked ==> jail' == HandleAfter(d0, uuid, es, glob, jail, run)
    ensures FailedWithoutBackup in reports <==> !BacksUp(jail, run) && !DiesInBackup(jail, run)
    ensures Completed in reports <==> BacksUp(jail, run) && Boots(d0, uuid, run)
    ensures Completed in reports <==>
      && jail.Open? && !run.prepareFails && !run.backupFails && run.stopped && run.built.Ok?
      && !run.swap.closeFails && !run.swap.moveOldFails && !run.swap.moveNewFails && !run.swap.reopenFails
      && (uuid + ".modpack-old" in d0 ==> run.swap.cleanOld.left.None?)
      && !run.startFails && run.boots
    ensures Completed in reports ==> uuid in d && d[uuid] == run.written
    ensures RollingBack in reports <==> BacksUp(jail, run) && NotUp(d0, uuid, run)
    ensures FailedAndRestored in reports <==> RollsBack(d0, uuid, es, glob, jail, run, Restored)
    ensures FailedAndRestored in reports ==>
      uuid in d && d[uuid].files == Leftovers(d0, uuid, run).files + Opened(d0[uuid].files)
    ensures !BacksUp(jail, run) ==> d == d0
  {
    jail', d := jail, d0;
    var backup := BackUp(es, glob, jail, run);
    if backup.NoHandle? {
      return [Downloading], true, jail, d0;
    }
    if backup.NoBackup? {
      return [Downloading, FailedWithoutBackup], false, jail, d0;
    }
    RestoredFiles(Leftovers(d0, uuid, run), es, d0[uuid], glob);
    HandleOnFields(d0, uuid, run);
    reports, panicked, jail', d := InstallAndValidate(d0, uuid, backup.archive, run, [Downloading, Downloading]);
  }

  // ----- the outcomes on a run's own fields -----

  /** The new tree did not come up: something before the boot failed, or the boot did. */
  predicate NotUp(d0: Volume, uuid: string, run: Run) {
    || !run.stopped || run.built.Err?
    || run.swap.closeFails || run.swap.moveOldFails || run.swap.moveNewFails || run.swap.reopenFails
    || (uuid + ".modpack-old" in d0 && run.swap.cleanOld.left.Some?)
    || run.startFails || !run.boots
  }

  /** The installation lost its handle: the live directory could not be reopened after a failed move. */
  predicate LosesHandle(d0: Volume, uuid: string, run: Run) {
    && run.stopped && run.built.Ok? && !run.swap.closeFails
    && if run.swap.moveOldFails || (uuid + ".modpack-old" in d0 && run.swap.cleanOld.left.Some?) then run.swap.reopenFails
       else run.swap.moveNewFails && (run.swap.reopenFails || run.swap.revertFails)
  }

  /** The handle is closed and stays so: its close failed, or the new tree is live and could not be opened. */
  predicate LeavesClosed(d0: Volume, uuid: string, run: Run) {
    && run.stopped && run.built.Ok?
    && (|| run.swap.closeFails
        || (&& !run.swap.moveOldFails && !(uuid + ".modpack-old" in d0 && run.swap.cleanOld.left.Some?)
            && !run.swap.moveNewFails && run.swap.reopenFails))
  }

  /** The restore gets as far as its swap. */
  ghost predicate Extracts(d0: Volume, uuid: string, es: seq<Entry>, glob: (string, string) -> bool, run: Run)
    requires uuid in d0
  {
    && run.stoppedAfterKill && !run.restoreFails && WithinLimits(WholeArchive(es, glob))
    && MakesWay(Leftovers(d0, uuid, run), d0[uuid].files)
  }

  lemma {:induction false} HandleOnFields(d0: Volume, uuid: string, run: Run)
    ensures JailAfter(d0, uuid, run) == Missing <==> LosesHandle(d0, uuid, run)
    ensures JailAfter(d0, uuid, run) == Closed <==> LeavesClosed(d0, uuid, run)
    ensures Boots(d0, uuid, run) <==> !NotUp(d0, uuid, run)
  {
  }

  /** When a run reports the previous files restored, and when it dies in the rollback. */
  lemma {:induction false} RollbackOnFields(d0: Volume, uuid: string, es: seq<Entry>, glob: (string, string) -> bool, jail: JailHandle, run: Run)
    requires jail.Open? ==> uuid in d0
    ensures RollsBack(d0, uuid, es, glob, jail, run, Restored) <==>
      && jail.Open? && !run.prepareFails && !run.backupFails && NotUp(d0, uuid, run)
      && Extracts(d0, uuid, es, glob, run)
      && !LosesHandle(d0, uuid, run) && !LeavesClosed(d0, uuid, run)
      && !run.restore.closeFails && !run.restore.moveOldFails && !run.restore.moveNewFails && !run.restore.reopenFails
      && (uuid + ".restore-old" in d0 ==> run.restore.cleanOld.left.None?)
    ensures RollsBack(d0, uuid, es, glob, jail, run, Panicked) <==>
      && jail.Open? && !run.prepareFails && !run.backupFails
      && Extracts(d0, uuid, es, glob, run) && LosesHandle(d0, uuid, run)
  {
    HandleOnFields(d0, uuid, run);
  }

  // ----- runs after a run -----

  /**
   A run ends without a handle and without dying exactly when it started so, or when its installation lost the handle
   and its restore failed before it looked for one.
   */
  lemma {:induction false} EndsWithoutHandle(d0: Volume, uuid: string, es: seq<Entry>, glob: (string, string) -> bool, jail: JailHandle, run: Run)
    requires jail.Open? ==> uuid in d0
    ensures HandleAfter(d0, uuid, es, glob, jail, run) == Missing && !DiesInBackup(jail, run)
            && !RollsBack(d0, uuid, es, glob, jail, run, Panicked) <==>
      || (jail.Missing? && run.prepareFails)
      || (JailAfter(d0, uuid, run) == Missing && RollsBack(d0, uuid, es, glob, jail, run, NotRestored(Missing)))
  {
  }

  /** One run after another, each with its own tree and outcomes, until one of them dies. */
  method RunsWithoutHandle(d0: Volume, uuid: string, trees: seq<seq<Entry>>, glob: (string, string) -> bool, jail: JailHandle, runs: seq<Run>)
      returns (ended: seq<seq<Report>>, panicked: bool, d: Volume)
    requires |trees| == |runs| && !jail.Open?
    ensures d == d0 && |ended| <= |runs| && (|ended| < |runs| ==> panicked)
    ensures panicked <==> jail.Missing? && exists i :: 0 <= i < |runs| && !runs[i].prepareFails
    ensures forall i :: 0 <= i < |ended| ==>
      if panicked && i == |ended| - 1 then NeverEnds(ended[i]) else EndsOnce(ended[i]) && FailedWithoutBackup in ended[i]
  {
    ended, panicked, d := [], false, d0;
    for k := 0 to |runs|
      invariant |ended| == k && d == d0 && !panicked
      invariant jail.Missing? ==> forall i :: 0 <= i < k ==> runs[i].prepareFails
      invariant forall i :: 0 <= i < k ==> EndsOnce(ended[i]) && FailedWithoutBackup in ended[i]
    {
      var reports, left;
      reports, panicked, left, d := RunModpackInstall(d, uuid, trees[k], glob, jail, runs[k]);
      ended := ended + [reports];
      if panicked {
        return;
      }
    }
  }

  // ----- runs that break a promise -----

  /** A run without a final report: the new tree cannot be moved in and the old one cannot be moved back. */
  method RunWithoutFinalReport() returns (reports: seq<Report>, panicked: bool)
    ensures panicked && NeverEnds(reports)
  {
    var keep := Removal([], None);
    var stuck := Script(keep, keep, [], keep, false, false, true, true, false);
    var run := Run(false, false, true, Ok(EMPTY), stuck, 0, false, false, EMPTY, true, false, stuck);
    var d0: Volume := map["server" := EMPTY];
    var glob := (pattern: string, name: string) => false;
    EmptyArchive(glob);
    var jail, d;
    reports, panicked, jail, d := RunModpackInstall(d0, "server", [], glob, Open, run);
  }

  /** A run that ends in its final report and leaves no handle, so that the next one, whatever its outcomes, dies in its backup. */
  method NextRunDies(next: Run, tree: seq<Entry>) returns (first: seq<Report>, second: seq<Report>, panicked: bool)
    requires !next.prepareFails
    ensures EndsOnce(first) && FailedAndNotRestored in first
    ensures panicked && NeverEnds(second)
  {
    var keep := Removal([], None);
    var stuck := Script(keep, keep, [], keep, false, false, true, true, false);
    var run := Run(false, false, true, Ok(EMPTY), stuck, 0, false, false, EMPTY, true, true, stuck);
    var d0: Volume := map["server" := EMPTY];
    var glob := (pattern: string, name: string) => false;
    var jail, d;
    first, panicked, jail, d := RunModpackInstall(d0, "server", [], glob, Open, run);
    assert first[|first| - 1] == FailedAndNotRestored;
    second, panicked, jail, d := RunModpackInstall(d, "server", tree, glob, jail, next);
  }

  lemma {:induction false} EmptyArchive(glob: (string, string) -> bool)
    ensures WholeArchive([], glob) == [] && WithinLimits([])
  {
  }

  /** A server with no files of its own and `left` in its staging directory. */
  function LeftoverVolume(uuid: string, left: Store): Volume {
    map[uuid := EMPTY, RestoreNames(uuid).staging := left]
  }

  /** A run whose installation is refused, and whose rollback fails only at clearing staging. */
  function LeftoverRun(left: Store): Run {
    var gone := Removal([], None);
    var script := Script(Removal([], Some(left)), gone, [], gone, false, false, false, false, false);
    Run(false, false, false, Ok(EMPTY), script, 0, false, false, EMPTY, true, false, script)
  }

  lemma {:induction false} LeftoverRestores(uuid: string, left: Store, glob: (string, string) -> bool)
    ensures var d0 := LeftoverVolume(uuid, left);
      && Leftovers(d0, uuid, LeftoverRun(left)) == left && d0[uuid] == EMPTY
      && RollbackOutcome(d0, uuid, [], glob, LeftoverRun(left)) == Restored
    ensures left.files + Opened(EMPTY.files) == left.files
  {
    NamesDistinct(uuid);
    EmptyArchive(glob);
  }

  /** A run that reports the previous files restored, of which there were none, beside any files left in staging. */
  method RestoredBesideLeftovers(uuid: string, left: Store) returns (reports: seq<Report>, d: Volume)
    requires WellPlaced(left)
    ensures FailedAndRestored in reports && uuid in d && d[uuid].files == left.files
  {
    var glob := (pattern: string, name: string) => false;
    LeftoverRestores(uuid, left, glob);
    assert Represents([], EMPTY);
    var panicked, jail;
    reports, panicked, jail, d := RunModpackInstall(LeftoverVolume(uuid, left), uuid, [], glob, Open, LeftoverRun(left));
  }
}
