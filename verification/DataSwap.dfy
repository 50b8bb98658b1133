/**
 Replacing a server's data directory by renames, and the boot sweep that cleans up after it.

 The data volume maps directory names to their contents. Every operation that can fail takes its outcome as
 an argument, and `seen` records the volume after each of its steps, partial deletions and partial
 extractions included: a crash leaves the volume in one of those states.
 */
module DataSwap {
  import opened Text
  import opened Restore
  import Paths

  type Volume = map<string, Store>

  // ----- deleting and renaming directories -----

  /** One os.RemoveAll: what the directory held while it was being deleted, and what is left of it. */
  datatype Removal = Removal(during: seq<Store>, left: Option<Store>)

  /** `d` differs from `d0` at `name` at most. */
  ghost predicate OnlyAt(d0: Volume, d: Volume, name: string) {
    forall n :: n != name ==> (n in d <==> n in d0) && (n in d ==> d[n] == d0[n])
  }

  /** Consecutive volumes that differ at `name` at most. */
  ghost predicate StepsAt(seen: seq<Volume>, name: string) {
    forall i :: 0 <= i < |seen| - 1 ==> OnlyAt(seen[i], seen[i + 1], name)
  }

  method RemoveAll(d0: Volume, name: string, r: Removal) returns (d: Volume, seen: seq<Volume>)
    ensures OnlyAt(d0, d, name) && forall i :: 0 <= i < |seen| ==> OnlyAt(d0, seen[i], name)
    ensures name in d <==> name in d0 && r.left.Some?
    ensures name in d ==> d[name] == r.left.value
    ensures |seen| > 0 && seen[0] == d0 && seen[|seen| - 1] == d && StepsAt(seen, name)
  {
    d, seen := d0, [d0];
    if name in d0 {
      for i := 0 to |r.during|
        invariant OnlyAt(d0, d, name) && forall k :: 0 <= k < |seen| ==> OnlyAt(d0, seen[k], name)
        invariant |seen| > 0 && seen[0] == d0 && seen[|seen| - 1] == d && StepsAt(seen, name)
      {
        d := d[name := r.during[i]];
        seen := seen + [d];
      }
      d := if r.left.Some? then d[name := r.left.value] else d - {name};
      seen := seen + [d];
    }
  }

  /** os.Rename of a directory needs the source, and refuses any directory at the target, even an empty one. */
  predicate CanRename(d: Volume, from: string, to: string) {
    from in d && to !in d
  }

  method Rename(d0: Volume, from: string, to: string, fails: bool) returns (ok: bool, d: Volume)
    requires from != to
    ensures ok == (CanRename(d0, from, to) && !fails)
    ensures d == if ok then (d0 - {from})[to := d0[from]] else d0
  {
    ok := CanRename(d0, from, to) && !fails;
    d := if ok then (d0 - {from})[to := d0[from]] else d0;
  }

  // ----- the swap -----

  /** The three sibling names a swap uses. */
  datatype Names = Names(live: string, staging: string, aside: string)

  function RestoreNames(uuid: string): Names {
    Names(uuid, uuid + ".restore-staging", uuid + ".restore-old")
  }

  function ModpackNames(uuid: string): Names {
    Names(uuid, uuid + ".modpack-staging", uuid + ".modpack-old")
  }

  predicate Distinct(n: Names) {
    n.live != n.staging && n.live != n.aside && n.staging != n.aside
  }

  lemma {:induction false} NamesDistinct(uuid: string)
    ensures Distinct(RestoreNames(uuid)) && Distinct(ModpackNames(uuid))
  {
    assert |RestoreNames(uuid).staging| != |RestoreNames(uuid).aside|;
    assert |ModpackNames(uuid).staging| != |ModpackNames(uuid).aside|;
  }

  /** Outcomes of one swap: the two clean-ups, the partial contents of staging, and which renames fail. */
  datatype Script = Script(
    cleanStaging: Removal, cleanOld: Removal, filling: seq<Store>, abandon: Removal,
    closeFails: bool, moveOldFails: bool, moveNewFails: bool, revertFails: bool, reopenFails: bool)

  /**
   The server's data is never partial: the live directory holds the old tree, or the new one, or is absent
   while the old tree stands whole beside it. Nothing outside the three siblings changes.
   */
  ghost predicate Safe(d0: Volume, d: Volume, n: Names, built: Outcome<Store>)
    requires n.live in d0
  {
    && (forall m :: m != n.live && m != n.staging && m != n.aside ==> (m in d <==> m in d0) && (m in d ==> d[m] == d0[m]))
    && (n.live in d ==> d[n.live] == d0[n.live] || built == Ok(d[n.live]))
    && (n.live !in d ==> n.aside in d && d[n.aside] == d0[n.live])
  }

  ghost predicate AllSafe(d0: Volume, seen: seq<Volume>, n: Names, built: Outcome<Store>)
    requires n.live in d0
  {
    forall i :: 0 <= i < |seen| ==> Safe(d0, seen[i], n, built)
  }

  /** One step: a change inside staging or the directory set aside, or one rename. */
  ghost predicate Step(d: Volume, d': Volume, n: Names) {
    || OnlyAt(d, d', n.staging) || OnlyAt(d, d', n.aside)
    || Renamed(d, d', n.live, n.aside) || Renamed(d, d', n.staging, n.live) || Renamed(d, d', n.aside, n.live)
  }

  ghost predicate Renamed(d: Volume, d': Volume, from: string, to: string) {
    from in d && d' == (d - {from})[to := d[from]]
  }

  /** The volumes passed through from `d0` to `d`, one step at a time. */
  ghost predicate Trace(d0: Volume, seen: seq<Volume>, d: Volume, n: Names) {
    && |seen| > 0 && seen[0] == d0 && seen[|seen| - 1] == d
    && forall i :: 0 <= i < |seen| - 1 ==> Step(seen[i], seen[i + 1], n)
  }

  lemma {:induction false} TraceAppend(d0: Volume, a: seq<Volume>, d1: Volume, b: seq<Volume>, d2: Volume, n: Names)
    requires Trace(d0, a, d1, n) && Trace(d1, b, d2, n)
    ensures Trace(d0, a + b, d2, n)
  {
    var all := a + b;
    forall i | 0 <= i < |all| - 1 ensures Step(all[i], all[i + 1], n) {
      if i < |a| - 1 {
        assert all[i] == a[i] && all[i + 1] == a[i + 1];
      } else if i == |a| - 1 {
        assert all[i] == all[i + 1];
      } else {
        assert all[i] == b[i - |a|] && all[i + 1] == b[i - |a| + 1];
      }
    }
  }

  lemma {:induction false} TraceStep(d0: Volume, a: seq<Volume>, d1: Volume, d2: Volume, n: Names)
    requires Trace(d0, a, d1, n) && Step(d1, d2, n)
    ensures Trace(d0, a + [d2], d2, n)
  {
    var all := a + [d2];
    forall i | 0 <= i < |all| - 1 ensures Step(all[i], all[i + 1], n) {
      assert all[i] == a[i];
    }
  }

  lemma {:induction false} AllSafeAppend(d0: Volume, a: seq<Volume>, b: seq<Volume>, n: Names, built: Outcome<Store>)
    requires n.live in d0 && AllSafe(d0, a, n, built) && AllSafe(d0, b, n, built)
    ensures AllSafe(d0, a + b, n, built)
  {
  }

  datatype JailHandle = Open | Closed | Missing

  datatype SwapResult = Swapped | Failed(jail: JailHandle)

  /** Clearing one sibling of an untouched live directory. */
  method Clear(ghost d0: Volume, d1: Volume, n: Names, name: string, r: Removal, seen1: seq<Volume>)
      returns (d: Volume, seen: seq<Volume>)
    requires n.live in d0 && Distinct(n) && (name == n.staging || name == n.aside)
    requires Safe(d0, d1, n, Err("")) && n.live in d1
    requires Trace(d0, seen1, d1, n) && AllSafe(d0, seen1, n, Err(""))
    ensures Safe(d0, d, n, Err("")) && n.live in d && OnlyAt(d1, d, name)
    ensures name in d <==> name in d1 && r.left.Some?
    ensures name in d ==> d[name] == r.left.value
    ensures Trace(d0, seen, d, n) && AllSafe(d0, seen, n, Err(""))
  {
    var more;
    d, more := RemoveAll(d1, name, r);
    assert Trace(d1, more, d, n);
    TraceAppend(d0, seen1, d1, more, d, n);
    assert AllSafe(d0, more, n, Err(""));
    AllSafeAppend(d0, seen1, more, n, Err(""));
    seen := seen1 + more;
  }

  /** Writing the new tree into staging, one partial state after the other. */
  method Fill(ghost d0: Volume, d1: Volume, n: Names, contents: seq<Store>, seen1: seq<Volume>)
      returns (d: Volume, seen: seq<Volume>)
    requires n.live in d0 && Distinct(n) && Safe(d0, d1, n, Err("")) && n.live in d1
    requires Trace(d0, seen1, d1, n) && AllSafe(d0, seen1, n, Err(""))
    ensures Safe(d0, d, n, Err("")) && n.live in d && OnlyAt(d1, d, n.staging)
    ensures contents != [] ==> n.staging in d && d[n.staging] == contents[|contents| - 1]
    ensures Trace(d0, seen, d, n) && AllSafe(d0, seen, n, Err(""))
  {
    d, seen := d1, seen1;
    for i := 0 to |contents|
      invariant Safe(d0, d, n, Err("")) && n.live in d && OnlyAt(d1, d, n.staging)
      invariant i > 0 ==> n.staging in d && d[n.staging] == contents[i - 1]
      invariant Trace(d0, seen, d, n) && AllSafe(d0, seen, n, Err(""))
    {
      TraceStep(d0, seen, d, d[n.staging := contents[i]], n);
      d := d[n.staging := contents[i]];
      seen := seen + [d];
    }
  }

  /** Building the new tree in staging: leftovers go first, then staging fills up, or is abandoned. */
  method Stage(d0: Volume, n: Names, built: Outcome<Store>, s: Script) returns (d: Volume, seen: seq<Volume>)
    requires n.live in d0 && Distinct(n)
    ensures Safe(d0, d, n, Err("")) && n.live in d
    ensures Trace(d0, seen, d, n) && AllSafe(d0, seen, n, Err(""))
    ensures built.Ok? ==> n.staging in d && d[n.staging] == built.value
    ensures AsideCleared(d0, n, s) <==> n.aside !in d
  {
    d, seen := Clear(d0, d0, n, n.staging, s.cleanStaging, [d0]);
    d, seen := Clear(d0, d, n, n.aside, s.cleanOld, seen);
    d, seen := Fill(d0, d, n, s.filling + if built.Ok? then [built.value] else [], seen);
    if built.Err? {
      d, seen := Clear(d0, d, n, n.staging, s.abandon, seen);
    }
  }

  /** How the jail handle is left by the renames, from which of them failed. */
  function MoveInOutcome(s: Script, reopens: bool): SwapResult {
    if s.moveNewFails then Failed(if !reopens then Closed else if s.reopenFails || s.revertFails then Missing else Open)
    else if s.reopenFails then Failed(Closed)
    else Swapped
  }

  /** A close that reports an error still leaves the descriptor closed. */
  function SwapOutcome(asideFree: bool, s: Script, reopens: bool): SwapResult {
    if s.closeFails then Failed(Closed)
    else if s.moveOldFails || !asideFree then Failed(if !reopens then Closed else if s.reopenFails then Missing else Open)
    else MoveInOutcome(s, reopens)
  }

  /** The directory set aside by an earlier swap is gone once cleaned. */
  predicate AsideCleared(d0: Volume, n: Names, s: Script) {
    n.aside !in d0 || s.cleanOld.left.None?
  }

  /** The live directory is aside, the new tree did not move in and the old one did not move back. */
  predicate LosesLive(asideFree: bool, s: Script) {
    asideFree && !s.closeFails && !s.moveOldFails && s.moveNewFails && s.revertFails
  }

  /** The best-effort revert: the old tree back into place. */
  method MoveBack(ghost d0: Volume, d1: Volume, n: Names, fails: bool, seen1: seq<Volume>)
      returns (ok: bool, d: Volume, seen: seq<Volume>)
    requires n.live in d0 && n.staging in d0 && Distinct(n) && Renamed(d0, d1, n.live, n.aside)
    requires AllSafe(d0, seen1, n, Ok(d0[n.staging])) && Trace(d0, seen1, d1, n)
    ensures AllSafe(d0, seen, n, Ok(d0[n.staging])) && Trace(d0, seen, d, n)
    ensures ok == !fails && (n.live in d <==> ok)
  {
    ok, d := Rename(d1, n.aside, n.live, fails);
    TraceStep(d0, seen1, d1, d, n);
    seen := seen1 + [d];
  }

  /** The second rename, with the live directory already aside; its failure moves the old one back. */
  method MoveIn(ghost d0: Volume, d1: Volume, n: Names, s: Script, reopens: bool, seen1: seq<Volume>)
      returns (r: SwapResult, d: Volume, seen: seq<Volume>)
    requires n.live in d0 && n.staging in d0 && Distinct(n) && Renamed(d0, d1, n.live, n.aside)
    requires AllSafe(d0, seen1, n, Ok(d0[n.staging])) && Trace(d0, seen1, d1, n)
    ensures AllSafe(d0, seen, n, Ok(d0[n.staging])) && Trace(d0, seen, d, n)
    ensures r == MoveInOutcome(s, reopens)
    ensures r.Swapped? ==> n.live in d && d[n.live] == d0[n.staging]
    ensures n.live !in d <==> s.moveNewFails && s.revertFails
  {
    var ok;
    ok, d := Rename(d1, n.staging, n.live, s.moveNewFails);
    TraceStep(d0, seen1, d1, d, n);
    seen := seen1 + [d];
    if !ok {
      ok, d, seen := MoveBack(d0, d, n, s.revertFails, seen);
      r := Failed(if !reopens then Closed else if s.reopenFails || !ok then Missing else Open);
    } else if s.reopenFails {
      r := Failed(Closed);
    } else {
      r := Swapped;
    }
  }

  /**
   The tail shared by restore and modpack activation: close the jail, move the live directory aside, move
   staging in, and move the old one back when that fails. `reopens` tells whether a failure reopens the jail.
   */
  method Activate(d0: Volume, n: Names, s: Script, reopens: bool)
      returns (r: SwapResult, d: Volume, seen: seq<Volume>)
    requires n.live in d0 && n.staging in d0 && Distinct(n)
    ensures AllSafe(d0, seen, n, Ok(d0[n.staging])) && Trace(d0, seen, d, n)
    ensures r == SwapOutcome(n.aside !in d0, s, reopens)
    ensures r.Swapped? ==> n.live in d && d[n.live] == d0[n.staging]
    ensures n.live !in d <==> LosesLive(n.aside !in d0, s)
  {
    if s.closeFails {
      return Failed(Closed), d0, [d0];
    }
    var ok;
    ok, d := Rename(d0, n.live, n.aside, s.moveOldFails);
    seen := [d0, d];
    if !ok {
      r := Failed(if !reopens then Closed else if s.reopenFails then Missing else Open);
      return;
    }
    r, d, seen := MoveIn(d0, d, n, s, reopens, seen);
  }

  /** Safety from the volume at the first rename is safety from the start. */
  lemma {:induction false} SafeFromStart(d0: Volume, d1: Volume, seen: seq<Volume>, n: Names)
    requires n.live in d0 && Safe(d0, d1, n, Err("")) && n.live in d1 && n.staging in d1
    requires AllSafe(d1, seen, n, Ok(d1[n.staging]))
    ensures AllSafe(d0, seen, n, Ok(d1[n.staging]))
  {
  }

  /** A whole replacement, restore or modpack: whatever fails and wherever it is cut, the data is never partial. */
  method Replace(d0: Volume, n: Names, built: Outcome<Store>, s: Script, reopens: bool)
      returns (r: SwapResult, d: Volume, seen: seq<Volume>)
    requires n.live in d0 && Distinct(n)
    ensures AllSafe(d0, seen, n, built) && Trace(d0, seen, d, n)
    ensures r == if built.Err? then Failed(Open) else SwapOutcome(AsideCleared(d0, n, s), s, reopens)
    ensures r.Swapped? ==> n.live in d && d[n.live] == built.value
    ensures n.live !in d <==> built.Ok? && LosesLive(AsideCleared(d0, n, s), s)
  {
    d, seen := Stage(d0, n, built, s);
    assert AllSafe(d0, seen, n, built);
    if built.Err? {
      return Failed(Open), d, seen;
    }
    ghost var d1 := d;
    var more;
    r, d, more := Activate(d, n, s, reopens);
    SafeFromStart(d0, d1, more, n);
    TraceAppend(d0, seen, d1, more, d, n);
    AllSafeAppend(d0, seen, more, n, built);
    seen := seen + more;
  }

  // ----- the delayed deletion of an earlier swap -----

  /**
   When the deletion scheduled by an earlier swap fires during a later one, and what it leaves of the directory set
   aside: before the live directory is moved, while it is aside, or just before it is moved back.
   */
  datatype Reaper = Never | BeforeMove(left: Option<Store>) | WhileAside(left: Option<Store>) | BeforeRevert(left: Option<Store>)

  function Reap(d: Volume, aside: string, left: Option<Store>): Volume {
    if aside !in d then d else if left.Some? then d[aside := left.value] else d - {aside}
  }

  /** The live directory is moved aside. */
  predicate Moves(d0: Volume, n: Names, s: Script, reaper: Reaper) {
    && !s.closeFails && !s.moveOldFails
    && (n.aside !in d0 || reaper == BeforeMove(None))
  }

  /** The deletion reaches the only copy of the old tree. */
  predicate Hits(d0: Volume, n: Names, s: Script, reaper: Reaper)
    requires n.live in d0
  {
    && Moves(d0, n, s, reaper)
    && (|| (reaper.WhileAside? && reaper.left != Some(d0[n.live]))
        || (reaper.BeforeRevert? && s.moveNewFails && reaper.left != Some(d0[n.live])))
  }

  /** Nothing outside the three siblings has changed. */
  ghost predicate OnlySiblings(d0: Volume, d: Volume, n: Names) {
    forall m :: m != n.live && m != n.staging && m != n.aside ==> (m in d <==> m in d0) && (m in d ==> d[m] == d0[m])
  }

  function Contents(d: Volume, name: string): Option<Store> {
    if name in d then Some(d[name]) else None
  }

  /** Moving the old tree back after the new one did not move in, with the deletion firing first or not. */
  method RevertReaped(ghost d0: Volume, d1: Volume, n: Names, s: Script, reaper: Reaper) returns (d: Volume, seen: seq<Volume>)
    requires n.live in d0 && n.staging in d0 && Distinct(n) && n.live !in d1 && OnlySiblings(d0, d1, n)
    requires reaper.BeforeRevert? ==> n.aside in d1
    ensures var left := if reaper.BeforeRevert? then reaper.left else Contents(d1, n.aside);
      && (Safe(d0, d, n, Ok(d0[n.staging])) <==>
            left == Some(d0[n.live]) || (!s.revertFails && left == Some(d0[n.staging])))
      && (left == Some(d0[n.live]) ==> AllSafe(d0, seen, n, Ok(d0[n.staging])))
      && (reaper.BeforeRevert? && left != Some(d0[n.live]) ==> !AllSafe(d0, seen, n, Ok(d0[n.staging])))
  {
    d, seen := d1, [];
    if reaper.BeforeRevert? {
      d := Reap(d, n.aside, reaper.left);
      seen := [d];
      assert Safe(d0, seen[0], n, Ok(d0[n.staging])) <==> reaper.left == Some(d0[n.live]);
    }
    ghost var before := seen;
    var ok;
    ok, d := Rename(d, n.aside, n.live, s.revertFails);
    seen := seen + [d];
    assert |before| == 1 ==> seen[0] == before[0];
  }

  /** The second half of a swap, with the old tree aside and the deletion still to come or not. */
  method MoveInReaped(ghost d0: Volume, d1: Volume, n: Names, s: Script, reaper: Reaper) returns (d: Volume, seen: seq<Volume>)
    requires n.live in d0 && n.staging in d0 && Distinct(n)
    requires n.live !in d1 && n.staging in d1 && d1[n.staging] == d0[n.staging] && OnlySiblings(d0, d1, n)
    requires Contents(d1, n.aside) == Some(d0[n.live]) && !reaper.BeforeMove?
    ensures var hit := reaper != Never && reaper.left != Some(d0[n.live]) && (reaper.BeforeRevert? ==> s.moveNewFails);
      && (AllSafe(d0, seen, n, Ok(d0[n.staging])) <==> !hit)
      && (Safe(d0, d, n, Ok(d0[n.staging])) <==>
            !hit || !s.moveNewFails || (!s.revertFails && reaper.left == Some(d0[n.staging])))
  {
    d, seen := d1, [];
    if reaper.WhileAside? {
      d := Reap(d, n.aside, reaper.left);
    }
    seen := [d];
    assert Safe(d0, d, n, Ok(d0[n.staging])) <==> reaper.WhileAside? ==> reaper.left == Some(d0[n.live]);
    ghost var first := seen;
    var ok;
    ok, d := Rename(d, n.staging, n.live, s.moveNewFails);
    var more := [d];
    if !ok {
      d, more := RevertReaped(d0, d, n, s, reaper);
    }
    seen := seen + more;
    assert seen[0] == first[0];
    if AllSafe(d0, first, n, Ok(d0[n.staging])) {
      AllSafeSplit(d0, first, more, n, Ok(d0[n.staging]));
    }
  }

  /** The first half: the old tree is moved aside, or nothing of it has changed. */
  method MoveAsideReaped(d0: Volume, n: Names, s: Script, reaper: Reaper) returns (ok: bool, d: Volume, seen: seq<Volume>)
    requires n.live in d0 && n.staging in d0 && Distinct(n)
    ensures ok <==> Moves(d0, n, s, reaper)
    ensures AllSafe(d0, seen, n, Ok(d0[n.staging])) && Safe(d0, d, n, Ok(d0[n.staging])) && OnlySiblings(d0, d, n)
    ensures ok ==> n.live !in d && Contents(d, n.staging) == Some(d0[n.staging]) && Contents(d, n.aside) == Some(d0[n.live])
  {
    ok, d, seen := false, d0, [d0];
    if s.closeFails {
      return;
    }
    if reaper.BeforeMove? {
      d := Reap(d, n.aside, reaper.left);
    }
    assert Safe(d0, d, n, Ok(d0[n.staging]));
    seen := [d0, d];
    ok, d := Rename(d, n.live, n.aside, s.moveOldFails);
    assert Safe(d0, d, n, Ok(d0[n.staging]));
    seen := seen + [d];
  }

  /**
   A swap with the deletion of an earlier one in it. Every volume on the way is safe if and only if the deletion does
   not reach the only copy; and at the end the data is whole unless it did and the new tree did not move in.
   */
  method ActivateReaped(d0: Volume, n: Names, s: Script, reaper: Reaper) returns (d: Volume, seen: seq<Volume>)
    requires n.live in d0 && n.staging in d0 && Distinct(n)
    ensures AllSafe(d0, seen, n, Ok(d0[n.staging])) <==> !Hits(d0, n, s, reaper)
    ensures Safe(d0, d, n, Ok(d0[n.staging])) <==>
      || !Hits(d0, n, s, reaper) || !s.moveNewFails
      || (!s.revertFails && reaper.left == Some(d0[n.staging]))
  {
    var ok;
    ok, d, seen := MoveAsideReaped(d0, n, s, reaper);
    if ok {
      ghost var first := seen;
      var more;
      d, more := MoveInReaped(d0, d, n, s, if reaper.BeforeMove? then Never else reaper);
      seen := seen + more;
      AllSafeSplit(d0, first, more, n, Ok(d0[n.staging]));
    }
  }

  lemma {:induction false} AllSafeSplit(d0: Volume, a: seq<Volume>, b: seq<Volume>, n: Names, built: Outcome<Store>)
    requires n.live in d0 && AllSafe(d0, a, n, built)
    ensures AllSafe(d0, a + b, n, built) <==> AllSafe(d0, b, n, built)
  {
    if AllSafe(d0, a + b, n, built) {
      forall i | 0 <= i < |b| ensures Safe(d0, b[i], n, built) {
        assert (a + b)[|a| + i] == b[i];
      }
    }
  }

  // ----- the boot sweep -----

  const OLD_SUFFIXES: seq<string> := [".modpack-old", ".restore-old"]

  /** The server a leftover directory belongs to: its name without the first suffix that matches. */
  function LiveOf(name: string): string {
    if Paths.HasSuffix(name, OLD_SUFFIXES[0]) then name[..|name| - |OLD_SUFFIXES[0]|]
    else if Paths.HasSuffix(name, OLD_SUFFIXES[1]) then name[..|name| - |OLD_SUFFIXES[1]|]
    else ""
  }

  /** What the sweep finds for a directory: whether it is old enough, and how deleting it goes. */
  datatype Leftover = Leftover(stale: bool, removal: Removal)

  /** Only a leftover whose live sibling existed can have been touched. */
  ghost predicate Swept(d0: Volume, d: Volume) {
    && (forall m :: m in d ==> m in d0)
    && forall m {:trigger Spared(d0, m)} :: Spared(d0, m) ==> m in d && d[m] == d0[m]
  }

  /** A directory that is no leftover, or the leftover of a server without a live directory. */
  predicate Spared(d0: Volume, m: string) {
    m in d0 && (LiveOf(m) == "" || LiveOf(m) !in d0)
  }

  /** An aged leftover of a server whose live directory exists, and whose deletion works. */
  predicate Doomed(d0: Volume, m: string, l: Leftover) {
    var live := LiveOf(m);
    m in d0 && live != "" && LiveOf(live) == "" && live in d0 && l.stale && l.removal.left.None?
  }

  /** The sweep's visit of one listed directory. */
  method SweepOne(ghost d0: Volume, d: Volume, name: string, l: Leftover) returns (d': Volume)
    requires Swept(d0, d)
    ensures Swept(d0, d') && (forall m :: m in d' ==> m in d)
    ensures Doomed(d0, name, l) ==> name !in d'
    ensures forall m :: m in d && (m != name || !l.stale || LiveOf(m) == "" || LiveOf(m) !in d0) ==> m in d' && d'[m] == d[m]
  {
    var live := LiveOf(name);
    assert Doomed(d0, name, l) ==> Spared(d0, live);
    if live == "" || live !in d || !l.stale {
      return d;
    }
    var seen;
    if name !in d {
      return d;
    }
    d', seen := RemoveAll(d, name, l.removal);
  }

  /** SweepStaleOldDirs: delete aged leftovers, in listing order, unless their live directory is missing. */
  method SweepStaleOldDirs(d0: Volume, listing: seq<string>, found: string -> Leftover) returns (d: Volume)
    ensures Swept(d0, d)
    ensures forall m :: m in listing && Doomed(d0, m, found(m)) ==> m !in d
    ensures forall m :: m in d0 && (m !in listing || !found(m).stale || LiveOf(m) == "" || LiveOf(m) !in d0) ==>
      m in d && d[m] == d0[m]
  {
    d := d0;
    for i := 0 to |listing|
      invariant Swept(d0, d)
      invariant forall k :: 0 <= k < i && Doomed(d0, listing[k], found(listing[k])) ==> listing[k] !in d
      invariant forall m :: m in d0 && (m !in listing || !found(m).stale || LiveOf(m) == "" || LiveOf(m) !in d0) ==>
        m in d && d[m] == d0[m]
    {
      d := SweepOne(d0, d, listing[i], found(listing[i]));
    }
  }

  /** The sibling set aside belongs to its server. */
  lemma {:induction false} AsideOf(uuid: string)
    ensures LiveOf(RestoreNames(uuid).aside) == uuid && LiveOf(ModpackNames(uuid).aside) == uuid
  {
    var r, m := RestoreNames(uuid).aside, ModpackNames(uuid).aside;
    assert r[|uuid|..] == ".restore-old" && m[|uuid|..] == ".modpack-old";
    assert r[..|uuid|] == uuid && m[..|uuid|] == uuid;
    assert r[|r| - 1] == 'd';
  }

  /**
   Cut a replacement anywhere and boot once: the live directory is absent, the whole old tree or the whole
   new tree, and when it is absent the whole old tree still stands beside it.
   */
  lemma {:induction false} CutThenSweep(d0: Volume, d: Volume, d': Volume, uuid: string, n: Names, built: Outcome<Store>)
    requires uuid != "" && LiveOf(uuid) == "" && (n == RestoreNames(uuid) || n == ModpackNames(uuid))
    requires uuid in d0 && Safe(d0, d, n, built) && Swept(d, d')
    ensures uuid in d' ==> d'[uuid] == d0[uuid] || built == Ok(d'[uuid])
    ensures uuid !in d' ==> n.aside in d' && d'[n.aside] == d0[uuid]
  {
    AsideOf(uuid);
    assert uuid in d ==> Spared(d, uuid);
    assert uuid !in d ==> Spared(d, n.aside);
  }

  /** Any replacement, cut at any step, then one boot sweep over any listing. */
  method CutAndBoot(d0: Volume, uuid: string, n: Names, built: Outcome<Store>, s: Script, reopens: bool, cut: nat,
                    listing: seq<string>, found: string -> Leftover) returns (d: Volume)
    requires uuid != "" && LiveOf(uuid) == "" && (n == RestoreNames(uuid) || n == ModpackNames(uuid))
    requires uuid in d0
    ensures uuid in d ==> d[uuid] == d0[uuid] || built == Ok(d[uuid])
    ensures uuid !in d ==> n.aside in d && d[n.aside] == d0[uuid]
  {
    NamesDistinct(uuid);
    var r, end, seen := Replace(d0, n, built, s, reopens);
    var left := seen[if cut < |seen| then cut else |seen| - 1];
    d := SweepStaleOldDirs(left, listing, found);
    CutThenSweep(d0, left, d, uuid, n, built);
  }

  // ----- the boot after that -----

  /** Registering a server creates its live directory when it is missing. */
  function Register(d: Volume, uuid: string): Volume {
    if uuid in d then d else d[uuid := EMPTY]
  }

  /**
   The guarantee covers one boot. Registering recreates a missing live directory empty, and the next sweep
   then deletes the old tree: after two boots the server's data is intact exactly when the cut had left a
   live directory.
   */
  lemma {:induction false} SecondBoot(d0: Volume, d: Volume, d1: Volume, d2: Volume, uuid: string, n: Names,
                                      built: Outcome<Store>)
    requires uuid != "" && LiveOf(uuid) == "" && (n == RestoreNames(uuid) || n == ModpackNames(uuid))
    requires uuid in d0 && d0[uuid] != EMPTY && built != Ok(EMPTY) && Safe(d0, d, n, built)
    requires Swept(d, d1) && Swept(Register(d1, uuid), d2)
    requires n.aside !in d2
    ensures uuid in d2
    ensures d2[uuid] == d0[uuid] || built == Ok(d2[uuid]) <==> uuid in d
    ensures uuid !in d ==> d2[uuid] == EMPTY
  {
    AsideOf(uuid);
    assert uuid in d ==> Spared(d, uuid);
    assert Spared(Register(d1, uuid), uuid);
  }

  /** Two boots after a replacement whose renames into place both failed, the copy aged by the second one. */
  method LostAfterTwoBoots(d0: Volume, uuid: string, n: Names, incoming: Store, s: Script, reopens: bool)
      returns (first: Volume, second: Volume)
    requires uuid != "" && LiveOf(uuid) == "" && (n == RestoreNames(uuid) || n == ModpackNames(uuid))
    requires uuid in d0 && LosesLive(AsideCleared(d0, n, s), s)
    ensures uuid !in first && n.aside in first && first[n.aside] == d0[uuid]
    ensures uuid in second && second[uuid] == EMPTY && n.aside !in second
  {
    NamesDistinct(uuid);
    AsideOf(uuid);
    var r, d, seen := Replace(d0, n, Ok(incoming), s, reopens);
    assert Safe(d0, seen[|seen| - 1], n, Ok(incoming));
    first := Boot(d, n.aside);
    assert Spared(d, n.aside);
    var registered := Register(first, uuid);
    second := Boot(registered, n.aside);
    assert Spared(registered, uuid);
  }

  /** A boot sweep that finds one leftover, aged and deletable. */
  method Boot(d0: Volume, aside: string) returns (d: Volume)
    ensures Swept(d0, d)
    ensures Doomed(d0, aside, Leftover(true, Removal([], None))) ==> aside !in d
  {
    var aged := (name: string) => Leftover(true, Removal([], None));
    d := SweepStaleOldDirs(d0, [aside], aged);
    assert aside in [aside];
  }

  /** Such a replacement exists. */
  method LossWitness() returns (first: Volume, second: Volume)
    ensures "s.modpack-old" in first && first["s.modpack-old"] == Store(map[["world"] := "blocks"], {})
    ensures "s" in second && second["s"] == EMPTY && "s.modpack-old" !in second
  {
    var gone := Removal([], None);
    var script := Script(gone, gone, [], gone, false, false, true, true, false);
    var d0: Volume := map["s" := Store(map[["world"] := "blocks"], {})];
    assert ModpackNames("s").aside == "s.modpack-old";
    first, second := LostAfterTwoBoots(d0, "s", ModpackNames("s"), EMPTY, script, true);
  }
}
