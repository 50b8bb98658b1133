/**
 Refresh-token families: rotation with reuse detection, as in section 4.14.2 of RFC 9700.

 A request is one atomic step over the session table. Row ids, token hashes and families drawn for a new
 session are arguments, and are fresh as the database and the token generator make them.
 */
module RefreshSessions {
  import opened Text

  datatype Session = Session(user: nat, hash: string, family: nat, parent: Option<nat>, expiresAt: int, used: bool, revoked: bool)

  type Table = map<nat, Session>

  /** What a newly issued session draws. */
  datatype Draw = Draw(id: nat, hash: string, expiresAt: int)

  datatype Request =
    | Login(user: nat, family: nat, draw: Draw)
    | Refresh(hash: string, now: int, active: bool, draw: Draw)
    | Logout(session: nat)
    | LogoutAll(user: nat)

  /** A token that can still be exchanged. */
  predicate Usable(s: Session) {
    !s.used && !s.revoked
  }

  ghost predicate Presents(t: Table, id: nat, hash: string) {
    id in t && t[id].hash == hash
  }

  /** Ids and hashes are never reused, and a login starts a new family. */
  ghost predicate FreshDraw(t: Table, d: Draw) {
    d.id !in t && forall id :: id in t ==> t[id].hash != d.hash
  }

  ghost predicate Fresh(t: Table, r: Request) {
    match r
    case Login(_, family, d) => FreshDraw(t, d) && forall id :: id in t ==> t[id].family != family
    case Refresh(_, _, _, d) => FreshDraw(t, d)
    case Logout(_) => true
    case LogoutAll(_) => true
  }

  function RevokeFamily(t: Table, family: nat): Table {
    map id | id in t :: if t[id].family == family then t[id].(revoked := true) else t[id]
  }

  function RevokeUser(t: Table, user: nat): Table {
    map id | id in t :: if t[id].user == user then t[id].(revoked := true) else t[id]
  }

  function Issue(t: Table, user: nat, family: nat, parent: Option<nat>, d: Draw): Table {
    t[d.id := Session(user, d.hash, family, parent, d.expiresAt, false, false)]
  }

  /** One session is exchanged for its successor. */
  function Rotate(t: Table, id: nat, d: Draw): Table
    requires id in t
  {
    Issue(t[id := t[id].(used := true)], t[id].user, t[id].family, Some(id), d)
  }

  predicate Granted(s: Session, now: int, active: bool) {
    Usable(s) && s.expiresAt >= now && active
  }

  /** Hashes are unique, so a token names one session. */
  ghost predicate OneRowPerHash(t: Table) {
    forall i, j :: i in t && j in t && t[i].hash == t[j].hash ==> i == j
  }

  /** `t'` and `ok` are the table and the answer after the request. */
  ghost predicate Next(t: Table, r: Request, t': Table, ok: bool) {
    match r
    case Login(user, family, d) => t' == Issue(t, user, family, None, d) && ok
    case Refresh(hash, now, active, d) =>
      if id :| Presents(t, id, hash) then
        if !Usable(t[id]) then t' == RevokeFamily(t, t[id].family) && !ok
        else if !Granted(t[id], now, active) then t' == t && !ok
        else t' == Rotate(t, id, d) && ok
      else t' == t && !ok
    case Logout(session) => ok && t' == if session in t then t[session := t[session].(revoked := true)] else t
    case LogoutAll(user) => ok && t' == RevokeUser(t, user)
  }

  // ----- invariants of every run -----

  /** At most one session of a family can still be exchanged. */
  ghost predicate OneUsablePerFamily(t: Table) {
    forall i, j :: i in t && j in t && t[i].family == t[j].family && Usable(t[i]) && Usable(t[j]) ==> i == j
  }

  /** Every session but a family's first continues a used session of the same family and user. */
  ghost predicate Chained(t: Table) {
    forall i :: i in t && t[i].parent.Some? ==>
      var p := t[i].parent.value;
      p in t && t[p].used && t[p].family == t[i].family && t[p].user == t[i].user
  }

  ghost predicate Inv(t: Table) {
    OneRowPerHash(t) && OneUsablePerFamily(t) && Chained(t)
  }

  /** Revoking sessions keeps the invariant. */
  lemma {:induction false} RevokeKeeps(t: Table, t': Table)
    requires Inv(t) && t'.Keys == t.Keys
    requires forall id :: id in t ==> t'[id] == t[id] || t'[id] == t[id].(revoked := true)
    ensures Inv(t')
  {
  }

  lemma {:induction false} LoginKeeps(t: Table, user: nat, family: nat, d: Draw)
    requires Inv(t) && Fresh(t, Login(user, family, d))
    ensures Inv(Issue(t, user, family, None, d))
  {
  }

  lemma {:induction false} RotateKeeps(t: Table, id: nat, d: Draw)
    requires Inv(t) && id in t && Usable(t[id]) && FreshDraw(t, d)
    ensures Inv(Rotate(t, id, d))
  {
    var t' := Rotate(t, id, d);
    assert OneRowPerHash(t');
    assert OneUsablePerFamily(t');
    assert Chained(t');
  }

  lemma {:induction false} InvNext(t: Table, r: Request, t': Table, ok: bool)
    requires Inv(t) && Fresh(t, r) && Next(t, r, t', ok)
    ensures Inv(t')
  {
    match r
    case Login(user, family, d) => LoginKeeps(t, user, family, d);
    case Logout(_) => RevokeKeeps(t, t');
    case LogoutAll(_) => RevokeKeeps(t, t');
    case Refresh(hash, now, active, d) =>
      if id :| Presents(t, id, hash) {
        if !Usable(t[id]) {
          RevokeKeeps(t, t');
        } else if Granted(t[id], now, active) {
          RotateKeeps(t, id, d);
        }
      }
  }

  /** A granted refresh exchanges the session its token names. */
  lemma {:induction false} GrantedRotates(t: Table, r: Request, t': Table, ok: bool) returns (id: nat)
    requires Next(t, r, t', ok) && r.Refresh? && ok
    ensures Presents(t, id, r.hash) && Granted(t[id], r.now, r.active) && t' == Rotate(t, id, r.draw)
  {
    id :| Presents(t, id, r.hash) && Granted(t[id], r.now, r.active) && t' == Rotate(t, id, r.draw);
  }

  // ----- a family that saw a reuse is dead for good -----

  ghost predicate Dead(t: Table, family: nat) {
    forall id :: id in t && t[id].family == family ==> t[id].revoked
  }

  ghost predicate Known(t: Table, family: nat) {
    exists id :: id in t && t[id].family == family
  }

  /** Presenting a used or revoked token kills its family. */
  lemma {:induction false} ReuseKills(t: Table, r: Request, id: nat, t': Table, ok: bool)
    requires Inv(t) && Next(t, r, t', ok) && r.Refresh? && Presents(t, id, r.hash) && !Usable(t[id])
    ensures !ok && Dead(t', t[id].family) && Known(t', t[id].family)
  {
    assert id in t' && t'[id].family == t[id].family;
  }

  /** A dead family stays dead and answers no refresh. */
  lemma {:induction false} DeadStays(t: Table, r: Request, family: nat, t': Table, ok: bool)
    requires Inv(t) && Fresh(t, r) && Next(t, r, t', ok) && Dead(t, family) && Known(t, family)
    ensures Dead(t', family) && Known(t', family)
    ensures r.Refresh? && (exists id :: Presents(t, id, r.hash) && t[id].family == family) ==> !ok
  {
    KnownStays(t, r, family, t', ok);
    DeadKept(t, r, family, t', ok);
    if r.Refresh? && ok {
      var id := GrantedRotates(t, r, t', ok);
      assert t[id].family != family;
    }
  }

  /** Sessions are never deleted and never change family. */
  lemma {:induction false} KnownStays(t: Table, r: Request, family: nat, t': Table, ok: bool)
    requires Fresh(t, r) && Next(t, r, t', ok) && Known(t, family)
    ensures Known(t', family)
  {
    var k :| k in t && t[k].family == family;
    assert k in t' && t'[k].family == family;
  }

  lemma {:induction false} DeadKept(t: Table, r: Request, family: nat, t': Table, ok: bool)
    requires Fresh(t, r) && Next(t, r, t', ok) && Dead(t, family) && Known(t, family)
    ensures Dead(t', family)
  {
    if r.Refresh? && ok {
      var id := GrantedRotates(t, r, t', ok);
      RotateOther(t, id, r.draw, family);
    }
  }

  lemma {:induction false} RotateOther(t: Table, id: nat, d: Draw, family: nat)
    requires id in t && Usable(t[id]) && FreshDraw(t, d) && Dead(t, family)
    ensures t[id].family != family && Dead(Rotate(t, id, d), family)
  {
  }

  /** A run: tables, requests and answers, one step after the other. */
  ghost predicate IsRun(ts: seq<Table>, rs: seq<Request>, oks: seq<bool>) {
    && |ts| == |rs| + 1 && |oks| == |rs|
    && forall i :: 0 <= i < |rs| ==> Fresh(ts[i], rs[i]) && Next(ts[i], rs[i], ts[i + 1], oks[i])
  }

  lemma {:induction false} InvRun(ts: seq<Table>, rs: seq<Request>, oks: seq<bool>, n: nat)
    requires IsRun(ts, rs, oks) && Inv(ts[0]) && n <= |rs|
    ensures Inv(ts[n])
  {
    if n > 0 {
      InvRun(ts, rs, oks, n - 1);
      InvNext(ts[n - 1], rs[n - 1], ts[n], oks[n - 1]);
    }
  }

  lemma {:induction false} DeadRun(ts: seq<Table>, rs: seq<Request>, oks: seq<bool>, m: nat, n: nat, family: nat)
    requires IsRun(ts, rs, oks) && Inv(ts[0]) && m <= n <= |rs| && Dead(ts[m], family) && Known(ts[m], family)
    ensures Dead(ts[n], family) && Known(ts[n], family)
  {
    if m < n {
      DeadRun(ts, rs, oks, m, n - 1, family);
      InvRun(ts, rs, oks, n - 1);
      DeadStays(ts[n - 1], rs[n - 1], family, ts[n], oks[n - 1]);
    }
  }

  /** Once a used or revoked token is presented at step `m`, no token of its family refreshes at any later step. */
  lemma {:induction false} ReuseIsFinal(ts: seq<Table>, rs: seq<Request>, oks: seq<bool>, m: nat, n: nat, id: nat, later: nat)
    requires IsRun(ts, rs, oks) && Inv(ts[0]) && m < n < |rs|
    requires rs[m].Refresh? && Presents(ts[m], id, rs[m].hash) && !Usable(ts[m][id])
    requires rs[n].Refresh? && Presents(ts[n], later, rs[n].hash) && ts[n][later].family == ts[m][id].family
    ensures !oks[m] && !oks[n]
  {
    var family := ts[m][id].family;
    InvRun(ts, rs, oks, m);
    ReuseKills(ts[m], rs[m], id, ts[m + 1], oks[m]);
    DeadRun(ts, rs, oks, m + 1, n, family);
    InvRun(ts, rs, oks, n);
    DeadStays(ts[n], rs[n], family, ts[n + 1], oks[n]);
  }

  // ----- a token is exchanged at most once -----

  /** The row of a token stays, and once it is used or revoked it stays so. */
  lemma {:induction false} SpentStays(t: Table, r: Request, id: nat, t': Table, ok: bool)
    requires Inv(t) && Fresh(t, r) && Next(t, r, t', ok) && id in t
    ensures id in t' && t'[id].hash == t[id].hash && t'[id].family == t[id].family
    ensures !Usable(t[id]) ==> !Usable(t'[id])
  {
  }

  lemma {:induction false} SpentRun(ts: seq<Table>, rs: seq<Request>, oks: seq<bool>, m: nat, n: nat, id: nat)
    requires IsRun(ts, rs, oks) && Inv(ts[0]) && m <= n <= |rs| && id in ts[m] && !Usable(ts[m][id])
    ensures id in ts[n] && ts[n][id].hash == ts[m][id].hash && !Usable(ts[n][id])
  {
    if m < n {
      SpentRun(ts, rs, oks, m, n - 1, id);
      InvRun(ts, rs, oks, n - 1);
      SpentStays(ts[n - 1], rs[n - 1], id, ts[n], oks[n - 1]);
    }
  }

  /** Two refreshes with one token are never both granted. */
  lemma {:induction false} ExchangedOnce(ts: seq<Table>, rs: seq<Request>, oks: seq<bool>, m: nat, n: nat)
    requires IsRun(ts, rs, oks) && Inv(ts[0]) && m < n < |rs|
    requires rs[m].Refresh? && rs[n].Refresh? && rs[m].hash == rs[n].hash && oks[m]
    ensures !oks[n]
  {
    var id := GrantedRotates(ts[m], rs[m], ts[m + 1], oks[m]);
    assert id in ts[m + 1] && ts[m + 1][id].hash == rs[m].hash && !Usable(ts[m + 1][id]);
    SpentRun(ts, rs, oks, m + 1, n, id);
    InvRun(ts, rs, oks, n);
    ReuseKills(ts[n], rs[n], id, ts[n + 1], oks[n]);
  }

  // ----- when a refresh is granted -----

  /** The row of some session carries the hash, is neither used nor revoked, and has not expired. */
  ghost predicate Exchangeable(t: Table, hash: string, now: int) {
    exists id :: id in t && t[id].hash == hash && !t[id].used && !t[id].revoked && t[id].expiresAt >= now
  }

  /** A refresh is granted exactly to an active account whose token can still be exchanged. */
  lemma {:induction false} GrantedIff(t: Table, r: Request, t': Table, ok: bool)
    requires Inv(t) && Next(t, r, t', ok) && r.Refresh?
    ensures ok <==> r.active && Exchangeable(t, r.hash, r.now)
  {
    if ok {
      var id := GrantedRotates(t, r, t', ok);
    } else if Exchangeable(t, r.hash, r.now) {
      var id :| id in t && t[id].hash == r.hash && !t[id].used && !t[id].revoked && t[id].expiresAt >= r.now;
      assert Presents(t, id, r.hash);
    }
  }

  /** What a granted refresh writes: the presented row is used, and one new row continues it. */
  lemma {:induction false} RotationWrites(t: Table, r: Request, t': Table, id: nat)
    requires Inv(t) && Fresh(t, r) && Next(t, r, t', true) && r.Refresh? && id in t && t[id].hash == r.hash
    ensures r.draw.id in t'
      && t'[r.draw.id] == Session(t[id].user, r.draw.hash, t[id].family, Some(id), r.draw.expiresAt, false, false)
    ensures t'.Keys == t.Keys + {r.draw.id} && t'[id] == t[id].(used := true)
    ensures forall k :: k in t && k != id ==> t'[k] == t[k]
  {
    var k := GrantedRotates(t, r, t', true);
    assert k == id;
  }

  /** The columns of a row that no request changes. */
  lemma {:induction false} RowStays(t: Table, r: Request, id: nat, t': Table, ok: bool)
    requires Fresh(t, r) && Next(t, r, t', ok) && id in t
    ensures id in t' && t'[id].hash == t[id].hash && t'[id].user == t[id].user && t'[id].expiresAt == t[id].expiresAt
    ensures t[id].revoked ==> t'[id].revoked
  {
  }

  lemma {:induction false} RowRun(ts: seq<Table>, rs: seq<Request>, oks: seq<bool>, m: nat, n: nat, id: nat)
    requires IsRun(ts, rs, oks) && m <= n <= |rs| && id in ts[m]
    ensures id in ts[n] && ts[n][id].hash == ts[m][id].hash && ts[n][id].user == ts[m][id].user
    ensures ts[n][id].expiresAt == ts[m][id].expiresAt && (ts[m][id].revoked ==> ts[n][id].revoked)
  {
    if m < n {
      RowRun(ts, rs, oks, m, n - 1, id);
      RowStays(ts[n - 1], rs[n - 1], id, ts[n], oks[n - 1]);
    }
  }

  /** A token issued at step `m` is never exchanged after the time it was issued until. */
  lemma {:induction false} NeverAfterExpiry(ts: seq<Table>, rs: seq<Request>, oks: seq<bool>, m: nat, n: nat)
    requires IsRun(ts, rs, oks) && Inv(ts[0]) && m < n < |rs| && Issues(rs[m], oks[m])
    requires rs[n].Refresh? && rs[n].hash == rs[m].draw.hash && rs[n].now > rs[m].draw.expiresAt
    ensures !oks[n]
  {
    var id := Issued(ts, rs, oks, m);
    RowRun(ts, rs, oks, m + 1, n, id);
    InvRun(ts, rs, oks, n);
    GrantedIff(ts[n], rs[n], ts[n + 1], oks[n]);
  }

  /** The request issues a session. */
  predicate Issues(r: Request, ok: bool) {
    r.Login? || (r.Refresh? && ok)
  }

  lemma {:induction false} Issued(ts: seq<Table>, rs: seq<Request>, oks: seq<bool>, m: nat) returns (id: nat)
    requires IsRun(ts, rs, oks) && Inv(ts[0]) && m < |rs| && Issues(rs[m], oks[m])
    ensures id == rs[m].draw.id && id in ts[m + 1]
    ensures var s := ts[m + 1][id];
      s.hash == rs[m].draw.hash && s.expiresAt == rs[m].draw.expiresAt && !s.used && !s.revoked
  {
    id := rs[m].draw.id;
    if rs[m].Refresh? {
      var k := GrantedRotates(ts[m], rs[m], ts[m + 1], oks[m]);
    }
  }

  lemma {:induction false} RevokedIsRefused(ts: seq<Table>, rs: seq<Request>, oks: seq<bool>, m: nat, n: nat, id: nat)
    requires IsRun(ts, rs, oks) && Inv(ts[0]) && m <= n < |rs| && id in ts[m] && ts[m][id].revoked
    requires rs[n].Refresh? && rs[n].hash == ts[m][id].hash
    ensures !oks[n]
  {
    RowRun(ts, rs, oks, m, n, id);
    InvRun(ts, rs, oks, n);
    GrantedIff(ts[n], rs[n], ts[n + 1], oks[n]);
  }

  /** After a logout no token of that session is exchanged, and after a logout everywhere none of that user's. */
  lemma {:induction false} NeverAfterLogout(ts: seq<Table>, rs: seq<Request>, oks: seq<bool>, m: nat, n: nat, id: nat)
    requires IsRun(ts, rs, oks) && Inv(ts[0]) && m < n < |rs| && id in ts[m]
    requires rs[m] == Logout(id) || rs[m] == LogoutAll(ts[m][id].user)
    requires rs[n].Refresh? && rs[n].hash == ts[m][id].hash
    ensures !oks[n]
  {
    RowStays(ts[m], rs[m], id, ts[m + 1], oks[m]);
    RevokedIsRefused(ts, rs, oks, m + 1, n, id);
  }

  /** The requests that end a usable session: its logout, its user's, its own exchange, or a reuse in its family. */
  ghost predicate Ends(t: Table, r: Request, id: nat)
    requires id in t
  {
    match r
    case Login(_, _, _) => false
    case Logout(session) => session == id
    case LogoutAll(user) => user == t[id].user
    case Refresh(hash, now, active, _) =>
      || (hash == t[id].hash && t[id].expiresAt >= now && active)
      || exists k :: k in t && t[k].hash == hash && t[k].family == t[id].family && (t[k].used || t[k].revoked)
  }

  lemma {:induction false} UsableUntilEnded(t: Table, r: Request, id: nat, t': Table, ok: bool)
    requires Inv(t) && Fresh(t, r) && Next(t, r, t', ok) && id in t && !t[id].used && !t[id].revoked
    ensures id in t' && (!t'[id].used && !t'[id].revoked <==> !Ends(t, r, id))
  {
    RowStays(t, r, id, t', ok);
    if r.Refresh? {
      RefreshEnds(t, r, id, t', ok);
    }
  }

  lemma {:induction false} RefreshEnds(t: Table, r: Request, id: nat, t': Table, ok: bool)
    requires Inv(t) && Fresh(t, r) && Next(t, r, t', ok) && r.Refresh? && id in t && !t[id].used && !t[id].revoked
    ensures id in t' && (!t'[id].used && !t'[id].revoked <==> !Ends(t, r, id))
  {
    assert forall k :: k in t && t[k].hash == r.hash ==> Presents(t, k, r.hash);
    if k :| Presents(t, k, r.hash) {
      assert forall j :: j in t && t[j].hash == r.hash ==> j == k;
      if k == id {
        assert t' == t || t' == Rotate(t, id, r.draw);
      }
    }
  }

  lemma {:induction false} UsableRun(ts: seq<Table>, rs: seq<Request>, oks: seq<bool>, m: nat, n: nat, id: nat)
    requires IsRun(ts, rs, oks) && Inv(ts[0]) && m <= n <= |rs| && id in ts[m] && !ts[m][id].used && !ts[m][id].revoked
    requires forall k :: m <= k < n ==> id in ts[k] && !Ends(ts[k], rs[k], id)
    ensures id in ts[n] && !ts[n][id].used && !ts[n][id].revoked
  {
    if m < n {
      UsableRun(ts, rs, oks, m, n - 1, id);
      InvRun(ts, rs, oks, n - 1);
      UsableUntilEnded(ts[n - 1], rs[n - 1], id, ts[n], oks[n - 1]);
    }
  }

  /** A token presented in time, by an active account, with nothing ending its session in between, is exchanged. */
  lemma {:induction false} FreshTokenIsGranted(ts: seq<Table>, rs: seq<Request>, oks: seq<bool>, m: nat, n: nat)
    requires IsRun(ts, rs, oks) && Inv(ts[0]) && m < n < |rs| && Issues(rs[m], oks[m])
    requires forall k :: m < k < n ==> rs[m].draw.id in ts[k] && !Ends(ts[k], rs[k], rs[m].draw.id)
    requires rs[n].Refresh? && rs[n].hash == rs[m].draw.hash && rs[n].now <= rs[m].draw.expiresAt && rs[n].active
    ensures oks[n]
  {
    var id := Issued(ts, rs, oks, m);
    UsableRun(ts, rs, oks, m + 1, n, id);
    RowRun(ts, rs, oks, m + 1, n, id);
    InvRun(ts, rs, oks, n);
    GrantedIff(ts[n], rs[n], ts[n + 1], oks[n]);
  }

  // ----- the service -----

  class AuthService {
    var sessions: Table

    constructor ()
      ensures sessions == map[] && Inv(sessions)
    {
      sessions := map[];
    }

    method IssueSession(user: nat, family: nat, parent: Option<nat>, d: Draw)
      modifies this
      ensures sessions == Issue(old(sessions), user, family, parent, d)
    {
      sessions := sessions[d.id := Session(user, d.hash, family, parent, d.expiresAt, false, false)];
    }

    method LogIn(user: nat, family: nat, d: Draw)
      requires Inv(sessions) && Fresh(sessions, Login(user, family, d))
      modifies this
      ensures Next(old(sessions), Login(user, family, d), sessions, true) && Inv(sessions)
    {
      IssueSession(user, family, None, d);
      InvNext(old(sessions), Login(user, family, d), sessions, true);
    }

    method FindByHash(hash: string) returns (r: Option<nat>)
      ensures r.Some? ==> Presents(sessions, r.value, hash)
      ensures r.None? ==> forall id :: !Presents(sessions, id, hash)
    {
      var found := set id | id in sessions && sessions[id].hash == hash;
      if found == {} {
        assert forall id :: Presents(sessions, id, hash) ==> id in found;
        return None;
      }
      var id :| id in found;
      return Some(id);
    }

    method RevokeSessions(family: nat)
      modifies this
      ensures sessions == RevokeFamily(old(sessions), family)
    {
      sessions := map k | k in sessions ::
        if sessions[k].family == family && !sessions[k].revoked then sessions[k].(revoked := true) else sessions[k];
    }

    /** refresh: find the session by its token's hash, detect reuse, check expiry and account, rotate. */
    method RefreshToken(hash: string, now: int, active: bool, d: Draw) returns (ok: bool)
      requires Inv(sessions) && FreshDraw(sessions, d)
      modifies this
      ensures Next(old(sessions), Refresh(hash, now, active, d), sessions, ok) && Inv(sessions)
      ensures ok <==> active && exists id :: (id in old(sessions) && old(sessions)[id].hash == hash
        && !old(sessions)[id].used && !old(sessions)[id].revoked && old(sessions)[id].expiresAt >= now)
    {
      ghost var r := Refresh(hash, now, active, d);
      var found := FindByHash(hash);
      if found.None? {
        assert forall k :: k in sessions && sessions[k].hash == hash ==> Presents(sessions, k, hash);
        return false;
      }
      var id, session := found.value, sessions[found.value];
      if session.used || session.revoked {
        RevokeSessions(session.family);
        InvNext(old(sessions), r, sessions, false);
        return false;
      }
      if session.expiresAt < now || !active {
        return false;
      }
      sessions := sessions[id := session.(used := true)];
      IssueSession(session.user, session.family, Some(id), d);
      InvNext(old(sessions), r, sessions, true);
      return true;
    }

    method LogOut(session: nat)
      requires Inv(sessions)
      modifies this
      ensures Next(old(sessions), Logout(session), sessions, true) && Inv(sessions)
    {
      if session in sessions {
        sessions := sessions[session := sessions[session].(revoked := true)];
      }
      InvNext(old(sessions), Logout(session), sessions, true);
    }

    method LogOutAll(user: nat)
      requires Inv(sessions)
      modifies this
      ensures Next(old(sessions), LogoutAll(user), sessions, true) && Inv(sessions)
    {
      sessions := RevokeUser(sessions, user);
      InvNext(old(sessions), LogoutAll(user), sessions, true);
    }
  }
}
