/** Sessions, idle cut-off and revocation. */
module Sessions {
  import opened Wrappers

  datatype Revocation = Revocation(at: int, reason: string)

  /** A row of the sessions table; moments are milliseconds. */
  datatype Session = Session(
    id: string,
    user: string,
    tokenHash: string,
    lastSeen: int,
    expires: int,
    revoked: Option<Revocation>)

  const MINUTE := 60_000

  const IDLE := "idle_timeout"

  /** Ids and token hashes are unique columns. */
  ghost predicate Keyed(rows: seq<Session>) {
    forall i, j :: 0 <= i < j < |rows| ==> rows[i].id != rows[j].id && rows[i].tokenHash != rows[j].tokenHash
  }

  /** The first row with a token hash, or the number of rows if there is none. */
  function Find(rows: seq<Session>, hash: string): (n: nat)
    ensures n <= |rows|
    ensures n < |rows| ==> rows[n].tokenHash == hash
    ensures forall i :: 0 <= i < n ==> rows[i].tokenHash != hash
  {
    if rows == [] || rows[0].tokenHash == hash then 0 else 1 + Find(rows[1..], hash)
  }

  predicate IsPast(moment: int, now: int) { moment < now }

  // ---- One session -------------------------------------------------------------------------

  predicate IdleFor(s: Session, minutes: int, now: int) {
    minutes > 0 && IsPast(s.lastSeen + minutes * MINUTE, now)
  }

  /** What a request with its token does to a session, and whether it is let in. */
  function Request(s: Session, envIdle: int, policyIdle: int, now: int): (Session, bool) {
    if s.revoked.Some? || IsPast(s.expires, now) then (s, false)
    else if IdleFor(s, envIdle, now) || IdleFor(s, policyIdle, now) then
      (s.(revoked := Some(Revocation(now, IDLE))), false)
    else (if now - s.lastSeen < MINUTE then s else s.(lastSeen := now), true)
  }

  // ---- The table ---------------------------------------------------------------------------

  datatype Op =
    | Create(session: Session)
    | Authenticate(token: Option<string>, envIdle: int, policyIdle: int, now: int)
    | Revoke(id: string, reason: string, now: int)
    | RevokeAll(user: string, except: Option<string>, reason: string, now: int)
    | Touch(read: Session, now: int)

  function RevokeById(rows: seq<Session>, id: string, r: Revocation): (after: seq<Session>)
    ensures |after| == |rows|
    ensures forall k :: 0 <= k < |rows| ==>
              after[k] == if rows[k].id == id then rows[k].(revoked := Some(r)) else rows[k]
  {
    seq(|rows|, k requires 0 <= k < |rows| => if rows[k].id == id then rows[k].(revoked := Some(r)) else rows[k])
  }

  function SeenById(rows: seq<Session>, id: string, now: int): (after: seq<Session>)
    ensures |after| == |rows|
    ensures forall k :: 0 <= k < |rows| ==> after[k] == if rows[k].id == id then rows[k].(lastSeen := now) else rows[k]
  {
    seq(|rows|, k requires 0 <= k < |rows| => if rows[k].id == id then rows[k].(lastSeen := now) else rows[k])
  }

  /** The session to keep, if one is named. */
  predicate Spared(s: Session, except: Option<string>) { except.Some? && except.value != "" && s.id == except.value }

  /** Signed out: the user's sessions that are not revoked yet, apart from the one kept. */
  predicate SignedOut(s: Session, user: string, except: Option<string>) {
    s.user == user && s.revoked == None && !Spared(s, except)
  }

  function RevokeUser(rows: seq<Session>, user: string, except: Option<string>, r: Revocation): (after: seq<Session>)
    ensures |after| == |rows|
    ensures forall k :: 0 <= k < |rows| ==>
              after[k] == if SignedOut(rows[k], user, except) then rows[k].(revoked := Some(r)) else rows[k]
  {
    seq(|rows|, k requires 0 <= k < |rows| =>
      if SignedOut(rows[k], user, except) then rows[k].(revoked := Some(r)) else rows[k])
  }

  predicate Free(rows: seq<Session>, s: Session) {
    forall k :: 0 <= k < |rows| ==> rows[k].id != s.id && rows[k].tokenHash != s.tokenHash
  }

  /** The table after an operation, and the session a request is let in with. */
  function Step(rows: seq<Session>, op: Op): (seq<Session>, Option<Session>) {
    match op
    case Create(s) =>
      if Free(rows, s) then (rows + [s.(revoked := None)], None) else (rows, None)
    case Authenticate(token, envIdle, policyIdle, now) =>
      if token == None || Find(rows, token.value) == |rows| then (rows, None)
      else
        var n := Find(rows, token.value);
        var (after, letIn) := Request(rows[n], envIdle, policyIdle, now);
        (rows[n := after], if letIn then Some(rows[n]) else None)
    case Revoke(id, reason, now) => (RevokeById(rows, id, Revocation(now, reason)), None)
    case RevokeAll(user, except, reason, now) => (RevokeUser(rows, user, except, Revocation(now, reason)), None)
    case Touch(read, now) => (Touched(rows, read, now), None)
  }

  /** The heartbeat, decided by the row as it was read and written by its id. */
  function Touched(rows: seq<Session>, read: Session, now: int): seq<Session> {
    if now - read.lastSeen < MINUTE then rows else SeenById(rows, read.id, now)
  }

  /** The places of a user's sessions that are not revoked. */
  function LiveOf(rows: seq<Session>, user: string): set<nat> {
    set k: nat | k < |rows| && rows[k].user == user && rows[k].revoked == None
  }

  /** Those signed out are live ones, and are so no more. */
  lemma LostAreLive(rows: seq<Session>, user: string, except: Option<string>, r: Revocation, lost: set<nat>)
    requires forall k: nat :: k in lost <==> k < |rows| && SignedOut(rows[k], user, except)
    ensures var after := RevokeUser(rows, user, except, r);
      && |lost| == |LiveOf(rows, user)| - |LiveOf(after, user)|
      && (forall k :: k in LiveOf(after, user) <==> k in LiveOf(rows, user) && Spared(rows[k], except))
      && (forall k :: 0 <= k < |rows| && after[k] != rows[k] ==>
            k in LiveOf(rows, user) && after[k] == rows[k].(revoked := Some(r)))
  {
    var after := RevokeUser(rows, user, except, r);
    forall k: nat ensures k in LiveOf(after, user) <==> k in LiveOf(rows, user) && k !in lost {}
    assert LiveOf(after, user) == LiveOf(rows, user) - lost && lost <= LiveOf(rows, user);
  }

  class Table {
    var rows: seq<Session>

    constructor ()
      ensures rows == []
    {
      rows := [];
    }

    method Create(s: Session)
      requires Keyed(rows)
      modifies this
      ensures Keyed(rows) && rows == Step(old(rows), Op.Create(s)).0
    {
      if Free(rows, s) { rows := rows + [s.(revoked := None)]; }
    }

    /** Every row with the id is revoked, for this reason and from now on; every other is as it was. */
    method RevokeSession(id: string, reason: string, now: int)
      modifies this
      ensures rows == Step(old(rows), Op.Revoke(id, reason, now)).0
      ensures |rows| == |old(rows)|
      ensures forall k :: 0 <= k < |rows| ==>
                if old(rows)[k].id == id then rows[k] == old(rows)[k].(revoked := Some(Revocation(now, reason)))
                else rows[k] == old(rows)[k]
    {
      rows := RevokeById(rows, id, Revocation(now, reason));
    }

    /**
     Afterwards the user has no live session but the one to keep; sessions of others, and those
     revoked before, are as they were; the answer is how many live sessions the user lost.
     */
    method RevokeAllUserSessions(user: string, except: Option<string>, reason: string, now: int) returns (changes: nat)
      modifies this
      ensures rows == Step(old(rows), Op.RevokeAll(user, except, reason, now)).0
      ensures |rows| == |old(rows)|
      ensures forall k :: k in LiveOf(rows, user) <==> k in LiveOf(old(rows), user) && Spared(old(rows)[k], except)
      ensures forall k :: 0 <= k < |rows| && rows[k] != old(rows)[k] ==>
                k in LiveOf(old(rows), user) && rows[k] == old(rows)[k].(revoked := Some(Revocation(now, reason)))
      ensures changes == |LiveOf(old(rows), user)| - |LiveOf(rows, user)|
    {
      var lost := set k: nat | k < |rows| && SignedOut(rows[k], user, except);
      LostAreLive(rows, user, except, Revocation(now, reason), lost);
      rows := RevokeUser(rows, user, except, Revocation(now, reason));
      return |lost|;
    }

    method ResolveSession(token: Option<string>, idleMinutes: int, now: int) returns (r: Option<Session>)
      requires Keyed(rows)
      modifies this
      ensures token == None || Find(old(rows), token.value) == |old(rows)| ==> rows == old(rows) && r == None
      ensures token.Some? && Find(old(rows), token.value) < |old(rows)| ==>
                var n := Find(old(rows), token.value);
                var s := old(rows)[n];
                if s.revoked.Some? || IsPast(s.expires, now) then rows == old(rows) && r == None
                else if IdleFor(s, idleMinutes, now) then
                  rows == old(rows)[n := s.(revoked := Some(Revocation(now, IDLE)))] && r == None
                else rows == old(rows) && r == Some(s)
    {
      if token == None { return None; }
      var n := Find(rows, token.value);
      if n == |rows| { return None; }
      var session := rows[n];
      if session.revoked.Some? { return None; }
      if IsPast(session.expires, now) { return None; }
      if idleMinutes > 0 {
        var idleDeadline := session.lastSeen + idleMinutes * MINUTE;
        if IsPast(idleDeadline, now) {
          RevokeSession(session.id, IDLE, now);
          return None;
        }
      }
      return Some(session);
    }

    /** The session given is the row as it was read, and may have changed since. */
    method TouchSession(session: Session, now: int)
      modifies this
      ensures rows == Step(old(rows), Op.Touch(session, now)).0
      ensures |rows| == |old(rows)|
      ensures forall k :: 0 <= k < |rows| ==>
                if old(rows)[k].id == session.id && now - session.lastSeen >= MINUTE then
                  rows[k] == old(rows)[k].(lastSeen := now)
                else rows[k] == old(rows)[k]
    {
      if now - session.lastSeen < MINUTE { return; }
      rows := SeenById(rows, session.id, now);
    }

    /** The session half of authenticating a request. */
    method Authenticate(token: Option<string>, envIdle: int, policyIdle: int, now: int) returns (r: Option<Session>)
      requires Keyed(rows)
      modifies this
      ensures (rows, r) == Step(old(rows), Op.Authenticate(token, envIdle, policyIdle, now))
    {
      var session := ResolveSession(token, envIdle, now);
      assert forall n :: 0 <= n < |old(rows)| ==> old(rows)[n := old(rows)[n]] == old(rows);
      if session == None { return None; }
      assert rows == old(rows);
      if policyIdle > 0 && IsPast(session.value.lastSeen + policyIdle * MINUTE, now) {
        RevokeSession(session.value.id, IDLE, now);
        ghost var n := Find(old(rows), token.value);
        assert rows == old(rows)[n := session.value.(revoked := Some(Revocation(now, IDLE)))];
        return None;
      }
      ghost var n := Find(old(rows), token.value);
      ghost var s := session.value;
      TouchSession(session.value, now);
      assert rows == old(rows)[n := if now - s.lastSeen < MINUTE then s else s.(lastSeen := now)];
      return session;
    }
  }

  // ---- What every run keeps ----------------------------------------------------------------

  function Run(rows: seq<Session>, ops: seq<Op>): seq<Session>
    decreases |ops|
  {
    if ops == [] then rows else Run(Step(rows, ops[0]).0, ops[1..])
  }

  lemma StepKeeps(rows: seq<Session>, op: Op, n: nat)
    requires Keyed(rows) && n < |rows|
    ensures var after := Step(rows, op).0;
      && Keyed(after) && n < |after|
      && after[n].tokenHash == rows[n].tokenHash && after[n].id == rows[n].id
      && (rows[n].revoked.Some? ==> after[n].revoked.Some?)
  {
    if !op.Create? { SameKeys(rows, Step(rows, op).0); }
  }

  lemma SameKeys(rows: seq<Session>, after: seq<Session>)
    requires Keyed(rows) && |after| == |rows|
    requires forall k :: 0 <= k < |rows| ==> after[k].id == rows[k].id && after[k].tokenHash == rows[k].tokenHash
    ensures Keyed(after)
  {
  }

  lemma Found(rows: seq<Session>, n: nat)
    requires Keyed(rows) && n < |rows|
    ensures Find(rows, rows[n].tokenHash) == n
  {
  }

  lemma {:induction false} RunKeeps(rows: seq<Session>, ops: seq<Op>, n: nat)
    requires Keyed(rows) && n < |rows|
    ensures var after := Run(rows, ops);
      && Keyed(after) && n < |after|
      && after[n].tokenHash == rows[n].tokenHash
      && (rows[n].revoked.Some? ==> after[n].revoked.Some?)
    decreases |ops|
  {
    if ops != [] {
      StepKeeps(rows, ops[0], n);
      RunKeeps(Step(rows, ops[0]).0, ops[1..], n);
    }
  }

  /** Whatever happens after a session was revoked, its token never lets anybody in again. */
  lemma RevokedForGood(rows: seq<Session>, n: nat, ops: seq<Op>, envIdle: int, policyIdle: int, now: int)
    requires Keyed(rows) && n < |rows| && rows[n].revoked.Some?
    ensures Step(Run(rows, ops), Op.Authenticate(Some(rows[n].tokenHash), envIdle, policyIdle, now)).1 == None
  {
    RunKeeps(rows, ops, n);
    Found(Run(rows, ops), n);
  }

  /** A session signed out by its id: its token never lets anybody in again, and others are as they were. */
  lemma SignedOutById(rows: seq<Session>, id: string, reason: string, at: int, n: nat,
                      ops: seq<Op>, envIdle: int, policyIdle: int, now: int)
    requires Keyed(rows) && n < |rows|
    ensures var after := Step(rows, Op.Revoke(id, reason, at)).0;
      if rows[n].id == id then
        Step(Run(after, ops), Op.Authenticate(Some(rows[n].tokenHash), envIdle, policyIdle, now)).1 == None
      else after[n] == rows[n]
  {
    var op := Op.Revoke(id, reason, at);
    StepKeeps(rows, op, n);
    if rows[n].id == id { RevokedForGood(Step(rows, op).0, n, ops, envIdle, policyIdle, now); }
  }

  /**
   Signing a user out everywhere: afterwards none of their tokens lets anybody in again, whatever
   happens, except the one that was kept; sessions of other users are as they were.
   */
  lemma SignedOutEverywhere(rows: seq<Session>, user: string, except: Option<string>, reason: string, at: int, n: nat,
                            ops: seq<Op>, envIdle: int, policyIdle: int, now: int)
    requires Keyed(rows) && n < |rows|
    ensures var after := Step(rows, Op.RevokeAll(user, except, reason, at)).0;
      if rows[n].user == user && !(except.Some? && except.value != "" && rows[n].id == except.value) then
        Step(Run(after, ops), Op.Authenticate(Some(rows[n].tokenHash), envIdle, policyIdle, now)).1 == None
      else after[n] == rows[n]
  {
    var op := Op.RevokeAll(user, except, reason, at);
    StepKeeps(rows, op, n);
    var after := Step(rows, op).0;
    if rows[n].user == user && !Spared(rows[n], except) {
      RevokedForGood(after, n, ops, envIdle, policyIdle, now);
    }
  }

  /** An operation concerns a session only through its token, its id or its user. */
  predicate Concerns(op: Op, s: Session) {
    match op
    case Create(_) => false
    case Authenticate(token, _, _, _) => token == Some(s.tokenHash)
    case Revoke(id, _, _) => id == s.id
    case RevokeAll(user, _, _, _) => user == s.user
    case Touch(read, _) => read.id == s.id
  }

  /** So a session only moves by requests with its own token, their heartbeats, and by being revoked. */
  lemma OnlyItsOwnRequests(rows: seq<Session>, op: Op, n: nat)
    requires Keyed(rows) && n < |rows|
    ensures !Concerns(op, rows[n]) ==> Step(rows, op).0[n] == rows[n]
    ensures Concerns(op, rows[n]) && op.Authenticate? ==>
              Step(rows, op).0[n] == Request(rows[n], op.envIdle, op.policyIdle, op.now).0
              && (Step(rows, op).1 == Some(rows[n]) <==> Request(rows[n], op.envIdle, op.policyIdle, op.now).1)
  {
    Found(rows, n);
  }

  // ---- The heartbeat bound -----------------------------------------------------------------

  /** The stricter of the limits that are set, in milliseconds; 0 if neither is. */
  function Limit(envIdle: int, policyIdle: int): int {
    if envIdle > 0 && (policyIdle <= 0 || envIdle <= policyIdle) then envIdle * MINUTE
    else if policyIdle > 0 then policyIdle * MINUTE
    else 0
  }

  lemma StricterWins(s: Session, envIdle: int, policyIdle: int, now: int)
    ensures IdleFor(s, envIdle, now) || IdleFor(s, policyIdle, now)
            <==> Limit(envIdle, policyIdle) > 0 && s.lastSeen + Limit(envIdle, policyIdle) < now
  {
  }

  /** A session after requests at the given moments, and whether every one of them was let in. */
  function Beats(s: Session, envIdle: int, policyIdle: int, times: seq<int>): (Session, bool)
    decreases |times|
  {
    if times == [] then (s, true)
    else
      var (first, letIn) := Request(s, envIdle, policyIdle, times[0]);
      var (last, rest) := Beats(first, envIdle, policyIdle, times[1..]);
      (last, letIn && rest)
  }

  /** The moment before one of a list that comes after a first one. */
  function Previous(from: int, times: seq<int>, k: nat): int
    requires k <= |times|
  {
    if k == 0 then from else times[k - 1]
  }

  /** Moments in order from a first one on, no two further apart than the gap. */
  predicate Regular(from: int, times: seq<int>, gap: int) {
    forall k :: 0 <= k < |times| ==> 0 <= times[k] - Previous(from, times, k) <= gap
  }

  /** A session somebody has just opened. */
  predicate Opened(s: Session, at: int) { s.revoked == None && s.lastSeen == at }

  lemma {:induction false} KeptAlive(s: Session, last: int, envIdle: int, policyIdle: int, times: seq<int>, gap: nat)
    requires s.revoked == None && last - (MINUTE - 1) <= s.lastSeen <= last
    requires Regular(last, times, gap) && (forall k :: 0 <= k < |times| ==> times[k] <= s.expires)
    requires Limit(envIdle, policyIdle) > 0 ==> gap <= Limit(envIdle, policyIdle) - (MINUTE - 1)
    ensures Beats(s, envIdle, policyIdle, times).1
    decreases |times|
  {
    if times != [] {
      StricterWins(s, envIdle, policyIdle, times[0]);
      var next := Request(s, envIdle, policyIdle, times[0]).0;
      assert 0 <= times[0] - Previous(last, times, 0) <= gap;
      forall k | 0 <= k < |times| - 1
        ensures times[1..][k] == times[k + 1] && Previous(times[0], times[1..], k) == Previous(last, times, k + 1) {}
      KeptAlive(next, times[0], envIdle, policyIdle, times[1..], gap);
    }
  }

  /** One request every millisecond until the last moment the heartbeat is not written. */
  function Ticks(n: nat): (times: seq<int>)
    ensures |times| == n && forall k :: 0 <= k < n ==> times[k] == k + 1
  {
    seq(n, k => k + 1)
  }

  lemma {:induction false} TicksAreNotWritten(s: Session, envIdle: int, policyIdle: int, times: seq<int>, late: int)
    requires Opened(s, 0) && s.expires >= late && late > Limit(envIdle, policyIdle) > 0
    requires forall k :: 0 <= k < |times| ==> 0 <= times[k] < MINUTE <= Limit(envIdle, policyIdle)
    requires late >= MINUTE
    ensures !Beats(s, envIdle, policyIdle, times + [late]).1
    decreases |times|
  {
    var all := times + [late];
    StricterWins(s, envIdle, policyIdle, all[0]);
    if times != [] {
      assert all[0] == times[0] && all[1..] == times[1..] + [late];
      assert Request(s, envIdle, policyIdle, all[0]) == (s, true);
      TicksAreNotWritten(s, envIdle, policyIdle, times[1..], late);
    }
  }

  /** No session is ever cut off while its requests come at least every `gap` milliseconds. */
  ghost predicate NeverCutOff(envIdle: int, policyIdle: int, gap: nat) {
    forall s: Session, at: int, times: seq<int> ::
      Opened(s, at) && Regular(at, times, gap) && (forall k :: 0 <= k < |times| ==> times[k] <= s.expires) ==>
        Beats(s, envIdle, policyIdle, times).1
  }

  /**
   The exact price of writing the heartbeat only once a minute: requests that come at least every
   `gap` milliseconds keep every session alive until it expires if and only if the gap is at most
   the idle limit less 59 999.
   */
  lemma HeartbeatBound(envIdle: int, policyIdle: int, gap: nat)
    requires Limit(envIdle, policyIdle) > 0
    ensures NeverCutOff(envIdle, policyIdle, gap) <==> gap <= Limit(envIdle, policyIdle) - (MINUTE - 1)
  {
    var limit := Limit(envIdle, policyIdle);
    if gap <= limit - (MINUTE - 1) {
      forall s: Session, at: int, times: seq<int>
        | Opened(s, at) && Regular(at, times, gap) && (forall k :: 0 <= k < |times| ==> times[k] <= s.expires)
        ensures Beats(s, envIdle, policyIdle, times).1
      {
        KeptAlive(s, at, envIdle, policyIdle, times, gap);
      }
    } else {
      var ticks, late := Ticks(MINUTE - 1), MINUTE - 1 + gap;
      var s := Session("s", "u", "h", 0, late, None);
      assert limit >= MINUTE;
      TicksAreNotWritten(s, envIdle, policyIdle, ticks, late);
      assert Regular(0, ticks + [late], gap);
      assert !Beats(s, envIdle, policyIdle, ticks + [late]).1;
    }
  }

  lemma {:induction false} SeenByLastRequest(s: Session, last: int, envIdle: int, policyIdle: int, times: seq<int>)
    requires s.lastSeen <= last
    requires forall k :: 0 <= k < |times| ==> times[k] >= Previous(last, times, k)
    ensures Beats(s, envIdle, policyIdle, times).0.lastSeen <= Previous(last, times, |times|)
    decreases |times|
  {
    if times != [] {
      assert times[0] >= Previous(last, times, 0);
      forall k | 0 <= k < |times| - 1
        ensures times[1..][k] == times[k + 1] && Previous(times[0], times[1..], k) == Previous(last, times, k + 1) {}
      SeenByLastRequest(Request(s, envIdle, policyIdle, times[0]).0, times[0], envIdle, policyIdle, times[1..]);
    }
  }

  /** A silence longer than the limit is never survived: the next request is not let in. */
  lemma SilenceIsCutOff(s: Session, at: int, envIdle: int, policyIdle: int, times: seq<int>, now: int)
    requires s.lastSeen <= at && Limit(envIdle, policyIdle) > 0
    requires forall k :: 0 <= k < |times| ==> times[k] >= Previous(at, times, k)
    requires now - Previous(at, times, |times|) > Limit(envIdle, policyIdle)
    ensures !Request(Beats(s, envIdle, policyIdle, times).0, envIdle, policyIdle, now).1
  {
    SeenByLastRequest(s, at, envIdle, policyIdle, times);
    StricterWins(Beats(s, envIdle, policyIdle, times).0, envIdle, policyIdle, now);
  }

  // ---- Who is let in -----------------------------------------------------------------------

  /** A session that is neither revoked nor expired nor idle for longer than a limit that is set. */
  predicate Fresh(s: Session, envIdle: int, policyIdle: int, now: int) {
    s.revoked == None && now <= s.expires
    && (envIdle > 0 ==> now <= s.lastSeen + envIdle * 60_000)
    && (policyIdle > 0 ==> now <= s.lastSeen + policyIdle * 60_000)
  }

  /**
   A request is let in exactly when its token is of a fresh session. It writes the heartbeat if the last
   one is a minute old; an idle session is revoked, and no other session is touched.
   */
  lemma LetInExactlyWhen(rows: seq<Session>, n: nat, envIdle: int, policyIdle: int, now: int)
    requires Keyed(rows) && n < |rows|
    ensures var s := rows[n];
      var (after, letIn) := Step(rows, Op.Authenticate(Some(s.tokenHash), envIdle, policyIdle, now));
      if Fresh(s, envIdle, policyIdle, now) then
        letIn == Some(s) && after == rows[n := s.(lastSeen := if now - s.lastSeen >= 60_000 then now else s.lastSeen)]
      else
        letIn == None
        && after == if s.revoked == None && now <= s.expires then rows[n := s.(revoked := Some(Revocation(now, "idle_timeout")))] else rows
  {
    Found(rows, n);
    assert rows[n := rows[n]] == rows;
  }

  /** Nobody is let in without a token, or with one of no session. */
  lemma StrangersStayOut(rows: seq<Session>, token: Option<string>, envIdle: int, policyIdle: int, now: int)
    requires token.Some? ==> forall k :: 0 <= k < |rows| ==> rows[k].tokenHash != token.value
    ensures Step(rows, Op.Authenticate(token, envIdle, policyIdle, now)) == (rows, None)
  {
  }
}
