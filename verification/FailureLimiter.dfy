/** The sliding-window limiter of TOTP failures (src/auth/two_factor.rs). Code checks are oracles: whether a code
    is well formed and whether it verifies are arguments. Times are milliseconds of a monotone clock. */
module FailureLimiter {
  import Common

  type User = string
  type Time = nat

  const WINDOW: nat := 60_000
  const MAX_FAILURES: nat := 5
  const LOGIN_TTL: nat := 300_000
  const ENROLLMENT_TTL: nat := 600_000

  datatype Outcome = Accepted | Malformed | RateLimited | Expired | Invalid | Conflict

  // ---------------------------------------------------------------- the deque

  predicate Old(t: Time, now: Time) {
    t <= now && now - t >= WINDOW
  }

  /** Pop the front while it is outside the window. */
  function Prune(d: seq<Time>, now: Time): seq<Time> {
    if d != [] && Old(d[0], now) then Prune(d[1..], now) else d
  }

  /** The failures that are still inside the window, wherever they are. */
  function Recent(h: seq<Time>, now: Time): seq<Time> {
    if h == [] then [] else (if Old(h[0], now) then [] else [h[0]]) + Recent(h[1..], now)
  }

  predicate Sorted(s: seq<Time>) {
    forall i, j | 0 <= i < j < |s| :: s[i] <= s[j]
  }

  /** Any five later entries apart: an entry and the fifth one after it are at least a window apart. */
  predicate Spaced(h: seq<Time>) {
    forall i | 0 <= i && i + MAX_FAILURES < |h| :: h[i] + WINDOW <= h[i + MAX_FAILURES]
  }

  /** The deque is what is left of the history after dropping entries that were outside the window by `now`. */
  ghost predicate Tail(h: seq<Time>, d: seq<Time>, now: Time) {
    && |d| <= |h| && d == h[|h| - |d|..]
    && (forall i | 0 <= i < |h| - |d| :: h[i] + WINDOW <= now)
    && Sorted(h) && (h != [] ==> h[|h| - 1] <= now)
  }

  lemma {:induction false} PruneKeepsTail(h: seq<Time>, d: seq<Time>, now: Time)
    requires Tail(h, d, now)
    ensures Tail(h, Prune(d, now), now)
    decreases |d|
  {
    if d != [] && Old(d[0], now) {
      assert d[1..] == h[|h| - |d[1..]|..];
      PruneKeepsTail(h, d[1..], now);
    }
  }

  lemma {:induction false} AllRecent(d: seq<Time>, now: Time)
    requires Sorted(d) && (d != [] ==> !Old(d[0], now))
    ensures Recent(d, now) == d
    decreases |d|
  {
    if d != [] {
      assert |d| > 1 ==> d[0] <= d[1];
      AllRecent(d[1..], now);
    }
  }

  /** Pruning only the front is enough: on a sorted deque it removes every entry outside the window. */
  lemma {:induction false} FrontPruningSuffices(d: seq<Time>, now: Time)
    requires Sorted(d)
    ensures Prune(d, now) == Recent(d, now)
    decreases |d|
  {
    if d != [] && Old(d[0], now) {
      FrontPruningSuffices(d[1..], now);
    } else {
      AllRecent(d, now);
    }
  }

  lemma {:induction false} DroppedAreNotRecent(h: seq<Time>, d: seq<Time>, now: Time)
    requires Tail(h, d, now)
    ensures Recent(h, now) == Recent(d, now)
    decreases |h|
  {
    if |d| < |h| {
      assert h[1..][|h[1..]| - |d|..] == d;
      assert Old(h[0], now);
      DroppedAreNotRecent(h[1..], d, now);
    }
  }

  /** What the limiter tests is the number of failures of the whole history inside the window. */
  lemma PruneIsRecent(h: seq<Time>, d: seq<Time>, now: Time)
    requires Tail(h, d, now)
    ensures Prune(d, now) == Recent(h, now)
  {
    DroppedAreNotRecent(h, d, now);
    FrontPruningSuffices(d, now);
  }

  lemma TailGrows(h: seq<Time>, d: seq<Time>, now: Time, t: Time)
    requires Tail(h, d, now) && now <= t
    ensures Tail(h + [t], d + [t], t)
  {
    assert h[|h| - |d|..] + [t] == (h + [t])[|h| - |d|..];
  }

  /** Recording after the limiter let an attempt through keeps the spacing. */
  lemma RecordKeepsSpacing(h: seq<Time>, d: seq<Time>, now: Time, t: Time)
    requires Tail(h, d, now) && Spaced(h) && |d| < MAX_FAILURES && now <= t
    ensures Spaced(h + [t])
  {
    var g := h + [t];
    forall i | 0 <= i && i + MAX_FAILURES < |g| ensures g[i] + WINDOW <= g[i + MAX_FAILURES] {
      if i + MAX_FAILURES == |h| {
        assert i < |h| - |d|;
      }
    }
  }

  lemma TailLater(h: seq<Time>, d: seq<Time>, now: Time, later: Time)
    requires Tail(h, d, now) && now <= later
    ensures Tail(h, d, later)
  {
  }

  function Get(m: map<User, seq<Time>>, u: User): seq<Time> {
    if u in m then m[u] else []
  }

  /** The user's failures are spaced, and the deque holds what matters of them. */
  ghost predicate UserLimited(h: seq<Time>, d: seq<Time>, clock: Time) {
    Spaced(h) && Tail(h, d, clock)
  }

  /** Every deque holds what matters of its user's history. */
  ghost predicate Tracked(history: map<User, seq<Time>>, failures: map<User, seq<Time>>, clock: Time) {
    forall u: User {:trigger Tail(Get(history, u), Get(failures, u), clock)} ::
      Tail(Get(history, u), Get(failures, u), clock)
  }

  /** Every user's failures are spaced. */
  ghost predicate AllSpaced(history: map<User, seq<Time>>) {
    forall u: User {:trigger Spaced(Get(history, u))} :: Spaced(Get(history, u))
  }

  /** One more failure of `u` keeps all users' spacing exactly when fewer than five of `u` are inside the window. */
  lemma RecordSpacedExactly(history: map<User, seq<Time>>, u: User, t: Time)
    requires UpTo(Get(history, u), t)
    ensures AllSpaced(history[u := Get(history, u) + [t]])
            <==> AllSpaced(history) && |Recent(Get(history, u), t)| < MAX_FAILURES
  {
    var h := Get(history, u);
    var history' := history[u := h + [t]];
    OneMore(h, t);
    GetUpdate(history, u, h + [t], u);
    if AllSpaced(history') {
      assert Spaced(Get(history', u));
      forall v: User ensures Spaced(Get(history, v)) {
        GetUpdate(history, u, h + [t], v);
        assert Spaced(Get(history', v));
      }
    } else {
      var v: User :| !Spaced(Get(history', v));
      GetUpdate(history, u, h + [t], v);
      assert Spaced(Get(history, v)) ==> v == u;
    }
  }

  lemma {:induction false} RecentLater(h: seq<Time>, now: Time, later: Time)
    requires now <= later
    ensures |Recent(h, later)| <= |Recent(h, now)|
  {
    if h != [] {
      RecentLater(h[1..], now, later);
    }
  }

  lemma ForgetKeepsSpacing(history: map<User, seq<Time>>, u: User)
    requires AllSpaced(history)
    ensures AllSpaced(history - {u})
  {
    var history' := history - {u};
    forall v: User ensures Spaced(Get(history', v)) {
      GetUpdate(history, u, [], v);
      assert Spaced(Get(history, v));
    }
  }

  lemma TrackedLater(history: map<User, seq<Time>>, failures: map<User, seq<Time>>, clock: Time, later: Time)
    requires Tracked(history, failures, clock) && clock <= later
    ensures Tracked(history, failures, later)
  {
    forall u: User ensures Tail(Get(history, u), Get(failures, u), later) {
      assert Tail(Get(history, u), Get(failures, u), clock);
      TailLater(Get(history, u), Get(failures, u), clock, later);
    }
  }

  lemma GetUpdate(m: map<User, seq<Time>>, u: User, x: seq<Time>, v: User)
    ensures Get(m[u := x], v) == if v == u then x else Get(m, v)
    ensures Get(m - {u}, v) == if v == u then [] else Get(m, v)
  {
  }

  lemma TrackedUpdate(history: map<User, seq<Time>>, failures: map<User, seq<Time>>, clock: Time,
                      u: User, h: seq<Time>, d: seq<Time>)
    requires Tracked(history, failures, clock) && Tail(h, d, clock)
    ensures Tracked(history[u := h], failures[u := d], clock)
  {
    var history', failures' := history[u := h], failures[u := d];
    forall v: User ensures Tail(Get(history', v), Get(failures', v), clock) {
      GetUpdate(history, u, h, v);
      GetUpdate(failures, u, d, v);
      assert Tail(Get(history, v), Get(failures, v), clock);
    }
  }

  lemma TrackedPruned(history: map<User, seq<Time>>, failures: map<User, seq<Time>>, clock: Time, u: User, d: seq<Time>)
    requires Tracked(history, failures, clock) && Tail(Get(history, u), d, clock)
    ensures Tracked(history, failures[u := d], clock)
  {
    var failures' := failures[u := d];
    forall v: User ensures Tail(Get(history, v), Get(failures', v), clock) {
      GetUpdate(failures, u, d, v);
      assert Tail(Get(history, v), Get(failures, v), clock);
    }
  }

  lemma TrackedForget(history: map<User, seq<Time>>, failures: map<User, seq<Time>>, clock: Time, u: User)
    requires Tracked(history, failures, clock)
    ensures Tracked(history - {u}, failures - {u}, clock)
  {
    var history', failures' := history - {u}, failures - {u};
    forall v: User ensures Tail(Get(history', v), Get(failures', v), clock) {
      GetUpdate(history, u, [], v);
      GetUpdate(failures, u, [], v);
      assert Tail(Get(history, v), Get(failures, v), clock);
      NothingRecorded(clock);
    }
  }

  lemma NothingRecorded(clock: Time)
    ensures UserLimited([], [], clock)
  {
  }

  /** A check keeps the invariant, and what it counts is the history inside the window. */
  lemma CheckKeepsTail(h: seq<Time>, d: seq<Time>, now: Time)
    requires Tail(h, d, now)
    ensures Tail(h, Prune(d, now), now) && Prune(d, now) == Recent(h, now)
  {
    PruneKeepsTail(h, d, now);
    PruneIsRecent(h, d, now);
  }

  lemma TrackedChecked(history: map<User, seq<Time>>, failures: map<User, seq<Time>>, clock: Time, u: User, now: Time)
    requires Tracked(history, failures, clock) && clock <= now
    ensures var d := Prune(Get(failures, u), now);
            Tracked(history, failures[u := d], now) && d == Recent(Get(history, u), now)
  {
    TrackedLater(history, failures, clock, now);
    assert Tail(Get(history, u), Get(failures, u), now);
    CheckKeepsTail(Get(history, u), Get(failures, u), now);
    TrackedPruned(history, failures, now, u, Prune(Get(failures, u), now));
  }

  lemma RecordKeepsLimit(h: seq<Time>, d: seq<Time>, clock: Time, t: Time)
    requires UserLimited(h, d, clock) && |d| < MAX_FAILURES && clock <= t
    ensures UserLimited(h + [t], d + [t], t)
  {
    RecordKeepsSpacing(h, d, clock, t);
    TailGrows(h, d, clock, t);
  }

  /** The pruning loop of enforce_failure_limit. */
  method PruneDeque(d: seq<Time>, now: Time) returns (attempts: seq<Time>)
    ensures attempts == Prune(d, now)
  {
    attempts := d;
    while attempts != [] && Old(attempts[0], now)
      invariant Prune(attempts, now) == Prune(d, now)
      decreases |attempts|
    {
      attempts := attempts[1..];
    }
  }

  // ---------------------------------------------------------------- the service

  datatype Challenge = Challenge(id: string, user: User, expires: Time, failures: nat)

  class TwoFactorService {
    var logins: map<User, Challenge>
    var enrollments: map<string, Challenge>
    var enabled: set<User>
    var failures: map<User, seq<Time>>
    /** Per user, every failure recorded since the user's last clearing, and the latest time seen. */
    ghost var history: map<User, seq<Time>>
    ghost var clock: Time

    constructor ()
      ensures Valid() && Spacing() && history == map[] && clock == 0
    {
      logins, enrollments, enabled, failures := map[], map[], {}, map[];
      history, clock := map[], 0;
    }

    ghost predicate Valid()
      reads this
    {
      Tracked(history, failures, clock)
    }

    /** Every user's failures are spaced. */
    ghost predicate Spacing()
      reads this
    {
      AllSpaced(history)
    }

    /** The enrolments of everyone else. */
    ghost function Others(es: map<string, Challenge>, u: User): map<string, Challenge> {
      es - set s | s in es && es[s].user == u
    }

    /** The failure of `u` at time `t` was recorded and nothing else. */
    twostate predicate Recorded(u: User, t: Time)
      reads this
    {
      history == old(history)[u := Get(old(history), u) + [t]]
    }

    /** enforce_failure_limit: refuses exactly when five failures of the user's history are inside the window. */
    method EnforceFailureLimit(u: User, now: Time) returns (ok: bool)
      requires Valid() && clock <= now
      modifies `failures, `clock
      ensures Valid() && clock == now
      ensures ok <==> |Recent(Get(history, u), now)| < MAX_FAILURES
    {
      TrackedChecked(history, failures, clock, u, now);
      clock := now;
      var attempts := PruneDeque(Get(failures, u), now);
      GetUpdate(failures, u, attempts, u);
      failures := failures[u := attempts];
      ok := |attempts| < MAX_FAILURES;
    }

    /** record_failure records whatever was recorded before; the spacing survives exactly below the limit. */
    method RecordFailure(u: User, now: Time)
      requires Valid() && clock <= now
      modifies `failures, `history, `clock
      ensures Valid() && clock == now && Recorded(u, now)
      ensures Spacing() <==> old(Spacing()) && old(BelowLimit(u, now))
    {
      ghost var h := Get(history, u);
      var d := Get(failures, u);
      TrackedLater(history, failures, clock, now);
      assert Tail(h, d, now);
      RecordSpacedExactly(history, u, now);
      TailGrows(h, d, now, now);
      TrackedUpdate(history, failures, now, u, h + [now], d + [now]);
      failures := failures[u := d + [now]];
      history := history[u := h + [now]];
      clock := now;
    }

    /** clear_user_challenges forgets the user's challenges and failures. */
    method ClearUserChallenges(u: User)
      requires Valid()
      modifies this
      ensures Valid() && clock == old(clock) && enabled == old(enabled)
      ensures history == old(history) - {u} && logins == old(logins) - {u}
      ensures enrollments == Others(old(enrollments), u)
      ensures old(Spacing()) ==> Spacing()
    {
      TrackedForget(history, failures, clock, u);
      if Spacing() {
        ForgetKeepsSpacing(history, u);
      }
      logins := logins - {u};
      enrollments := map s | s in enrollments && enrollments[s].user != u :: enrollments[s];
      failures := failures - {u};
      history := history - {u};
    }

    /** begin_login: a user with a credential gets a new challenge, which replaces an older one. */
    method BeginLogin(user: User, id: string, now: Time) returns (issued: bool)
      requires Valid()
      modifies `logins
      ensures Valid() && (issued <==> user in enabled)
      ensures logins ==
              if issued then old(logins)[user := Challenge(id, user, now + LOGIN_TTL, 0)] else old(logins)
    {
      issued := user in enabled;
      if issued {
        logins := logins[user := Challenge(id, user, now + LOGIN_TTL, 0)];
      }
    }

    /** begin_enrollment: refused for a user with a credential, otherwise the session's new challenge. */
    method BeginEnrollment(session: string, user: User, id: string, now: Time) returns (issued: bool)
      requires Valid()
      modifies `enrollments
      ensures Valid() && (issued <==> user !in enabled)
      ensures enrollments ==
              if issued then old(enrollments)[session := Challenge(id, user, now + ENROLLMENT_TTL, 0)]
              else old(enrollments)
    {
      issued := user !in enabled;
      if issued {
        enrollments := enrollments[session := Challenge(id, user, now + ENROLLMENT_TTL, 0)];
      }
    }

    /** Is there room for another failure of `u` at time `now`? */
    ghost predicate BelowLimit(u: User, now: Time)
      reads this
    {
      |Recent(Get(history, u), now)| < MAX_FAILURES
    }

    ghost predicate LoginOpen(id: string, u: User, now: Time)
      reads this
    {
      u in logins && logins[u].id == id && now < logins[u].expires
    }

    /** complete_login with the times at which it looks up the challenge, enforces the limit and records.  The code
        is tried exactly when it is well formed, the challenge is open, the user is below the limit and has a
        credential; a failure is recorded exactly when a tried code is wrong. */
    method CompleteLogin(id: string, wellFormed: bool, verifies: bool, t0: Time, t1: Time, t2: Time)
      returns (r: Outcome, user: User)
      requires Valid() && clock <= t0 <= t1 <= t2
      modifies this
      ensures Valid() && clock <= t2 && enabled == old(enabled) && enrollments == old(enrollments)
      ensures old(Spacing()) ==> Spacing()
      ensures wellFormed && (exists u | u in old(logins) :: old(logins)[u].id == id) ==>
                user in old(logins) && old(logins)[user].id == id
      ensures var tried := wellFormed && old(LoginOpen(id, user, t0)) && old(BelowLimit(user, t1)) && user in enabled;
              && (if tried && !verifies then Recorded(user, t2) else history == old(history))
              && (r.Accepted? <==> tried && verifies)
              && (r.Invalid? <==> tried && !verifies && old(logins)[user].failures + 1 < MAX_FAILURES)
              && (r.Invalid? ==>
                    logins == old(logins)[user := old(logins)[user].(failures := old(logins)[user].failures + 1)])
      ensures r.RateLimited? <==> wellFormed && old(LoginOpen(id, user, t0)) && !old(BelowLimit(user, t1))
      ensures r.Malformed? <==> !wellFormed
      ensures r.Accepted? || (r.Expired? && user in old(logins) && old(logins)[user].id == id) ==>
                logins == old(logins) - {user}
      ensures r.Malformed? || r.RateLimited?
              || (r.Expired? && forall u | u in old(logins) :: old(logins)[u].id != id) ==>
                logins == old(logins)
    {
      user := "";
      if !wellFormed { return Malformed, user; }
      if forall u | u in logins :: logins[u].id != id { return Expired, user; }
      user :| user in logins && logins[user].id == id;
      if t0 >= logins[user].expires {
        logins := logins - {user};
        return Expired, user;
      }
      var ok := EnforceFailureLimit(user, t1);
      if !ok { return RateLimited, user; }
      if user !in enabled {
        logins := logins - {user};
        return Expired, user;
      }
      if !verifies {
        RecentLater(Get(history, user), t1, t2);
        RecordFailure(user, t2);
        var c := logins[user];
        if c.failures + 1 >= MAX_FAILURES {
          logins := logins - {user};
          return Expired, user;
        }
        logins := logins[user := c.(failures := c.failures + 1)];
        return Invalid, user;
      }
      logins := logins - {user};
      return Accepted, user;
    }

    ghost predicate EnrollmentOpen(session: string, user: User, id: string, now: Time)
      reads this
    {
      session in enrollments && enrollments[session].id == id && enrollments[session].user == user
      && now < enrollments[session].expires
    }

    /** confirm_enrollment: the same limit, checked before the challenge is looked up. */
    method ConfirmEnrollment(session: string, user: User, id: string, wellFormed: bool, verifies: bool,
                             t0: Time, t1: Time, t2: Time) returns (r: Outcome)
      requires Valid() && clock <= t0 <= t1 <= t2
      modifies this
      ensures Valid() && clock <= t2 && logins == old(logins)
      ensures old(Spacing()) ==> Spacing()
      ensures var tried := wellFormed && old(BelowLimit(user, t0)) && old(EnrollmentOpen(session, user, id, t1));
              && (if tried && !verifies then Recorded(user, t2) else history == old(history))
              && (r.Accepted? <==> tried && verifies && user !in old(enabled))
              && (r.Conflict? <==> tried && verifies && user in old(enabled))
              && (r.Invalid? <==> tried && !verifies && old(enrollments)[session].failures + 1 < MAX_FAILURES)
      ensures r.RateLimited? <==> wellFormed && !old(BelowLimit(user, t0))
      ensures r.Malformed? <==> !wellFormed
      ensures enabled == if r.Accepted? then old(enabled) + {user} else old(enabled)
      ensures var mine := session in old(enrollments) && old(enrollments)[session].id == id
                          && old(enrollments)[session].user == user;
              if r.Accepted? || (r.Expired? && mine) then enrollments == old(enrollments) - {session}
              else if r.Invalid? then
                mine && enrollments == old(enrollments)[session :=
                  old(enrollments)[session].(failures := old(enrollments)[session].failures + 1)]
              else enrollments == old(enrollments)
    {
      if !wellFormed { return Malformed; }
      var ok := EnforceFailureLimit(user, t0);
      if !ok { return RateLimited; }
      if session !in enrollments || enrollments[session].id != id || enrollments[session].user != user {
        return Expired;
      }
      if t1 >= enrollments[session].expires {
        enrollments := enrollments - {session};
        return Expired;
      }
      if !verifies {
        RecentLater(Get(history, user), t0, t2);
        RecordFailure(user, t2);
        var c := enrollments[session];
        if c.failures + 1 >= MAX_FAILURES {
          enrollments := enrollments - {session};
          return Expired;
        }
        enrollments := enrollments[session := c.(failures := c.failures + 1)];
        return Invalid;
      }
      if user in enabled { return Conflict; }
      enabled := enabled + {user};
      enrollments := enrollments - {session};
      return Accepted;
    }

    /** disable: success also forgets the user's challenges and failures. */
    method Disable(user: User, wellFormed: bool, verifies: bool, t0: Time, t1: Time) returns (r: Outcome)
      requires Valid() && clock <= t0 <= t1
      modifies this
      ensures Valid() && clock <= t1
      ensures old(Spacing()) ==> Spacing()
      ensures var tried := wellFormed && old(BelowLimit(user, t0)) && user in old(enabled);
              && (r.Accepted? <==> tried && verifies) && (r.Invalid? <==> tried && !verifies)
              && (r.Invalid? ==> Recorded(user, t1))
              && (r.Accepted? ==> history == old(history) - {user})
              && (!tried ==> history == old(history))
      ensures r.RateLimited? <==> wellFormed && !old(BelowLimit(user, t0))
      ensures r.Conflict? <==> wellFormed && old(BelowLimit(user, t0)) && user !in old(enabled)
      ensures enabled == if r.Accepted? then old(enabled) - {user} else old(enabled)
      ensures logins == if r.Accepted? then old(logins) - {user} else old(logins)
      ensures enrollments == if r.Accepted? then Others(old(enrollments), user) else old(enrollments)
    {
      if !wellFormed { return Malformed; }
      var ok := EnforceFailureLimit(user, t0);
      if !ok { return RateLimited; }
      if user !in enabled { return Conflict; }
      if !verifies {
        RecentLater(Get(history, user), t0, t1);
        RecordFailure(user, t1);
        return Invalid;
      }
      enabled := enabled - {user};
      ClearUserChallenges(user);
      return Accepted;
    }

    /** disable_without_code. */
    method DisableWithoutCode(user: User) returns (removed: bool)
      requires Valid()
      modifies this
      ensures Valid() && clock == old(clock) && (removed <==> user in old(enabled))
      ensures old(Spacing()) ==> Spacing()
      ensures enabled == old(enabled) - {user} && history == old(history) - {user} && logins == old(logins) - {user}
      ensures enrollments == Others(old(enrollments), user)
    {
      removed := user in enabled;
      enabled := enabled - {user};
      ClearUserChallenges(user);
    }
  }

  // ---------------------------------------------------------------- whole histories

  /** The limiter of one user as a sequence of checks and recorded failures. */
  datatype Event = Check(at: Time) | Fail(at: Time)

  datatype Log = Log(history: seq<Time>, deque: seq<Time>, passed: bool)

  function Step(l: Log, e: Event): Log {
    match e
    case Check(t) => var d := Prune(l.deque, t); Log(l.history, d, |d| < MAX_FAILURES)
    case Fail(t) => Log(l.history + [t], l.deque + [t], false)
  }

  function Run(l: Log, es: seq<Event>): Log
    decreases |es|
  {
    if es == [] then l else Run(Step(l, es[0]), es[1..])
  }

  predicate InOrder(es: seq<Event>) {
    forall i, j | 0 <= i < j < |es| :: es[i].at <= es[j].at
  }

  /** Attempts do not overlap: a failure is recorded only right after a check that passed. */
  ghost predicate Disciplined(l: Log, es: seq<Event>)
    decreases |es|
  {
    es != [] ==> (es[0].Fail? ==> l.passed) && Disciplined(Step(l, es[0]), es[1..])
  }

  const FRESH := Log([], [], false)

  lemma {:induction false} RunKeepsSpacing(l: Log, es: seq<Event>, now: Time)
    requires UserLimited(l.history, l.deque, now) && (l.passed ==> |l.deque| < MAX_FAILURES)
    requires InOrder(es) && (es != [] ==> now <= es[0].at) && Disciplined(l, es)
    ensures Spaced(Run(l, es).history)
    decreases |es|
  {
    if es != [] {
      var t := es[0].at;
      if es[0].Fail? {
        RecordKeepsLimit(l.history, l.deque, now, t);
      } else {
        TailLater(l.history, l.deque, now, t);
        CheckKeepsTail(l.history, l.deque, t);
      }
      RunKeepsSpacing(Step(l, es[0]), es[1..], t);
    }
  }

  /** Over every history of non-overlapping attempts the sixth of any six consecutive recorded failures comes at
      least a window after the first. */
  lemma FailuresAreSpaced(es: seq<Event>)
    requires InOrder(es) && Disciplined(FRESH, es)
    ensures Spaced(Run(FRESH, es).history)
  {
    if es != [] {
      RunKeepsSpacing(FRESH, es, 0);
    }
  }

  // ---------------------------------------------------------------- overlapping attempts

  /** The five-before-last failure decides whether one more keeps the spacing. */
  predicate Room(h: seq<Time>, t: Time) {
    |h| >= MAX_FAILURES ==> h[|h| - MAX_FAILURES] + WINDOW <= t
  }

  lemma SpacedSnoc(h: seq<Time>, t: Time)
    ensures Spaced(h + [t]) <==> Spaced(h) && Room(h, t)
  {
    var g := h + [t];
    if Spaced(g) {
      forall i | 0 <= i && i + MAX_FAILURES < |h| ensures h[i] + WINDOW <= h[i + MAX_FAILURES] {
        assert g[i] == h[i] && g[i + MAX_FAILURES] == h[i + MAX_FAILURES];
      }
      if |h| >= MAX_FAILURES {
        var i := |h| - MAX_FAILURES;
        assert g[i] == h[i] && g[i + MAX_FAILURES] == t;
      }
    }
  }

  lemma {:induction false} FrontIsRecent(d: seq<Time>, now: Time)
    ensures Prune(d, now) != [] ==> !Old(Prune(d, now)[0], now)
    decreases |d|
  {
    if d != [] && Old(d[0], now) {
      FrontIsRecent(d[1..], now);
    }
  }

  /** A history in order of time that ends at `t` at the latest. */
  ghost predicate UpTo(h: seq<Time>, t: Time) {
    Sorted(h) && (h != [] ==> h[|h| - 1] <= t)
  }

  lemma PruneIsTail(h: seq<Time>, t: Time)
    requires UpTo(h, t)
    ensures Tail(h, Prune(h, t), t)
  {
    assert h == h[|h| - |h|..];
    PruneKeepsTail(h, h, t);
  }

  lemma TailRoom(h: seq<Time>, d: seq<Time>, t: Time)
    requires Tail(h, d, t) && (d != [] ==> !Old(d[0], t))
    ensures Room(h, t) <==> |d| < MAX_FAILURES
  {
    if |d| >= MAX_FAILURES {
      var k := |d| - MAX_FAILURES;
      assert d[k] == h[|h| - |d| + k];
      assert d[0] == h[|h| - |d|];
    }
  }

  /** There is room exactly when fewer than five failures are inside the window. */
  lemma RoomIsBelowLimit(h: seq<Time>, t: Time)
    requires UpTo(h, t)
    ensures Room(h, t) <==> |Recent(h, t)| < MAX_FAILURES
  {
    FrontPruningSuffices(h, t);
    FrontIsRecent(h, t);
    PruneIsTail(h, t);
    TailRoom(h, Prune(h, t), t);
  }

  /** No failure is recorded while five others are inside the window. */
  ghost predicate NeverOverLimit(h: seq<Time>, es: seq<Event>)
    decreases |es|
  {
    es != [] ==>
      && (es[0].Fail? ==> |Recent(h, es[0].at)| < MAX_FAILURES)
      && NeverOverLimit(if es[0].Fail? then h + [es[0].at] else h, es[1..])
  }

  lemma {:induction false} NeverUnspaced(l: Log, es: seq<Event>)
    requires !Spaced(l.history)
    ensures !Spaced(Run(l, es).history)
    decreases |es|
  {
    if es != [] {
      if es[0].Fail? {
        SpacedSnoc(l.history, es[0].at);
      }
      NeverUnspaced(Step(l, es[0]), es[1..]);
    }
  }

  lemma {:induction false} SpacedFrom(l: Log, es: seq<Event>, now: Time)
    requires Spaced(l.history) && UpTo(l.history, now)
    requires InOrder(es) && (es != [] ==> now <= es[0].at)
    ensures Spaced(Run(l, es).history) <==> NeverOverLimit(l.history, es)
    decreases |es|
  {
    if es != [] {
      var t := es[0].at;
      var l' := Step(l, es[0]);
      if es[0].Fail? {
        SpacedSnoc(l.history, t);
        RoomIsBelowLimit(l.history, t);
      }
      if Spaced(l'.history) {
        SpacedFrom(l', es[1..], t);
      } else {
        NeverUnspaced(l', es[1..]);
      }
    }
  }

  /** For every log in order of time, whatever attempts overlap: the failures are spaced if and only if each was
      recorded while fewer than five others were inside the window. */
  lemma SpacedExactly(es: seq<Event>)
    requires InOrder(es)
    ensures Spaced(Run(FRESH, es).history) <==> NeverOverLimit([], es)
  {
    if es != [] {
      SpacedFrom(FRESH, es, 0);
    }
  }

  function Repeat(n: nat, e: Event): seq<Event> {
    if n == 0 then [] else Repeat(n - 1, e) + [e]
  }

  function Times(n: nat, t: Time): seq<Time> {
    if n == 0 then [] else Times(n - 1, t) + [t]
  }

  lemma {:induction false} RunSnoc(l: Log, a: seq<Event>, e: Event)
    ensures Run(l, a + [e]) == Step(Run(l, a), e)
    decreases |a|
  {
    if a == [] {
      assert a + [e] == [e];
    } else {
      assert (a + [e])[1..] == a[1..] + [e];
      RunSnoc(Step(l, a[0]), a[1..], e);
    }
  }

  lemma {:induction false} RunThen(l: Log, a: seq<Event>, b: seq<Event>)
    ensures Run(l, a + b) == Run(Run(l, a), b)
    decreases |b|
  {
    if b == [] {
      assert a + b == a;
    } else {
      var n := |b| - 1;
      assert a + b == (a + b[..n]) + [b[n]] && b == b[..n] + [b[n]];
      RunThen(l, a, b[..n]);
      RunSnoc(l, a + b[..n], b[n]);
      RunSnoc(Run(l, a), b[..n], b[n]);
    }
  }

  lemma {:induction false} PruneTwice(d: seq<Time>, t: Time)
    ensures Prune(Prune(d, t), t) == Prune(d, t)
    decreases |d|
  {
    if d != [] && Old(d[0], t) {
      PruneTwice(d[1..], t);
    }
  }

  lemma {:induction false} ChecksRepeated(l: Log, n: nat, t: Time)
    requires n > 0
    ensures Run(l, Repeat(n, Check(t))) == Step(l, Check(t))
  {
    RunSnoc(l, Repeat(n - 1, Check(t)), Check(t));
    if n > 1 {
      ChecksRepeated(l, n - 1, t);
      PruneTwice(l.deque, t);
    }
  }

  lemma {:induction false} FailsRepeated(l: Log, n: nat, t: Time)
    ensures Run(l, Repeat(n, Fail(t))).history == l.history + Times(n, t)
  {
    if n > 0 {
      RunSnoc(l, Repeat(n - 1, Fail(t)), Fail(t));
      FailsRepeated(l, n - 1, t);
    }
  }

  lemma {:induction false} RecentSnoc(h: seq<Time>, t: Time, now: Time)
    ensures Recent(h + [t], now) == Recent(h, now) + (if Old(t, now) then [] else [t])
    decreases |h|
  {
    if h == [] {
      assert h + [t] == [t];
    } else {
      assert (h + [t])[1..] == h[1..] + [t];
      RecentSnoc(h[1..], t, now);
      Common.Associative(if Old(h[0], now) then [] else [h[0]], Recent(h[1..], now), if Old(t, now) then [] else [t]);
    }
  }

  function Crowd(h: seq<Time>, t: Time): nat {
    |Recent(h, t)|
  }

  lemma OneMore(h: seq<Time>, t: Time)
    requires UpTo(h, t)
    ensures UpTo(h + [t], t) && Crowd(h + [t], t) == Crowd(h, t) + 1
    ensures Spaced(h + [t]) <==> Spaced(h) && Crowd(h, t) < MAX_FAILURES
  {
    RecentSnoc(h, t, t);
    SpacedSnoc(h, t);
    RoomIsBelowLimit(h, t);
  }

  lemma {:induction false} FailuresAtOnce(h: seq<Time>, n: nat, t: Time)
    requires Spaced(h) && UpTo(h, t)
    ensures var g := h + Times(n, t);
            && UpTo(g, t) && Crowd(g, t) == Crowd(h, t) + n
            && (Spaced(g) <==> n == 0 || Crowd(h, t) + n <= MAX_FAILURES)
  {
    if n == 0 {
      assert h + Times(0, t) == h;
    } else {
      FailuresAtOnce(h, n - 1, t);
      TimesSnoc(h, n, t);
      OneMore(h + Times(n - 1, t), t);
    }
  }

  lemma TimesSnoc(h: seq<Time>, n: nat, t: Time)
    requires n > 0
    ensures h + Times(n, t) == h + Times(n - 1, t) + [t]
  {
  }

  /** `n` overlapping attempts that are all checked and then all fail at one moment, when `c` failures of a spaced
      history are inside the window: all pass the check exactly when c < 5, and recording them keeps the spacing
      exactly when c + n <= 5. */
  lemma OverlapExactly(l: Log, now: Time, n: nat, t: Time)
    requires UserLimited(l.history, l.deque, now) && now <= t && n > 0
    ensures var c := Crowd(l.history, t);
            var h := Run(l, Repeat(n, Check(t)) + Repeat(n, Fail(t))).history;
            && (Run(l, Repeat(n, Check(t))).passed <==> c < MAX_FAILURES)
            && h == l.history + Times(n, t) && (Spaced(h) <==> c + n <= MAX_FAILURES)
  {
    TailLater(l.history, l.deque, now, t);
    CheckKeepsTail(l.history, l.deque, t);
    ChecksRepeated(l, n, t);
    RunThen(l, Repeat(n, Check(t)), Repeat(n, Fail(t)));
    FailsRepeated(Step(l, Check(t)), n, t);
    FailuresAtOnce(l.history, n, t);
  }

  /** With nothing recorded before, six overlapping attempts are needed. */
  lemma OverlapFromFresh(n: nat)
    requires n > 0
    ensures var h := Run(FRESH, Repeat(n, Check(0)) + Repeat(n, Fail(0))).history;
            h == Times(n, 0) && (Spaced(h) <==> n <= MAX_FAILURES)
  {
    NothingRecorded(0);
    OverlapExactly(FRESH, 0, n, 0);
    assert [] + Times(n, 0) == Times(n, 0);
  }

  /** `n` attempts, each failing before the next one is checked. */
  function InTurn(n: nat): seq<Event> {
    if n == 0 then [] else InTurn(n - 1) + [Check(0)] + [Fail(0)]
  }

  lemma {:induction false} TimesAre(n: nat, t: Time)
    ensures |Times(n, t)| == n && forall i | 0 <= i < n :: Times(n, t)[i] == t
  {
    if n > 0 {
      TimesAre(n - 1, t);
    }
  }

  lemma {:induction false} RunInTurn(n: nat)
    ensures Run(FRESH, InTurn(n)) == Log(Times(n, 0), Times(n, 0), false)
  {
    if n > 0 {
      RunInTurn(n - 1);
      TimesAre(n - 1, 0);
      RunSnoc(FRESH, InTurn(n - 1), Check(0));
      RunSnoc(FRESH, InTurn(n - 1) + [Check(0)], Fail(0));
    }
  }

  /** After `c` failures in turn, `n` overlapping attempts break the spacing exactly when c + n > 5; so two are
      enough after four. */
  lemma InTurnThenOverlap(c: nat, n: nat)
    requires c <= MAX_FAILURES && n > 0
    ensures var es := InTurn(c) + (Repeat(n, Check(0)) + Repeat(n, Fail(0)));
            Spaced(Run(FRESH, es).history) <==> c + n <= MAX_FAILURES
  {
    var h := Times(c, 0);
    RunInTurn(c);
    RunThen(FRESH, InTurn(c), Repeat(n, Check(0)) + Repeat(n, Fail(0)));
    FailuresAtOnce([], c, 0);
    assert [] + h == h;
    assert h[0..] == h;
    OverlapExactly(Log(h, h, false), 0, n, 0);
  }

  // ---------------------------------------------------------------- attempts in flight

  type Attempt = nat

  /** One attempt checks the limit, and later records its failure or ends without one. */
  datatype Action = Enter(a: Attempt, at: Time) | Miss(a: Attempt, at: Time) | Leave(a: Attempt, at: Time)

  /** `flying` maps every attempt in flight to the number of failures recorded before its check.  For each recorded
      failure, `makers` is its attempt, `marks` the number recorded before that attempt's check, and `beside` the other
      attempts in flight at the recording. */
  datatype Flight = Flight(
    history: seq<Time>, deque: seq<Time>, flying: map<Attempt, nat>, used: set<Attempt>,
    makers: seq<Attempt>, marks: seq<nat>, beside: seq<set<Attempt>>)

  const GROUNDED := Flight([], [], map[], {}, [], [], [])

  function Fly(f: Flight, e: Action): Flight {
    match e
    case Enter(a, t) =>
      if a in f.used then f
      else
        var d := Prune(f.deque, t);
        f.(deque := d, used := f.used + {a},
           flying := if |d| < MAX_FAILURES then f.flying[a := |f.history|] else f.flying)
    case Miss(a, t) =>
      if a !in f.flying then f
      else f.(history := f.history + [t], deque := f.deque + [t], flying := f.flying - {a},
              makers := f.makers + [a], marks := f.marks + [f.flying[a]], beside := f.beside + [f.flying.Keys - {a}])
    case Leave(a, _) => f.(flying := f.flying - {a})
  }

  function FlyAll(f: Flight, es: seq<Action>): Flight
    decreases |es|
  {
    if es == [] then f else FlyAll(Fly(f, es[0]), es[1..])
  }

  predicate Ordered(es: seq<Action>) {
    forall i, j | 0 <= i < j < |es| :: es[i].at <= es[j].at
  }

  /** At no moment are more than `m` attempts in flight. */
  predicate AtMost(f: Flight, es: seq<Action>, m: nat)
    decreases |es|
  {
    |f.flying| <= m && (es != [] ==> AtMost(Fly(f, es[0]), es[1..], m))
  }

  /** An entry and the one `n` after it are at least a window apart. */
  predicate Apart(h: seq<Time>, n: nat) {
    forall i | 0 <= i && i + n < |h| :: h[i] + WINDOW <= h[i + n]
  }

  /** When the check with `mark` failures before it passed, the fifth before was outside the window. */
  predicate Passed(h: seq<Time>, mark: nat, t: Time) {
    mark <= |h| && (mark >= MAX_FAILURES ==> h[mark - MAX_FAILURES] + WINDOW <= t)
  }

  /** The attempts of the recorded failures. */
  ghost predicate Recordings(f: Flight) {
    && |f.makers| == |f.history| && |f.marks| == |f.history|
    && (forall k | 0 <= k < |f.makers| :: f.makers[k] in f.used && f.makers[k] !in f.flying)
    && (forall j, k | 0 <= j < k < |f.makers| :: f.makers[j] != f.makers[k])
    && (forall k | 0 <= k < |f.makers| :: f.marks[k] <= k && Passed(f.history, f.marks[k], f.history[k]))
  }

  /** Whoever checked before failure `p` was recorded, and recorded later or not yet, was in flight beside it. */
  ghost predicate Beside(f: Flight, m: nat) {
    && |f.beside| == |f.history|
    && (forall p | 0 <= p < |f.beside| :: |f.beside[p]| < m)
    && |f.makers| == |f.history| && |f.marks| == |f.history|
    && (forall p, k | 0 <= p < k < |f.makers| && f.marks[k] <= p :: f.makers[k] in f.beside[p])
    && (forall p, a | 0 <= p < |f.beside| && a in f.flying && f.flying[a] <= p :: a in f.beside[p])
  }

  ghost predicate FlyingOk(f: Flight, now: Time) {
    f.flying.Keys <= f.used && forall a | a in f.flying :: Passed(f.history, f.flying[a], now)
  }

  ghost predicate FlightOk(f: Flight, now: Time, m: nat) {
    && Tail(f.history, f.deque, now) && FlyingOk(f, now)
    && Recordings(f) && Beside(f, m) && Apart(f.history, MAX_FAILURES - 1 + m)
  }

  /** An attempt that passes its check. */
  lemma EnterPasses(h: seq<Time>, d: seq<Time>, now: Time, t: Time)
    requires Tail(h, d, now) && now <= t
    ensures Tail(h, d, t) && Tail(h, Prune(d, t), t)
    ensures |Prune(d, t)| < MAX_FAILURES ==> Passed(h, |h|, t)
  {
    TailLater(h, d, now, t);
    CheckKeepsTail(h, d, t);
    RoomIsBelowLimit(h, t);
  }

  lemma PassedLater(f: Flight, now: Time, t: Time)
    requires FlyingOk(f, now) && now <= t
    ensures FlyingOk(f, t)
  {
    forall a | a in f.flying ensures Passed(f.history, f.flying[a], t) {
      assert Passed(f.history, f.flying[a], now);
    }
  }

  lemma EnterKeeps(f: Flight, a: Attempt, mark: nat, d: seq<Time>, now: Time, m: nat)
    requires FlyingOk(f, now) && Recordings(f) && Beside(f, m) && a !in f.used && mark == |f.history|
    requires Passed(f.history, mark, now)
    ensures var g := f.(deque := d, used := f.used + {a}, flying := f.flying[a := mark]);
            FlyingOk(g, now) && Recordings(g) && Beside(g, m)
  {
    var g := f.(deque := d, used := f.used + {a}, flying := f.flying[a := mark]);
    forall b | b in g.flying ensures Passed(g.history, g.flying[b], now) {
      assert b != a ==> Passed(f.history, f.flying[b], now);
    }
    forall k | 0 <= k < |g.makers| ensures g.marks[k] <= k && Passed(g.history, g.marks[k], g.history[k]) {
      assert Passed(f.history, f.marks[k], f.history[k]);
    }
  }

  lemma EnterOk(f: Flight, now: Time, a: Attempt, t: Time, m: nat)
    requires FlightOk(f, now, m) && now <= t
    ensures FlightOk(Fly(f, Enter(a, t)), t, m)
  {
    EnterPasses(f.history, f.deque, now, t);
    PassedLater(f, now, t);
    var d := Prune(f.deque, t);
    if a !in f.used {
      if |d| < MAX_FAILURES {
        EnterKeeps(f, a, |f.history|, d, t, m);
      } else {
        RefusedKeeps(f, a, d, t, m);
      }
    }
  }

  lemma RefusedKeeps(f: Flight, a: Attempt, d: seq<Time>, now: Time, m: nat)
    requires FlyingOk(f, now) && Recordings(f) && Beside(f, m)
    ensures var g := f.(deque := d, used := f.used + {a});
            FlyingOk(g, now) && Recordings(g) && Beside(g, m)
  {
  }

  lemma LeaveOk(f: Flight, now: Time, a: Attempt, t: Time, m: nat)
    requires FlightOk(f, now, m) && now <= t
    ensures FlightOk(Fly(f, Leave(a, t)), t, m)
  {
    TailLater(f.history, f.deque, now, t);
    PassedLater(f, now, t);
  }

  /** Of more distinct attempts than a set has room for, one is outside. */
  lemma {:induction false} SomeOutside(xs: seq<Attempt>, p: nat, room: set<Attempt>) returns (k: nat)
    requires p <= |xs| && |room| < |xs| - p
    requires forall i, j | p <= i < j < |xs| :: xs[i] != xs[j]
    ensures p <= k < |xs| && xs[k] !in room
    decreases |xs| - p
  {
    if xs[p] in room {
      k := SomeOutside(xs, p + 1, room - {xs[p]});
    } else {
      k := p;
    }
  }

  /** The failure recorded at `t` is a window after the one that `m` attempts in flight allow. */
  lemma MissApart(f: Flight, now: Time, a: Attempt, t: Time, m: nat)
    requires FlightOk(f, now, m) && now <= t && a in f.flying && |f.flying| <= m
    requires |f.history| >= MAX_FAILURES - 1 + m
    ensures f.history[|f.history| - (MAX_FAILURES - 1 + m)] + WINDOW <= t
  {
    var j := |f.history|;
    assert m > 0 by {
      assert a in f.flying.Keys && |f.flying.Keys| > 0;
    }
    var p := j - m;
    var xs := f.makers + [a];
    var k := SomeOutside(xs, p + 1, f.beside[p]);
    if k < j {
      assert xs[k] == f.makers[k] && f.marks[k] > p;
      assert Passed(f.history, f.marks[k], f.history[k]);
    } else {
      assert f.flying[a] > p;
      assert Passed(f.history, f.flying[a], now);
    }
  }

  lemma MissRecordings(f: Flight, now: Time, a: Attempt, t: Time, m: nat)
    requires FlightOk(f, now, m) && now <= t && a in f.flying
    ensures Recordings(Fly(f, Miss(a, t)))
  {
    var g := Fly(f, Miss(a, t));
    forall k | 0 <= k < |g.makers| ensures g.marks[k] <= k && Passed(g.history, g.marks[k], g.history[k]) {
      if k < |f.makers| {
        assert Passed(f.history, f.marks[k], f.history[k]);
      } else {
        assert Passed(f.history, f.flying[a], now);
      }
    }
  }

  lemma MissBeside(f: Flight, now: Time, a: Attempt, t: Time, m: nat)
    requires FlightOk(f, now, m) && a in f.flying && |f.flying| <= m
    ensures Beside(Fly(f, Miss(a, t)), m)
  {
    assert |f.flying.Keys - {a}| == |f.flying| - 1;
    forall b | b in f.flying ensures f.flying[b] <= |f.history| {
      assert Passed(f.history, f.flying[b], now);
    }
  }

  lemma MissFlying(f: Flight, now: Time, a: Attempt, t: Time)
    requires FlyingOk(f, now) && now <= t && a in f.flying
    ensures FlyingOk(Fly(f, Miss(a, t)), t)
  {
    var g := Fly(f, Miss(a, t));
    forall b | b in g.flying ensures Passed(g.history, g.flying[b], t) {
      assert Passed(f.history, f.flying[b], now);
    }
  }

  lemma MissOk(f: Flight, now: Time, a: Attempt, t: Time, m: nat)
    requires FlightOk(f, now, m) && now <= t && |f.flying| <= m
    ensures FlightOk(Fly(f, Miss(a, t)), t, m)
  {
    TailLater(f.history, f.deque, now, t);
    PassedLater(f, now, t);
    if a in f.flying {
      TailGrows(f.history, f.deque, t, t);
      MissFlying(f, now, a, t);
      MissRecordings(f, now, a, t, m);
      MissBeside(f, now, a, t, m);
      MissKeepsApart(f, now, a, t, m);
    }
  }

  lemma MissKeepsApart(f: Flight, now: Time, a: Attempt, t: Time, m: nat)
    requires FlightOk(f, now, m) && now <= t && a in f.flying && |f.flying| <= m
    ensures Apart(f.history + [t], MAX_FAILURES - 1 + m)
  {
    if |f.history| >= MAX_FAILURES - 1 + m {
      MissApart(f, now, a, t, m);
    }
    ApartSnoc(f.history, t, MAX_FAILURES - 1 + m);
  }

  lemma ApartSnoc(h: seq<Time>, t: Time, n: nat)
    requires Apart(h, n) && (|h| >= n > 0 ==> h[|h| - n] + WINDOW <= t) && n > 0
    ensures Apart(h + [t], n)
  {
    var g := h + [t];
    forall i | 0 <= i && i + n < |g| ensures g[i] + WINDOW <= g[i + n] {
      assert g[i] == h[i];
    }
  }

  lemma {:induction false} FlyAllOk(f: Flight, now: Time, es: seq<Action>, m: nat)
    requires FlightOk(f, now, m) && AtMost(f, es, m) && Ordered(es) && (es != [] ==> now <= es[0].at)
    ensures Apart(FlyAll(f, es).history, MAX_FAILURES - 1 + m)
    decreases |es|
  {
    if es != [] {
      match es[0] {
        case Enter(a, t) => EnterOk(f, now, a, t, m);
        case Miss(a, t) => MissOk(f, now, a, t, m);
        case Leave(a, t) => LeaveOk(f, now, a, t, m);
      }
      FlyAllOk(Fly(f, es[0]), es[0].at, es[1..], m);
    }
  }

  /** With at most `m` attempts in flight at any moment, failure i + 4 + m comes at least a window after failure i,
      over every log in order of time; one attempt at a time gives the spacing of six. */
  lemma InFlightBound(es: seq<Action>, m: nat)
    requires Ordered(es) && AtMost(GROUNDED, es, m)
    ensures Apart(FlyAll(GROUNDED, es).history, MAX_FAILURES - 1 + m)
    ensures m == 1 ==> Spaced(FlyAll(GROUNDED, es).history)
  {
    var start := if es == [] then 0 else es[0].at;
    FlyAllOk(GROUNDED, start, es, m);
  }

  // ---------------------------------------------------------------- the bound is tight

  function Range(lo: nat, hi: nat): (r: set<Attempt>)
    requires lo <= hi
    ensures |r| == hi - lo && forall a: Attempt :: a in r <==> lo <= a < hi
    decreases hi
  {
    if lo == hi then {} else Range(lo, hi - 1) + {hi - 1}
  }

  /** `n` failures at time 0, and the attempts from `lo` up to `hi` in flight. */
  ghost predicate Shape(f: Flight, n: nat, lo: nat, hi: nat) {
    && lo <= hi && f.history == Times(n, 0) && f.deque == Times(n, 0)
    && f.flying.Keys == Range(lo, hi) && f.used == Range(0, hi)
  }

  lemma EnterShape(f: Flight, n: nat, lo: nat, hi: nat)
    requires Shape(f, n, lo, hi) && n < MAX_FAILURES
    ensures Shape(Fly(f, Enter(hi, 0)), n, lo, hi + 1)
  {
    TimesAre(n, 0);
    assert Prune(f.deque, 0) == f.deque;
    RangeNext(lo, hi);
    RangeNext(0, hi);
  }

  lemma LeaveShape(f: Flight, n: nat, lo: nat, hi: nat)
    requires Shape(f, n, lo, hi) && lo < hi
    ensures Shape(Fly(f, Leave(lo, 0)), n, lo + 1, hi)
  {
    RangeTail(lo, hi);
    KeysWithout(f.flying, lo);
  }

  lemma MissShape(f: Flight, n: nat, lo: nat, hi: nat)
    requires Shape(f, n, lo, hi) && lo < hi
    ensures Shape(Fly(f, Miss(lo, 0)), n + 1, lo + 1, hi)
  {
    RangeTail(lo, hi);
    KeysWithout(f.flying, lo);
  }

  lemma RangeNext(lo: nat, hi: nat)
    requires lo <= hi
    ensures Range(lo, hi + 1) == Range(lo, hi) + {hi}
  {
  }

  lemma RangeTail(lo: nat, hi: nat)
    requires lo < hi
    ensures Range(lo + 1, hi) == Range(lo, hi) - {lo}
  {
  }

  lemma KeysWithout(m: map<Attempt, nat>, a: Attempt)
    ensures (m - {a}).Keys == m.Keys - {a}
  {
  }

  lemma {:induction false} FlySnoc(f: Flight, es: seq<Action>, e: Action, m: nat)
    requires AtMost(f, es, m) && |Fly(FlyAll(f, es), e).flying| <= m
    ensures FlyAll(f, es + [e]) == Fly(FlyAll(f, es), e) && AtMost(f, es + [e], m)
    decreases |es|
  {
    if es == [] {
      assert es + [e] == [e] && [e][1..] == [];
    } else {
      assert (es + [e])[1..] == es[1..] + [e];
      FlySnoc(Fly(f, es[0]), es[1..], e, m);
    }
  }

  /** A log at time 0 that ends in the given shape with at most `m` in flight. */
  ghost predicate Reaches(es: seq<Action>, m: nat, n: nat, lo: nat, hi: nat) {
    (forall i | 0 <= i < |es| :: es[i].at == 0) && AtMost(GROUNDED, es, m) && Shape(FlyAll(GROUNDED, es), n, lo, hi)
  }

  lemma ThenEnter(es: seq<Action>, m: nat, n: nat, lo: nat, hi: nat)
    requires Reaches(es, m, n, lo, hi) && n < MAX_FAILURES && hi - lo < m
    ensures Reaches(es + [Enter(hi, 0)], m, n, lo, hi + 1)
  {
    var f := FlyAll(GROUNDED, es);
    EnterShape(f, n, lo, hi);
    assert |Fly(f, Enter(hi, 0)).flying.Keys| == hi + 1 - lo;
    FlySnoc(GROUNDED, es, Enter(hi, 0), m);
  }

  lemma ThenMiss(es: seq<Action>, m: nat, n: nat, lo: nat, hi: nat)
    requires Reaches(es, m, n, lo, hi) && lo < hi <= lo + m
    ensures Reaches(es + [Miss(lo, 0)], m, n + 1, lo + 1, hi)
  {
    var f := FlyAll(GROUNDED, es);
    MissShape(f, n, lo, hi);
    assert |Fly(f, Miss(lo, 0)).flying.Keys| == hi - lo - 1;
    FlySnoc(GROUNDED, es, Miss(lo, 0), m);
  }

  lemma ThenLeave(es: seq<Action>, m: nat, n: nat, lo: nat, hi: nat)
    requires Reaches(es, m, n, lo, hi) && lo < hi <= lo + m
    ensures Reaches(es + [Leave(lo, 0)], m, n, lo + 1, hi)
  {
    var f := FlyAll(GROUNDED, es);
    LeaveShape(f, n, lo, hi);
    assert |Fly(f, Leave(lo, 0)).flying.Keys| == hi - lo - 1;
    FlySnoc(GROUNDED, es, Leave(lo, 0), m);
  }

  predicate Alternating(es: seq<Action>, n: nat) {
    |es| == 2 * n && forall i | 0 <= i < n :: es[2 * i] == Enter(i, 0) && es[2 * i + 1] == Leave(i, 0)
  }

  lemma OnePairMore(es: seq<Action>, n: nat)
    requires Alternating(es, n)
    ensures Alternating(es + [Enter(n, 0)] + [Leave(n, 0)], n + 1)
  {
  }

  /** Attempts that succeed in turn leave no failure behind, and are never more than one in flight. */
  lemma {:induction false} SuccessesLeave(n: nat) returns (es: seq<Action>)
    ensures Alternating(es, n) && Reaches(es, 1, 0, n, n)
  {
    if n == 0 {
      es := [];
    } else {
      es := SuccessesLeave(n - 1);
      ThenEnter(es, 1, 0, n - 1, n - 1);
      ThenLeave(es + [Enter(n - 1, 0)], 1, 0, n - 1, n);
      OnePairMore(es, n - 1);
      es := es + [Enter(n - 1, 0)] + [Leave(n - 1, 0)];
    }
  }

  lemma {:induction false} InTurns(c: nat, m: nat) returns (es: seq<Action>)
    requires c < MAX_FAILURES && m > 0
    ensures Reaches(es, m, c, c, c)
  {
    if c == 0 {
      es := [];
    } else {
      es := InTurns(c - 1, m);
      ThenEnter(es, m, c - 1, c - 1, c - 1);
      es := es + [Enter(c - 1, 0)];
      ThenMiss(es, m, c - 1, c - 1, c);
      es := es + [Miss(c - 1, 0)];
    }
  }

  lemma {:induction false} AllEnter(k: nat, m: nat) returns (es: seq<Action>)
    requires k <= m && m > 0
    ensures var c := MAX_FAILURES - 1; Reaches(es, m, c, c, c + k)
  {
    var c := MAX_FAILURES - 1;
    if k == 0 {
      es := InTurns(c, m);
    } else {
      es := AllEnter(k - 1, m);
      ThenEnter(es, m, c, c, c + k - 1);
      es := es + [Enter(c + k - 1, 0)];
    }
  }

  lemma {:induction false} AllMiss(j: nat, m: nat) returns (es: seq<Action>)
    requires j <= m && m > 0
    ensures var c := MAX_FAILURES - 1; Reaches(es, m, c + j, c + j, c + m)
  {
    var c := MAX_FAILURES - 1;
    if j == 0 {
      es := AllEnter(m, m);
    } else {
      es := AllMiss(j - 1, m);
      ThenMiss(es, m, c + j - 1, c + j - 1, c + m);
      es := es + [Miss(c + j - 1, 0)];
    }
  }

  /** Four failures in turn and then `m` attempts in flight together: 4 + m failures at one moment, so the bound with
      one failure less between them does not hold. */
  lemma InFlightBoundIsTight(m: nat) returns (es: seq<Action>)
    requires m > 0
    ensures Ordered(es) && AtMost(GROUNDED, es, m)
    ensures !Apart(FlyAll(GROUNDED, es).history, MAX_FAILURES - 2 + m)
  {
    es := AllMiss(m, m);
    var h := FlyAll(GROUNDED, es).history;
    TimesAre(MAX_FAILURES - 1 + m, 0);
    assert h[0] == 0 && h[0 + (MAX_FAILURES - 2 + m)] == 0;
  }
}
