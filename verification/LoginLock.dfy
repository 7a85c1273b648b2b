/** Login lockout: a failure counter and a lock time per bucket (user name and client address).
    One clock, in seconds. */
module LoginLock {
  import opened Base

  datatype Row = Row(count: int, lockedUntil: Option<int>)

  datatype Attempt = Wrong | Right | Disabled // Disabled: the account is disabled, nothing is recorded

  datatype Limits = Limits(maxFails: int, window: int)

  type Rows = map<string, Row>

  predicate LockedRow(rows: Rows, b: string, now: int) {
    b in rows && rows[b].lockedUntil.Some? && now < rows[b].lockedUntil.value
  }

  /** LoginLocked's side effect: an expired lock clears the counter. */
  function Checked(rows: Rows, b: string, now: int): Rows {
    if b in rows && rows[b].lockedUntil.Some? && now >= rows[b].lockedUntil.value then rows[b := Row(0, None)] else rows
  }

  function Recorded(rows: Rows, b: string, l: Limits, now: int): Rows {
    var r := if b in rows then rows[b].(count := rows[b].count + 1) else Row(1, None);
    rows[b := if r.count >= l.maxFails then r.(lockedUntil := Some(now + l.window)) else r]
  }

  function Cleared(rows: Rows, b: string): Rows { map k | k in rows && k != b :: rows[k] }

  function AfterLogin(rows: Rows, b: string, a: Attempt, l: Limits, now: int): Rows {
    if LockedRow(rows, b, now) then rows
    else
      match a
      case Wrong => Recorded(Checked(rows, b, now), b, l, now)
      case Right => Cleared(Checked(rows, b, now), b)
      case Disabled => Checked(rows, b, now)
  }

  class RateLimitRepo {
    var rows: Rows

    constructor ()
      ensures rows == map[]
    {
      rows := map[];
    }

    method LoginLocked(b: string, now: int) returns (locked: bool)
      modifies this
      ensures locked <==> LockedRow(old(rows), b, now)
      ensures rows == Checked(old(rows), b, now)
    {
      if b !in rows || rows[b].lockedUntil == None {
        return false;
      }
      if now < rows[b].lockedUntil.value {
        return true;
      }
      rows := rows[b := Row(0, None)];
      return false;
    }

    method RecordLoginFailure(b: string, l: Limits, now: int)
      modifies this
      ensures rows == Recorded(old(rows), b, l, now)
    {
      rows := rows[b := if b in rows then rows[b].(count := rows[b].count + 1) else Row(1, None)];
      if rows[b].count >= l.maxFails {
        rows := rows[b := rows[b].(lockedUntil := Some(now + l.window))];
      }
    }

    method Reset(b: string)
      modifies this
      ensures rows == Cleared(old(rows), b)
      // the bucket is as good as new, and no other is touched
      ensures b !in rows && forall now :: !LockedRow(rows, b, now)
      ensures forall k :: k != b ==> (k in rows <==> k in old(rows)) && (k in rows ==> rows[k] == old(rows)[k])
    {
      rows := map k | k in rows && k != b :: rows[k];
    }

    /** Login, and the second step of a two-factor login, as far as the limiter sees them. */
    method Login(b: string, a: Attempt, l: Limits, now: int) returns (refused: bool)
      modifies this
      ensures refused <==> LockedRow(old(rows), b, now)
      ensures rows == AfterLogin(old(rows), b, a, l, now)
    {
      refused := LoginLocked(b, now);
      if refused {
        return;
      }
      match a {
        case Wrong => RecordLoginFailure(b, l, now);
        case Right => Reset(b);
        case Disabled =>
      }
    }
  }

  // ---- histories ----

  datatype Event = Event(bucket: string, attempt: Attempt, at: int)

  function Exec(h: seq<Event>, l: Limits): Rows {
    if h == [] then map[]
    else
      var e := h[|h| - 1];
      AfterLogin(Exec(h[..|h| - 1], l), e.bucket, e.attempt, l, e.at)
  }

  /** The reference: failures since the last success, and the time of the last of them. No lock is stored. */
  datatype Streak = Streak(fails: nat, last: int)

  function Batch(l: Limits): nat { if l.maxFails < 1 then 1 else l.maxFails }

  /** Locked while a full batch of failures has just been completed and the window since the last one runs. */
  predicate Refuses(s: Streak, l: Limits, now: int) {
    s.fails > 0 && s.fails % Batch(l) == 0 && now < s.last + l.window
  }

  function StreakOf(h: seq<Event>, b: string, l: Limits): Streak {
    if h == [] then Streak(0, 0)
    else
      var s, e := StreakOf(h[..|h| - 1], b, l), h[|h| - 1];
      if e.bucket != b || Refuses(s, l, e.at) then s
      else
        match e.attempt
        case Wrong => Streak(s.fails + 1, e.at)
        case Right => Streak(0, e.at)
        case Disabled => s
  }

  ghost predicate InOrder(h: seq<Event>) {
    forall i, k :: 0 <= i < k < |h| ==> h[i].at <= h[k].at
  }

  /** What the stored row says about the streak, at any time from `now` on. */
  ghost predicate Reflects(rows: Rows, b: string, s: Streak, l: Limits, now: int) {
    if b !in rows then s.fails == 0
    else if rows[b].lockedUntil.Some? then
      && s.fails > 0 && s.fails % Batch(l) == 0
      && rows[b].lockedUntil.value == s.last + l.window && rows[b].count == Batch(l)
    else
      && rows[b].count == s.fails % Batch(l)
      && (s.fails > 0 && s.fails % Batch(l) == 0 ==> s.last + l.window <= now)
  }

  lemma RemainderIsUnique(q: int, r: int, q': int, r': int, m: int)
    requires 0 <= r < m && 0 <= r' < m && q * m + r == q' * m + r'
    ensures r == r'
  {
    var d := q - q';
    assert d * m == r' - r;
    assert d >= 1 ==> d * m >= m;
    assert d <= -1 ==> -d * m >= m;
  }

  lemma NextInBatch(n: nat, m: nat)
    requires 1 <= m
    ensures (n + 1) % m == if n % m + 1 == m then 0 else n % m + 1
  {
    var q, r := n / m, n % m;
    if r + 1 == m {
      assert n + 1 == (q + 1) * m + 0;
      RemainderIsUnique((n + 1) / m, (n + 1) % m, q + 1, 0, m);
    } else {
      RemainderIsUnique((n + 1) / m, (n + 1) % m, q, r + 1, m);
    }
  }

  lemma ReflectsStep(rows: Rows, b: string, s: Streak, l: Limits, before: int, e: Event)
    requires Reflects(rows, b, s, l, before) && before <= e.at && e.bucket == b
    ensures LockedRow(rows, b, e.at) <==> Refuses(s, l, e.at)
    ensures Reflects(AfterLogin(rows, b, e.attempt, l, e.at), b,
                     if Refuses(s, l, e.at) then s
                     else match e.attempt
                          case Wrong => Streak(s.fails + 1, e.at)
                          case Right => Streak(0, e.at)
                          case Disabled => s, l, e.at)
  {
    NextInBatch(s.fails, Batch(l));
  }

  lemma {:induction false} RowsReflectStreak(h: seq<Event>, b: string, l: Limits, now: int)
    requires InOrder(h) && forall i :: 0 <= i < |h| ==> h[i].at <= now
    ensures Reflects(Exec(h, l), b, StreakOf(h, b, l), l, now)
  {
    if h != [] {
      var before, e := h[..|h| - 1], h[|h| - 1];
      RowsReflectStreak(before, b, l, e.at);
      if e.bucket == b {
        ReflectsStep(Exec(before, l), b, StreakOf(before, b, l), l, e.at, e);
      }
    }
  }

  /** For every history of logins on any buckets: an attempt is refused exactly when the failures recorded on its
      bucket since the last success are a whole number of batches of maxFails and the lock window since the last
      failure has not passed. So after an expiry it takes maxFails new failures to lock again. */
  lemma RefusedIff(h: seq<Event>, b: string, l: Limits, now: int)
    requires InOrder(h) && forall i :: 0 <= i < |h| ==> h[i].at <= now
    ensures LockedRow(Exec(h, l), b, now) <==> Refuses(StreakOf(h, b, l), l, now)
  {
    RowsReflectStreak(h, b, l, now);
  }
}
