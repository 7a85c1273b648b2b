/** Two-factor authentication of one user: the seed, the one-time codes and the recovery codes. */
module TwoFactor {
  import opened Base
  import opened Text
  import LoginLock

  /** The columns of the user's row. A NULL column is the empty string or list. */
  datatype User = User(plain: string, enc: string, enabled: bool, lastCounter: nat, recovery: seq<string>)

  const FRESH := User("", "", false, 0, [])

  datatype Cipher = Cipher(open: string -> Option<string>)

  /** The cryptography in use: the code of a key at a time step, base32 decoding, the cipher if one is configured,
      and the hash of recovery codes. */
  datatype World = World(
    hotp: (string, nat) -> string, decode: string -> Option<string>, cipher: Option<Cipher>, hash: string -> string)

  // ---- time-based codes ----

  const STEP := 30
  const LENGTH := 6
  const TWO_64 := 0x1_0000_0000_0000_0000

  /** The unsigned 64-bit counter `offset` steps from the current one. */
  function StepAt(now: nat, offset: int): nat { (now / STEP + offset) % TWO_64 }

  predicate Shows(w: World, key: string, code: string, now: nat, offset: int) {
    w.hotp(key, StepAt(now, offset)) == TrimSpace(code)
  }

  /** The first step of the window, one step to either side, whose code this is. */
  function MatchingStep(w: World, key: string, code: string, now: nat): (r: Option<nat>)
    ensures r.Some? ==> exists o :: -1 <= o <= 1 && r.value == StepAt(now, o) && Shows(w, key, code, now, o)
  {
    if |TrimSpace(code)| != LENGTH then None
    else if Shows(w, key, code, now, -1) then Some(StepAt(now, -1))
    else if Shows(w, key, code, now, 0) then Some(StepAt(now, 0))
    else if Shows(w, key, code, now, 1) then Some(StepAt(now, 1))
    else None
  }

  method MatchingCounter(w: World, key: string, code: string, now: nat) returns (r: Option<nat>)
    ensures r == MatchingStep(w, key, code, now)
    ensures r == None <==> |TrimSpace(code)| != LENGTH || forall o :: -1 <= o <= 1 ==> !Shows(w, key, code, now, o)
  {
    var c := TrimSpace(code);
    if |c| != LENGTH {
      return None;
    }
    for offset := -1 to 2
      invariant forall o :: -1 <= o < offset ==> !Shows(w, key, code, now, o)
    {
      if w.hotp(key, StepAt(now, offset)) == c {
        assert Shows(w, key, code, now, offset);
        return Some(StepAt(now, offset));
      }
    }
    assert !Shows(w, key, code, now, -1) && !Shows(w, key, code, now, 0) && !Shows(w, key, code, now, 1);
    r := None;
  }

  /** With clocks from 30 s on, a code is good for the step it belongs to and the two beside it: step c covers the 30 s
      from 30 * c, so its code is taken from 30 s before they begin until 30 s after they end. Of two steps with one
      code the earlier is taken. */
  lemma CodeIsGoodIff(w: World, key: string, code: string, now: nat, c: nat)
    requires 30 <= now < 30 * (TWO_64 - 1)
    ensures MatchingStep(w, key, code, now) == Some(c)
            <==> (&& |TrimSpace(code)| == 6 && w.hotp(key, c) == TrimSpace(code)
                  && 30 * c - 30 <= now < 30 * c + 60
                  && forall d: nat :: d < c && now < 30 * d + 60 ==> w.hotp(key, d) != TrimSpace(code))
  {
    var q := now / STEP;
    assert StepAt(now, -1) == q - 1 && StepAt(now, 0) == q && StepAt(now, 1) == q + 1;
    assert forall d: nat :: now < 30 * d + 60 <==> q - 1 <= d;
    assert 30 * c - 30 <= now <==> c <= q + 1;
  }

  /** In the first 30 s of 1970 the earlier neighbour is the last 64-bit step. */
  lemma StepBeforeTheFirst(now: nat)
    requires now < 30
    ensures StepAt(now, -1) == TWO_64 - 1 && StepAt(now, 0) == 0 && StepAt(now, 1) == 1
  {
  }

  function StepOf(w: World, secret: string, code: string, now: nat): Option<nat> {
    if w.decode(secret) == None then None else MatchingStep(w, w.decode(secret).value, code, now)
  }

  // ---- recovery codes ----

  function IndexIn(hashes: seq<string>, h: string): (i: nat)
    ensures i <= |hashes| && (i < |hashes| <==> h in hashes)
    ensures i < |hashes| ==> hashes[i] == h && h !in hashes[..i]
  {
    if hashes == [] || hashes[0] == h then 0 else 1 + IndexIn(hashes[1..], h)
  }

  method MatchRecoveryCode(w: World, code: string, hashed: seq<string>) returns (i: int)
    ensures var h := w.hash(TrimSpace(code)); i == if h in hashed then IndexIn(hashed, h) as int else -1
  {
    var h := w.hash(TrimSpace(code));
    for k := 0 to |hashed|
      invariant h !in hashed[..k]
    {
      if hashed[k] == h {
        FirstIndex(hashed, h, k);
        return k;
      }
    }
    assert hashed[..|hashed|] == hashed;
    i := -1;
  }

  lemma FirstIndex(hashes: seq<string>, h: string, k: nat)
    requires k < |hashes| && hashes[k] == h && h !in hashes[..k]
    ensures IndexIn(hashes, h) == k
  {
    var i := IndexIn(hashes, h);
    assert forall j :: 0 <= j < k ==> hashes[j] in hashes[..k];
    assert forall j :: 0 <= j < i ==> hashes[j] in hashes[..i];
  }

  function Removed<T>(s: seq<T>, i: nat): seq<T>
    requires i < |s|
  {
    s[..i] + s[i + 1..]
  }

  // ---- the operations on the row ----

  /** totpSecret: the seed, and whether it came from the encrypted column. */
  function Seed(u: User, w: World): Result<(string, bool)> {
    if u.enc != "" && w.cipher.Some? then
      match w.cipher.value.open(u.enc)
      case None => Err
      case Some(secret) => Ok((secret, true))
    else Ok((u.plain, false))
  }

  /** The encrypted column goes first when there is a cipher, and what cannot be decrypted is lost. */
  lemma SeedIs(u: User, w: World)
    ensures u.enc == "" || w.cipher == None ==> Seed(u, w) == Ok((u.plain, false))
    ensures u.enc != "" && w.cipher.Some? ==>
              var secret := w.cipher.value.open(u.enc);
              if secret == None then Seed(u, w) == Err else Seed(u, w) == Ok((secret.value, true))
  {
  }

  function HashAll(w: World, codes: seq<string>): seq<string> {
    seq(|codes|, i requires 0 <= i < |codes| => w.hash(codes[i]))
  }

  predicate StoresHashes(u: User, codes: seq<string>, w: World) {
    |u.recovery| == |codes| && forall i :: 0 <= i < |codes| ==> u.recovery[i] == w.hash(codes[i])
  }

  function WithSeed(enc: string, plain: string, recovery: seq<string>): User { User(plain, enc, false, 0, recovery) }

  /** A seed found in the plain column moves to the encrypted one. Encrypting may fail: then nothing moves. */
  function Upgraded(u: User, w: World, sealed: Option<string>): User {
    if Seed(u, w).Ok? && !Seed(u, w).value.1 && w.cipher.Some? && sealed.Some?
    then u.(enc := sealed.value, plain := "") else u
  }

  datatype Verdict = SeedLost | ByCode(step: nat) | ByRecovery(index: nat) | Wrong

  function Judged(u: User, w: World, code: string, now: nat): (v: Verdict)
    ensures v.ByRecovery? ==> v.index < |u.recovery|
  {
    if Seed(u, w).Err? then SeedLost
    else
      var secret := Seed(u, w).value.0;
      var m := if secret == "" then None else StepOf(w, secret, code, now);
      var i := IndexIn(u.recovery, w.hash(TrimSpace(code)));
      if m.Some? && (u.lastCounter == 0 || m.value > u.lastCounter) then ByCode(m.value)
      else if i < |u.recovery| then ByRecovery(i)
      else Wrong
  }

  function Verified(u: User, w: World, code: string, sealed: Option<string>, now: nat): User {
    match Judged(u, w, code, now)
    case ByCode(step) => Upgraded(u.(lastCounter := step), w, sealed)
    case ByRecovery(index) => u.(recovery := Removed(u.recovery, index))
    case _ => u
  }

  predicate CanEnable(u: User, w: World, code: string, now: nat) {
    Seed(u, w).Ok? && Seed(u, w).value.0 != "" && StepOf(w, Seed(u, w).value.0, code, now).Some?
  }

  predicate CanDisable(u: User, w: World, code: string, now: nat) {
    && u.enabled && Seed(u, w).Ok?
    && (StepOf(w, Seed(u, w).value.0, code, now).Some? || w.hash(TrimSpace(code)) in u.recovery)
  }

  class UserRepo {
    var row: User

    constructor ()
      ensures row == FRESH
    {
      row := FRESH;
    }

    /** Refuses to store a seed that was not encrypted. */
    method SetTOTP(enc: string, plain: string, recovery: seq<string>) returns (ok: bool)
      modifies this
      ensures ok <==> enc != "" || plain == ""
      ensures row == if ok then WithSeed(enc, plain, recovery) else old(row)
    {
      if enc == "" && plain != "" {
        return false;
      }
      Overwrite(enc, plain, recovery);
      ok := true;
    }

    method SetTOTPPlaintextLegacy(plain: string, recovery: seq<string>)
      modifies this
      ensures row == WithSeed("", plain, recovery)
    {
      Overwrite("", plain, recovery);
    }

    method Overwrite(enc: string, plain: string, recovery: seq<string>)
      modifies this
      ensures row == WithSeed(enc, plain, recovery)
    {
      row := row.(enc := enc, plain := plain, recovery := recovery, enabled := false, lastCounter := 0);
    }

    method SetTOTPLastCounter(counter: nat)
      modifies this
      ensures row == old(row).(lastCounter := counter)
    {
      row := row.(lastCounter := counter);
    }

    method SetTOTPSecretEnc(enc: string)
      modifies this
      ensures row.enc == enc && row.plain == ""
      ensures row.enabled == old(row).enabled && row.lastCounter == old(row).lastCounter
              && row.recovery == old(row).recovery
    {
      row := row.(enc := enc, plain := "");
    }

    method EnableTOTP()
      modifies this
      ensures row == old(row).(enabled := true)
    {
      row := row.(enabled := true);
    }

    method DisableTOTP()
      modifies this
      ensures row == FRESH
    {
      row := row.(plain := "", enc := "", enabled := false, recovery := [], lastCounter := 0);
    }

    method SetTOTPRecoveryCodes(recovery: seq<string>)
      modifies this
      ensures row == old(row).(recovery := recovery)
    {
      row := row.(recovery := recovery);
    }
  }

  class AuthService {
    const users: UserRepo
    const limiter: LoginLock.RateLimitRepo
    const limits: LoginLock.Limits
    const w: World

    constructor (users: UserRepo, limiter: LoginLock.RateLimitRepo, limits: LoginLock.Limits, w: World)
      ensures this.users == users && this.limiter == limiter && this.limits == limits && this.w == w
    {
      this.users, this.limiter, this.limits, this.w := users, limiter, limits, w;
    }

    /** `sealed` is the outcome of encrypting the seed. */
    method Setup2FA(secret: string, codes: seq<string>, sealed: Option<string>) returns (ok: bool)
      modifies users
      ensures ok <==> w.cipher == None || sealed.Some?
      ensures users.row == Step(old(users.row), Event(w, Setup(secret, codes, sealed)))
      ensures if ok then StoresHashes(users.row, codes, w) && !users.row.enabled && users.row.lastCounter == 0
              else users.row == old(users.row)
      ensures ok ==> if w.cipher == None then users.row.plain == secret && users.row.enc == ""
                     else users.row.plain == "" && users.row.enc == sealed.value
    {
      if w.cipher == None {
        users.SetTOTPPlaintextLegacy(secret, HashAll(w, codes));
        return true;
      }
      if sealed == None {
        return false;
      }
      ok := users.SetTOTP(sealed.value, "", HashAll(w, codes));
    }

    method TotpSecret() returns (r: Result<(string, bool)>)
      ensures r == Seed(users.row, w)
    {
      if users.row.enc != "" && w.cipher.Some? {
        var plain := w.cipher.value.open(users.row.enc);
        if plain == None {
          return Err;
        }
        return Ok((plain.value, true));
      }
      r := Ok((users.row.plain, false));
    }

    /** Confirming does not use up the step. */
    method Enable2FA(code: string, sealed: Option<string>, now: nat) returns (ok: bool)
      modifies users
      ensures ok <==> CanEnable(old(users.row), w, code, now)
      ensures ok ==> users.row.enabled && users.row.lastCounter == old(users.row).lastCounter
                     && users.row.recovery == old(users.row).recovery
      ensures !ok ==> users.row == old(users.row)
      ensures users.row == Step(old(users.row), Event(w, Enable(code, sealed, now)))
    {
      var secret := TotpSecret();
      if secret.Err? || secret.value.0 == "" {
        return false;
      }
      ok := Validate(code, secret.value.0, now);
      if !ok {
        return false;
      }
      if !secret.value.1 && w.cipher.Some? && sealed.Some? {
        users.SetTOTPSecretEnc(sealed.value);
      }
      users.EnableTOTP();
    }

    method Validate(code: string, secret: string, now: nat) returns (ok: bool)
      ensures ok <==> StepOf(w, secret, code, now).Some?
    {
      var key := w.decode(secret);
      if key == None {
        return false;
      }
      var m := MatchingCounter(w, key.value, code, now);
      ok := m.Some?;
    }

    method Disable2FA(code: string, now: nat) returns (ok: bool)
      modifies users
      ensures ok <==> CanDisable(old(users.row), w, code, now)
      ensures ok ==> old(users.row).enabled && users.row == User("", "", false, 0, [])
      ensures !ok ==> users.row == old(users.row)
      ensures users.row == Step(old(users.row), Event(w, Disable(code, now)))
    {
      if !users.row.enabled {
        return false;
      }
      var secret := TotpSecret();
      if secret.Err? {
        return false;
      }
      ok := Validate(code, secret.value.0, now);
      if !ok {
        var i := MatchRecoveryCode(w, code, users.row.recovery);
        if i < 0 {
          return false;
        }
        ok := true;
      }
      users.DisableTOTP();
    }

    /** The second step of a login. `active` is the account's own flag; `now` is the application's clock for the codes
        and `dbNow` the database's for the lock. */
    method Verify2FA(bucket: string, code: string, sealed: Option<string>, now: nat, active: bool, dbNow: int)
        returns (v: Verdict)
      modifies users, limiter
      ensures var u, rows := old(users.row), old(limiter.rows);
              var refused := !u.enabled || !active || LoginLock.LockedRow(rows, bucket, dbNow);
              && v == (if refused then Wrong else Judged(u, w, code, now))
              && users.row == Step(u, Event(w, Verify(code, sealed, now, refused)))
              && limiter.rows == (if !u.enabled || !active then rows
                                  else LoginLock.AfterLogin(rows, bucket, AttemptOf(v), limits, dbNow))
      ensures !old(users.row).enabled || !active ==> v == Wrong && limiter.rows == old(limiter.rows)
      ensures v == Wrong || v == SeedLost ==> users.row == old(users.row)
      ensures v.ByRecovery? ==> CodeUsedUp(old(users.row), users.row, v.index, w.hash(TrimSpace(code)))
      ensures v.ByCode? ==> users.row.lastCounter == v.step && users.row.recovery == old(users.row).recovery
      ensures v == Wrong && old(users.row).enabled && active && !LoginLock.LockedRow(old(limiter.rows), bucket, dbNow)
              ==> w.hash(TrimSpace(code)) !in old(users.row).recovery
      // what the lock learns of it
      ensures old(users.row).enabled && active && !LoginLock.LockedRow(old(limiter.rows), bucket, dbNow)
              ==> LockTold(old(limiter.rows), limiter.rows, bucket, v, limits, dbNow)
      ensures forall b :: b != bucket ==>
                            (b in limiter.rows <==> b in old(limiter.rows))
                            && (b in limiter.rows ==> limiter.rows[b] == old(limiter.rows)[b])
    {
      if !users.row.enabled || !active {
        return Wrong;
      }
      var locked := limiter.LoginLocked(bucket, dbNow);
      if locked {
        return Wrong;
      }
      v := Check(code, sealed, now);
      if v == Wrong {
        limiter.RecordLoginFailure(bucket, limits, dbNow);
      } else if v != SeedLost {
        limiter.Reset(bucket);
      }
    }

    /** The code first, then the recovery codes; each is used up by its success. */
    method Check(code: string, sealed: Option<string>, now: nat) returns (v: Verdict)
      modifies users
      ensures v == Judged(old(users.row), w, code, now)
      ensures users.row == Verified(old(users.row), w, code, sealed, now)
    {
      var secret := TotpSecret();
      if secret.Err? {
        return SeedLost;
      }
      var step := ValidateWithReplay(code, secret.value.0, now);
      if step == None {
        v := CheckRecovery(code);
      } else {
        if !secret.value.1 && w.cipher.Some? && sealed.Some? {
          users.SetTOTPSecretEnc(sealed.value);
        }
        v := ByCode(step.value);
      }
    }

    /** A matching recovery code is taken out of the list. */
    method CheckRecovery(code: string) returns (v: Verdict)
      modifies users
      ensures var u, h := old(users.row), w.hash(TrimSpace(code));
              if h in u.recovery then
                v == ByRecovery(IndexIn(u.recovery, h))
                && users.row == u.(recovery := Removed(u.recovery, IndexIn(u.recovery, h)))
              else v == Wrong && users.row == u
    {
      var i := MatchRecoveryCode(w, code, users.row.recovery);
      if i < 0 {
        return Wrong;
      }
      users.SetTOTPRecoveryCodes(Removed(users.row.recovery, i));
      v := ByRecovery(i);
    }

    method ValidateWithReplay(code: string, secret: string, now: nat) returns (step: Option<nat>)
      modifies users
      ensures var u, m := old(users.row), if secret == "" then None else StepOf(w, secret, code, now);
              && step == (if m.Some? && (u.lastCounter == 0 || m.value > u.lastCounter) then m else None)
              && users.row == if step.Some? then u.(lastCounter := step.value) else u
    {
      if secret == "" || |TrimSpace(code)| != LENGTH || w.decode(secret) == None {
        return None;
      }
      TrimmedTwice(code);
      var counter := MatchingCounter(w, w.decode(secret).value, TrimSpace(code), now);
      if counter == None {
        return None;
      }
      if users.row.lastCounter > 0 && counter.value <= users.row.lastCounter {
        return None;
      }
      users.SetTOTPLastCounter(counter.value);
      step := counter;
    }
  }

  /** A wrong code counts, and locks from the limit on; a right one clears the row; a lost seed does neither. An expired
      lock counts as no failures. */
  predicate LockTold(was: LoginLock.Rows, now: LoginLock.Rows, b: string, v: Verdict, l: LoginLock.Limits, at: int) {
    var fails := if b in was && was[b].lockedUntil == None then was[b].count else 0;
    match v
    case Wrong =>
      b in now && now[b] == LoginLock.Row(fails + 1, if fails + 1 >= l.maxFails then Some(at + l.window) else None)
    case SeedLost => if b in was then b in now && now[b] == LoginLock.Row(fails, None) else b !in now
    case _ => b !in now
  }

  /** The code whose hash is h was stored at place i and is taken out, and nothing else changes. */
  predicate CodeUsedUp(was: User, now: User, i: nat, h: string) {
    && i < |was.recovery| && was.recovery[i] == h && now.recovery == was.recovery[..i] + was.recovery[i + 1..]
    && now == was.(recovery := now.recovery)
  }

  function AttemptOf(v: Verdict): LoginLock.Attempt {
    match v
    case SeedLost => LoginLock.Disabled // nothing is recorded
    case Wrong => LoginLock.Wrong
    case _ => LoginLock.Right
  }

  /** The administrator's two operations. */
  class UserService {
    const users: UserRepo
    const w: World

    constructor (users: UserRepo, w: World)
      ensures this.users == users && this.w == w
    {
      this.users, this.w := users, w;
    }

    method ForceEnable2FA(secret: string, codes: seq<string>, sealed: Option<string>) returns (ok: bool)
      modifies users
      ensures ok <==> w.cipher.Some? && sealed.Some?
      ensures users.row == Step(old(users.row), Event(w, ForceEnable(secret, codes, sealed)))
      ensures if ok then StoresHashes(users.row, codes, w) && users.row.enabled && users.row.lastCounter == 0
                         && users.row.plain == "" && users.row.enc == sealed.value
              else users.row == old(users.row)
    {
      if w.cipher == None || sealed == None {
        return false;
      }
      ok := users.SetTOTP(sealed.value, "", HashAll(w, codes));
      users.EnableTOTP();
    }

    method ForceDisable2FA()
      modifies users
      ensures users.row == Step(old(users.row), Event(w, ForceDisable))
    {
      users.DisableTOTP();
    }
  }

  // ---- whole histories of one user ----

  datatype Call =
    | Setup(secret: string, codes: seq<string>, sealed: Option<string>)
    | Enable(code: string, sealed: Option<string>, now: nat)
    | Disable(code: string, now: nat)
    | Verify(code: string, sealed: Option<string>, now: nat, refused: bool)
    | ForceEnable(secret: string, codes: seq<string>, sealed: Option<string>)
    | ForceDisable

  /** A call, on an instance with its own configuration. */
  datatype Event = Event(w: World, call: Call)

  function Step(u: User, e: Event): User {
    match e.call
    case Setup(secret, codes, sealed) =>
      if e.w.cipher == None then WithSeed("", secret, HashAll(e.w, codes))
      else if sealed == None then u
      else WithSeed(sealed.value, "", HashAll(e.w, codes))
    case Enable(code, sealed, now) =>
      if CanEnable(u, e.w, code, now) then Upgraded(u, e.w, sealed).(enabled := true) else u
    case Disable(code, now) => if CanDisable(u, e.w, code, now) then FRESH else u
    case Verify(code, sealed, now, refused) => if refused || !u.enabled then u else Verified(u, e.w, code, sealed, now)
    case ForceEnable(secret, codes, sealed) =>
      if e.w.cipher == None || sealed == None then u
      else WithSeed(sealed.value, "", HashAll(e.w, codes)).(enabled := true)
    case ForceDisable => FRESH
  }

  function Exec(run: seq<Event>): User {
    if run == [] then FRESH else Step(Exec(run[..|run| - 1]), run[|run| - 1])
  }

  function Outcome(u: User, e: Event): (v: Verdict)
    ensures v.ByRecovery? ==> v.index < |u.recovery|
  {
    if e.call.Verify? && !e.call.refused && u.enabled then Judged(u, e.w, e.call.code, e.call.now) else Wrong
  }

  /** A new seed is set up, or the old one is cleared. */
  predicate Restarts(u: User, e: Event) {
    match e.call
    case Setup(_, _, sealed) => e.w.cipher == None || sealed.Some?
    case Disable(code, now) => CanDisable(u, e.w, code, now)
    case ForceEnable(_, _, sealed) => e.w.cipher.Some? && sealed.Some?
    case ForceDisable => true
    case _ => false
  }

  /** The steps accepted since the last restart. */
  function Accepted(run: seq<Event>): seq<nat> {
    if run == [] then []
    else
      var before, e := run[..|run| - 1], run[|run| - 1];
      var v := Outcome(Exec(before), e);
      if Restarts(Exec(before), e) then [] else Accepted(before) + if v.ByCode? then [v.step] else []
  }

  /** The hashes stored at the last restart, and those used up since. */
  function Issued(run: seq<Event>): seq<string> {
    if run == [] then []
    else
      var before, e := run[..|run| - 1], run[|run| - 1];
      if Restarts(Exec(before), e) then Exec(run).recovery else Issued(before)
  }

  function Consumed(run: seq<Event>): seq<string> {
    if run == [] then []
    else
      var before, e := run[..|run| - 1], run[|run| - 1];
      var u, v := Exec(before), Outcome(Exec(before), e);
      if Restarts(u, e) then [] else Consumed(before) + if v.ByRecovery? then [u.recovery[v.index]] else []
  }

  /** Generated seeds and ciphertexts are not empty. */
  ghost predicate Sound(run: seq<Event>) {
    forall i :: 0 <= i < |run| ==> SoundEvent(run[i])
  }

  predicate SoundEvent(e: Event) {
    match e.call
    case Setup(secret, _, sealed) => secret != "" && sealed != Some("")
    case ForceEnable(secret, _, sealed) => secret != "" && sealed != Some("")
    case Enable(_, sealed, _) => sealed != Some("")
    case Verify(_, sealed, _, _) => sealed != Some("")
    case _ => true
  }

  /** Enabled only with a stored seed; never both columns; and without a seed nothing else is left behind. */
  predicate Consistent(u: User) {
    && (u.plain == "" || u.enc == "")
    && (u.plain == "" && u.enc == "" ==> u == FRESH)
  }

  lemma {:induction false} RowStaysConsistent(run: seq<Event>)
    requires Sound(run)
    ensures Consistent(Exec(run))
  {
    if run != [] {
      RowStaysConsistent(run[..|run| - 1]);
      assert SoundEvent(run[|run| - 1]);
    }
  }

  /** Moving the seed to the encrypted column does not change it. */
  lemma UpgradeKeepsSeed(u: User, w: World, sealed: Option<string>)
    requires Consistent(u) && Seed(u, w).Ok?
    requires w.cipher.Some? && sealed.Some? && sealed.value != ""
            ==> w.cipher.value.open(sealed.value) == Some(Seed(u, w).value.0)
    requires sealed != Some("")
    ensures var v := Upgraded(u, w, sealed);
            && Seed(v, w).Ok? && Seed(v, w).value.0 == Seed(u, w).value.0
            && (w.cipher.Some? && sealed.Some? ==> v.plain == "")
  {
  }

  // ---- one-time codes ----

  ghost predicate Rising(s: seq<nat>) {
    forall i, k :: 0 <= i < k < |s| ==> s[i] < s[k] || (s[i] == 0 && s[k] == 0)
  }

  /** The stored counter is the last of the accepted steps. */
  ghost predicate Recorded(u: User, accepted: seq<nat>) {
    && Rising(accepted)
    && u.lastCounter == if accepted == [] then 0 else accepted[|accepted| - 1]
  }

  lemma RisesByNext(u: User, accepted: seq<nat>, step: nat)
    requires Recorded(u, accepted) && (u.lastCounter == 0 || step > u.lastCounter)
    ensures Rising(accepted + [step])
  {
  }

  lemma CounterAfter(u: User, e: Event)
    ensures Step(u, e).lastCounter
            == if Restarts(u, e) then 0 else var v := Outcome(u, e); if v.ByCode? then v.step else u.lastCounter
    ensures var v := Outcome(u, e); v.ByCode? ==> u.lastCounter == 0 || v.step > u.lastCounter
  {
  }

  lemma {:induction false} LastAccepted(run: seq<Event>)
    ensures Recorded(Exec(run), Accepted(run))
  {
    if run != [] {
      var before, e := run[..|run| - 1], run[|run| - 1];
      LastAccepted(before);
      CounterAfter(Exec(before), e);
      var v := Outcome(Exec(before), e);
      if v.ByCode? { RisesByNext(Exec(before), Accepted(before), v.step); }
    }
  }

  /** Every accepted step is below c, or is step 0. */
  ghost predicate Unused(accepted: seq<nat>, c: nat) { forall a :: a in accepted ==> a < c || a == 0 }

  lemma AllBelowIffLastBelow(u: User, accepted: seq<nat>, c: nat)
    requires Recorded(u, accepted)
    ensures u.lastCounter == 0 || c > u.lastCounter <==> Unused(accepted, c)
  {
    if accepted != [] { assert accepted[|accepted| - 1] in accepted; }
    forall a | a in accepted ensures a <= u.lastCounter {
      var i :| 0 <= i < |accepted| && accepted[i] == a;
    }
  }

  lemma JudgedByCode(u: User, accepted: seq<nat>, w: World, code: string, now: nat)
    requires Recorded(u, accepted) && Seed(u, w).Ok? && Seed(u, w).value.0 != ""
    ensures Judged(u, w, code, now).ByCode?
            <==> var c := StepOf(w, Seed(u, w).value.0, code, now); c.Some? && Unused(accepted, c.value)
  {
    var c := StepOf(w, Seed(u, w).value.0, code, now);
    if c.Some? { AllBelowIffLastBelow(u, accepted, c.value); }
  }

  /** A code whose step is c logs the user in exactly when every step accepted since the last setup is below c, or is
      step 0. */
  lemma CodeIsAcceptedIff(run: seq<Event>, w: World, code: string, now: nat)
    requires Seed(Exec(run), w).Ok? && Seed(Exec(run), w).value.0 != ""
    ensures Judged(Exec(run), w, code, now).ByCode?
            <==> var c := StepOf(w, Seed(Exec(run), w).value.0, code, now);
                 c.Some? && Unused(Accepted(run), c.value)
  {
    LastAccepted(run);
    JudgedByCode(Exec(run), Accepted(run), w, code, now);
  }

  lemma StepZeroIsEarly(w: World, key: string, code: string, now: nat)
    requires MatchingStep(w, key, code, now) == Some(0) && now < TWO_64
    ensures now < 2 * STEP
  {
    var o :| -1 <= o <= 1 && 0 == StepAt(now, o) && Shows(w, key, code, now, o);
    assert 0 <= now / STEP + o < TWO_64 || now / STEP + o == -1;
  }

  ghost predicate AfterFirstMinute(run: seq<Event>) {
    forall i :: 0 <= i < |run| && run[i].call.Verify? ==> 2 * STEP <= run[i].call.now < TWO_64
  }

  /** The one-time rule (section 5.2 of RFC 6238): with clocks past the first minute of 1970, the steps accepted between
      two setups rise strictly, so none is accepted twice. */
  lemma {:induction false} StepsRiseStrictly(run: seq<Event>)
    requires AfterFirstMinute(run)
    ensures forall i, k :: 0 <= i < k < |Accepted(run)| ==> Accepted(run)[i] < Accepted(run)[k]
    ensures 0 !in Accepted(run)
  {
    if run != [] {
      var before, e := run[..|run| - 1], run[|run| - 1];
      StepsRiseStrictly(before);
      LastAccepted(run);
      var u := Exec(before);
      if Outcome(u, e) == ByCode(0) {
        StepZeroIsEarly(e.w, e.w.decode(Seed(u, e.w).value.0).value, e.call.code, e.call.now);
      }
    }
  }

  ghost predicate StrictlyRising(s: seq<nat>) { forall i, k :: 0 <= i < k < |s| ==> s[i] < s[k] }

  ghost predicate AtMostOneZero(s: seq<nat>) { forall i, k :: 0 <= i < k < |s| ==> !(s[i] == 0 && s[k] == 0) }

  /** The exact one-time rule, whatever the clocks: the accepted steps rise strictly if and only if at most one of them
      is step 0. */
  lemma StepsRiseStrictlyIff(run: seq<Event>)
    ensures StrictlyRising(Accepted(run)) <==> AtMostOneZero(Accepted(run))
  {
    LastAccepted(run);
    RisingIsStrictIff(Accepted(run));
  }

  lemma RisingIsStrictIff(s: seq<nat>)
    requires Rising(s)
    ensures StrictlyRising(s) <==> AtMostOneZero(s)
  {
  }

  /** A world in which step 0 has the code 000000 and every other step 111111, and nothing is encrypted. */
  function PlainWorld(): World { World(PlainCode, PlainKey, None, PlainHash) }

  function PlainCode(key: string, step: nat): string { if step == 0 then "000000" else "111111" }

  function PlainKey(secret: string): Option<string> { Some(secret) }

  function PlainHash(code: string): string { "#" + code }

  function ZeroTwiceRun(): seq<Event> {
    var w := PlainWorld();
    [Event(w, Setup("JBSWY3DP", [], None)), Event(w, Enable("000000", None, 31)),
     Event(w, Verify("000000", None, 31, false)), Event(w, Verify("000000", None, 31, false))]
  }

  lemma RunSteps(run: seq<Event>, k: nat)
    requires k < |run|
    ensures Exec(run[..k + 1]) == Step(Exec(run[..k]), run[k])
    ensures Accepted(run[..k + 1])
            == if Restarts(Exec(run[..k]), run[k]) then []
               else var v := Outcome(Exec(run[..k]), run[k]); Accepted(run[..k]) + if v.ByCode? then [v.step] else []
  {
    assert run[..k + 1][..k] == run[..k];
  }

  const ZERO_USER := User("JBSWY3DP", "", true, 0, [])

  lemma ZeroUserIsAccepted()
    ensures var e := Event(PlainWorld(), Verify("000000", None, 31, false));
            Step(ZERO_USER, e) == ZERO_USER && !Restarts(ZERO_USER, e) && Outcome(ZERO_USER, e) == ByCode(0)
  {
    ZeroMatches();
  }

  lemma ZeroUserIsEnabled()
    ensures var w := PlainWorld();
            var u, e := Step(FRESH, Event(w, Setup("JBSWY3DP", [], None))), Event(w, Enable("000000", None, 31));
            Step(u, e) == ZERO_USER && !Restarts(u, e) && Outcome(u, e) == Wrong
  {
    ZeroMatches();
  }

  lemma ZeroTwiceIsSound()
    ensures Sound(ZeroTwiceRun())
  {
    var run := ZeroTwiceRun();
    assert SoundEvent(run[0]) && SoundEvent(run[1]) && SoundEvent(run[2]) && SoundEvent(run[3]);
  }

  lemma RunsToEnabled(run: seq<Event>, w: World)
    requires 2 <= |run| && w == PlainWorld()
    requires run[0] == Event(w, Setup("JBSWY3DP", [], None)) && run[1] == Event(w, Enable("000000", None, 31))
    ensures Exec(run[..2]) == ZERO_USER && Accepted(run[..2]) == []
  {
    assert run[..0] == [];
    RunSteps(run, 0);
    RunSteps(run, 1);
    ZeroUserIsEnabled();
  }

  lemma AcceptsZero(run: seq<Event>, k: nat)
    requires k < |run| && Exec(run[..k]) == ZERO_USER
    requires run[k] == Event(PlainWorld(), Verify("000000", None, 31, false))
    ensures Exec(run[..k + 1]) == ZERO_USER && Accepted(run[..k + 1]) == Accepted(run[..k]) + [0]
  {
    RunSteps(run, k);
    ZeroUserIsAccepted();
  }

  /** It happens: in the first minute of 1970 one code logs the user in twice, because a stored 0 means no code used. */
  lemma StepZeroCanBeRepeated()
    ensures Sound(ZeroTwiceRun()) && Accepted(ZeroTwiceRun()) == [0, 0]
  {
    var run := ZeroTwiceRun();
    ZeroTwiceIsSound();
    RunsToEnabled(run, PlainWorld());
    AcceptsZero(run, 2);
    AcceptsZero(run, 3);
    assert run[..4] == run;
  }

  lemma ZeroMatches()
    ensures StepOf(PlainWorld(), "JBSWY3DP", "000000", 31) == Some(0)
  {
    assert forall c :: c in "000000" ==> !IsSpace(c);
    NothingToTrim("000000");
  }

  // ---- recovery codes ----

  lemma RemovedOne(s: seq<string>, i: nat)
    requires i < |s|
    ensures multiset(Removed(s, i)) + multiset{s[i]} == multiset(s)
  {
    assert s == s[..i] + [s[i]] + s[i + 1..];
  }

  lemma RecoveryAfter(u: User, e: Event)
    requires !Restarts(u, e)
    ensures Step(u, e).recovery
            == var v := Outcome(u, e); if v.ByRecovery? then Removed(u.recovery, v.index) else u.recovery
  {
  }

  /** Recovery hashes are conserved: those issued are those used up and those left. */
  lemma {:induction false} RecoveryIsConserved(run: seq<Event>)
    ensures multiset(Consumed(run)) + multiset(Exec(run).recovery) == multiset(Issued(run))
  {
    if run != [] {
      var before, e := run[..|run| - 1], run[|run| - 1];
      RecoveryIsConserved(before);
      var u, v := Exec(before), Outcome(Exec(before), e);
      if !Restarts(u, e) {
        RecoveryAfter(u, e);
        if v.ByRecovery? {
          RemovedOne(u.recovery, v.index);
          assert Consumed(run) == Consumed(before) + [u.recovery[v.index]];
        } else {
          assert Consumed(run) == Consumed(before) + [];
        }
      }
    }
  }

  /** A hash stored once is used at most once, and once used it is refused. */
  lemma RecoveryWorksOnce(run: seq<Event>, h: string)
    requires multiset(Issued(run))[h] == 1
    ensures multiset(Consumed(run))[h] <= 1
    ensures h in Exec(run).recovery <==> h !in Consumed(run)
  {
    RecoveryIsConserved(run);
    assert h in Exec(run).recovery <==> h in multiset(Exec(run).recovery);
    assert h in Consumed(run) <==> h in multiset(Consumed(run));
  }
}
