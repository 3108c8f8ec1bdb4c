/**
 * Email login with a one-time verification code.
 *
 * The code store is the key-value cache, keyed by e-mail address, with an
 * expiry per key; time is in milliseconds. The cache wrapper never throws:
 * a failed write is logged and dropped, and a write whose expiry is zero is
 * made without any expiry. Mail delivery and the random draws are inputs.
 */
module AuthService {
  import opened Common
  import opened Text

  type Email = string

  /** The stored `{code, isUsed}` record; `expiresAt` is None when the key has no expiry. */
  datatype CodeRecord = CodeRecord(code: string, isUsed: bool, expiresAt: Option<int>)

  type CodeStore = map<Email, CodeRecord>

  datatype User = User(id: string, email: Email, username: string, roleId: int, status: bool)

  /** Users keyed by e-mail address (the column `upsert` looks up). */
  type Users = map<Email, User>

  /** How long a code lives, in seconds. */
  const CodeTtlSeconds: int := 5 * 60

  /** The `expiresIn` of a login response, in seconds. */
  const TokenExpiresIn: int := 7 * 24 * 60 * 60

  const CodeLength: nat := 6
  const UserIdLength: nat := 16
  const NewUserRole: int := 2

  /** A cache read at `now`: a key whose expiry has passed is gone. */
  function Lookup(codes: CodeStore, email: Email, now: int): (rec: Option<CodeRecord>)
    ensures rec.Some? <==> email in codes && (codes[email].expiresAt.None? || now < codes[email].expiresAt.value)
    ensures rec.Some? ==> rec.value == codes[email]
  {
    if email in codes && (codes[email].expiresAt.None? || now < codes[email].expiresAt.value) then Some(codes[email])
    else None
  }

  /**
   * The cache's TTL reading in seconds: -2 for a missing key, -1 for a key
   * without expiry, else the remaining time rounded to the nearest second
   * (a half second rounds up).
   */
  function TtlReading(codes: CodeStore, email: Email, now: int): (ttl: int)
    ensures Lookup(codes, email, now).None? ==> ttl == -2
    ensures Lookup(codes, email, now).Some? && codes[email].expiresAt.None? ==> ttl == -1
    ensures Lookup(codes, email, now).Some? && codes[email].expiresAt.Some? ==>
      ttl >= 0 && ttl * 1000 - 500 <= codes[email].expiresAt.value - now < ttl * 1000 + 500
  {
    match Lookup(codes, email, now)
    case None => -2
    case Some(rec) =>
      match rec.expiresAt
      case None => -1
      case Some(e) => (e - now + 500) / 1000
  }

  /**
   * The wrapper's `set` with an expiry in seconds: no expiry when it is
   * zero, a refused (and silently dropped) write when it is negative.
   */
  function CacheSet(codes: CodeStore, email: Email, rec: CodeRecord, seconds: int, now: int): (after: CodeStore)
    ensures seconds == 0 ==> after == codes[email := rec.(expiresAt := None)]
    ensures seconds > 0 ==> after == codes[email := rec.(expiresAt := Some(now + 1000 * seconds))]
    ensures seconds < 0 ==> after == codes
  {
    if seconds == 0 then codes[email := rec.(expiresAt := None)]
    else if seconds > 0 then codes[email := rec.(expiresAt := Some(now + 1000 * seconds))]
    else codes
  }

  // ---------------------------------------------------------------------
  // sendVerificationCode

  /** `sendVerificationCode`: the code is stored first, then mailed; a mail failure is an error but the code stays. */
  function SendNext(codes: CodeStore, email: Email, draws: seq<nat>, mailDelivered: bool, now: int)
    : (out: (Result<int, HttpError>, CodeStore))
    requires |draws| == CodeLength
    ensures email in out.1 && out.1[email].isUsed == false
    ensures |out.1[email].code| == CodeLength && forall i :: 0 <= i < CodeLength ==> IsDigit(out.1[email].code[i])
    ensures out.1[email].expiresAt == Some(now + 1000 * CodeTtlSeconds)
    ensures forall e :: e != email ==> (e in out.1 <==> e in codes) && (e in codes ==> out.1[e] == codes[e])
    ensures out.0 == if mailDelivered then Ok(CodeTtlSeconds) else Err(InternalServerError)
  {
    var after := CacheSet(codes, email, CodeRecord(NumericId(draws), false, None), CodeTtlSeconds, now);
    (if mailDelivered then Ok(CodeTtlSeconds) else Err(InternalServerError), after)
  }

  // ---------------------------------------------------------------------
  // emailLogin

  datatype LoginResponse = LoginResponse(user: User, expiresIn: int)

  function NewUser(email: Email, id: string): (u: User)
    ensures u.email == email && u.id == id && u.roleId == NewUserRole && u.status
    ensures u.username == Split(email, '@')[0]
  {
    User(id, email, BeforeFirst(email, '@'), NewUserRole, true)
  }

  /** Every user is stored under its own e-mail address. */
  ghost predicate KeyedByEmail(users: Users) {
    forall e :: e in users ==> users[e].email == e
  }

  predicate IdTaken(users: Users, id: string) {
    exists e :: e in users && users[e].id == id
  }

  /**
   * `emailLogin`. The code is marked used (keeping its remaining time)
   * before the user is looked up or created; a fresh id that collides with
   * an existing user's makes the insert fail.
   */
  function LoginNext(codes: CodeStore, users: Users, email: Email, captcha: string, draws: seq<nat>, now: int)
    : (out: (Result<LoginResponse, HttpError>, CodeStore, Users))
    requires |draws| == UserIdLength
    ensures Lookup(codes, email, now).None? ==> out == (Err(Unauthorized), codes, users)
    ensures Lookup(codes, email, now).Some? && codes[email].code != captcha ==> out == (Err(Unauthorized), codes, users)
    ensures Lookup(codes, email, now).Some? && codes[email].code == captcha && codes[email].isUsed ==>
      out == (Err(Unauthorized), codes, users)
    ensures out.0.Ok? || out.0 == Err(Unauthorized) || out.0 == Err(InternalServerError)
    ensures out.0 != Err(Unauthorized) <==>
      Lookup(codes, email, now).Some? && codes[email].code == captcha && !codes[email].isUsed
    ensures out.0 != Err(Unauthorized) ==>
      out.1 == CacheSet(codes, email, codes[email].(isUsed := true), TtlReading(codes, email, now), now)
    ensures out.0.Ok? ==> out.0.value.expiresIn == TokenExpiresIn && email in out.2 && out.0.value.user == out.2[email]
    ensures out.0.Ok? && email in users ==> out.2 == users
    ensures out.0.Ok? && email !in users ==> out.2 == users[email := NewUser(email, NumericId(draws))]
    ensures out.0 == Err(InternalServerError) <==>
      out.0 != Err(Unauthorized) && email !in users && IdTaken(users, NumericId(draws))
    ensures out.0 == Err(InternalServerError) ==> out.2 == users
  {
    match Lookup(codes, email, now)
    case None => (Err(Unauthorized), codes, users)
    case Some(rec) =>
      if rec.code != captcha then (Err(Unauthorized), codes, users)
      else if rec.isUsed then (Err(Unauthorized), codes, users)
      else
        var marked := CacheSet(codes, email, rec.(isUsed := true), TtlReading(codes, email, now), now);
        if email in users then (Ok(LoginResponse(users[email], TokenExpiresIn)), marked, users)
        else
          var id := NumericId(draws);
          if IdTaken(users, id) then (Err(InternalServerError), marked, users)
          else
            var u := NewUser(email, id);
            (Ok(LoginResponse(u, TokenExpiresIn)), marked, users[email := u])
  }

  /**
   * Every key without an expiry holds a used code. Sending stores keys with
   * an expiry; only marking a code used can drop the expiry.
   */
  ghost predicate NoEverlastingUnused(codes: CodeStore) {
    forall e :: e in codes && codes[e].expiresAt.None? ==> codes[e].isUsed
  }

  lemma SendKeepsInvariant(codes: CodeStore, email: Email, draws: seq<nat>, mailDelivered: bool, now: int)
    requires |draws| == CodeLength && NoEverlastingUnused(codes)
    ensures NoEverlastingUnused(SendNext(codes, email, draws, mailDelivered, now).1)
  {
  }

  lemma LoginKeepsInvariant(codes: CodeStore, users: Users, email: Email, captcha: string, draws: seq<nat>, now: int)
    requires |draws| == UserIdLength && NoEverlastingUnused(codes) && KeyedByEmail(users)
    ensures NoEverlastingUnused(LoginNext(codes, users, email, captcha, draws, now).1)
    ensures KeyedByEmail(LoginNext(codes, users, email, captcha, draws, now).2)
  {
  }

  /**
   * The used-flag write after a successful check always lands: the key
   * exists, so the TTL reading is never -2, and the invariant rules out -1.
   */
  lemma MarkingLands(codes: CodeStore, users: Users, email: Email, captcha: string, draws: seq<nat>, now: int)
    requires |draws| == UserIdLength && NoEverlastingUnused(codes)
    requires LoginNext(codes, users, email, captcha, draws, now).0 != Err(Unauthorized)
    ensures var after := LoginNext(codes, users, email, captcha, draws, now).1;
      email in after && after[email].isUsed && after[email].code == captcha
  {
    var rec := codes[email];
    assert Lookup(codes, email, now) == Some(rec);
    assert rec.expiresAt.Some?;
    assert TtlReading(codes, email, now) >= 0;
  }

  /**
   * The used code keeps its remaining time, up to the TTL reading's
   * rounding: its new expiry lies within 500 ms of the old one. When less
   * than half a second was left, the reading is 0 and the wrapper's `set`
   * stores the used code without any expiry.
   */
  lemma MarkedKeepsExpiry(codes: CodeStore, users: Users, email: Email, captcha: string, draws: seq<nat>, now: int)
    requires |draws| == UserIdLength && NoEverlastingUnused(codes)
    requires LoginNext(codes, users, email, captcha, draws, now).0 != Err(Unauthorized)
    ensures var after := LoginNext(codes, users, email, captcha, draws, now).1;
      && email in codes && codes[email].expiresAt.Some? && email in after
      && after[email].code == codes[email].code && after[email].isUsed
      && (codes[email].expiresAt.value - now >= 500 ==>
            after[email].expiresAt.Some? &&
            codes[email].expiresAt.value - 500 < after[email].expiresAt.value <= codes[email].expiresAt.value + 500)
      && (codes[email].expiresAt.value - now < 500 ==> after[email].expiresAt.None?)
      && forall e :: e != email ==> (e in after <==> e in codes) && (e in codes ==> after[e] == codes[e])
  {
    var rec := codes[email];
    assert Lookup(codes, email, now) == Some(rec);
    assert rec.expiresAt.Some?;
    var ttl := TtlReading(codes, email, now);
    assert ttl * 1000 - 500 <= rec.expiresAt.value - now < ttl * 1000 + 500;
    if rec.expiresAt.value - now < 500 {
      assert ttl == 0;
    } else {
      assert ttl > 0;
    }
  }

  /** A code logs in at most once: after a login that passed the code check, the same code is refused forever. */
  lemma CodeIsSingleUse(codes: CodeStore, users: Users, email: Email, captcha: string,
                        draws: seq<nat>, draws2: seq<nat>, now: int, later: int)
    requires |draws| == UserIdLength && |draws2| == UserIdLength && NoEverlastingUnused(codes)
    requires LoginNext(codes, users, email, captcha, draws, now).0 != Err(Unauthorized)
    ensures var first := LoginNext(codes, users, email, captcha, draws, now);
      LoginNext(first.1, first.2, email, captcha, draws2, later).0 == Err(Unauthorized)
  {
    MarkingLands(codes, users, email, captcha, draws, now);
  }

  /** A code that was just sent logs in within its five minutes, creating the user if new. */
  lemma SentCodeLogsIn(codes: CodeStore, users: Users, email: Email, codeDraws: seq<nat>, mailDelivered: bool,
                       now: int, later: int, idDraws: seq<nat>)
    requires |codeDraws| == CodeLength && |idDraws| == UserIdLength
    requires now <= later < now + 1000 * CodeTtlSeconds
    requires KeyedByEmail(users) && (email in users || !IdTaken(users, NumericId(idDraws)))
    ensures var sent := SendNext(codes, email, codeDraws, mailDelivered, now).1;
      var login := LoginNext(sent, users, email, NumericId(codeDraws), idDraws, later);
      && login.0.Ok?
      && login.0.value.user.email == email
      && login.1[email].isUsed
  {
    var sent := SendNext(codes, email, codeDraws, mailDelivered, now).1;
    assert Lookup(sent, email, later) == Some(sent[email]);
    assert TtlReading(sent, email, later) >= 0;
    var login := LoginNext(sent, users, email, NumericId(codeDraws), idDraws, later);
    assert login.0 != Err(Unauthorized);
  }

  /** Once its five minutes are over, a sent code no longer logs in. */
  lemma SentCodeExpires(codes: CodeStore, users: Users, email: Email, codeDraws: seq<nat>, mailDelivered: bool,
                        now: int, later: int, captcha: string, idDraws: seq<nat>)
    requires |codeDraws| == CodeLength && |idDraws| == UserIdLength
    requires later >= now + 1000 * CodeTtlSeconds
    ensures var sent := SendNext(codes, email, codeDraws, mailDelivered, now).1;
      LoginNext(sent, users, email, captcha, idDraws, later).0 == Err(Unauthorized)
  {
  }

  // ---------------------------------------------------------------------
  // The code cache and the user table the service works on.

  class AuthStore {
    var codes: CodeStore
    var users: Users

    constructor(users0: Users)
      ensures codes == map[] && users == users0
    {
      codes, users := map[], users0;
    }

    method SendVerificationCode(email: Email, draws: seq<nat>, mailDelivered: bool, now: int)
      returns (r: Result<int, HttpError>)
      requires |draws| == CodeLength
      modifies this
      ensures (r, codes) == SendNext(old(codes), email, draws, mailDelivered, now) && users == old(users)
    {
      var code := NumericId(draws);
      codes := CacheSet(codes, email, CodeRecord(code, false, None), CodeTtlSeconds, now);
      if !mailDelivered {
        return Err(InternalServerError);
      }
      return Ok(CodeTtlSeconds);
    }

    method EmailLogin(email: Email, captcha: string, draws: seq<nat>, now: int)
      returns (r: Result<LoginResponse, HttpError>)
      requires |draws| == UserIdLength
      modifies this
      ensures (r, codes, users) == LoginNext(old(codes), old(users), email, captcha, draws, now)
    {
      var rec := Lookup(codes, email, now);
      if rec.None? {
        return Err(Unauthorized);
      }
      if rec.value.code != captcha {
        return Err(Unauthorized);
      }
      if rec.value.isUsed {
        return Err(Unauthorized);
      }
      var ttl := TtlReading(codes, email, now);
      codes := CacheSet(codes, email, rec.value.(isUsed := true), ttl, now);
      if email in users {
        return Ok(LoginResponse(users[email], TokenExpiresIn));
      }
      var id := NumericId(draws);
      if IdTaken(users, id) {
        return Err(InternalServerError);
      }
      var u := NewUser(email, id);
      users := users[email := u];
      return Ok(LoginResponse(u, TokenExpiresIn));
    }
  }
}
