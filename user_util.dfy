/** Registration, login and the in-memory session table (UserUtil.py).
    The password hash (`_hash_password`, SHA-256), the random token
    (`secrets.token_hex(16)`), the clock and the formatted registration date
    are inputs. */
module UserUtil {
  import opened Wrappers
  import opened Values
  import opened Database

  /** One entry of `user_sessions`: `{"username": ..., "timestamp": ...}`. */
  datatype Session = Session(username: string, timestamp: int)

  /** `user_sessions`: token to session. */
  type SessionTable = map<string, Session>

  // ---------------------------------------------------------------------------
  // Sessions

  /** `is_token_valid` AS WRITTEN: a present token is accepted when it is OLDER
      than the time-to-live, the reverse of the sweep's keep condition. */
  predicate TokenValid(t: SessionTable, token: string, now: int, ttl: int) {
    token in t && now - t[token].timestamp > ttl
  }

  /** `get_username_by_token`: the session's user when `is_token_valid` holds. */
  function UsernameByToken(t: SessionTable, token: string, now: int, ttl: int): (r: Option<string>)
    ensures r.Some? <==> TokenValid(t, token, now, ttl)
    ensures r.Some? ==> r.value == t[token].username
  {
    if TokenValid(t, token, now, ttl) then Some(t[token].username) else None
  }

  /** The table `clear_expired_tokens` rebuilds: the entries younger than the TTL. */
  function Swept(t: SessionTable, now: int, ttl: int): (r: SessionTable)
    ensures r.Keys <= t.Keys
    ensures forall tok :: tok in r ==> r[tok] == t[tok]
  {
    map tok | tok in t && now - t[tok].timestamp < ttl :: t[tok]
  }

  /** `store_token`: bind the token to the user at time `now`. */
  function Stored(t: SessionTable, token: string, username: string, now: int): SessionTable {
    t[token := Session(username, now)]
  }

  /** The sweep keeps exactly the entries with `now - timestamp < ttl`,
      with their values; it adds nothing. */
  lemma SweptKeepsExactly(t: SessionTable, now: int, ttl: int, tok: string)
    ensures tok in Swept(t, now, ttl) <==> tok in t && now - t[tok].timestamp < ttl
    ensures tok in Swept(t, now, ttl) ==> Swept(t, now, ttl)[tok] == t[tok]
  {
  }

  /** At one instant, every token that `is_token_valid` accepts is one that
      `clear_expired_tokens` removes, and the sweep keeps exactly the present
      tokens that are rejected, except those exactly `ttl` old. */
  lemma ValidTokensAreSwept(t: SessionTable, tok: string, now: int, ttl: int)
    ensures TokenValid(t, tok, now, ttl) ==> tok !in Swept(t, now, ttl)
    ensures tok in Swept(t, now, ttl) <==>
              tok in t && !TokenValid(t, tok, now, ttl) && now - t[tok].timestamp != ttl
  {
  }

  /** Sweeping twice at the same instant equals sweeping once. */
  lemma SweepIdempotent(t: SessionTable, now: int, ttl: int)
    ensures Swept(Swept(t, now, ttl), now, ttl) == Swept(t, now, ttl)
  {
  }

  /** A token just stored is rejected at the instant it was issued (with a
      non-negative TTL), and it survives a sweep at that instant when the TTL
      is positive: as written, a fresh token is kept but not accepted. */
  lemma FreshTokenRejected(t: SessionTable, token: string, username: string, now: int, ttl: int)
    requires ttl >= 0
    ensures !TokenValid(Stored(t, token, username, now), token, now, ttl)
    ensures UsernameByToken(Stored(t, token, username, now), token, now, ttl) == None
    ensures ttl > 0 ==> token in Swept(Stored(t, token, username, now), now, ttl)
  {
  }

  // ---------------------------------------------------------------------------
  // Registration and login

  /** `get_user_by_username(u)` returns a truthy record. */
  predicate Taken(store: Store, u: string) {
    u in store && Truthy(store[u])
  }

  /** The stored user is a dict whose "password" equals the hash of `password`. */
  predicate PasswordMatches(user: Json, password: string, hash: string -> string) {
    user.JObj? && "password" in user.fields && user.fields["password"] == JStr(hash(password))
  }

  /** The keys of the user manager's API are strings; a username that arrives
      in a request must be a JSON string. */
  predicate UsernameIsString(params: map<string, Json>) {
    "username" in params ==> params["username"].JStr?
  }

  datatype RegisterStep = RegisterStep(ok: Outcome<bool>, store: Store)
  datatype LoginStep = LoginStep(token: Outcome<Option<string>>, sessions: SessionTable)

  /** `register(params)` against the store: hash the password in place, refuse
      a username whose record is truthy, otherwise add the params (now holding
      the hash and `info.register_date`) as the user's record.
      Reading a missing "password" or "username" raises KeyError, and hashing a
      password that is not a str raises AttributeError. */
  function RegisterResult(store: Store, params: map<string, Json>, hash: string -> string, date: string): (r: RegisterStep)
    requires UsernameIsString(params)
    ensures r.ok.Raised? <==> !("password" in params && params["password"].JStr? && "username" in params)
    ensures r.ok != Returned(true) ==> r.store == store
    ensures r.ok == Returned(false) <==> !r.ok.Raised? && Taken(store, params["username"].s)
    ensures r.ok == Returned(true) ==>
              var u := params["username"].s;
              !Taken(store, u) && u in r.store && r.store[u].JObj? && "password" in r.store[u].fields
              && "info" in r.store[u].fields
    ensures r.ok == Returned(true) ==>
              var u := params["username"].s;
              var f := r.store[u].fields;
              && f["password"] == JStr(hash(params["password"].s))
              && f["info"] == JObj(map["register_date" := JStr(date)])
              && f.Keys == params.Keys + {"info"}
              && (forall k :: k in params && k != "password" && k != "info" ==> f[k] == params[k])
              && (forall v :: v != u ==> Lookup(r.store, v) == Lookup(store, v))
  {
    if "password" !in params || !params["password"].JStr? then RegisterStep(Raised, store)
    else
      var hashed := params["password" := JStr(hash(params["password"].s))];
      if "username" !in params then RegisterStep(Raised, store)
      else
        var u := params["username"].s;
        if Taken(store, u) then RegisterStep(Returned(false), store)
        else
          var record := hashed["info" := JObj(map["register_date" := JStr(date)])];
          RegisterStep(Returned(true), store[u := JObj(record)])
  }

  /** `login(username, password)`: no truthy record means None; a record that is
      not a dict, lacks "password", or a password that is not a str raises;
      a hash mismatch means None; a match stores `token -> (username, now)`. */
  function LoginResult(store: Store, sessions: SessionTable, username: string, password: Json,
                       hash: string -> string, token: string, now: int): (r: LoginStep)
    ensures !Taken(store, username) ==> r.token == Returned(None)
    ensures r.token.Raised? <==>
              Taken(store, username) &&
              (!store[username].JObj? || "password" !in store[username].fields || !password.JStr?)
    ensures r.token == Returned(Some(token)) <==>
              Taken(store, username) && password.JStr? && PasswordMatches(store[username], password.s, hash)
    ensures r.token.Returned? && r.token.value.Some? ==> r.token.value.value == token
    ensures r.token == Returned(Some(token)) ==>
              && r.sessions == Stored(sessions, token, username, now)
              && (forall k :: k != token ==> (k in r.sessions <==> k in sessions))
              && (forall k :: k != token && k in sessions ==> r.sessions[k] == sessions[k])
    ensures r.token != Returned(Some(token)) ==> r.sessions == sessions
  {
    if !Taken(store, username) then LoginStep(Returned(None), sessions)
    else
      var user := store[username];
      if !user.JObj? || "password" !in user.fields || !password.JStr? then LoginStep(Raised, sessions)
      else if user.fields["password"] != JStr(hash(password.s)) then LoginStep(Returned(None), sessions)
      else LoginStep(Returned(Some(token)), Stored(sessions, token, username, now))
  }

  /** A token issued by a successful login is not accepted by
      `get_username_by_token` at the instant of issue (with a non-negative TTL). */
  lemma LoginTokenNotResolved(store: Store, sessions: SessionTable, username: string, password: Json,
                              hash: string -> string, token: string, now: int, ttl: int)
    requires ttl >= 0
    requires LoginResult(store, sessions, username, password, hash, token, now).token == Returned(Some(token))
    ensures UsernameByToken(LoginResult(store, sessions, username, password, hash, token, now).sessions, token, now, ttl) == None
  {
    FreshTokenRejected(sessions, token, username, now, ttl);
  }

  /** A login token is accepted once it is older than the TTL, and then resolves
      to the user who logged in. */
  lemma LoginTokenResolvedAfterTtl(store: Store, sessions: SessionTable, username: string, password: Json,
                                   hash: string -> string, token: string, now: int, later: int, ttl: int)
    requires LoginResult(store, sessions, username, password, hash, token, now).token == Returned(Some(token))
    requires later - now > ttl
    ensures UsernameByToken(LoginResult(store, sessions, username, password, hash, token, now).sessions, token, later, ttl) == Some(username)
  {
  }

  // ---------------------------------------------------------------------------
  // The user manager

  class UserManager {
    var sessions: SessionTable
    const ttl: int
    const db: JsonDatabase
    const hash: string -> string

    /** `__init__`: an empty session table over `db`; the source's default
        `session_expire_time` is 3600 seconds. The sweeping daemon thread
        is not modelled; `ClearExpiredTokens` is what it runs. */
    constructor (db: JsonDatabase, hash: string -> string, sessionExpireTime: int)
      ensures sessions == map[]
      ensures this.db == db && this.hash == hash && ttl == sessionExpireTime
    {
      sessions := map[];
      this.db := db;
      this.hash := hash;
      ttl := sessionExpireTime;
    }

    /** `register`: the result and the new store are those of `RegisterResult`. */
    method Register(params: map<string, Json>, date: string) returns (ok: Outcome<bool>)
      requires UsernameIsString(params)
      modifies db
      ensures ok == RegisterResult(old(db.data), params, hash, date).ok
      ensures db.data == RegisterResult(old(db.data), params, hash, date).store
      ensures db.disk == old(db.disk) && db.lastSync == old(db.lastSync)
    {
      if "password" !in params || !params["password"].JStr? {
        return Raised;
      }
      var record := params["password" := JStr(hash(params["password"].s))];
      if "username" !in params {
        return Raised;
      }
      var username := params["username"].s;
      var existing := db.Get(username);
      if existing.Some? && Truthy(existing.value) {
        return Returned(false);
      }
      record := record["info" := JObj(map["register_date" := JStr(date)])];
      db.Set(username, JObj(record));
      return Returned(true);
    }

    /** `login`: the result and the new session table are those of `LoginResult`. */
    method Login(username: string, password: Json, token: string, now: int) returns (r: Outcome<Option<string>>)
      modifies this
      ensures r == LoginResult(db.data, old(sessions), username, password, hash, token, now).token
      ensures sessions == LoginResult(db.data, old(sessions), username, password, hash, token, now).sessions
    {
      var user := db.Get(username);
      if user.None? || !Truthy(user.value) {
        return Returned(None);
      }
      if !user.value.JObj? || "password" !in user.value.fields || !password.JStr? {
        return Raised;
      }
      if user.value.fields["password"] != JStr(hash(password.s)) {
        return Returned(None);
      }
      StoreToken(token, username, now);
      return Returned(Some(token));
    }

    /** `get_user_info`: the stored record, or None. */
    function GetUserInfo(username: string): (r: Option<Json>)
      reads this, db
      ensures r.Some? <==> username in db.data
      ensures r.Some? ==> r.value == db.data[username]
    {
      db.Get(username)
    }

    /** `is_token_valid`, as written. */
    function IsTokenValid(token: string, now: int): (r: bool)
      reads this
      ensures token !in sessions ==> !r
      ensures token in sessions ==> (r <==> now - sessions[token].timestamp > ttl)
    {
      TokenValid(sessions, token, now, ttl)
    }

    /** `get_username_by_token`. */
    function GetUsernameByToken(token: string, now: int): (r: Option<string>)
      reads this
      ensures r.Some? <==> IsTokenValid(token, now)
      ensures r.Some? ==> r.value == sessions[token].username
    {
      if !IsTokenValid(token, now) then None else Some(sessions[token].username)
    }

    /** `clear_expired_tokens`. */
    method ClearExpiredTokens(now: int)
      modifies this
      ensures sessions == Swept(old(sessions), now, ttl)
    {
      sessions := Swept(sessions, now, ttl);
    }

    /** `delete_token`: `pop` raises KeyError for an absent token. */
    method DeleteToken(token: string)
      requires token in sessions
      modifies this
      ensures sessions == old(sessions) - {token}
    {
      sessions := sessions - {token};
    }

    /** `store_token`. */
    method StoreToken(token: string, username: string, now: int)
      modifies this
      ensures sessions == Stored(old(sessions), token, username, now)
    {
      sessions := sessions[token := Session(username, now)];
    }

    /** `flush_token`: indexing raises KeyError for an absent token. */
    method FlushToken(token: string, now: int)
      requires token in sessions
      modifies this
      ensures sessions.Keys == old(sessions).Keys
      ensures sessions[token] == old(sessions)[token].(timestamp := now)
      ensures forall k :: k in sessions && k != token ==> sessions[k] == old(sessions)[k]
    {
      sessions := sessions[token := sessions[token].(timestamp := now)];
    }
  }
}
