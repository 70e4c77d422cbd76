# UDP authentication service: session manager, router, store and port bookkeeping

A Dafny model of the sequential core of a small UDP authentication server.
Clients send JSON requests (`register`, `login`, `get_info`) and get JSON
replies. The model covers four components:

- **UserManager** (`user_util.dfy`, module `UserUtil`). It registers users
  with "create if absent" semantics, storing the hash of the password and
  `info.register_date`. Login compares password hashes and, on a match, stores
  `token -> (username, timestamp)` in an in-memory session table. The module
  also covers validating a token, resolving it to a username, sweeping
  expired entries, and deleting or refreshing a token. The pure functions
  `RegisterResult`, `LoginResult`, `Swept` and `UsernameByToken` specify the
  operations. The class `UserManager` updates its `sessions` field and its
  database in place, and each method is proved against those functions.
- **RequestHandler** (`request_handler.dfy`). It is pure dispatch from a
  decoded request to a response object `{status, message?, info?}`, with one
  fixed error code per branch. Its state is the user manager's store and
  session table. `HandleRequest` returns the outcome together with the new
  state.
- **JsonDatabase** (`json_database.dfy`, module `Database`). It is an
  in-memory map `username -> record` with `set` and `get`. Loading falls
  back to an empty map when the file does not decode. A time-guarded sync
  writes the map to a ghost disk snapshot.
- **PortManager** (`udp_port_manager.dfy`, module `UDPPortManager`). It holds
  the set of local ports in use for replies. `Acquire` retries over the
  ports the operating system assigns until one is free, then records it.
  `Release` discards it. A ghost list of live leases makes lease exclusivity
  an invariant: live leases hold distinct ports, and they are exactly the
  ports in use.

`values.dfy` gives decoded JSON values (`Json`) together with Python's
truthiness and Python's `in` for a string key, as the router and the user
manager use them. `wrappers.dfy` gives `Option` and `Outcome`. An `Outcome`
is `Returned(v)` or `Raised`. `Raised` stands for a Python exception that
escapes `handle_request`, which catches only `ValueError`. Examples are a
`TypeError` when `params` is null, a number or a bool, or is a list or string
that holds the required keys; a `KeyError`; or an `AttributeError` when
hashing a password that is not a string. A list or string `params` that lacks
a required key is answered `missing_field`.

Inputs that come from outside the code are parameters:
- the password hash (`_hash_password`, SHA-256), as `hash: string -> string`;
- the random token (`secrets.token_hex(16)`);
- the clock (`datetime.now().timestamp()`, `time.time()`);
- the formatted registration date;
- Python's `str` on a user record, which renders `info` in a `get_info` reply (`render`);
- the file contents the store loads (`DiskFile`);
- the ports the operating system assigns to new sockets (`candidates`).

Behaviour of the code worth knowing, all of it modelled as written:
- `is_token_valid` accepts a present token only when `now - timestamp > ttl`,
  so it accepts only tokens OLDER than the time-to-live. The sweep keeps the
  opposite set, the entries with `now - timestamp < ttl`.
  `ValidTokensAreSwept` and `FreshTokenRejected` state the consequences: every
  accepted token is one the sweep at the same time removes, and a token is
  not accepted at the instant it is issued.
- `get_info` checks no token. It returns the whole stored record, password
  hash included (`GetInfoIgnoresSessions`, `GetInfoExposesPasswordHash`).
- A successful `login` reply is `{"status": "success"}` and carries no token.
- The store is one map keyed by username. `UserManager` calls
  `db.get_user_by_username` and `db.add_user`, which `JSONDatabase` does not
  define. The model reads them as `get` and `set` on this map.
- The store's constructor passes the RESULT of calling `_sync_to_disk()` as a
  thread target. The sync therefore runs once, synchronously, during
  construction, and the thread it starts does nothing. The constructor models
  exactly that.
- The sync guard is `now - sync_interval >= sync_interval`, which holds once
  the clock reaches twice the interval. It does not read the time of the last
  sync (`SyncDueIffTwiceInterval`).
- `register` answers with `register_error` only when the username's record
  is truthy. A stored record that is falsy, such as `{}` loaded from the
  file, is overwritten.

## Model

| member | source | states |
|---|---|---|
| `Values.In` | RequestHandler.py:37 | Python `k in v`: key membership on a dict, and it raises exactly when `v` is not a dict, list or str |
| `Values.AllIn` | RequestHandler.py:37 | `all(k in v for k in keys)`: true iff every key is in `v`, raises iff some key is tested on a non-container, and on a dict is plain key membership |
| `Database.Ensured` | JSONDatabase.py:25-28 | a missing file is created holding the empty document `{}`, and an existing file is left as it is |
| `Database.Lookup` | JSONDatabase.py:42-43 | `dict.get` returns Some exactly for present keys, with the stored value |
| `Database.LoadParseOrEmpty` | JSONDatabase.py:18-28 | a missing file is first created as `{}`; loading yields the parsed document when the file decodes, and the empty map when it was missing or is malformed |
| `Database.SyncDueIffTwiceInterval` | JSONDatabase.py:32-33 | the sync guard holds iff `now >= 2 * sync_interval`, with no reference to the last sync |
| `Database.JsonDatabase.constructor` | JSONDatabase.py:8-16 | after construction `_data` is the loaded document; the file is snapshotted and `_last_sync` stamped iff the guard holds, otherwise the file is as ensured and `_last_sync` is 0 |
| `Database.JsonDatabase.SyncToDisk` | JSONDatabase.py:30-36 | `_data` is untouched; when the guard holds the snapshot becomes `_data` and `_last_sync` the second clock reading, otherwise both are unchanged |
| `Database.JsonDatabase.Set` | JSONDatabase.py:38-40 | the new map is the old one with `k` bound to `v`, `get(k)` then returns `v`, and every other key looks up as before |
| `Database.JsonDatabase.Get` | JSONDatabase.py:42-43 | returns the stored value for a present key and None for an absent one, reading only |
| `Database.JsonDatabase.Close` | JSONDatabase.py:45-46 | has exactly the effect of one `_sync_to_disk` |
| `UserUtil.UsernameByToken` | UserUtil.py:61-64 | returns Some iff the token is valid as written, and then the session's username |
| `UserUtil.Swept` | UserUtil.py:66-73 | the rebuilt table adds no token and keeps each entry's value |
| `UserUtil.SweptKeepsExactly` | UserUtil.py:69-73 | a token survives the sweep iff it is present with `now - timestamp < ttl`, with its value unchanged |
| `UserUtil.ValidTokensAreSwept` | UserUtil.py:54-73 | at one instant a token accepted by `is_token_valid` is removed by the sweep, and the sweep keeps exactly the present tokens that are rejected, except those exactly `ttl` old |
| `UserUtil.SweepIdempotent` | UserUtil.py:66-73 | sweeping twice at the same instant equals sweeping once |
| `UserUtil.FreshTokenRejected` | UserUtil.py:54-59 | with `ttl >= 0` a token stored at `now` is rejected at `now` and resolves to no user, yet it survives a sweep at `now` when `ttl > 0` |
| `UserUtil.RegisterResult` | UserUtil.py:31-41 | raises iff the password is missing or not a str or the username is missing; returns false iff the username's record is truthy, leaving the store unchanged; returns true otherwise, storing the params with `password = hash(password)` and `info = {register_date}`, every other field kept and every other user unchanged |
| `UserUtil.LoginResult` | UserUtil.py:43-49 | no truthy record gives None; it raises iff the record is truthy but not a dict with "password", or the password is not a str; it returns the fresh token iff the stored password equals the hash, and then the table gains exactly `token -> (username, now)`; otherwise the table is unchanged |
| `UserUtil.LoginTokenNotResolved` | UserUtil.py:47-64 | with `ttl >= 0` the token of a successful login does not resolve to a user at the instant of login |
| `UserUtil.LoginTokenResolvedAfterTtl` | UserUtil.py:47-64 | the token of a successful login resolves to that user once more than `ttl` has passed |
| `UserUtil.UserManager.constructor` | UserUtil.py:18-21 | the session table starts empty over the given store, hash and expiry time |
| `UserUtil.UserManager.Register` | UserUtil.py:31-41 | result and new store are those of `RegisterResult`; the disk snapshot and sessions are untouched |
| `UserUtil.UserManager.Login` | UserUtil.py:43-49 | result and new session table are those of `LoginResult` over the current store |
| `UserUtil.UserManager.GetUserInfo` | UserUtil.py:51-52 | returns the stored record for a present username and None otherwise |
| `UserUtil.UserManager.IsTokenValid` | UserUtil.py:54-59 | false for an absent token; for a present one true iff `now - timestamp > session_expire_time`, as written |
| `UserUtil.UserManager.GetUsernameByToken` | UserUtil.py:61-64 | returns the stored username iff `is_token_valid` holds, and None otherwise |
| `UserUtil.UserManager.ClearExpiredTokens` | UserUtil.py:66-73 | the new table is the sweep of the old one at `now` |
| `UserUtil.UserManager.DeleteToken` | UserUtil.py:75-76 | for a present token, removes that key and nothing else |
| `UserUtil.UserManager.StoreToken` | UserUtil.py:78-79 | binds the token to `(username, now)`, overwriting any previous entry and leaving the rest |
| `UserUtil.UserManager.FlushToken` | UserUtil.py:81-82 | for a present token, sets only that entry's timestamp to `now`; keys and other entries unchanged |
| `RequestHandler.ActionOf` | RequestHandler.py:21-30 | a request names action `a` exactly when its `action` field is the string `ActionType.a.value` |
| `RequestHandler.ParamsOf` | RequestHandler.py:22 | absent `params` default to the empty dict |
| `RequestHandler.WireTextsDistinct` | RequestHandler.py:32-64 | the fixed message codes are pairwise distinct strings, and so are the two statuses |
| `RequestHandler.Wire` | RequestHandler.py:32-64 | the dictionary passed to `json.dumps` has a `status` field with the status text, a `message` field exactly when the response has a code, holding that code's text, an `info` field exactly when it carries a record, holding `str` of it, and no other field |
| `RequestHandler.WireDeterminesStatusAndMessage` | RequestHandler.py:32-64 | two replies that serialise to the same dictionary have the same status and the same message code |
| `RequestHandler.HandleRegister` | RequestHandler.py:35-46 | params on which `in` raises (null, a number, a bool) raise; a missing field gives missing_field with nothing changed; list or string params holding both keys raise; with dict params holding both fields the reply raises iff `register` raised, is success iff it returned true and register_error iff it returned false, and the store is the one `register` leaves; sessions never change |
| `RequestHandler.HandleLogin` | RequestHandler.py:48-55 | params on which `in` raises raise; a missing field gives missing_field with nothing changed; params that are not a dict of exactly `{username, password}` raise; otherwise the reply raises iff `login` raised, is success iff `login` returned a non-empty token and login_failed iff it returned None or an empty one, with the session table `login` leaves; the store never changes and no reply carries a token |
| `RequestHandler.HandleGetInfo` | RequestHandler.py:57-64 | params on which `in` raises, and list or string params holding the key, raise; missing username gives missing_field; a truthy stored record gives success with that whole record as `info`, otherwise user_not_found; nothing changes |
| `RequestHandler.HandleRequest` | RequestHandler.py:18-33 | undecodable input gives invalid_json; a non-object request raises; each of the three actions is answered by its handler on `params` (or `{}`); an unknown or missing action gives action_not_found; every reply has an error code exactly when its status is error; a raise changes nothing |
| `RequestHandler.MissingParamsMeansMissingField` | RequestHandler.py:22-38 | a known action without `params` is answered with missing_field and changes nothing |
| `RequestHandler.GetInfoIgnoresSessions` | RequestHandler.py:57-64 | the answer to `get_info` depends on the store alone, not on any session or token, and it changes no state |
| `RequestHandler.RegisterTwice` | RequestHandler.py:40-46 | registering one username twice succeeds once; the second gets register_error and leaves the store as the first did |
| `RequestHandler.GetInfoExposesPasswordHash` | RequestHandler.py:60-62 | after a registration, `get_info` succeeds and its `info` holds the password hash and the register date |
| `RequestHandler.RegisterThenLogin` | RequestHandler.py:48-55 | after a registration, logging in with the same password succeeds and adds exactly the issued token to the sessions |
| `RequestHandler.RegisterThenWrongPassword` | RequestHandler.py:52-55 | after a registration, logging in with a password of a different hash gets login_failed and changes nothing |
| `UDPPortManager.FirstFree` | UDPPortManager.py:16-23 | the chosen candidate is free and every earlier candidate is in use |
| `UDPPortManager.WithoutProperties` | UDPPortManager.py:31 | discarding a port keeps the other ports, removes that one, and preserves distinctness |
| `UDPPortManager.WithoutAppendFresh` | UDPPortManager.py:24-31 | recording a fresh port and then discarding it gives back the previous leases |
| `UDPPortManager.PortManager.constructor` | UDPPortManager.py:7-9 | no port is in use and no lease is live |
| `UDPPortManager.PortManager.Acquire` | UDPPortManager.py:15-24 | the port was not in use on entry; it is the first free candidate; every earlier candidate's socket is closed; the used set gains exactly that port; lease exclusivity is kept |
| `UDPPortManager.PortManager.Release` | UDPPortManager.py:27-31 | the used set loses exactly that port, a no-op for an absent one; its lease ends and exclusivity is kept |
| `UDPPortManager.PortManager.WithFreeSocket` | UDPPortManager.py:11-31 | acquiring and then releasing restores the ports in use and the live leases |

## Left out

- Threads and locks. This covers the sweeping daemon (UserUtil.py:23-29), `threading.Lock` in all three classes, and the store's sync thread. Each method is treated as atomic. `ClearExpiredTokens` is what the daemon runs.
- SHA-256, `secrets.token_hex` and the clock are foreign calls. They are parameters of the model.
- `json.loads`, `json.dumps` and `str(info)` are library serialisation. Requests are decoded `Json` values; replies are `Response` values, `Wire` gives the dictionary `json.dumps` receives, and `str` on a record is the parameter `render`.
- Floating-point numbers are left out. JSON numbers and timestamps are integers.
- A `username` field that is not a JSON string is left out. The store is keyed by strings (`set(username: str, ...)`), so `UserUtil.RegisterResult`, `UserManager.Register` and the router require a present `username` in dict params to be a string. Python would use, for example, an integer username as a dict key, and would raise `TypeError` for a list.
- A store file holding valid JSON that is not an object is left out. `_data` would then not be a dict, and later calls would raise. `DiskFile` covers a missing file, a malformed file and an object document.
- The `except ValueError` branch of `register` (UserUtil.py:39-40) has no effect in the model: nothing it guards raises `ValueError` here. A password containing a lone surrogate would raise `UnicodeEncodeError` in the hash and be answered with `invalid_json`. Dafny strings cannot hold lone surrogates, so that path is not modelled.
- Reading and writing the store file, and disk write failures, are left out. The file is the ghost `disk` snapshot.
- `UDPPortManager.PortManager.Release`: it and `Acquire` keep lease exclusivity (`Valid`) only on runs where no socket call fails. If `socket()` or `bind()` fails inside the retry loop (UDPPortManager.py:21-22), `port` still holds the colliding port of another live lease, and the `finally` block (lines 28-31) discards that port. A `bind` failure at line 17 leaves `port` unbound, and the `finally` block then raises `UnboundLocalError`. Socket calls are not modelled, so these paths are not either.
- Socket creation, binding and closing are left out. A socket is its port. A failure to create the first socket, which leaves `sock` as `None` and skips the release, is not modelled.
- `UserUtil.UserManager.DeleteToken`: requires the token to be present. The `KeyError` that `pop` raises for an absent token is a precondition, not an outcome.
- `UserUtil.UserManager.FlushToken`: requires the token to be present. The `KeyError` of the indexing is a precondition, not an outcome.
- `UDPPortManager.PortManager.Acquire`: requires some candidate port to be free, because the sequence of OS-assigned ports is finite. The source would go on retrying.
- The server loop, worker threads, shutdown and UTF-8 decoding of datagrams (ChatServer.py) are left out. They are I/O and concurrency.
- The client (ChatApp.py) is left out. It is network I/O and a thread pool.
