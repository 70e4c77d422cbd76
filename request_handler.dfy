/** The request router (RequestHandler.py). A request is what `json.loads`
    produced, or None when it raised; a response is the dictionary that
    `json.dumps` would serialise. The router's state is the user manager's:
    the store and the session table. */
module RequestHandler {
  import opened Wrappers
  import opened Values
  import opened Database
  import opened UserUtil

  /** `ActionType`. */
  datatype ActionType = Register | Login | GetInfo

  /** `ActionType.X.value`. */
  function ActionValue(a: ActionType): string {
    match a
    case Register => "register"
    case Login => "login"
    case GetInfo => "get_info"
  }

  datatype Status = Success | Error

  /** The wire text of the `status` field. */
  function StatusText(s: Status): string {
    match s
    case Success => "success"
    case Error => "error"
  }

  /** The fixed `message` codes of error responses. */
  datatype ErrorCode = InvalidJson | ActionNotFound | MissingField | RegisterError | LoginFailed | UserNotFound

  /** The wire text of the `message` field. */
  function Code(e: ErrorCode): string {
    match e
    case InvalidJson => "invalid_json"
    case ActionNotFound => "action_not_found"
    case MissingField => "missing_field"
    case RegisterError => "register_error"
    case LoginFailed => "login_failed"
    case UserNotFound => "user_not_found"
  }

  /** The wire texts are pairwise distinct, so a client can tell every
      status and every error code apart. */
  lemma WireTextsDistinct(a: ErrorCode, b: ErrorCode)
    ensures Code(a) == Code(b) ==> a == b
    ensures StatusText(Success) != StatusText(Error)
  {
  }

  /** A response object: `{"status": ...}` with an optional `message` and an
      optional `info` (the record that `str(info)` renders). */
  datatype Response = Response(status: Status, message: Option<ErrorCode>, info: Option<Json>)

  function SuccessResponse(): Response { Response(Success, None, None) }
  function ErrorResponse(e: ErrorCode): Response { Response(Error, Some(e), None) }
  function InfoResponse(info: Json): Response { Response(Success, None, Some(info)) }

  /** Every error carries a message code; a success carries none. */
  predicate WellFormed(r: Response) {
    && (r.status == Error ==> r.message.Some? && r.info.None?)
    && (r.status == Success ==> r.message.None?)
  }

  /** The dictionary handed to `json.dumps` for a response; `render` is
      Python's `str` on the `info` record. */
  function Wire(r: Response, render: Json -> string): (w: map<string, Json>)
    ensures w.Keys <= {"status", "message", "info"}
    ensures "status" in w && w["status"] == JStr(StatusText(r.status))
    ensures "message" in w <==> r.message.Some?
    ensures r.message.Some? ==> w["message"] == JStr(Code(r.message.value))
    ensures "info" in w <==> r.info.Some?
    ensures r.info.Some? ==> w["info"] == JStr(render(r.info.value))
  {
    var base := map["status" := JStr(StatusText(r.status))];
    var withMessage := if r.message.Some? then base["message" := JStr(Code(r.message.value))] else base;
    if r.info.Some? then withMessage["info" := JStr(render(r.info.value))] else withMessage
  }

  /** A client reading the serialised reply recovers its status and its
      message code exactly. */
  lemma WireDeterminesStatusAndMessage(r1: Response, r2: Response, render: Json -> string)
    ensures Wire(r1, render) == Wire(r2, render) ==> r1.status == r2.status && r1.message == r2.message
  {
    if Wire(r1, render) == Wire(r2, render) {
      assert JStr(StatusText(r1.status)) == JStr(StatusText(r2.status));
      if r1.message.Some? {
        WireTextsDistinct(r1.message.value, r2.message.value);
      }
    }
  }

  /** The user manager's state as the router sees it. */
  datatype State = State(store: Store, sessions: SessionTable)

  /** The inputs outside the model: the password hash, the formatted
      registration date, the random token and the clock. */
  datatype Env = Env(hash: string -> string, date: string, token: string, now: int)

  /** The outcome of a request and the state it leaves. */
  datatype Handled = Handled(outcome: Outcome<Response>, state: State)

  /** The fields `register` and `login` require. */
  const Required: seq<string> := ["username", "password"]

  /** The action a request names, if it is one of the three. */
  function ActionOf(request: map<string, Json>): (r: Option<ActionType>)
    ensures forall a :: r == Some(a) <==> "action" in request && request["action"] == JStr(ActionValue(a))
  {
    if "action" !in request then None
    else if request["action"] == JStr("register") then Some(Register)
    else if request["action"] == JStr("login") then Some(Login)
    else if request["action"] == JStr("get_info") then Some(GetInfo)
    else None
  }

  /** `request.get("params", {})`. */
  function ParamsOf(request: map<string, Json>): (p: Json)
    ensures "params" !in request ==> p == JObj(map[])
    ensures "params" in request ==> p == request["params"]
  {
    if "params" in request then request["params"] else JObj(map[])
  }

  /** A username in dictionary params is a string. */
  predicate WellTypedParams(params: Json) {
    params.JObj? ==> UsernameIsString(params.fields)
  }

  predicate WellTypedRequest(request: Option<Json>) {
    request.Some? && request.value.JObj? ==> WellTypedParams(ParamsOf(request.value.fields))
  }

  /** `_handle_register`. */
  function HandleRegister(params: Json, s: State, env: Env): (r: Handled)
    requires WellTypedParams(params)
    ensures r.state.sessions == s.sessions
    ensures r.outcome.Raised? ==> r.state == s
    ensures r.outcome.Returned? ==>
              r.outcome.value in {SuccessResponse(), ErrorResponse(MissingField), ErrorResponse(RegisterError)}
    ensures AllIn(Required, params) == Returned(false) ==> r == Handled(Returned(ErrorResponse(MissingField)), s)
    ensures AllIn(Required, params).Raised? ==> r.outcome.Raised?
    ensures AllIn(Required, params) == Returned(true) && !params.JObj? ==> r.outcome.Raised?
    ensures params.JObj? && "username" in params.fields && "password" in params.fields ==>
              var step := RegisterResult(s.store, params.fields, env.hash, env.date);
              && (r.outcome.Raised? <==> step.ok.Raised?)
              && (r.outcome == Returned(SuccessResponse()) <==> step.ok == Returned(true))
              && (r.outcome == Returned(ErrorResponse(RegisterError)) <==> step.ok == Returned(false))
              && r.state.store == step.store
  {
    match AllIn(Required, params)
    case Raised => Handled(Raised, s)
    case Returned(present) =>
      if !present then Handled(Returned(ErrorResponse(MissingField)), s)
      else if !params.JObj? then Handled(Raised, s)
      else
        var step := RegisterResult(s.store, params.fields, env.hash, env.date);
        match step.ok
        case Raised => Handled(Raised, s)
        case Returned(success) =>
          Handled(Returned(if success then SuccessResponse() else ErrorResponse(RegisterError)), s.(store := step.store))
  }

  /** `_handle_login`. `login(**params)` raises TypeError unless the params are
      a dict holding exactly `username` and `password`; the reply is a success
      when the returned token is truthy, and it does not carry the token. */
  function HandleLogin(params: Json, s: State, env: Env): (r: Handled)
    requires WellTypedParams(params)
    ensures r.state.store == s.store
    ensures r.outcome.Raised? ==> r.state == s
    ensures r.outcome.Returned? ==>
              r.outcome.value in {SuccessResponse(), ErrorResponse(MissingField), ErrorResponse(LoginFailed)}
    ensures AllIn(Required, params) == Returned(false) ==> r == Handled(Returned(ErrorResponse(MissingField)), s)
    ensures AllIn(Required, params).Raised? ==> r.outcome.Raised?
    ensures AllIn(Required, params) == Returned(true) && (!params.JObj? || params.fields.Keys != {"username", "password"}) ==>
              r.outcome.Raised?
    ensures params.JObj? && params.fields.Keys == {"username", "password"} ==>
              var step := LoginResult(s.store, s.sessions, params.fields["username"].s, params.fields["password"],
                                      env.hash, env.token, env.now);
              && (r.outcome.Raised? <==> step.token.Raised?)
              && (r.outcome == Returned(SuccessResponse()) <==> step.token == Returned(Some(env.token)) && env.token != "")
              && (r.outcome == Returned(ErrorResponse(LoginFailed)) <==>
                    step.token == Returned(None) || (step.token == Returned(Some(env.token)) && env.token == ""))
              && r.state.sessions == step.sessions
  {
    match AllIn(Required, params)
    case Raised => Handled(Raised, s)
    case Returned(present) =>
      if !present then Handled(Returned(ErrorResponse(MissingField)), s)
      else if !params.JObj? || params.fields.Keys != {"username", "password"} then Handled(Raised, s)
      else
        var step := LoginResult(s.store, s.sessions, params.fields["username"].s, params.fields["password"],
                                env.hash, env.token, env.now);
        match step.token
        case Raised => Handled(Raised, s)
        case Returned(token) =>
          var success := token.Some? && Truthy(JStr(token.value));
          Handled(Returned(if success then SuccessResponse() else ErrorResponse(LoginFailed)), s.(sessions := step.sessions))
  }

  /** `_handle_get_info`: no token is checked; a truthy record is returned whole. */
  function HandleGetInfo(params: Json, s: State): (r: Handled)
    requires WellTypedParams(params)
    ensures r.state == s
    ensures In("username", params) == Returned(false) ==> r.outcome == Returned(ErrorResponse(MissingField))
    ensures In("username", params).Raised? ==> r.outcome.Raised?
    ensures In("username", params) == Returned(true) && !params.JObj? ==> r.outcome.Raised?
    ensures params.JObj? && "username" in params.fields ==>
              var u := params.fields["username"].s;
              && (Taken(s.store, u) ==> r.outcome == Returned(InfoResponse(s.store[u])))
              && (!Taken(s.store, u) ==> r.outcome == Returned(ErrorResponse(UserNotFound)))
  {
    match In("username", params)
    case Raised => Handled(Raised, s)
    case Returned(present) =>
      if !present then Handled(Returned(ErrorResponse(MissingField)), s)
      else if !params.JObj? then Handled(Raised, s)
      else
        var info := Lookup(s.store, params.fields["username"].s);
        if info.Some? && Truthy(info.value) then Handled(Returned(InfoResponse(info.value)), s)
        else Handled(Returned(ErrorResponse(UserNotFound)), s)
  }

  /** `handle_request`. Only ValueError (a JSON decode error) is caught; any
      other exception of a handler escapes as `Raised`. */
  function HandleRequest(request: Option<Json>, s: State, env: Env): (r: Handled)
    requires WellTypedRequest(request)
    ensures request.None? ==> r == Handled(Returned(ErrorResponse(InvalidJson)), s)
    ensures request.Some? && !request.value.JObj? ==> r == Handled(Raised, s)
    ensures request.Some? && request.value.JObj? && ActionOf(request.value.fields).None? ==>
              r == Handled(Returned(ErrorResponse(ActionNotFound)), s)
    ensures request.Some? && request.value.JObj? ==>
              var m := request.value.fields;
              && (ActionOf(m) == Some(Register) ==> r == HandleRegister(ParamsOf(m), s, env))
              && (ActionOf(m) == Some(Login) ==> r == HandleLogin(ParamsOf(m), s, env))
              && (ActionOf(m) == Some(GetInfo) ==> r == HandleGetInfo(ParamsOf(m), s))
    ensures r.outcome.Returned? ==> WellFormed(r.outcome.value)
    ensures r.outcome.Raised? ==> r.state == s
  {
    match request
    case None => Handled(Returned(ErrorResponse(InvalidJson)), s)
    case Some(j) =>
      if !j.JObj? then Handled(Raised, s)
      else
        var params := ParamsOf(j.fields);
        match ActionOf(j.fields)
        case Some(Register) => HandleRegister(params, s, env)
        case Some(Login) => HandleLogin(params, s, env)
        case Some(GetInfo) => HandleGetInfo(params, s)
        case None => Handled(Returned(ErrorResponse(ActionNotFound)), s)
  }

  // ---------------------------------------------------------------------------
  // Properties over whole requests

  /** The request a client sends: `{"action": action, "params": params}`. */
  function RequestOf(action: string, params: map<string, Json>): Json {
    JObj(map["action" := JStr(action), "params" := JObj(params)])
  }

  /** `{"username": u, "password": pw}`. */
  function Credentials(u: string, pw: string): map<string, Json> {
    map["username" := JStr(u), "password" := JStr(pw)]
  }

  /** A known action without `params` runs on the empty dict, so it is
      answered with missing_field and changes nothing. */
  lemma MissingParamsMeansMissingField(request: map<string, Json>, s: State, env: Env)
    requires "params" !in request && ActionOf(request).Some?
    ensures HandleRequest(Some(JObj(request)), s, env) == Handled(Returned(ErrorResponse(MissingField)), s)
  {
  }

  /** `get_info` consults no session: its answer depends on the store alone,
      and it changes nothing. */
  lemma GetInfoIgnoresSessions(request: map<string, Json>, s1: State, s2: State, env1: Env, env2: Env)
    requires ActionOf(request) == Some(GetInfo) && WellTypedRequest(Some(JObj(request)))
    requires s1.store == s2.store
    ensures HandleRequest(Some(JObj(request)), s1, env1).outcome == HandleRequest(Some(JObj(request)), s2, env2).outcome
    ensures HandleRequest(Some(JObj(request)), s1, env1).state == s1
  {
  }

  /** Registering one username twice succeeds once; the second request is
      answered with register_error and leaves the store as the first left it. */
  lemma RegisterTwice(u: string, pw: string, pw': string, s: State, env: Env, env': Env)
    requires !Taken(s.store, u)
    ensures var first := HandleRequest(Some(RequestOf("register", Credentials(u, pw))), s, env);
            var second := HandleRequest(Some(RequestOf("register", Credentials(u, pw'))), first.state, env');
            && first.outcome == Returned(SuccessResponse())
            && second.outcome == Returned(ErrorResponse(RegisterError))
            && second.state == first.state
  {
    var first := HandleRequest(Some(RequestOf("register", Credentials(u, pw))), s, env);
    assert Taken(first.state.store, u);
  }

  /** After registering, `get_info` for that user succeeds and exposes the
      stored record whole, the password hash included. */
  lemma GetInfoExposesPasswordHash(u: string, pw: string, s: State, env: Env, env': Env)
    requires !Taken(s.store, u)
    ensures var first := HandleRequest(Some(RequestOf("register", Credentials(u, pw))), s, env);
            var reply := HandleRequest(Some(RequestOf("get_info", map["username" := JStr(u)])), first.state, env');
            && reply.outcome.Returned?
            && reply.outcome.value.status == Success
            && reply.outcome.value.info.Some?
            && reply.outcome.value.info.value.JObj?
            && var record := reply.outcome.value.info.value.fields;
               && "password" in record && record["password"] == JStr(env.hash(pw))
               && "info" in record && record["info"] == JObj(map["register_date" := JStr(env.date)])
  {
  }

  /** After registering, logging in with the same password succeeds and adds
      exactly the issued token to the session table. */
  lemma RegisterThenLogin(u: string, pw: string, s: State, env: Env, env': Env)
    requires !Taken(s.store, u)
    requires env'.hash == env.hash && env'.token != ""
    ensures var first := HandleRequest(Some(RequestOf("register", Credentials(u, pw))), s, env);
            var second := HandleRequest(Some(RequestOf("login", Credentials(u, pw))), first.state, env');
            && second.outcome == Returned(SuccessResponse())
            && second.state == State(first.state.store, Stored(s.sessions, env'.token, u, env'.now))
  {
  }

  /** After registering, logging in with a password of a different hash is
      answered with login_failed and creates no session. */
  lemma RegisterThenWrongPassword(u: string, pw: string, pw': string, s: State, env: Env, env': Env)
    requires !Taken(s.store, u)
    requires env'.hash == env.hash && env.hash(pw') != env.hash(pw)
    ensures var first := HandleRequest(Some(RequestOf("register", Credentials(u, pw))), s, env);
            var second := HandleRequest(Some(RequestOf("login", Credentials(u, pw'))), first.state, env');
            && second.outcome == Returned(ErrorResponse(LoginFailed))
            && second.state == first.state
  {
  }
}
