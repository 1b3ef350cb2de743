/**
 The account session of the command line: a bearer call, a 401, a refresh that rotates the
 tokens, the retry, and logout (crates/cli/src/cloud.rs), over the session record kept in
 the secret store (crates/secrets/src/account.rs).

 The class below is the client. It works against any transport: a state of type `W` and a
 function that answers a request. Its methods are tied to pure functions on the client's
 state, about which the protocol properties are proved.
 */
module Session {
  import opened Text

  // ---- Records ----

  datatype User = User(id: string, profile: string)
  datatype Bundle = Bundle(tokenType: string, access: string, refresh: string,
                           session: Option<string>, user: Option<User>)
  datatype Record = Record(schemaVersion: int, apiBase: string, bundle: Bundle)

  /** The secret store's slot: nothing, text that does not decode, or a record. */
  datatype Slot = Empty | Garbled | Stored(record: Record)

  const ACCOUNT_SESSION_SCHEMA_VERSION := 1
  const MAX_TOKEN_BYTES := 64 * 1024

  function Utf8Length(s: string): nat {
    if s == [] then 0
    else
      var width := if s[0] < '\U{80}' then 1 else if s[0] < '\U{800}' then 2 else if s[0] < '\U{10000}' then 3 else 4;
      width + Utf8Length(s[1..])
  }

  predicate IsControl(c: char) {
    c < ' ' || '\U{7F}' <= c <= '\U{9F}'
  }

  predicate IsWhitespace(c: char) {
    || '\U{9}' <= c <= '\U{D}' || c == ' ' || c == '\U{85}' || c == '\U{A0}' || c == '\U{1680}'
    || '\U{2000}' <= c <= '\U{200A}' || c == '\U{2028}' || c == '\U{2029}' || c == '\U{202F}'
    || c == '\U{205F}' || c == '\U{3000}'
  }

  predicate Blank(s: string) {
    forall c :: c in s ==> IsWhitespace(c)
  }

  predicate ValidToken(s: string) {
    !Blank(s) && Utf8Length(s) <= MAX_TOKEN_BYTES && forall c :: c in s ==> !IsControl(c) && !IsWhitespace(c)
  }

  predicate EqualsIgnoreCase(a: string, b: string) {
    |a| == |b| && forall i :: 0 <= i < |a| ==> LowerAscii(a[i]) == LowerAscii(b[i])
  }

  /** `validate_account_auth_bundle`. */
  predicate ValidBundle(b: Bundle) {
    EqualsIgnoreCase(b.tokenType, "bearer") && ValidToken(b.access) && ValidToken(b.refresh)
  }

  // ---- Requests and replies ----

  datatype Method = Get | Post | Put | Delete
  datatype Body = NoBody | Bytes(bytes: string) | RefreshToken(token: string)
  datatype Request = Request(method_: Method, path: string, bearer: Option<string>, body: Body)
  datatype Response = Response(status: nat, body: string)
  datatype Reply = Unreached | Answered(response: Response)

  datatype Error = NotSignedIn | StoreFailed | UnreadableSession | InvalidCredentials | Unreachable | SessionExpired
                 | Status(code: nat) | InvalidJson | NoAccountId
  datatype Result<+T> = Ok(value: T) | Err(error: Error)

  const REFRESH_PATH := "/api/auth/refresh"
  const LOGOUT_PATH := "/api/auth/logout"
  const ME_PATH := "/api/me"
  const KEYS_PATH := "/api/model-keys/"

  // What the caller asks for, apart from the token.
  datatype Call = Call(method_: Method, path: string, body: Body)

  function Bearing(call: Call, token: string): Request {
    Request(call.method_, call.path, Some(token), call.body)
  }

  function RefreshRequest(token: string): Request {
    Request(Post, REFRESH_PATH, None, RefreshToken(token))
  }

  function LogoutRequest(token: string): Request {
    Request(Post, LOGOUT_PATH, None, RefreshToken(token))
  }

  // ---- The client's state and its surroundings ----

  /** The surroundings: how the transport answers, how bodies decode, and when the secret store
      lets itself be read, written and deleted from. */
  datatype Env<!W> = Env(respond: (W, Request) -> (W, Reply), apiBase: string,
                         parseBundle: string -> Option<Bundle>, parseUser: string -> Option<User>,
                         gets: W -> bool, sets: W -> bool, deletes: W -> bool)

  /** A request with its reply, and the slot and transport state it was sent from. */
  datatype Exchange<W> = Exchange(request: Request, reply: Reply, slot: Slot, world: W)

  datatype State<W> = State(slot: Slot, world: W, log: seq<Exchange<W>>)

  datatype Loading = Absent | Failing(error: Error) | Loaded(bundle: Bundle)

  /** What the slot holds for this client. */
  function Held<W>(env: Env<W>, slot: Slot): Loading {
    match slot
    case Empty => Absent
    case Garbled => Failing(UnreadableSession)
    case Stored(r) =>
      if r.schemaVersion != ACCOUNT_SESSION_SCHEMA_VERSION || r.apiBase != env.apiBase then Absent
      else if !ValidBundle(r.bundle) then Failing(InvalidCredentials)
      else Loaded(r.bundle)
  }

  /** `AccountSessionStore::load`. */
  function Load<W>(env: Env<W>, s: State<W>): Loading {
    if env.gets(s.world) then Held(env, s.slot) else Failing(StoreFailed)
  }

  /** `AccountSessionStore::clear`; a deletion that fails leaves the slot alone. */
  function Cleared<W>(env: Env<W>, s: State<W>): State<W> {
    if env.deletes(s.world) then s.(slot := Empty) else s
  }

  /** What a call returns once it has tried to clear the slot. */
  function AfterClear<W, T>(env: Env<W>, s: State<W>, r: Result<T>): Result<T> {
    if env.deletes(s.world) then r else Err(StoreFailed)
  }

  /** What `AccountSessionStore::save` stores, for a bundle that passes validation. */
  function Saved<W>(env: Env<W>, b: Bundle): Slot {
    Stored(Record(ACCOUNT_SESSION_SCHEMA_VERSION, env.apiBase, b))
  }

  function Send<W>(env: Env<W>, s: State<W>, r: Request): (State<W>, Reply) {
    var (world, reply) := env.respond(s.world, r);
    (State(s.slot, world, s.log + [Exchange(r, reply, s.slot, s.world)]), reply)
  }

  // ---- The calls, as functions on the state ----

  function Authenticated<W>(env: Env<W>, s: State<W>, call: Call): (State<W>, Result<Response>) {
    match Load(env, s)
    case Absent => (s, Err(NotSignedIn))
    case Failing(e) => (s, Err(e))
    case Loaded(b) =>
      var (s1, first) := Send(env, s, Bearing(call, b.access));
      match first
      case Unreached => (s1, Err(Unreachable))
      case Answered(r) => if r.status != 401 then (s1, Ok(r)) else Refreshed(env, s1, call, b)
  }

  /** After a 401: refresh with the stored token, save the new bundle, then retry. */
  function Refreshed<W>(env: Env<W>, s: State<W>, call: Call, b: Bundle): (State<W>, Result<Response>) {
    var (s1, reply) := Send(env, s, RefreshRequest(b.refresh));
    match reply
    case Unreached => (s1, Err(Unreachable))
    case Answered(r) =>
      if r.status == 401 then (Cleared(env, s1), AfterClear(env, s1, Err(SessionExpired)))
      else if r.status != 200 then (s1, Err(Status(r.status)))
      else match env.parseBundle(r.body)
        case None => (s1, Err(InvalidJson))
        case Some(next) =>
          if !ValidBundle(next) then (s1, Err(InvalidCredentials))
          else if !env.sets(s1.world) then (s1, Err(StoreFailed))
          else
            var kept := if next.user.None? then next.(user := b.user) else next;
            Retried(env, s1.(slot := Saved(env, kept)), call, kept)
  }

  function Retried<W>(env: Env<W>, s: State<W>, call: Call, b: Bundle): (State<W>, Result<Response>) {
    var (s1, reply) := Send(env, s, Bearing(call, b.access));
    match reply
    case Unreached => (s1, Err(Unreachable))
    case Answered(r) => if r.status == 401 then (Cleared(env, s1), AfterClear(env, s1, Err(SessionExpired)))
                        else (s1, Ok(r))
  }

  const ME := Call(Get, ME_PATH, NoBody)

  function Me<W>(env: Env<W>, s: State<W>): (State<W>, Result<User>) {
    var (s1, reply) := Authenticated(env, s, ME);
    CacheUser(env, s1, reply)
  }

  /** `me` after its call: read the account from the reply and write it back. */
  function CacheUser<W>(env: Env<W>, s1: State<W>, reply: Result<Response>): (State<W>, Result<User>) {
    match reply
    case Err(e) => (s1, Err(e))
    case Ok(r) =>
      if r.status != 200 then (s1, Err(Status(r.status)))
      else match env.parseUser(r.body)
        case None => (s1, Err(InvalidJson))
        case Some(user) =>
          if Blank(user.id) then (s1, Err(NoAccountId))
          else match Load(env, s1)
            case Absent => (s1, Ok(user))
            case Failing(e) => (s1, Err(e))
            case Loaded(b) =>
              if !env.sets(s1.world) then (s1, Err(StoreFailed))
              else (s1.(slot := Saved(env, b.(user := Some(user)))), Ok(user))
  }

  /** `set_key` and `remove_key`: a call whose reply must carry one of the listed statuses. */
  function KeyCall<W>(env: Env<W>, s: State<W>, call: Call, statuses: set<nat>): (State<W>, Result<()>) {
    var (s1, reply) := Authenticated(env, s, call);
    match reply
    case Err(e) => (s1, Err(e))
    case Ok(r) => (s1, if r.status in statuses then Ok(()) else Err(Status(r.status)))
  }

  function Logout<W>(env: Env<W>, s: State<W>): (State<W>, Result<bool>) {
    match Load(env, s)
    case Loaded(b) =>
      var (s1, reply) := Send(env, s, LogoutRequest(b.refresh));
      (Cleared(env, s1), AfterClear(env, s1, Ok(reply.Answered? && 200 <= reply.response.status < 300)))
    case _ => (Cleared(env, s), AfterClear(env, s, Ok(false)))
  }

  // ---- The client ----

  class CloudClient<W> {
    const env: Env<W>
    var slot: Slot
    var world: W
    ghost var log: seq<Exchange<W>>

    constructor (env: Env<W>, slot: Slot, world: W)
      ensures this.env == env && Now() == State(slot, world, [])
    {
      this.env, this.slot, this.world, this.log := env, slot, world, [];
    }

    ghost function Now(): State<W>
      reads this
    {
      State(slot, world, log)
    }

    method LoadAuth() returns (r: Loading)
      ensures r == Load(env, Now())
    {
      if !env.gets(world) { return Failing(StoreFailed); }
      match slot {
        case Empty => r := Absent;
        case Garbled => r := Failing(UnreadableSession);
        case Stored(record) =>
          if record.schemaVersion != ACCOUNT_SESSION_SCHEMA_VERSION || record.apiBase != env.apiBase {
            r := Absent;
          } else if !ValidBundle(record.bundle) {
            r := Failing(InvalidCredentials);
          } else {
            r := Loaded(record.bundle);
          }
      }
    }

    method SaveAuth(b: Bundle) returns (r: Result<()>)
      modifies this`slot
      ensures r.Ok? <==> ValidBundle(b) && env.sets(world)
      ensures r.Ok? ==> slot == Saved(env, b) && Held(env, slot) == Loaded(b)
      ensures r.Err? ==> slot == old(slot) && r.error == if ValidBundle(b) then StoreFailed else InvalidCredentials
    {
      if !ValidBundle(b) { return Err(InvalidCredentials); }
      if !env.sets(world) { return Err(StoreFailed); }
      slot := Stored(Record(ACCOUNT_SESSION_SCHEMA_VERSION, env.apiBase, b));
      r := Ok(());
    }

    method ClearAuth() returns (r: Result<()>)
      modifies this`slot
      ensures Now() == Cleared(env, old(Now())) && r == AfterClear(env, old(Now()), Ok(()))
    {
      if !env.deletes(world) { return Err(StoreFailed); }
      slot := Empty;
      r := Ok(());
    }

    method Execute(request: Request) returns (reply: Reply)
      modifies this`world, this`log
      ensures (Now(), reply) == Send(env, old(Now()), request)
    {
      var (world', reply') := env.respond(world, request);
      log := log + [Exchange(request, reply', slot, world)];
      world, reply := world', reply';
    }

    method ExecuteAuthenticated(call: Call) returns (result: Result<Response>)
      modifies this
      ensures (Now(), result) == Authenticated(env, old(Now()), call)
    {
      var loading := LoadAuth();
      match loading {
        case Absent => return Err(NotSignedIn);
        case Failing(e) => return Err(e);
        case Loaded(stored) =>
          var first := Execute(Bearing(call, stored.access));
          if first.Unreached? { return Err(Unreachable); }
          if first.response.status != 401 { return Ok(first.response); }
          result := RefreshAndRetry(call, stored);
      }
    }

    method RefreshAndRetry(call: Call, stored: Bundle) returns (result: Result<Response>)
      modifies this
      ensures (Now(), result) == Refreshed(env, old(Now()), call, stored)
    {
      var refresh := Execute(RefreshRequest(stored.refresh));
      if refresh.Unreached? { return Err(Unreachable); }
      if refresh.response.status == 401 {
        var cleared := ClearAuth();
        if cleared.Err? { return Err(cleared.error); }
        return Err(SessionExpired);
      }
      if refresh.response.status != 200 { return Err(Status(refresh.response.status)); }
      var parsed := env.parseBundle(refresh.response.body);
      if parsed.None? { return Err(InvalidJson); }
      var next := parsed.value;
      if !ValidBundle(next) { return Err(InvalidCredentials); }
      if next.user.None? { next := next.(user := stored.user); }
      var saved := SaveAuth(next);
      if saved.Err? { return Err(saved.error); }
      var retried := Execute(Bearing(call, next.access));
      if retried.Unreached? { return Err(Unreachable); }
      if retried.response.status == 401 {
        var cleared := ClearAuth();
        if cleared.Err? { return Err(cleared.error); }
        return Err(SessionExpired);
      }
      return Ok(retried.response);
    }

    method FetchMe() returns (result: Result<User>)
      modifies this
      ensures (Now(), result) == Me(env, old(Now()))
    {
      var reply := ExecuteAuthenticated(ME);
      if reply.Err? { return Err(reply.error); }
      if reply.value.status != 200 { return Err(Status(reply.value.status)); }
      var user := env.parseUser(reply.value.body);
      if user.None? { return Err(InvalidJson); }
      if Blank(user.value.id) { return Err(NoAccountId); }
      var stored := LoadAuth();
      match stored {
        case Absent =>
        case Failing(e) => return Err(e);
        case Loaded(b) =>
          var saved := SaveAuth(b.(user := Some(user.value)));
          if saved.Err? { return Err(saved.error); }
      }
      return Ok(user.value);
    }

    method ChangeKey(call: Call, statuses: set<nat>) returns (result: Result<()>)
      modifies this
      ensures (Now(), result) == KeyCall(env, old(Now()), call, statuses)
    {
      var reply := ExecuteAuthenticated(call);
      if reply.Err? { return Err(reply.error); }
      return if reply.value.status in statuses then Ok(()) else Err(Status(reply.value.status));
    }

    method SetKey(provider: string, payload: string) returns (result: Result<()>)
      modifies this
      ensures (Now(), result) ==
              KeyCall(env, old(Now()), Call(Put, "/api/model-keys/" + provider, Bytes(payload)), {200, 201})
    {
      result := ChangeKey(Call(Put, KEYS_PATH + provider, Bytes(payload)), {200, 201});
    }

    method RemoveKey(provider: string) returns (result: Result<()>)
      modifies this
      ensures (Now(), result) ==
              KeyCall(env, old(Now()), Call(Delete, "/api/model-keys/" + provider, NoBody), {200, 204})
    {
      result := ChangeKey(Call(Delete, KEYS_PATH + provider, NoBody), {200, 204});
    }

    method SignOut() returns (result: Result<bool>)
      modifies this
      ensures (Now(), result) == Logout(env, old(Now()))
    {
      var loading := LoadAuth();
      if !loading.Loaded? {
        var scrubbed := ClearAuth();
        if scrubbed.Err? { return Err(scrubbed.error); }
        return Ok(false);
      }
      var reply := Execute(LogoutRequest(loading.bundle.refresh));
      var cleared := ClearAuth();
      if cleared.Err? { return Err(cleared.error); }
      return Ok(reply.Answered? && 200 <= reply.response.status < 300);
    }
  }

  // ---- Retry discipline, for every transport ----

  predicate Got401(reply: Reply) {
    reply.Answered? && reply.response.status == 401
  }

  /** The requests after a 401: a refresh, and a retry with the token that it granted. */
  ghost predicate RefreshesOnce<W>(env: Env<W>, call: Call, b: Bundle, sent: seq<Exchange<W>>) {
    && 1 <= |sent| <= 2
    && sent[0].request == Request(Post, "/api/auth/refresh", None, RefreshToken(b.refresh))
    && (|sent| == 2 ==>
          && sent[0].reply.Answered? && sent[0].reply.response.status == 200
          && exists token :: sent[1].request == Request(call.method_, call.path, Some(token), call.body)
                             && env.parseBundle(sent[0].reply.response.body).Some?
                             && env.parseBundle(sent[0].reply.response.body).value.access == token)
  }

  /** The requests of one authenticated call, oldest first. */
  ghost predicate Disciplined<W>(env: Env<W>, call: Call, b: Bundle, sent: seq<Exchange<W>>) {
    && |sent| >= 1 && sent[0].request == Request(call.method_, call.path, Some(b.access), call.body)
    && (|sent| > 1 ==> Got401(sent[0].reply) && RefreshesOnce(env, call, b, sent[1..]))
  }

  lemma RefreshDiscipline<W>(env: Env<W>, s: State<W>, call: Call, b: Bundle)
    ensures var (s', r) := Refreshed(env, s, call, b);
            && s.log <= s'.log && RefreshesOnce(env, call, b, s'.log[|s.log|..])
            && (r.Ok? ==> r.value.status != 401 && s'.log[|s'.log| - 1].reply == Answered(r.value))
  {
  }

  /** An authenticated call makes no request when no session loads, and otherwise one to three:
      the caller's request; a refresh with the stored token, only after a 401; and the caller's
      request again with the new token, only after a granted refresh. It never returns a 401,
      and what it returns is the last reply. */
  lemma RetryDiscipline<W>(env: Env<W>, s: State<W>, call: Call)
    ensures var (s', r) := Authenticated(env, s, call);
            && s.log <= s'.log
            && (!Load(env, s).Loaded? ==> s' == s && r.Err?)
            && (Load(env, s).Loaded? ==> Disciplined(env, call, Load(env, s).bundle, s'.log[|s.log|..]))
            && (r.Ok? ==> r.value.status != 401 && s'.log[|s'.log| - 1].reply == Answered(r.value))
  {
    if Load(env, s).Loaded? {
      var b := Load(env, s).bundle;
      var (s1, first) := Send(env, s, Bearing(call, b.access));
      if Got401(first) {
        RefreshDiscipline(env, s1, call, b);
        var s' := Authenticated(env, s, call).0;
        assert s'.log[|s.log|..] == [s1.log[|s.log|]] + s'.log[|s1.log|..];
      }
    }
  }

  /** A refresh that omits the account record keeps the stored one, whatever happens later. */
  lemma RefreshKeepsUser<W>(env: Env<W>, s: State<W>, call: Call)
    requires Load(env, s).Loaded?
    ensures var s' := Authenticated(env, s, call).0;
            var before := Load(env, s).bundle;
            && (s'.slot == s.slot || s'.slot == Empty || Held(env, s'.slot).Loaded?)
            && (Held(env, s'.slot).Loaded? && before.user.Some? ==> Held(env, s'.slot).bundle.user.Some?)
            && (Held(env, s'.slot).Loaded? && |s'.log| == |s.log| + 3
                && env.parseBundle(s'.log[|s.log| + 1].reply.response.body).value.user.None? ==>
                  Held(env, s'.slot).bundle.user == before.user)
  {
  }

  /** `me` writes back the tokens its own call left in the store, never older ones, and caches
      exactly the account it returns. */
  lemma MeKeepsTokens<W>(env: Env<W>, s: State<W>)
    ensures var after := Authenticated(env, s, ME).0;
            var (s', r) := Me(env, s);
            && s'.world == after.world && s'.log == after.log
            && (Held(env, after.slot).Loaded? <==> Held(env, s'.slot).Loaded?)
            && (after.slot == Empty <==> s'.slot == Empty)
            && (Held(env, s'.slot).Loaded? ==>
                  && Held(env, s'.slot).bundle.access == Held(env, after.slot).bundle.access
                  && Held(env, s'.slot).bundle.refresh == Held(env, after.slot).bundle.refresh
                  && (r.Ok? ==> Held(env, s'.slot).bundle.user == Some(r.value)))
            && (r.Err? ==> s'.slot == after.slot)
  {
    var (after, reply) := Authenticated(env, s, ME);
    CacheKeepsTokens(env, after, reply);
  }

  lemma CacheKeepsTokens<W>(env: Env<W>, after: State<W>, reply: Result<Response>)
    ensures var (s', r) := CacheUser(env, after, reply);
            && s'.world == after.world && s'.log == after.log
            && (Held(env, after.slot).Loaded? <==> Held(env, s'.slot).Loaded?)
            && (after.slot == Empty <==> s'.slot == Empty)
            && (Held(env, s'.slot).Loaded? ==>
                  && Held(env, s'.slot).bundle.access == Held(env, after.slot).bundle.access
                  && Held(env, s'.slot).bundle.refresh == Held(env, after.slot).bundle.refresh
                  && (r.Ok? ==> Held(env, s'.slot).bundle.user == Some(r.value)))
            && (r.Err? ==> s'.slot == after.slot)
  {
  }

  /** Logout succeeds exactly when the slot can be deleted, and then leaves it empty, whatever it
      held and whatever the server said; it reports a revocation exactly when the server confirmed
      one. Otherwise the slot is as before. */
  lemma LogoutClears<W>(env: Env<W>, s: State<W>)
    ensures var (s', r) := Logout(env, s);
            && (r.Ok? <==> env.deletes(s'.world)) && (r.Ok? ==> s'.slot == Empty) && (r.Err? ==> s'.slot == s.slot)
            && (r.Ok? ==> (r.value <==> |s'.log| == |s.log| + 1 &&
                                        var last := s'.log[|s.log|];
                                        && Load(env, s).Loaded?
                                        && last.request == Request(Post, "/api/auth/logout", None,
                                                                   RefreshToken(Load(env, s).bundle.refresh))
                                        && last.reply.Answered? && 200 <= last.reply.response.status < 300))
  {
  }
}
