/**
 The account session against a server that rotates refresh tokens: after every sequence of
 commands the local store and the server agree on the token in force, as long as the store misses
 no refresh (crates/cli/src/cloud.rs).
 */
module Synchrony {
  import opened Session
  import opened Text

  // The refresh token that the server would accept now.
  type Current<!W> = W -> Option<string>

  /** The server hands out single-use refresh tokens: it grants a refresh only for the current
      token and then makes the new one current; refusing with anything but 401 changes nothing,
      and no request other than refresh and logout touches the session. A granted refresh may
      still get lost on its way back. */
  ghost predicate Rotates<W(!new)>(env: Env<W>, current: Current<W>) {
    forall w, r :: RotatesOn(env, current, w, r)
  }

  ghost predicate RotatesOn<W>(env: Env<W>, current: Current<W>, w: W, r: Request) {
    var (w', reply) := env.respond(w, r);
    && (r.path != REFRESH_PATH && r.path != LOGOUT_PATH ==> current(w') == current(w))
    && (r.path == REFRESH_PATH && reply.Answered? && reply.response.status == 200 ==>
          && r.body.RefreshToken? && current(w) == Some(r.body.token)
          && env.parseBundle(reply.response.body).Some?
          && ValidBundle(env.parseBundle(reply.response.body).value)
          && current(w') == Some(env.parseBundle(reply.response.body).value.refresh))
    && (r.path == REFRESH_PATH && reply.Answered? && reply.response.status != 200 && reply.response.status != 401 ==>
          current(w') == current(w))
  }

  /** Nobody is signed in, or the store holds the refresh token that the server would accept. */
  ghost predicate InSync<W>(env: Env<W>, current: Current<W>, slot: Slot, w: W) {
    slot == Empty || (Held(env, slot).Loaded? && current(w) == Some(Held(env, slot).bundle.refresh))
  }

  /** The last request was a refresh that changed the session at the server and not in the store:
      its reply never arrived, or the store could not be written or cleared. */
  ghost predicate MissedRefresh<W>(env: Env<W>, current: Current<W>, s: State<W>) {
    s.log != [] &&
    var last := s.log[|s.log| - 1];
    && last.request.path == REFRESH_PATH && current(s.world) != current(last.world)
    && (|| last.reply.Unreached?
        || (last.reply.response.status == 200 && !env.sets(s.world))
        || (last.reply.response.status == 401 && !env.deletes(s.world)))
  }

  /** Every request since `n` was sent from a state in sync. */
  ghost predicate SentInSync<W>(env: Env<W>, current: Current<W>, s: State<W>, n: nat) {
    forall i :: n <= i < |s.log| ==> InSync(env, current, s.log[i].slot, s.log[i].world)
  }

  predicate Ordinary(call: Call) {
    call.path != REFRESH_PATH && call.path != LOGOUT_PATH
  }

  /** One authenticated call against a rotating server: each of its requests leaves from a state
      in sync, and it ends in sync exactly when the store did not miss a refresh. */
  lemma CallSynchrony<W(!new)>(env: Env<W>, current: Current<W>, s: State<W>, call: Call)
    requires Rotates(env, current) && Ordinary(call) && InSync(env, current, s.slot, s.world)
    ensures var s' := Authenticated(env, s, call).0;
            && s.log <= s'.log && SentInSync(env, current, s', |s.log|)
            && (|s'.log| > |s.log| ==> (InSync(env, current, s'.slot, s'.world) <==> !MissedRefresh(env, current, s')))
            && (|s'.log| == |s.log| ==> s' == s)
  {
    if Load(env, s).Loaded? {
      var b := Load(env, s).bundle;
      var (s1, first) := Send(env, s, Bearing(call, b.access));
      assert RotatesOn(env, current, s.world, Bearing(call, b.access));
      if Got401(first) {
        RefreshSynchrony(env, current, s1, call, b);
        var s' := Refreshed(env, s1, call, b).0;
        assert s'.log[|s.log|] == s1.log[|s.log|];
      }
    }
  }

  lemma RefreshSynchrony<W(!new)>(env: Env<W>, current: Current<W>, s: State<W>, call: Call, b: Bundle)
    requires Rotates(env, current) && Ordinary(call)
    requires Held(env, s.slot) == Loaded(b) && InSync(env, current, s.slot, s.world)
    ensures var s' := Refreshed(env, s, call, b).0;
            && s.log < s'.log && SentInSync(env, current, s', |s.log|)
            && (InSync(env, current, s'.slot, s'.world) <==> !MissedRefresh(env, current, s'))
  {
    var (s1, reply) := Send(env, s, RefreshRequest(b.refresh));
    assert RotatesOn(env, current, s.world, RefreshRequest(b.refresh));
    if reply.Answered? && reply.response.status == 200 && env.sets(s1.world) {
      var next := env.parseBundle(reply.response.body).value;
      var kept := if next.user.None? then next.(user := b.user) else next;
      var s2 := s1.(slot := Saved(env, kept));
      RetrySynchrony(env, current, s2, call, kept);
      var s' := Retried(env, s2, call, kept).0;
      assert s'.log[|s.log|] == s1.log[|s.log|];
    }
  }

  lemma RetrySynchrony<W(!new)>(env: Env<W>, current: Current<W>, s: State<W>, call: Call, b: Bundle)
    requires Rotates(env, current) && Ordinary(call)
    requires Held(env, s.slot) == Loaded(b) && InSync(env, current, s.slot, s.world)
    ensures var s' := Retried(env, s, call, b).0;
            && s.log < s'.log && SentInSync(env, current, s', |s.log|)
            && InSync(env, current, s'.slot, s'.world) && !MissedRefresh(env, current, s')
  {
    assert RotatesOn(env, current, s.world, Bearing(call, b.access));
  }

  // ---- Whole sessions ----

  datatype Command = WhoAmI | SetKey(provider: string, payload: string) | RemoveKey(provider: string) | LogOut

  function Perform<W>(env: Env<W>, s: State<W>, c: Command): State<W> {
    match c
    case WhoAmI => Me(env, s).0
    case SetKey(provider, payload) => KeyCall(env, s, Call(Put, KEYS_PATH + provider, Bytes(payload)), {200, 201}).0
    case RemoveKey(provider) => KeyCall(env, s, Call(Delete, KEYS_PATH + provider, NoBody), {200, 204}).0
    case LogOut => Logout(env, s).0
  }

  function PerformAll<W>(env: Env<W>, s: State<W>, commands: seq<Command>): State<W>
    decreases commands
  {
    if commands == [] then s else PerformAll(env, Perform(env, s, commands[0]), commands[1..])
  }

  /** The request that a command starts with, once a session is loaded. */
  function FirstRequest(c: Command, b: Bundle): Request {
    match c
    case WhoAmI => Request(Get, "/api/me", Some(b.access), NoBody)
    case SetKey(provider, payload) => Request(Put, "/api/model-keys/" + provider, Some(b.access), Bytes(payload))
    case RemoveKey(provider) => Request(Delete, "/api/model-keys/" + provider, Some(b.access), NoBody)
    case LogOut => Request(Post, "/api/auth/logout", None, RefreshToken(b.refresh))
  }

  /** Each command starts with its own request, and sends none when no session loads. */
  lemma CommandStarts<W>(env: Env<W>, s: State<W>, c: Command)
    ensures var s' := Perform(env, s, c);
            match Load(env, s)
            case Loaded(b) => |s'.log| > |s.log| && s'.log[|s.log|].request == FirstRequest(c, b)
            case _ => s'.log == s.log
  {
    match c
    case WhoAmI =>
      RetryDiscipline(env, s, ME);
      MeKeepsTokens(env, s);
    case SetKey(provider, payload) => RetryDiscipline(env, s, Call(Put, KEYS_PATH + provider, Bytes(payload)));
    case RemoveKey(provider) => RetryDiscipline(env, s, Call(Delete, KEYS_PATH + provider, NoBody));
    case LogOut =>
  }

  lemma KeyPathIsOrdinary(provider: string)
    ensures KEYS_PATH + provider != REFRESH_PATH && KEYS_PATH + provider != LOGOUT_PATH
  {
    assert (KEYS_PATH + provider)[5] == 'm' && REFRESH_PATH[5] == 'a' && LOGOUT_PATH[5] == 'a';
  }

  /** The command leaves the store behind the server: a call misses a refresh, or a logout that
      changed the session at the server cannot delete the slot. */
  ghost predicate Drifts<W>(env: Env<W>, current: Current<W>, s: State<W>, c: Command) {
    var s' := Perform(env, s, c);
    if c.LogOut? then s.slot != Empty && !env.deletes(s'.world) && current(s'.world) != current(s.world)
    else |s'.log| > |s.log| && MissedRefresh(env, current, s')
  }

  /** One command against a rotating server: each of its requests leaves from a state in sync, and
      it ends in sync exactly when it does not drift. */
  lemma CommandSynchrony<W(!new)>(env: Env<W>, current: Current<W>, s: State<W>, c: Command)
    requires Rotates(env, current) && InSync(env, current, s.slot, s.world)
    ensures var s' := Perform(env, s, c);
            && s.log <= s'.log && SentInSync(env, current, s', |s.log|)
            && (InSync(env, current, s'.slot, s'.world) <==> !Drifts(env, current, s, c))
  {
    match c
    case WhoAmI =>
      CallSynchrony(env, current, s, ME);
      MeKeepsTokens(env, s);
    case SetKey(provider, payload) =>
      KeyPathIsOrdinary(provider);
      CallSynchrony(env, current, s, Call(Put, KEYS_PATH + provider, Bytes(payload)));
    case RemoveKey(provider) =>
      KeyPathIsOrdinary(provider);
      CallSynchrony(env, current, s, Call(Delete, KEYS_PATH + provider, NoBody));
    case LogOut =>
  }

  /** No command of the session drifts. */
  ghost predicate NeverDrifts<W>(env: Env<W>, current: Current<W>, s: State<W>, commands: seq<Command>)
    decreases commands
  {
    commands == [] ||
    (!Drifts(env, current, s, commands[0]) && NeverDrifts(env, current, Perform(env, s, commands[0]), commands[1..]))
  }

  /** The store is in sync before and after every command of the session. */
  ghost predicate StaysInSync<W>(env: Env<W>, current: Current<W>, s: State<W>, commands: seq<Command>)
    decreases commands
  {
    && InSync(env, current, s.slot, s.world)
    && (commands == [] || StaysInSync(env, current, Perform(env, s, commands[0]), commands[1..]))
  }

  /** Against a rotating server, over every sequence of `me`, key calls and logouts, the store is
      empty or holds the refresh token that the server would accept, after every command exactly
      when no command drifts, and then at every request and at the end as well. */
  lemma {:induction false} SessionSynchrony<W(!new)>(
    env: Env<W>, current: Current<W>, s: State<W>, commands: seq<Command>)
    requires Rotates(env, current) && InSync(env, current, s.slot, s.world)
    ensures StaysInSync(env, current, s, commands) <==> NeverDrifts(env, current, s, commands)
    ensures NeverDrifts(env, current, s, commands) ==>
              var s' := PerformAll(env, s, commands);
              && s.log <= s'.log && SentInSync(env, current, s', |s.log|)
              && InSync(env, current, s'.slot, s'.world)
    decreases commands
  {
    if commands == [] {
    } else {
      var s1 := Perform(env, s, commands[0]);
      CommandSynchrony(env, current, s, commands[0]);
      if InSync(env, current, s1.slot, s1.world) {
        SessionSynchrony(env, current, s1, commands[1..]);
        var s' := PerformAll(env, s, commands);
        assert NeverDrifts(env, current, s, commands) ==> forall i :: 0 <= i < |s1.log| ==> s'.log[i] == s1.log[i];
      }
    }
  }

  // ---- Surroundings in which nothing drifts ----

  /** No refresh reply is lost after it changed the session, and the store takes what it is given. */
  ghost predicate MissesNoRefresh<W(!new)>(env: Env<W>, current: Current<W>) {
    (forall w, r :: KeepsOn(env, current, w, r)) && forall w :: env.sets(w) && env.deletes(w)
  }

  ghost predicate KeepsOn<W>(env: Env<W>, current: Current<W>, w: W, r: Request) {
    var (w', reply) := env.respond(w, r);
    r.path == REFRESH_PATH && reply.Unreached? ==> current(w') == current(w)
  }

  /** The last entry of the log is the transport's last answer. */
  ghost predicate Traced<W>(env: Env<W>, s: State<W>) {
    s.log != [] ==>
      var last := s.log[|s.log| - 1];
      env.respond(last.world, last.request) == (s.world, last.reply)
  }

  lemma NothingLost<W(!new)>(env: Env<W>, current: Current<W>, s: State<W>)
    requires MissesNoRefresh(env, current) && Traced(env, s)
    ensures !MissedRefresh(env, current, s)
  {
    if s.log != [] {
      var last := s.log[|s.log| - 1];
      assert KeepsOn(env, current, last.world, last.request);
    }
  }

  lemma CallTraced<W>(env: Env<W>, s: State<W>, call: Call)
    requires Traced(env, s)
    ensures Traced(env, Authenticated(env, s, call).0)
  {
    if Load(env, s).Loaded? {
      var b := Load(env, s).bundle;
      var s1 := Send(env, s, Bearing(call, b.access)).0;
      RefreshTraced(env, s1, call, b);
    }
  }

  lemma RefreshTraced<W>(env: Env<W>, s: State<W>, call: Call, b: Bundle)
    ensures Traced(env, Refreshed(env, s, call, b).0)
  {
  }

  lemma CommandTraced<W>(env: Env<W>, s: State<W>, c: Command)
    requires Traced(env, s)
    ensures Traced(env, Perform(env, s, c))
  {
    match c
    case WhoAmI =>
      CallTraced(env, s, ME);
      MeKeepsTokens(env, s);
    case SetKey(provider, payload) => CallTraced(env, s, Call(Put, KEYS_PATH + provider, Bytes(payload)));
    case RemoveKey(provider) => CallTraced(env, s, Call(Delete, KEYS_PATH + provider, NoBody));
    case LogOut =>
  }

  /** When no refresh reply is ever lost and the store always takes what it is given, no session
      drifts. */
  lemma {:induction false} ReliableNeverDrifts<W(!new)>(
    env: Env<W>, current: Current<W>, s: State<W>, commands: seq<Command>)
    requires MissesNoRefresh(env, current) && Traced(env, s)
    ensures NeverDrifts(env, current, s, commands)
    decreases commands
  {
    if commands == [] {
    } else {
      var s1 := Perform(env, s, commands[0]);
      CommandTraced(env, s, commands[0]);
      NothingLost(env, current, s1);
      ReliableNeverDrifts(env, current, s1, commands[1..]);
    }
  }

  /** A store that missed a rotation is never refreshed from: a call makes at most two requests
      and leaves the record alone or, once the server says 401, clears it if it can. */
  lemma StaleStoreOnlyClears<W(!new)>(env: Env<W>, current: Current<W>, s: State<W>, call: Call)
    requires Rotates(env, current) && Ordinary(call) && Load(env, s).Loaded?
    requires current(s.world) != Some(Load(env, s).bundle.refresh)
    ensures var s' := Authenticated(env, s, call).0;
            && |s'.log| <= |s.log| + 2 && (s'.slot == s.slot || s'.slot == Empty)
            && (s'.slot == Empty <==>
                  |s'.log| == |s.log| + 2 && Got401(s'.log[|s.log| + 1].reply) && env.deletes(s'.world))
  {
    var b := Load(env, s).bundle;
    var (s1, first) := Send(env, s, Bearing(call, b.access));
    assert RotatesOn(env, current, s.world, Bearing(call, b.access));
    assert RotatesOn(env, current, s1.world, RefreshRequest(b.refresh));
  }

  // ---- A server of that kind ----

  /** The token in force, if any; two tokens take turns. */
  datatype TurnServer = TurnServer(token: Option<string>)

  function TurnToken(w: TurnServer): Option<string> {
    w.token
  }

  function TurnRespond(w: TurnServer, r: Request): (TurnServer, Reply) {
    if r.path == REFRESH_PATH then
      if r.body.RefreshToken? && w.token == Some(r.body.token) then
        var next := if r.body.token == "a" then "b" else "a";
        (TurnServer(Some(next)), Answered(Response(200, next)))
      else (w, Answered(Response(401, "")))
    else if r.path == LOGOUT_PATH then (TurnServer(None), Answered(Response(204, "")))
    else (w, Answered(Response(if r.bearer == w.token then 200 else 401, "")))
  }

  function TurnEnv(): Env<TurnServer> {
    Env(TurnRespond, "https://api.ghosty.net",
        body => Some(Bundle("Bearer", body, body, None, None)), body => Some(User("u", "")),
        w => true, w => true, w => true)
  }

  lemma TurnBundleValid(token: string)
    requires token == "a" || token == "b"
    ensures ValidBundle(Bundle("Bearer", token, token, None, None))
  {
    assert Utf8Length(token) == 1 by { assert token[1..] == []; }
    assert token[0] in token;
  }

  /** The assumptions of the synchrony theorem can be met by a server that does rotate. */
  lemma TurnServerRotates()
    ensures Rotates(TurnEnv(), TurnToken) && MissesNoRefresh(TurnEnv(), TurnToken)
    ensures TurnRespond(TurnServer(Some("a")), RefreshRequest("a")).0 == TurnServer(Some("b"))
  {
    TurnBundleValid("a");
    TurnBundleValid("b");
  }

  /** The same server, on a line that drops the reply to a granted refresh. */
  function DropRespond(w: TurnServer, r: Request): (TurnServer, Reply) {
    var (w', reply) := TurnRespond(w, r);
    if r.path == REFRESH_PATH && reply.Answered? && reply.response.status == 200 then (w', Unreached)
    else if r.path != REFRESH_PATH && r.path != LOGOUT_PATH then (w', Answered(Response(401, "")))
    else (w', reply)
  }

  function DropEnv(): Env<TurnServer> {
    TurnEnv().(respond := DropRespond)
  }

  /** Signed in with the token that the server would accept. */
  function DropStart(): State<TurnServer> {
    State(Saved(DropEnv(), Bundle("Bearer", "a", "a", None, None)), TurnServer(Some("a")), [])
  }

  /** One lost reply is enough: the call starts in sync against a rotating server and ends with a
      token in the store that the server no longer accepts. */
  lemma LostReplyDrifts()
    ensures Rotates(DropEnv(), TurnToken) && InSync(DropEnv(), TurnToken, DropStart().slot, DropStart().world)
    ensures var s := Authenticated(DropEnv(), DropStart(), ME).0;
            MissedRefresh(DropEnv(), TurnToken, s) && !InSync(DropEnv(), TurnToken, s.slot, s.world)
  {
    var env, b, s := DropEnv(), Bundle("Bearer", "a", "a", None, None), DropStart();
    TurnBundleValid("a");
    assert Load(env, s) == Loaded(b);
    var (s1, first) := Send(env, s, Bearing(ME, b.access));
    assert Got401(first) && s1.world == s.world;
    var (s2, second) := Send(env, s1, RefreshRequest(b.refresh));
    assert second.Unreached? && s2.world == TurnServer(Some("b"));
    assert Authenticated(env, s, ME).0 == s2;
  }
}
