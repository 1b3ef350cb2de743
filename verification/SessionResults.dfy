/**
 What the calls of the account session return, and which requests they send
 (crates/cli/src/cloud.rs), read off the record of requests and replies.
 */
module SessionResults {
  import opened Session
  import opened Text

  /** What a slot holds: a bundle that passes validation, in a record of this schema and origin; a
      record of another schema or origin counts as none. */
  lemma HeldExactly<W>(env: Env<W>, slot: Slot)
    ensures forall b :: Held(env, slot) == Loaded(b) <==>
              slot == Stored(Record(1, env.apiBase, b)) && ValidBundle(b)
    ensures Held(env, slot).Absent? <==>
            slot.Empty? || (slot.Stored? && (slot.record.schemaVersion != 1 || slot.record.apiBase != env.apiBase))
    ensures Held(env, slot) == Failing(UnreadableSession) <==> slot.Garbled?
    ensures Held(env, slot) == Failing(InvalidCredentials) <==>
            && slot.Stored? && slot.record.schemaVersion == 1 && slot.record.apiBase == env.apiBase
            && !ValidBundle(slot.record.bundle)
  {
  }

  /** The white space of Rust is that of ECMAScript, without the byte order mark and with NEL. */
  lemma WhitespaceIs(c: char)
    ensures IsWhitespace(c) <==> c as int == 0x85 || (IsSpaceCode(c as int) && c as int != 0xFEFF)
  {
  }

  function CountFrom(s: string, low: char): nat {
    if s == [] then 0 else (if s[0] >= low then 1 else 0) + CountFrom(s[1..], low)
  }

  /** A byte for each character, and one more from each of three code points on. */
  lemma {:induction false} Utf8LengthIs(s: string)
    ensures Utf8Length(s) == |s| + CountFrom(s, '\U{80}') + CountFrom(s, '\U{800}') + CountFrom(s, '\U{10000}')
  {
    if s == [] {
    } else {
      Utf8LengthIs(s[1..]);
    }
  }

  lemma {:induction false} NoneFrom(s: string, low: char)
    requires forall i :: 0 <= i < |s| ==> s[i] < low
    ensures CountFrom(s, low) == 0
  {
    if s == [] {
    } else {
      NoneFrom(s[1..], low);
    }
  }

  /** An ASCII token is valid when it has visible characters only, at least one and at most 64 KiB. */
  lemma AsciiTokenExactly(s: string)
    requires forall i :: 0 <= i < |s| ==> s[i] < '\U{80}'
    ensures ValidToken(s) <==> 1 <= |s| <= 65536 && forall i :: 0 <= i < |s| ==> '!' <= s[i] <= '~'
  {
    Utf8LengthIs(s);
    NoneFrom(s, '\U{80}');
    NoneFrom(s, '\U{800}');
    NoneFrom(s, '\U{10000}');
    assert forall i :: 0 <= i < |s| ==> s[i] in s;
  }

  /** A token type is "bearer" in any case. */
  lemma BearerInAnyCase(s: string)
    ensures EqualsIgnoreCase(s, "bearer") <==>
            |s| == 6 && s[0] in "bB" && s[1] in "eE" && s[2] in "aA" && s[3] in "rR" && s[4] in "eE" && s[5] in "rR"
  {
    forall i | 0 <= i < 6 && |s| == 6
      ensures LowerAscii(s[i]) == LowerAscii("bearer"[i]) <==> CaseOf(s[i], "bearer"[i])
    {
      CaseIs(s[i], "bearer"[i]);
    }
  }

  predicate CaseOf(c: char, lower: char) {
    c == lower || c as int == lower as int - 32
  }

  lemma CaseIs(c: char, lower: char)
    requires 'a' <= lower <= 'z'
    ensures LowerAscii(c) == LowerAscii(lower) <==> CaseOf(c, lower)
  {
    LowerAsciiExactly(c);
    LowerAsciiExactly(lower);
  }

  // ---- Authenticated calls ----

  /** A 401 ends the session; the error says so unless the slot cannot be cleared. */
  function Expired<W>(env: Env<W>, w: W): Error {
    if env.deletes(w) then SessionExpired else StoreFailed
  }

  /** Why a refresh that was answered did not lead to a retry. */
  function RefreshError<W>(env: Env<W>, r: Response, w: W): Error {
    if r.status == 401 then Expired(env, w)
    else if r.status != 200 then Status(r.status)
    else if env.parseBundle(r.body).None? then InvalidJson
    else if !ValidBundle(env.parseBundle(r.body).value) then InvalidCredentials
    else StoreFailed
  }

  /** What a call with these requests returns, said of the last of them and their number. */
  function ResultOf<W>(env: Env<W>, sent: nat, last: Reply, w: W): Result<Response> {
    match last
    case Unreached => Err(Unreachable)
    case Answered(r) =>
      if sent == 2 then Err(RefreshError(env, r, w))
      else if r.status == 401 then Err(Expired(env, w))
      else Ok(r)
  }

  lemma RefreshResult<W>(env: Env<W>, s: State<W>, call: Call, b: Bundle)
    ensures var (s', r) := Refreshed(env, s, call, b);
            && |s.log| < |s'.log| <= |s.log| + 2
            && r == ResultOf(env, |s'.log| - |s.log| + 1, s'.log[|s'.log| - 1].reply, s'.world)
  {
  }

  /** The result of an authenticated call: without a session its error; otherwise the last reply
      decides, and a reply to the caller's own request other than 401 is returned as it is. */
  lemma CallResult<W>(env: Env<W>, s: State<W>, call: Call)
    ensures var (s', r) := Authenticated(env, s, call);
            match Load(env, s)
            case Absent => r == Err(NotSignedIn)
            case Failing(e) => r == Err(e)
            case Loaded(b) =>
              && |s.log| < |s'.log| <= |s.log| + 3
              && (|s'.log| == |s.log| + 1 ==> !Got401(s'.log[|s.log|].reply))
              && r == ResultOf(env, |s'.log| - |s.log|, s'.log[|s'.log| - 1].reply, s'.world)
  {
    if Load(env, s).Loaded? {
      var b := Load(env, s).bundle;
      var (s1, first) := Send(env, s, Bearing(call, b.access));
      if Got401(first) { RefreshResult(env, s1, call, b); }
    }
  }

  /** A call succeeds exactly when its own request, first or repeated, got an answer other than 401,
      and then returns that answer. */
  lemma CallSucceedsExactly<W>(env: Env<W>, s: State<W>, call: Call)
    ensures var (s', r) := Authenticated(env, s, call);
            && (r.Ok? <==>
                  && Load(env, s).Loaded? && |s'.log| in {|s.log| + 1, |s.log| + 3}
                  && s'.log[|s'.log| - 1].reply.Answered?
                  && s'.log[|s'.log| - 1].reply.response.status != 401)
            && (r.Ok? ==> s'.log[|s'.log| - 1].reply == Answered(r.value))
  {
    CallResult(env, s, call);
  }

  /** The refresh reply grants a bundle, and the store takes it. */
  predicate Grants<W>(env: Env<W>, reply: Reply, b: Bundle) {
    reply.Answered? && reply.response.status == 200 && env.parseBundle(reply.response.body) == Some(b) && ValidBundle(b)
  }

  function WithUser(b: Bundle, user: Option<User>): Bundle {
    if b.user.Some? then b else Bundle(b.tokenType, b.access, b.refresh, b.session, user)
  }

  lemma SlotAfterRetry<W>(env: Env<W>, s: State<W>, call: Call, b: Bundle)
    ensures var s' := Retried(env, s, call, b).0;
            && |s'.log| == |s.log| + 1 && s'.log[..|s.log|] == s.log && s'.log[|s.log|].world == s.world
            && s'.slot == if Got401(s'.log[|s.log|].reply) && env.deletes(s'.world) then Empty else s.slot
  {
  }

  /** The slot after the refresh part: as before unless the refresh is answered 401 or granted. */
  lemma SlotAfterRefresh<W>(env: Env<W>, s: State<W>, call: Call, b: Bundle)
    ensures var s' := Refreshed(env, s, call, b).0;
            var refresh, last := s'.log[|s.log|], s'.log[|s'.log| - 1].reply;
            && |s'.log| in {|s.log| + 1, |s.log| + 2}
            && (|s'.log| == |s.log| + 1 ==>
                  && s'.slot == (if Got401(last) && env.deletes(s'.world) then Empty else s.slot)
                  && forall next :: Grants(env, refresh.reply, next) ==> !env.sets(s'.world))
            && (|s'.log| == |s.log| + 2 ==>
                  exists next :: Grants(env, refresh.reply, next) && env.sets(s'.log[|s.log| + 1].world)
                                 && s'.slot == if Got401(last) && env.deletes(s'.world) then Empty
                                               else Stored(Record(1, env.apiBase, WithUser(next, b.user))))
  {
    var (s1, reply) := Send(env, s, RefreshRequest(b.refresh));
    if reply.Answered? && reply.response.status == 200 && env.parseBundle(reply.response.body).Some? {
      var next := env.parseBundle(reply.response.body).value;
      assert Grants(env, reply, next) <==> ValidBundle(next);
      if ValidBundle(next) && env.sets(s1.world) { SlotAfterGrant(env, s, call, b, next); }
    }
  }

  lemma SlotAfterGrant<W>(env: Env<W>, s: State<W>, call: Call, b: Bundle, next: Bundle)
    requires var (s1, reply) := Send(env, s, RefreshRequest(b.refresh));
             Grants(env, reply, next) && env.sets(s1.world)
    ensures var s' := Refreshed(env, s, call, b).0;
            && |s'.log| == |s.log| + 2 && Grants(env, s'.log[|s.log|].reply, next)
            && env.sets(s'.log[|s.log| + 1].world)
            && s'.slot == if Got401(s'.log[|s.log| + 1].reply) && env.deletes(s'.world) then Empty
                          else Stored(Record(1, env.apiBase, WithUser(next, b.user)))
  {
    var (s1, reply) := Send(env, s, RefreshRequest(b.refresh));
    var kept := if next.user.None? then next.(user := b.user) else next;
    assert kept == WithUser(next, b.user);
    var ready := s1.(slot := Saved(env, kept));
    assert Refreshed(env, s, call, b) == Retried(env, ready, call, kept);
    SlotAfterRetry(env, ready, call, kept);
    assert ready.log[|s.log|].reply == reply;
  }

  /** The slot after a call: as before without a 401, and otherwise as the refresh part leaves it. */
  lemma SlotAfterCall<W>(env: Env<W>, s: State<W>, call: Call, b: Bundle)
    requires Load(env, s) == Loaded(b)
    ensures var s' := Authenticated(env, s, call).0;
            && |s'.log| > |s.log| && (|s'.log| > |s.log| + 1 <==> Got401(s'.log[|s.log|].reply))
            && (!Got401(s'.log[|s.log|].reply) ==> s'.slot == s.slot)
            && (Got401(s'.log[|s.log|].reply) ==>
                  s' == Refreshed(env, Send(env, s, Request(call.method_, call.path, Some(b.access), call.body)).0,
                                  call, b).0)
  {
    var (s1, first) := Send(env, s, Bearing(call, b.access));
    if Got401(first) { RefreshDiscipline(env, s1, call, b); }
  }

  /** `me` changes nothing but the account in the stored session, and that only when it succeeds. */
  lemma SlotAfterMe<W>(env: Env<W>, s: State<W>)
    ensures var after := Authenticated(env, s, ME).0;
            var (s', r) := Me(env, s);
            && s'.world == after.world && s'.log == after.log
            && s'.slot == match Load(env, after)
                          case Loaded(b) =>
                            if r.Err? then after.slot
                            else Stored(Record(1, env.apiBase,
                                               Bundle(b.tokenType, b.access, b.refresh, b.session, Some(r.value))))
                          case _ => after.slot
  {
    var (after, reply) := Authenticated(env, s, ME);
    SlotAfterCache(env, after, reply);
  }

  lemma SlotAfterCache<W>(env: Env<W>, after: State<W>, reply: Result<Response>)
    ensures var (s', r) := CacheUser(env, after, reply);
            && s'.world == after.world && s'.log == after.log
            && s'.slot == match Load(env, after)
                          case Loaded(b) =>
                            if r.Err? then after.slot
                            else Stored(Record(1, env.apiBase,
                                               Bundle(b.tokenType, b.access, b.refresh, b.session, Some(r.value))))
                          case _ => after.slot
  {
  }

  // ---- The commands ----

  /** `me` succeeds exactly when its call is answered 200 with a readable account that has an id, and
      the session left by the call is gone or can be loaded and saved; it returns that account. */
  lemma MeResult<W>(env: Env<W>, s: State<W>)
    ensures var (after, reply) := Authenticated(env, s, ME);
            var (s', r) := Me(env, s);
            && (forall user :: r == Ok(user) <==>
                  && reply.Ok? && reply.value.status == 200
                  && env.parseUser(reply.value.body) == Some(user) && !Blank(user.id)
                  && (Load(env, after).Absent? || (Load(env, after).Loaded? && env.sets(after.world))))
            && (reply.Err? ==> r == Err(reply.error))
            && (reply.Ok? && reply.value.status != 200 ==> r == Err(Status(reply.value.status)))
            && (reply.Ok? && reply.value.status == 200 && env.parseUser(reply.value.body).None? ==>
                  r == Err(InvalidJson))
  {
    var (after, reply) := Authenticated(env, s, ME);
    CacheResult(env, after, reply);
  }

  lemma CacheResult<W>(env: Env<W>, after: State<W>, reply: Result<Response>)
    ensures var (s', r) := CacheUser(env, after, reply);
            && (forall user :: r == Ok(user) <==>
                  && reply.Ok? && reply.value.status == 200
                  && env.parseUser(reply.value.body) == Some(user) && !Blank(user.id)
                  && (Load(env, after).Absent? || (Load(env, after).Loaded? && env.sets(after.world))))
            && (reply.Err? ==> r == Err(reply.error))
            && (reply.Ok? && reply.value.status != 200 ==> r == Err(Status(reply.value.status)))
            && (reply.Ok? && reply.value.status == 200 && env.parseUser(reply.value.body).None? ==>
                  r == Err(InvalidJson))
  {
  }

  /** A key call succeeds exactly when its call is answered with one of the listed statuses. */
  lemma KeyResult<W>(env: Env<W>, s: State<W>, call: Call, statuses: set<nat>)
    ensures var (after, reply) := Authenticated(env, s, call);
            var (s', r) := KeyCall(env, s, call, statuses);
            && s' == after
            && (r == Ok(()) <==> reply.Ok? && reply.value.status in statuses)
            && (reply.Err? ==> r == Err(reply.error))
            && (reply.Ok? && reply.value.status !in statuses ==> r == Err(Status(reply.value.status)))
  {
  }

  /** The account calls and what they put on the wire. */
  lemma CallsAre(provider: string, payload: string, access: string, refresh: string)
    ensures Bearing(ME, access) == Request(Get, "/api/me", Some(access), NoBody)
    ensures RefreshRequest(refresh) == Request(Post, "/api/auth/refresh", None, RefreshToken(refresh))
    ensures LogoutRequest(refresh) == Request(Post, "/api/auth/logout", None, RefreshToken(refresh))
    ensures Bearing(Call(Put, KEYS_PATH + provider, Bytes(payload)), access)
         == Request(Put, "/api/model-keys/" + provider, Some(access), Bytes(payload))
  {
  }
}
