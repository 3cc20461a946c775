/** The OAuth token: its fields, the store they are written back to, and the requests that
    fetch and refresh it. */
module OAuthToken {
  import opened Basics
  import opened CText
  import opened JsonValues

  /** (long) of a double. */
  function Truncated(x: real): int {
    if x < 0.0 then -((-x).Floor) else x.Floor
  }

  // ---- time ----

  datatype Time = Time(sec: int, usec: int) {
    predicate Valid() { 0 <= usec < 1_000_000 }

    /** timercmp with >. */
    predicate After(t: Time) {
      if sec == t.sec then usec > t.usec else sec > t.sec
    }
  }

  const NO_TIME := Time(0, 0)

  // ---- the token ----

  /** `granted` is the expiry the present tokens were granted with; `expiresAt` may have
      been cleared since. */
  datatype TokenValue = TokenValue(
    clientId: string,
    tokenType: Option<string>, accessToken: Option<string>, refreshToken: Option<string>,
    expiresAt: Time, granted: Time,
    store: Option<Json>)
  {
    /** The three tokens are all there or all missing. */
    predicate Valid() {
      && (tokenType.Some? <==> accessToken.Some?) && (tokenType.Some? <==> refreshToken.Some?)
      && expiresAt.Valid() && granted.Valid()
    }

    predicate HasTokens() { tokenType.Some? && accessToken.Some? && refreshToken.Some? }
  }

  // ---- restoring ----

  /** What a stored object yields: the tokens and the time, none without all of them, none
      for another client. Without memory for the tokens only the time is kept. */
  datatype Restored = Restored(tokens: Option<(string, string, string)>, expiresAt: Time)

  function Restore(clientId: string, store: Option<Json>, memory: bool): Restored {
    if store.None? then Restored(None, NO_TIME)
    else
      var id := ItemOf(store.value, "client_id", false);
      var kind := ItemOf(store.value, "token_type", false);
      var access := ItemOf(store.value, "access_token", false);
      var refresh := ItemOf(store.value, "refresh_token", false);
      var expires := ItemOf(store.value, "expires_at", false);
      if id != Some(Str(clientId)) then Restored(None, NO_TIME)
      else if !IsStr(kind) || !IsStr(access) || !IsStr(refresh) || !IsNum(expires) then Restored(None, NO_TIME)
      else
        Restored(if memory then Some((kind.value.text, access.value.text, refresh.value.text)) else None,
                 Time(Truncated(expires.value.number), 0))
  }

  /** oauth_token_new on a store. */
  function NewToken(clientId: string, store: Option<Json>, memory: bool): (v: TokenValue)
    ensures v.Valid()
  {
    var r := Restore(clientId, store, memory);
    match r.tokens
    case None => TokenValue(clientId, None, None, None, r.expiresAt, r.expiresAt, store)
    case Some((t, a, f)) => TokenValue(clientId, Some(t), Some(a), Some(f), r.expiresAt, r.expiresAt, store)
  }

  // ---- writing back ----

  function Snapshot(v: TokenValue): Json
    requires v.Valid()
  {
    Obj([Field("client_id", Str(v.clientId))]
        + if v.tokenType.None? then []
          else [Field("token_type", Str(v.tokenType.value)),
                Field("access_token", Str(v.accessToken.value)),
                Field("refresh_token", Str(v.refreshToken.value)),
                Field("expires_at", Num(v.expiresAt.sec as real))])
  }

  /** What becomes of the store: written, left as it was, or damaged half way. */
  datatype Writeback = Written | Kept | Damaged(rest: Option<Json>)

  function WrittenBack(v: TokenValue, w: Writeback): (u: TokenValue)
    requires v.Valid()
    ensures u.Valid()
  {
    match w
    case Written => v.(store := Some(Snapshot(v)))
    case Kept => v
    case Damaged(rest) => v.(store := rest)
  }

  // ---- decoding a token response ----

  /** The answer to a token request: none that could be used, success with no body, or a
      body, which may not parse; and which of the three copies find memory. */
  datatype TokenAnswer = NoAnswer | EmptyBody | Body(json: Option<Json>, memory: (bool, bool, bool))

  predicate Usable(a: TokenAnswer) {
    && a.Body? && a.json.Some? && a.memory == (true, true, true)
    && IsText(ItemOf(a.json.value, "token_type", true))
    && IsText(ItemOf(a.json.value, "scope", true))
    && IsText(ItemOf(a.json.value, "access_token", true))
    && IsText(ItemOf(a.json.value, "refresh_token", true))
    && IsNum(ItemOf(a.json.value, "expires_in", true))
    && Truncated(ItemOf(a.json.value, "expires_in", true).value.number) >= 0
  }

  /** How a token request ends. An empty body is moved out with no place for its length,
      and nothing is defined after that. */
  datatype Outcome = Ok | Refused | NullWrite

  function OutcomeOf(a: TokenAnswer): Outcome {
    if Usable(a) then Ok else if a.EmptyBody? then NullWrite else Refused
  }

  /** All of the tokens and the expiry are replaced, or nothing is. */
  function Decoded(v: TokenValue, a: TokenAnswer, now: Time): (u: TokenValue)
    requires v.Valid() && now.Valid()
    ensures u.Valid()
  {
    if !Usable(a) then v
    else
      var j := a.json.value;
      var expires := Time(now.sec + Truncated(ItemOf(j, "expires_in", true).value.number), now.usec);
      v.(tokenType := Some(ItemOf(j, "token_type", true).value.text),
         accessToken := Some(ItemOf(j, "access_token", true).value.text),
         refreshToken := Some(ItemOf(j, "refresh_token", true).value.text),
         expiresAt := expires, granted := expires)
  }

  function Refreshed(v: TokenValue, a: TokenAnswer, now: Time, w: Writeback): (u: TokenValue)
    requires v.Valid() && now.Valid()
    ensures u.Valid()
  {
    if Usable(a) then WrittenBack(Decoded(v, a, now), w) else v
  }

  class Token {
    const clientId: string
    var tokenType: Option<string>
    var accessToken: Option<string>
    var refreshToken: Option<string>
    var expiresAt: Time
    ghost var granted: Time
    var store: Option<Json>

    ghost function Value(): TokenValue
      reads this
    {
      TokenValue(clientId, tokenType, accessToken, refreshToken, expiresAt, granted, store)
    }

    /** oauth_token_new with restore_access_token. */
    constructor (clientId: string, store: Option<Json>, memory: bool)
      ensures Value() == NewToken(clientId, store, memory) && Value().Valid()
    {
      var r := Restore(clientId, store, memory);
      this.clientId, this.store := clientId, store;
      expiresAt, granted := r.expiresAt, r.expiresAt;
      tokenType, accessToken, refreshToken := None, None, None;
      if r.tokens.Some? {
        tokenType, accessToken, refreshToken := Some(r.tokens.value.0), Some(r.tokens.value.1), Some(r.tokens.value.2);
      }
    }

    /** writeback_tokens; that a token type comes with the other two is asserted there. */
    method WriteBack(w: Writeback)
      requires Value().Valid()
      modifies `store
      ensures Value() == WrittenBack(old(Value()), w)
    {
      var fields := [Field("client_id", Str(clientId))];
      if tokenType.Some? {
        assert accessToken.Some? && refreshToken.Some?;
        fields := fields + [Field("token_type", Str(tokenType.value)), Field("access_token", Str(accessToken.value)),
                            Field("refresh_token", Str(refreshToken.value)),
                            Field("expires_at", Num(expiresAt.sec as real))];
      } else {
        assert fields == fields + [];
      }
      match w
      case Written => store := Some(Obj(fields));
      case Kept =>
      case Damaged(rest) => store := rest;
    }

    /** decode_access_token: each item is checked and copied in turn, and only when all
        of them are at hand does the token change. */
    method Decode(json: Option<Json>, memory: (bool, bool, bool), now: Time) returns (ok: bool)
      requires Value().Valid() && now.Valid()
      modifies `tokenType, `accessToken, `refreshToken, `expiresAt, `granted
      ensures Value() == Decoded(old(Value()), Body(json, memory), now)
      ensures ok <==> Usable(Body(json, memory))
    {
      if json.None? { return false; }
      var item := ItemOf(json.value, "token_type", true);
      if !IsText(item) || !memory.0 { return false; }
      var kind := item.value.text;
      item := ItemOf(json.value, "scope", true);
      if !IsText(item) { return false; }
      item := ItemOf(json.value, "access_token", true);
      if !IsText(item) || !memory.1 { return false; }
      var access := item.value.text;
      item := ItemOf(json.value, "refresh_token", true);
      if !IsText(item) || !memory.2 { return false; }
      var refresh := item.value.text;
      item := ItemOf(json.value, "expires_in", true);
      if !IsNum(item) || Truncated(item.value.number) < 0 { return false; }
      tokenType, accessToken, refreshToken := Some(kind), Some(access), Some(refresh);
      expiresAt := Time(now.sec + Truncated(item.value.number), now.usec);
      granted := expiresAt;
      return true;
    }

    /** oauth_token_request; `code` is what the user's login yields. */
    method Request(code: Option<string>, a: TokenAnswer, now: Time, w: Writeback) returns (r: Outcome)
      requires Value().Valid() && now.Valid()
      modifies this
      ensures Value() == if old(accessToken).Some? || code.None? then old(Value())
                         else Refreshed(old(Value()), a, now, w)
      ensures r == if old(accessToken).Some? then Ok else if code.None? then Refused else OutcomeOf(a)
    {
      if accessToken.Some? { return Ok; }
      if code.None? { return Refused; }
      r := Refresh(a, now, w);
    }

    /** refresh_access_token, and redeem_access_token with the write behind it. */
    method Refresh(a: TokenAnswer, now: Time, w: Writeback) returns (r: Outcome)
      requires Value().Valid() && now.Valid()
      modifies this
      ensures Value() == Refreshed(old(Value()), a, now, w)
      ensures r == OutcomeOf(a)
    {
      if a.NoAnswer? { return Refused; }
      if a.EmptyBody? { return NullWrite; }
      var ok := Decode(a.json, a.memory, now);
      if !ok { return Refused; }
      WriteBack(w);
      return Ok;
    }

    /** oauth_token_reset, which asserts that there is a token. */
    method Reset(w: Writeback)
      requires Value().Valid() && tokenType.Some?
      modifies this
      ensures Value() == WrittenBack(old(Value()).(tokenType := None, accessToken := None, refreshToken := None), w)
    {
      tokenType, accessToken, refreshToken := None, None, None;
      WriteBack(w);
    }

    method SetExpired()
      modifies `expiresAt
      ensures Value() == old(Value()).(expiresAt := NO_TIME)
    {
      expiresAt := NO_TIME;
    }

    /** oauth_token_check_expire: refresh when it is later than the expiry. */
    method CheckExpire(now: Time, a: TokenAnswer, w: Writeback) returns (r: Outcome, asked: bool)
      requires Value().Valid() && now.Valid() && Value().HasTokens()
      modifies this
      ensures asked <==> now.After(old(expiresAt))
      ensures Value() == (if asked then Refreshed(old(Value()), a, now, w) else old(Value())) && Value().HasTokens()
      ensures r == if asked then OutcomeOf(a) else Ok
    {
      asked := now.After(expiresAt);
      if !asked { return Ok, false; }
      r := Refresh(a, now, w);
    }
  }

  // ---- what an answer says ----

  /** The items of a token answer. */
  datatype Items = Items(tokenType: string, scope: string, access: string, refresh: string, expiresIn: real) {
    predicate Good() {
      tokenType != "" && scope != "" && access != "" && refresh != "" && Truncated(expiresIn) >= 0
    }

    function ExpiresAt(now: Time): Time {
      Time(now.sec + Truncated(expiresIn), now.usec)
    }
  }

  /** An object has these items, in any order and among any others. */
  ghost predicate Says(fields: seq<Field>, g: Items) {
    && Holds(fields, "token_type", true, Str(g.tokenType)) && Holds(fields, "scope", true, Str(g.scope))
    && Holds(fields, "access_token", true, Str(g.access)) && Holds(fields, "refresh_token", true, Str(g.refresh))
    && Holds(fields, "expires_in", true, Num(g.expiresIn))
  }

  /** Such an answer is used exactly when no text in it is empty, its lifetime is not negative
      and there is memory for the copies; then each item becomes the token of its name. */
  lemma AnswerIsTaken(v: TokenValue, fields: seq<Field>, g: Items, memory: (bool, bool, bool), now: Time, w: Writeback)
    requires v.Valid() && now.Valid() && Says(fields, g)
    ensures var u := Refreshed(v, Body(Some(Obj(fields)), memory), now, w);
            var outcome := OutcomeOf(Body(Some(Obj(fields)), memory));
            if g.Good() && memory == (true, true, true) then
              && outcome == Ok
              && u.tokenType == Some(g.tokenType) && u.accessToken == Some(g.access)
              && u.refreshToken == Some(g.refresh) && u.expiresAt == u.granted == g.ExpiresAt(now)
              && u.clientId == v.clientId
            else outcome == Refused && u == v
  {
    hide Item, Holds, Truncated, Snapshot;
    ItemIsFirst(fields, "token_type", true, Str(g.tokenType));
    ItemIsFirst(fields, "scope", true, Str(g.scope));
    ItemIsFirst(fields, "access_token", true, Str(g.access));
    ItemIsFirst(fields, "refresh_token", true, Str(g.refresh));
    ItemIsFirst(fields, "expires_in", true, Num(g.expiresIn));
  }

  /** An answer without one of the items is refused and changes nothing. */
  lemma ItemIsNeeded(v: TokenValue, fields: seq<Field>, name: string, memory: (bool, bool, bool), now: Time,
                     w: Writeback)
    requires v.Valid() && now.Valid() && HasNone(fields, name, true)
    requires name in {"token_type", "scope", "access_token", "refresh_token", "expires_in"}
    ensures var a := Body(Some(Obj(fields)), memory); OutcomeOf(a) == Refused && Refreshed(v, a, now, w) == v
  {
    hide Item, HasNone;
    ItemIsFirst(fields, name, true, Other);
  }

  /** What is restored from an object that has the stored items, and what is written. */
  lemma RestoreTakes(clientId: string, fields: seq<Field>, id: Json, kind: string, access: string, refresh: string,
                     expires: real, memory: bool)
    requires Holds(fields, "client_id", false, id) && Holds(fields, "token_type", false, Str(kind))
    requires Holds(fields, "access_token", false, Str(access)) && Holds(fields, "refresh_token", false, Str(refresh))
    requires Holds(fields, "expires_at", false, Num(expires))
    ensures Restore(clientId, Some(Obj(fields)), memory) ==
            if id != Str(clientId) then Restored(None, NO_TIME)
            else Restored(if memory then Some((kind, access, refresh)) else None, Time(Truncated(expires), 0))
  {
    hide Item, Holds, Truncated;
    ItemIsFirst(fields, "client_id", false, id);
    ItemIsFirst(fields, "token_type", false, Str(kind));
    ItemIsFirst(fields, "access_token", false, Str(access));
    ItemIsFirst(fields, "refresh_token", false, Str(refresh));
    ItemIsFirst(fields, "expires_at", false, Num(expires));
  }

  // ---- the store agrees with memory ----

  /** Restoring the store gives the tokens in memory, with an expiry that is the granted
      one in whole seconds. */
  ghost predicate Agrees(v: TokenValue) {
    var r := Restore(v.clientId, v.store, true);
    && (v.tokenType.None? <==> r.tokens.None?)
    && (r.tokens.Some? ==>
          v.HasTokens() && r.tokens == Some((v.tokenType.value, v.accessToken.value, v.refreshToken.value)))
    && (r.tokens.Some? ==> r.expiresAt == Time(v.granted.sec, 0) && !r.expiresAt.After(v.granted))
  }

  lemma ItemInFront(f: Field, rest: seq<Field>, name: string)
    ensures Item([f] + rest, name, false) == if SameNoCase(f.name, name) then Some(f.value) else Item(rest, name, false)
  {
    assert ([f] + rest)[1..] == rest;
  }

  lemma SameAsItself(s: string)
    ensures SameNoCase(s, s)
  {
  }

  /** The five names of the store differ in more than case. */
  lemma StoredNamesDiffer()
    ensures var names := ["client_id", "token_type", "access_token", "refresh_token", "expires_at"];
            forall i, j :: 0 <= i < j < 5 ==> !SameNoCase(names[i], names[j])
  {
    var names := ["client_id", "token_type", "access_token", "refresh_token", "expires_at"];
    assert |names[0]| == 9 && |names[1]| == 10 && |names[2]| == 12 && |names[3]| == 13 && |names[4]| == 10;
    assert ToLower(names[1][0]) != ToLower(names[4][0]);
  }

  /** Looking up each of five fields with different names. */
  lemma ItemsOfFive(fs: seq<Field>)
    requires |fs| == 5
    requires forall i, j :: 0 <= i < j < 5 ==> !SameNoCase(fs[i].name, fs[j].name)
    ensures forall k :: 0 <= k < 5 ==> Item(fs, fs[k].name, false) == Some(fs[k].value)
  {
    hide Item, SameNoCase;
    var r4, r3, r2, r1 := [fs[4]] + [], [fs[3], fs[4]], [fs[2], fs[3], fs[4]], [fs[1], fs[2], fs[3], fs[4]];
    assert r3 == [fs[3]] + r4 && r2 == [fs[2]] + r3 && r1 == [fs[1]] + r2 && fs == [fs[0]] + r1;
    forall k | 0 <= k < 5 ensures Item(fs, fs[k].name, false) == Some(fs[k].value) {
      SameAsItself(fs[k].name);
      ItemInFront(fs[0], r1, fs[k].name);
      ItemInFront(fs[1], r2, fs[k].name);
      ItemInFront(fs[2], r3, fs[k].name);
      ItemInFront(fs[3], r4, fs[k].name);
      ItemInFront(fs[4], [], fs[k].name);
    }
  }

  lemma FullSnapshotRestores(v: TokenValue)
    requires v.Valid() && v.tokenType.Some?
    ensures Restore(v.clientId, Some(Snapshot(v)), true) ==
            Restored(Some((v.tokenType.value, v.accessToken.value, v.refreshToken.value)), Time(v.expiresAt.sec, 0))
  {
    hide Item, SameNoCase;
    var names := ["client_id", "token_type", "access_token", "refresh_token", "expires_at"];
    var fields := Snapshot(v).fields;
    assert |fields| == 5 && forall k :: 0 <= k < 5 ==> fields[k].name == names[k];
    StoredNamesDiffer();
    forall i, j | 0 <= i < j < 5 ensures !SameNoCase(fields[i].name, fields[j].name) {
      assert !SameNoCase(names[i], names[j]);
    }
    ItemsOfFive(fields);
    assert Item(fields, fields[0].name, false) == Some(Str(v.clientId));
    assert Item(fields, fields[1].name, false).Some? && Item(fields, fields[2].name, false).Some?;
    assert Item(fields, fields[3].name, false).Some? && Item(fields, fields[4].name, false).Some?;
  }

  lemma BareSnapshotRestores(v: TokenValue)
    requires v.Valid() && v.tokenType.None?
    ensures Restore(v.clientId, Some(Snapshot(v)), true) == Restored(None, NO_TIME)
  {
    hide Item, SameNoCase;
    var f := Field("client_id", Str(v.clientId));
    assert Snapshot(v).fields == [f] + [];
    StoredNamesDiffer();
    var names := ["client_id", "token_type", "access_token", "refresh_token", "expires_at"];
    assert !SameNoCase(names[0], names[1]);
    ItemInFront(f, [], "token_type");
    NoFields("token_type");
    assert ItemOf(Snapshot(v), "token_type", false) == None;
  }

  /** Restoring what was written gives back what was there. */
  lemma SnapshotRestores(v: TokenValue)
    requires v.Valid() && v.expiresAt == v.granted
    ensures Agrees(v.(store := Some(Snapshot(v))))
  {
    hide Restore, Snapshot;
    var u := v.(store := Some(Snapshot(v)));
    if v.tokenType.Some? { FullSnapshotRestores(v); } else { BareSnapshotRestores(v); }
  }

  lemma NoFields(name: string)
    ensures Item([], name, false) == None
  {
  }

  // ---- runs ----

  datatype Step =
    | DoRequest(code: Option<string>, a: TokenAnswer, now: Time)
    | DoCheck(a: TokenAnswer, now: Time)
    | DoExpire
    | DoReset

  /** One call, with its writeback succeeding. Reset needs a token, and a check too, for
      it may have to refresh. */
  function AfterStep(v: TokenValue, s: Step): (u: TokenValue)
    requires v.Valid() && (s.DoRequest? || s.DoCheck? ==> s.now.Valid())
    ensures u.Valid()
  {
    match s
    case DoRequest(code, a, now) => if v.accessToken.Some? || code.None? then v else Refreshed(v, a, now, Written)
    case DoCheck(a, now) => if v.HasTokens() && now.After(v.expiresAt) then Refreshed(v, a, now, Written) else v
    case DoExpire => v.(expiresAt := NO_TIME)
    case DoReset =>
      if v.tokenType.Some? then
        WrittenBack(v.(tokenType := None, accessToken := None, refreshToken := None), Written)
      else v
  }

  /** Does the call ask for a token and get an empty body? */
  predicate Crashes(v: TokenValue, s: Step) {
    match s
    case DoRequest(code, a, _) => v.accessToken.None? && code.Some? && a.EmptyBody?
    case DoCheck(a, now) => v.HasTokens() && now.After(v.expiresAt) && a.EmptyBody?
    case _ => false
  }

  ghost predicate ValidSteps(steps: seq<Step>) {
    forall k :: 0 <= k < |steps| ==> (steps[k].DoRequest? || steps[k].DoCheck? ==> steps[k].now.Valid())
  }

  /** The calls up to the first that crashes. */
  function Run(v: TokenValue, steps: seq<Step>): (u: TokenValue)
    requires v.Valid() && ValidSteps(steps)
    ensures u.Valid()
    decreases |steps|
  {
    if steps == [] || Crashes(v, steps[0]) then v
    else
      assert ValidSteps(steps[1..]);
      Run(AfterStep(v, steps[0]), steps[1..])
  }

  lemma RefreshAgrees(v: TokenValue, a: TokenAnswer, now: Time)
    requires v.Valid() && now.Valid() && Agrees(v)
    ensures Agrees(Refreshed(v, a, now, Written))
  {
    hide Usable, Snapshot, Restore;
    if Usable(a) { SnapshotRestores(Decoded(v, a, now)); }
  }

  lemma ResetAgrees(v: TokenValue)
    requires v.Valid() && v.tokenType.None?
    ensures Agrees(v.(store := Some(Snapshot(v))))
  {
    SnapshotRestores(v.(expiresAt := v.granted));
    assert Snapshot(v.(expiresAt := v.granted)) == Snapshot(v);
  }

  /** From a token that was restored from any store, after any requests, checks,
      expirations and resets whose writebacks succeed, restoring the store gives the
      client's tokens as they are in memory, with an expiry never later than the granted
      one; a failed token answer changes nothing. */
  lemma {:induction false} RunAgrees(v: TokenValue, steps: seq<Step>)
    requires v.Valid() && ValidSteps(steps) && Agrees(v)
    ensures Agrees(Run(v, steps)) && Run(v, steps).clientId == v.clientId
    decreases |steps|
  {
    hide Usable, Snapshot, Restore;
    if steps != [] && !Crashes(v, steps[0]) {
      assert ValidSteps(steps[1..]);
      match steps[0] {
        case DoRequest(code, a, now) => RefreshAgrees(v, a, now);
        case DoCheck(a, now) => RefreshAgrees(v, a, now);
        case DoExpire =>
        case DoReset => ResetAgrees(v.(tokenType := None, accessToken := None, refreshToken := None));
      }
      RunAgrees(AfterStep(v, steps[0]), steps[1..]);
    }
  }

  /** A new token agrees with any store, unless the store has tokens and there is no memory
      for them. */
  lemma NewTokenAgrees(clientId: string, store: Option<Json>, memory: bool)
    ensures Agrees(NewToken(clientId, store, memory)) <==> memory || Restore(clientId, store, true).tokens.None?
  {
  }

  /** The buffer that the store's file is read into, in one piece. */
  const KEYSTORE_SIZE: nat := 4096

  /** A new connection: without a store's file a bare token, with one that does not fit the
      buffer none. `size` is the file's, the printed text with its terminator. */
  function Restarted(clientId: string, store: Option<Json>, size: nat, memory: bool): Option<TokenValue> {
    if store.Some? && (size == 0 || size > KEYSTORE_SIZE) then None else Some(NewToken(clientId, store, memory))
  }

  /** After a restart with a written store there is a connection exactly when the store's file
      is not empty and fits its buffer. That the service rejected the token is not stored: it
      counts as expired exactly when the second it was granted until is over. */
  lemma RestartExpiredIff(v: TokenValue, size: nat, memory: bool, now: Time)
    requires v.Valid() && Agrees(v) && v.HasTokens() && now.Valid()
    ensures var u := v.(expiresAt := NO_TIME);
            var r := Restarted(u.clientId, u.store, size, memory);
            && (r.Some? <==> 0 < size <= KEYSTORE_SIZE)
            && (r.Some? ==> (now.After(r.value.expiresAt) <==> now.After(Time(v.granted.sec, 0))))
  {
    hide IsStr, IsNum;
  }
}
