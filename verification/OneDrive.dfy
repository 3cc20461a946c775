/** The OneDrive connection's use of its token: every operation checks the expiry first,
    and an answer 401 marks the token expired (section 6 of RFC 6749). */
module OneDrive {
  import opened Basics
  import opened JsonValues
  import opened OAuthToken

  // ---- operations and their requests ----

  /** The operations, with what decides their number of requests: large uploads go through
      a folder and a session, empty files are not downloaded, and a listing has pages. */
  datatype Operation =
    | Upload(large: bool)
    | FileLength
    | Download(empty: bool)
    | ListFiles(pages: nat)
    | DeleteFile

  /** A request: does it carry the access token, and is the body of its answer moved out? */
  datatype Request = Request(token: bool, moves: bool)

  const PLAIN := Request(true, false)
  const READING := Request(true, true)
  const BARE := Request(false, false)

  /** The requests of an operation in turn. */
  function Plan(op: Operation): seq<Request> {
    match op
    case Upload(large) => if large then [PLAIN, READING, BARE] else [PLAIN]
    case FileLength => [READING]
    case Download(empty) => if empty then [READING] else [READING, BARE]
    case ListFiles(pages) => seq(pages, _ => READING)
    case DeleteFile => [PLAIN]
  }

  /** `Empty` is success with no body. */
  datatype Answer = Success | Empty | Unauthorized | Failure

  datatype Act =
    | Sent(token: string, rejected: bool)  // a request with the access token
    | SentBare                             // a request to a URL that needs none
    | Renewed(token: string)               // a refresh that succeeded

  /** How an operation ends; after a null write nothing is defined. */
  datatype Result = Done | TryAgain | Failed | NullWritten

  predicate GoesOn(r: Request, a: Answer) {
    a == Success || (a == Empty && !r.moves)
  }

  datatype ConnectValue = ConnectValue(token: TokenValue, trace: seq<Act>)

  ghost predicate Authorized(v: ConnectValue) {
    v.token.Valid() && v.token.HasTokens()
  }

  /** The requests of an operation, up to the first that is not answered with success. */
  function AfterRequests(v: ConnectValue, plan: seq<Request>, answers: seq<Answer>): (r: (ConnectValue, Result))
    requires Authorized(v) && |plan| == |answers|
    ensures Authorized(r.0)
    decreases |plan|
  {
    if plan == [] then (v, Done)
    else if plan[0].token then
      var u := v.(trace := v.trace + [Sent(v.token.accessToken.value, answers[0] == Unauthorized)]);
      if answers[0] == Unauthorized then (u.(token := u.token.(expiresAt := NO_TIME)), TryAgain)
      else if answers[0] == Failure then (u, Failed)
      else if !GoesOn(plan[0], answers[0]) then (u, NullWritten)
      else AfterRequests(u, plan[1..], answers[1..])
    else
      var u := v.(trace := v.trace + [SentBare]);
      if answers[0] == Unauthorized || answers[0] == Failure then (u, Failed)
      else if !GoesOn(plan[0], answers[0]) then (u, NullWritten)
      else AfterRequests(u, plan[1..], answers[1..])
  }

  /** What the world does to one operation: the time of its check, the answer to a
      refresh, what becomes of the store, and the answers to its requests. */
  datatype World = World(now: Time, refresh: TokenAnswer, stored: Writeback, answers: seq<Answer>)

  function AfterOperation(v: ConnectValue, op: Operation, w: World): (r: (ConnectValue, Result))
    requires Authorized(v) && w.now.Valid() && |w.answers| == |Plan(op)|
    ensures Authorized(r.0)
  {
    if !w.now.After(v.token.expiresAt) then AfterRequests(v, Plan(op), w.answers)
    else match OAuthToken.OutcomeOf(w.refresh)
      case NullWrite => (v, NullWritten)
      case Refused => (v, Failed)
      case Ok =>
        var token := Refreshed(v.token, w.refresh, w.now, w.stored);
        AfterRequests(ConnectValue(token, v.trace + [Renewed(token.accessToken.value)]), Plan(op), w.answers)
  }

  /** What requests leave behind that are answered so. */
  function Acts(token: string, plan: seq<Request>, answers: seq<Answer>): seq<Act>
    requires |answers| <= |plan|
  {
    seq(|answers|, k requires 0 <= k < |answers| =>
          if plan[k].token then Sent(token, answers[k] == Unauthorized) else SentBare)
  }

  /** The requests are sent in turn with the token, up to the first whose answer does not let
      them go on, and that answer alone decides how the operation ends. */
  lemma {:induction false} FirstBadAnswerDecides(v: ConnectValue, plan: seq<Request>, answers: seq<Answer>, n: nat)
    requires Authorized(v) && |plan| == |answers| && n <= |plan|
    requires forall k :: 0 <= k < n ==> GoesOn(plan[k], answers[k])
    requires n < |plan| ==> !GoesOn(plan[n], answers[n])
    ensures var (u, r) := AfterRequests(v, plan, answers);
            && u.trace == v.trace + Acts(v.token.accessToken.value, plan, answers[..if n < |plan| then n + 1 else n])
            && r == (if n == |plan| then Done
                     else if answers[n] == Empty then NullWritten
                     else if answers[n] == Unauthorized && plan[n].token then TryAgain
                     else Failed)
            && u.token == if r == TryAgain then v.token.(expiresAt := NO_TIME) else v.token
    decreases |plan|
  {
    var token := v.token.accessToken.value;
    if plan == [] {
      assert v.trace + Acts(token, plan, []) == v.trace;
    } else {
      var a := if plan[0].token then Sent(token, answers[0] == Unauthorized) else SentBare;
      if n == 0 {
        assert Acts(token, plan, answers[..1]) == [a];
      } else {
        FirstBadAnswerDecides(v.(trace := v.trace + [a]), plan[1..], answers[1..], n - 1);
        hide AfterRequests, Acts;
        ActsInTurn(token, plan, answers, if n < |plan| then n + 1 else n);
      }
    }
  }

  lemma ActsInTurn(token: string, plan: seq<Request>, answers: seq<Answer>, m: nat)
    requires 0 < m <= |answers| == |plan|
    ensures var a := if plan[0].token then Sent(token, answers[0] == Unauthorized) else SentBare;
            Acts(token, plan, answers[..m]) == [a] + Acts(token, plan[1..], answers[1..][..m - 1])
  {
    assert answers[..m][1..] == answers[1..][..m - 1];
  }

  /** An operation with a valid token sends all its requests, if they are answered with
      success; with an expired one it does so behind a refresh, or sends none. */
  lemma OperationSends(v: ConnectValue, op: Operation, w: World)
    requires Authorized(v) && w.now.Valid() && |w.answers| == |Plan(op)|
    ensures var (u, r) := AfterOperation(v, op, w);
            var expired := w.now.After(v.token.expiresAt);
            var token := if expired then Refreshed(v.token, w.refresh, w.now, w.stored) else v.token;
            && token.accessToken.Some?
            && (expired && OAuthToken.OutcomeOf(w.refresh) != Ok ==>
                  u == v && r == if w.refresh.EmptyBody? then NullWritten else Failed)
            && ((expired ==> OAuthToken.OutcomeOf(w.refresh) == Ok)
                && (forall k :: 0 <= k < |w.answers| ==> GoesOn(Plan(op)[k], w.answers[k])) ==>
                  && r == Done && u.token == token
                  && u.trace == v.trace + (if expired then [Renewed(token.accessToken.value)] else [])
                                + Acts(token.accessToken.value, Plan(op), w.answers))
  {
    hide Plan, OAuthToken.Usable, AfterRequests, Acts;
    var plan, n := Plan(op), |w.answers|;
    if forall k :: 0 <= k < n ==> GoesOn(plan[k], w.answers[k]) {
      assert w.answers[..n] == w.answers && v.trace + [] == v.trace;
      if !w.now.After(v.token.expiresAt) {
        FirstBadAnswerDecides(v, plan, w.answers, n);
      } else if OAuthToken.Usable(w.refresh) {
        var token := Refreshed(v.token, w.refresh, w.now, w.stored);
        FirstBadAnswerDecides(ConnectValue(token, v.trace + [Renewed(token.accessToken.value)]), plan, w.answers, n);
      }
    }
  }

  class Connect {
    const token: Token
    ghost var trace: seq<Act>

    ghost function Value(): ConnectValue
      reads this, token
    {
      ConnectValue(token.Value(), trace)
    }

    constructor (token: Token)
      ensures this.token == token && Value() == ConnectValue(token.Value(), [])
    {
      this.token, trace := token, [];
    }

    method Operate(op: Operation, w: World) returns (r: Result)
      requires Authorized(Value()) && w.now.Valid() && |w.answers| == |Plan(op)|
      modifies this, token
      ensures (Value(), r) == AfterOperation(old(Value()), op, w)
    {
      hide OAuthToken.Usable, Plan;
      var checked, asked := token.CheckExpire(w.now, w.refresh, w.stored);
      if checked == OAuthToken.NullWrite { return NullWritten; }
      if checked == OAuthToken.Refused { return Failed; }
      if asked { trace := trace + [Renewed(token.accessToken.value)]; }
      r := Send(Plan(op), w.answers);
    }

    method Send(plan: seq<Request>, answers: seq<Answer>) returns (r: Result)
      requires Authorized(Value()) && |plan| == |answers|
      modifies this, token
      ensures (Value(), r) == AfterRequests(old(Value()), plan, answers)
    {
      ghost var v := Value();
      var i := 0;
      while i < |plan|
        invariant i <= |plan| && Authorized(Value())
        invariant AfterRequests(v, plan, answers) == AfterRequests(Value(), plan[i..], answers[i..])
      {
        assert plan[i..][1..] == plan[i + 1..] && answers[i..][1..] == answers[i + 1..];
        if plan[i].token {
          trace := trace + [Sent(token.accessToken.value, answers[i] == Unauthorized)];
          if answers[i] == Unauthorized {
            token.SetExpired();
            return TryAgain;
          }
        } else {
          trace := trace + [SentBare];
        }
        if answers[i] == Unauthorized || answers[i] == Failure { return Failed; }
        if !GoesOn(plan[i], answers[i]) { return NullWritten; }
        i := i + 1;
      }
      return Done;
    }

    /** hive_set_access_token_expired. */
    method ExpireToken()
      modifies token
      ensures Value() == old(Value()).(token := old(Value()).token.(expiresAt := NO_TIME))
    {
      token.SetExpired();
    }
  }

  // ---- safety ----

  /** Has a request been rejected since the last refresh? */
  function Pending(trace: seq<Act>): bool {
    if trace == [] then false
    else
      match trace[|trace| - 1]
      case Sent(_, rejected) => rejected || Pending(trace[..|trace| - 1])
      case SentBare => Pending(trace[..|trace| - 1])
      case Renewed(_) => false
  }

  /** The token that requests have to carry: the last one a refresh brought. */
  function Current(first: string, trace: seq<Act>): string {
    if trace == [] then first
    else match trace[|trace| - 1]
      case Renewed(token) => token
      case _ => Current(first, trace[..|trace| - 1])
  }

  /** No request carries a token after it was rejected, nor one that has been replaced. */
  ghost predicate Safe(first: string, trace: seq<Act>) {
    trace == [] ||
    (Safe(first, trace[..|trace| - 1]) &&
     (trace[|trace| - 1].Sent? ==>
        !Pending(trace[..|trace| - 1]) && trace[|trace| - 1].token == Current(first, trace[..|trace| - 1])))
  }

  /** Between a rejected request and a later one with the token there is a refresh. */
  lemma {:induction false} SafeMeansRefreshBetween(first: string, trace: seq<Act>, i: nat, j: nat)
    requires Safe(first, trace) && i < j < |trace|
    requires trace[i].Sent? && trace[i].rejected && trace[j].Sent?
    ensures exists k :: i < k < j && trace[k].Renewed?
    decreases |trace|
  {
    var before := trace[..|trace| - 1];
    if j < |trace| - 1 {
      SafeMeansRefreshBetween(first, before, i, j);
      var k :| i < k < j && before[k].Renewed?;
      assert trace[k].Renewed?;
    } else {
      var k := LastRenewal(before, i);
      assert trace[k].Renewed?;
    }
  }

  lemma {:induction false} LastRenewal(trace: seq<Act>, i: nat) returns (k: nat)
    requires i < |trace| && trace[i].Sent? && trace[i].rejected && !Pending(trace)
    ensures i < k < |trace| && trace[k].Renewed?
    decreases |trace|
  {
    if trace[|trace| - 1].Renewed? { return |trace| - 1; }
    k := LastRenewal(trace[..|trace| - 1], i);
  }

  /** The invariant of a connection: a pending rejection leaves the token expired, and
      the token in memory is the one requests have to carry. */
  ghost predicate Guarded(first: string, v: ConnectValue) {
    && Authorized(v) && Safe(first, v.trace)
    && (Pending(v.trace) ==> v.token.expiresAt == NO_TIME)
    && v.token.accessToken == Some(Current(first, v.trace))
  }

  lemma LongerTrace(first: string, trace: seq<Act>, a: Act)
    ensures Pending(trace + [a]) == (if a.Sent? then a.rejected || Pending(trace) else a.SentBare? && Pending(trace))
    ensures Current(first, trace + [a]) == if a.Renewed? then a.token else Current(first, trace)
    ensures Safe(first, trace + [a]) <==>
            Safe(first, trace) && (a.Sent? ==> !Pending(trace) && a.token == Current(first, trace))
  {
    assert (trace + [a])[..|trace|] == trace;
  }

  lemma {:induction false} RequestsGuarded(first: string, v: ConnectValue, plan: seq<Request>, answers: seq<Answer>)
    requires Guarded(first, v) && !Pending(v.trace) && |plan| == |answers|
    ensures Guarded(first, AfterRequests(v, plan, answers).0)
    decreases |plan|
  {
    hide Safe, Pending, Current;
    if plan != [] {
      var a := if plan[0].token then Sent(v.token.accessToken.value, answers[0] == Unauthorized) else SentBare;
      LongerTrace(first, v.trace, a);
      if GoesOn(plan[0], answers[0]) { RequestsGuarded(first, v.(trace := v.trace + [a]), plan[1..], answers[1..]); }
    }
  }

  /** One operation, at any time after the epoch: it stays guarded; and with an expired
      token it refreshes before anything else or sends nothing at all. */
  lemma OperationGuarded(first: string, v: ConnectValue, op: Operation, w: World)
    requires Guarded(first, v) && w.now.Valid() && w.now.After(NO_TIME) && |w.answers| == |Plan(op)|
    ensures var u := AfterOperation(v, op, w).0;
            && Guarded(first, u) && v.trace <= u.trace
            && (w.now.After(v.token.expiresAt) ==>
                  u.trace == v.trace || (|u.trace| > |v.trace| && u.trace[|v.trace|].Renewed?))
  {
    hide Safe, Pending, Current, OAuthToken.Usable, Plan;
    if !w.now.After(v.token.expiresAt) {
      RequestsGuarded(first, v, Plan(op), w.answers);
      RequestsAppend(v, Plan(op), w.answers);
    } else if OAuthToken.Usable(w.refresh) {
      var token := Refreshed(v.token, w.refresh, w.now, w.stored);
      var a := Renewed(token.accessToken.value);
      LongerTrace(first, v.trace, a);
      RequestsGuarded(first, ConnectValue(token, v.trace + [a]), Plan(op), w.answers);
      RequestsAppend(ConnectValue(token, v.trace + [a]), Plan(op), w.answers);
      assert (v.trace + [a])[|v.trace|] == a;
    }
  }

  lemma {:induction false} RequestsAppend(v: ConnectValue, plan: seq<Request>, answers: seq<Answer>)
    requires Authorized(v) && |plan| == |answers|
    ensures v.trace <= AfterRequests(v, plan, answers).0.trace
    decreases |plan|
  {
    if plan != [] && GoesOn(plan[0], answers[0]) {
      var a := if plan[0].token then Sent(v.token.accessToken.value, false) else SentBare;
      RequestsAppend(v.(trace := v.trace + [a]), plan[1..], answers[1..]);
    }
  }

  datatype Event = Operated(op: Operation, w: World) | Expired

  ghost predicate Proper(e: Event) {
    e.Operated? ==> e.w.now.Valid() && e.w.now.After(NO_TIME) && |e.w.answers| == |Plan(e.op)|
  }

  /** The events up to the first operation that ends in a null write. */
  function Run(v: ConnectValue, events: seq<Event>): (u: ConnectValue)
    requires Authorized(v) && forall k :: 0 <= k < |events| ==> Proper(events[k])
    ensures Authorized(u)
    decreases |events|
  {
    if events == [] then v
    else
      assert Proper(events[0]);
      match events[0]
      case Operated(op, w) =>
        var (u, r) := AfterOperation(v, op, w);
        if r == NullWritten then u else Run(u, events[1..])
      case Expired => Run(v.(token := v.token.(expiresAt := NO_TIME)), events[1..])
  }

  /** In any run of operations and forced expirations, whatever the answers, no request
      carries a rejected or replaced token. */
  lemma {:induction false} RunIsSafe(first: string, v: ConnectValue, events: seq<Event>)
    requires Guarded(first, v) && forall k :: 0 <= k < |events| ==> Proper(events[k])
    ensures Guarded(first, Run(v, events)) && Safe(first, Run(v, events).trace)
    decreases |events|
  {
    hide Safe, Pending, Current, AfterOperation, Plan;
    if events != [] {
      assert Proper(events[0]);
      match events[0]
      case Operated(op, w) =>
        OperationGuarded(first, v, op, w);
        if AfterOperation(v, op, w).1 != NullWritten { RunIsSafe(first, AfterOperation(v, op, w).0, events[1..]); }
      case Expired => RunIsSafe(first, v.(token := v.token.(expiresAt := NO_TIME)), events[1..]);
    }
  }

  // ---- the token of a refresh ----

  lemma {:induction false} RunAppends(v: ConnectValue, events: seq<Event>)
    requires Authorized(v) && forall k :: 0 <= k < |events| ==> Proper(events[k])
    ensures v.trace <= Run(v, events).trace
    decreases |events|
  {
    hide AfterRequests, Plan, OAuthToken.OutcomeOf;
    if events != [] {
      assert Proper(events[0]);
      match events[0]
      case Operated(op, w) =>
        OperationAppends(v, op, w);
        if AfterOperation(v, op, w).1 != NullWritten { RunAppends(AfterOperation(v, op, w).0, events[1..]); }
      case Expired => RunAppends(v.(token := v.token.(expiresAt := NO_TIME)), events[1..]);
    }
  }

  lemma OperationAppends(v: ConnectValue, op: Operation, w: World)
    requires Authorized(v) && w.now.Valid() && |w.answers| == |Plan(op)|
    ensures var u := AfterOperation(v, op, w).0;
            && v.trace <= u.trace
            && (w.now.After(v.token.expiresAt) && OAuthToken.OutcomeOf(w.refresh) == Ok ==>
                  var token := Refreshed(v.token, w.refresh, w.now, w.stored);
                  token.accessToken.Some? && v.trace + [Renewed(token.accessToken.value)] <= u.trace)
  {
    hide Plan, AfterRequests, OAuthToken.Usable;
    if !w.now.After(v.token.expiresAt) {
      RequestsAppend(v, Plan(op), w.answers);
    } else if OAuthToken.Usable(w.refresh) {
      var token := Refreshed(v.token, w.refresh, w.now, w.stored);
      RequestsAppend(ConnectValue(token, v.trace + [Renewed(token.accessToken.value)]), Plan(op), w.answers);
    }
  }

  /** A request in a safe trace carries the token of the last refresh before it. */
  lemma {:induction false} SafeMeansLastRenewed(first: string, trace: seq<Act>, i: nat, j: nat)
    requires Safe(first, trace) && i < j < |trace| && trace[i].Renewed? && trace[j].Sent?
    requires forall k :: i < k < j ==> !trace[k].Renewed?
    ensures trace[j].token == trace[i].token
    decreases |trace|
  {
    var before := trace[..|trace| - 1];
    if j < |trace| - 1 {
      SafeMeansLastRenewed(first, before, i, j);
    } else {
      CurrentIsLast(first, before, i);
    }
  }

  lemma {:induction false} CurrentIsLast(first: string, trace: seq<Act>, i: nat)
    requires i < |trace| && trace[i].Renewed? && forall k :: i < k < |trace| ==> !trace[k].Renewed?
    ensures Current(first, trace) == trace[i].token
    decreases |trace|
  {
    if i < |trace| - 1 {
      CurrentIsLast(first, trace[..|trace| - 1], i);
    }
  }

  /** An expired token, and an answer to the refresh that has all the items: the access token
      of that answer is what every request of the run carries from there on, up to the next
      refresh. */
  lemma RefreshedTokenIsSent(first: string, v: ConnectValue, op: Operation, w: World, events: seq<Event>,
                             fields: seq<Field>, g: Items, j: nat)
    requires Guarded(first, v) && Proper(Operated(op, w)) && forall k :: 0 <= k < |events| ==> Proper(events[k])
    requires w.now.After(v.token.expiresAt) && w.refresh == Body(Some(Obj(fields)), (true, true, true))
    requires Says(fields, g) && g.Good()
    ensures var t := Run(v, [Operated(op, w)] + events).trace;
            && |t| > |v.trace| && t[|v.trace|] == Renewed(g.access)
            && (|v.trace| < j < |t| && t[j].Sent? && (forall k :: |v.trace| < k < j ==> !t[k].Renewed?) ==>
                  t[j].token == g.access)
  {
    var all := [Operated(op, w)] + events;
    assert all[0] == Operated(op, w) && all[1..] == events;
    var x := g.access;
    hide Safe, Guarded, Plan, AfterOperation, Says, Refreshed, OAuthToken.OutcomeOf, Items.Good;
    AnswerIsTaken(v.token, fields, g, (true, true, true), w.now, w.stored);
    OperationAppends(v, op, w);
    var (u, r) := AfterOperation(v, op, w);
    if r != NullWritten { RunAppends(u, events); }
    var t := Run(v, all).trace;
    assert v.trace + [Renewed(x)] <= t;
    assert t[|v.trace|] == (v.trace + [Renewed(x)])[|v.trace|];
    RunIsSafe(first, v, all);
    if |v.trace| < j < |t| && t[j].Sent? && forall k :: |v.trace| < k < j ==> !t[k].Renewed? {
      SafeMeansLastRenewed(first, t, |v.trace|, j);
    }
  }
}
