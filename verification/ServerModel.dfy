/** The server of sandbird as a value: its streams in list order and the events it has
    emitted. One poll is a pass over the existing streams and then the new connections. */
module ServerModel {
  import opened StreamModel

  datatype Event =
    | Connect(id: nat)
    | Requested(id: nat, request: Request)
    | Close(id: nat)

  /** The user's handler may look back at everything that happened, up to the event. */
  type Handler = seq<Event> -> Reply

  datatype Options = Options(timeout: nat, maxLifetime: nat, maxRequestSize: nat, handler: Handler)

  /** A stream and the number of its connection, counted in the order of accepting. */
  datatype Entry = Entry(id: nat, v: StreamValue) {
    ghost predicate Valid() { v.Valid() }
  }

  datatype Accepted = Accepted(tooBig: bool, haveMemory: bool)

  /** What the system answers during one poll: the time, which sockets select() reports,
      what they yield, and the connections accept() hands out. */
  datatype Poll = Poll(
    now: int,
    ready: nat -> bool, input: nat -> Input, output: nat -> Output,
    listening: bool, accepted: seq<Accepted>)

  /** How a stream comes out of its turn. */
  datatype Turn =
    | Stays(v: StreamValue, log: seq<Event>)
    | Leaves(log: seq<Event>)
    | Fails(v: StreamValue, log: seq<Event>, code: int)
    | Hangs(v: StreamValue, log: seq<Event>)

  /** Timeout, lifetime and request size; a limit of zero is none. */
  predicate OverLimit(v: StreamValue, o: Options, now: int) {
    || (o.timeout != 0 && now - v.lastActivity > o.timeout / 1000)
    || (o.maxLifetime != 0 && now - v.initTime > o.maxLifetime / 1000)
    || (o.maxRequestSize != 0 && |v.recv.bytes| >= o.maxRequestSize)
  }

  function AfterLimits(id: nat, v: StreamValue, log: seq<Event>, o: Options, now: int): Turn {
    if v.state == Closing || OverLimit(v, o, now) then Leaves(log + [Close(id)]) else Stays(v, log)
  }

  /** A stream that is being received is watched for reading, any other for writing. */
  function TakeTurn(e: Entry, log: seq<Event>, o: Options, p: Poll): (t: Turn)
    requires e.Valid()
    ensures t.Stays? || t.Fails? || t.Hangs? ==> t.v.Valid()
    ensures t.Fails? ==> t.code != ESUCCESS
  {
    if !p.ready(e.id) then AfterLimits(e.id, e.v, log, o, p.now)
    else if Rank(e.v.state) < Rank(SendingStatus) then
      match AfterRecv(e.v, p.input(e.id), r => o.handler(log + [Requested(e.id, r)]), p.now)
      case NoReturn(v) => Hangs(v, log)
      case Returned(v, code, request) =>
        var log1 := if request.Some? then log + [Requested(e.id, request.value)] else log;
        if code != ESUCCESS then Fails(v, log1, code) else AfterLimits(e.id, v, log1, o, p.now)
    else
      var (v, code) := AfterSend(e.v, p.output(e.id), p.now);
      if code != ESUCCESS then Fails(v, log, code) else AfterLimits(e.id, v, log, o, p.now)
  }

  /** `code` is what sb_poll_server returns; a call that hangs has none. */
  datatype Passed = Passed(entries: seq<Entry>, log: seq<Event>, code: int, hung: bool) {
    predicate Ok() { code == ESUCCESS && !hung }
  }

  ghost predicate AllValid(entries: seq<Entry>) {
    forall k :: 0 <= k < |entries| ==> entries[k].Valid()
  }

  /** The pass over the existing streams. An error ends it where it stands. */
  function Pass(todo: seq<Entry>, log: seq<Event>, o: Options, p: Poll): (r: Passed)
    requires AllValid(todo)
    ensures AllValid(r.entries)
    decreases |todo|
  {
    if todo == [] then Passed([], log, ESUCCESS, false)
    else
      var e := todo[0];
      match TakeTurn(e, log, o, p)
      case Leaves(log1) => Pass(todo[1..], log1, o, p)
      case Fails(v, log1, code) => Passed([Entry(e.id, v)] + todo[1..], log1, code, false)
      case Hangs(v, log1) => Passed([Entry(e.id, v)] + todo[1..], log1, ESUCCESS, true)
      case Stays(v, log1) =>
        var rest := Pass(todo[1..], log1, o, p);
        rest.(entries := [Entry(e.id, v)] + rest.entries)
  }

  datatype ServerValue = ServerValue(entries: seq<Entry>, log: seq<Event>, nextId: nat, hung: bool) {
    ghost predicate Valid() { AllValid(entries) }
  }

  const EMPTY_SERVER := ServerValue([], [], 0, false)

  /** New connections go to the front of the list, each with its connect event. */
  function AfterAccepts(s: ServerValue, accepted: seq<Accepted>, o: Options, now: int): (r: (ServerValue, int))
    requires s.Valid()
    ensures r.0.Valid() && r.0.hung == s.hung
    decreases |accepted|
  {
    if accepted == [] then (s, ESUCCESS)
    else if accepted[0].tooBig then (s, EFDTOOBIG)
    else if !accepted[0].haveMemory then (s, EOUTOFMEM)
    else
      var log1 := s.log + [Connect(s.nextId)];
      var (v, code) := AfterReply(NewStream(now), o.handler(log1));
      var s1 := s.(entries := [Entry(s.nextId, v)] + s.entries, log := log1, nextId := s.nextId + 1);
      if code != ESUCCESS then (s1, code) else AfterAccepts(s1, accepted[1..], o, now)
  }

  function AfterPoll(s: ServerValue, o: Options, p: Poll): (r: (ServerValue, int))
    requires s.Valid()
    ensures r.0.Valid()
  {
    var passed := Pass(s.entries, s.log, o, p);
    var s1 := s.(entries := passed.entries, log := passed.log, hung := passed.hung);
    if !passed.Ok() || !p.listening then (s1, passed.code) else AfterAccepts(s1, p.accepted, o, p.now)
  }

  function CloseEvents(entries: seq<Entry>): seq<Event> {
    if entries == [] then [] else [Close(entries[0].id)] + CloseEvents(entries[1..])
  }

  /** sb_close_server. */
  function AfterClose(s: ServerValue): ServerValue {
    s.(entries := [], log := s.log + CloseEvents(s.entries))
  }
}
