/** IPFS node selection and failover: a cyclic scan over the configured nodes, and
    operations that ask only a node that answered a probe since it last failed. */
module Ipfs {
  import opened Basics

  // ---- selection ----

  /** A configured node; an empty string stands for a missing address. */
  datatype Node = Node(ipv4: string, ipv6: string, port: nat)
  datatype Address = Address(ip: string, port: nat)

  function AddressesOf(n: Node): seq<Address> {
    (if n.ipv4 != "" then [Address(n.ipv4, n.port)] else [])
    + (if n.ipv6 != "" then [Address(n.ipv6, n.port)] else [])
  }

  function AllAddresses(nodes: seq<Node>): seq<Address> {
    if nodes == [] then [] else AddressesOf(nodes[0]) + AllAddresses(nodes[1..])
  }

  /** The nodes in cyclic order from `start`: each of them once. */
  function Cycle(nodes: seq<Node>, start: nat): seq<Node>
    requires start <= |nodes|
  {
    nodes[start..] + nodes[..start]
  }

  /** What probes one after another find: the first that succeeds, if any. */
  function FirstUp(candidates: seq<Address>, up: nat -> bool, from: nat): (r: Option<nat>)
    requires from <= |candidates|
    ensures r.Some? ==> from <= r.value < |candidates| && up(r.value)
    ensures forall k :: from <= k < (if r.Some? then r.value else |candidates|) ==> !up(k)
    decreases |candidates| - from
  {
    if from == |candidates| then None else if up(from) then Some(from) else FirstUp(candidates, up, from + 1)
  }

  lemma {:induction false} AllAddressesConcat(a: seq<Node>, b: seq<Node>)
    ensures AllAddresses(a + b) == AllAddresses(a) + AllAddresses(b)
  {
    if a == [] {
      assert a + b == b;
    } else {
      assert (a + b)[1..] == a[1..] + b;
      AllAddressesConcat(a[1..], b);
    }
  }

  /** The index that stands at position `k` of the cycle. */
  function IndexAt(start: nat, k: nat, n: nat): nat
    requires start < n && k <= n
  {
    if start + k < n then start + k else start + k - n
  }

  lemma NextIndex(start: nat, k: nat, n: nat)
    requires start < n && k < n
    ensures (IndexAt(start, k, n) + 1) % n == IndexAt(start, k + 1, n)
  {
    var i := IndexAt(start, k, n) + 1;
    assert i % n == if i == n then 0 else i;
  }

  /** The addresses of a node follow those of the nodes in front of it. */
  lemma AddressesInTurn(c: seq<Node>, k: nat)
    requires k < |c|
    ensures AllAddresses(c[..k + 1]) == AllAddresses(c[..k]) + AddressesOf(c[k])
    ensures AllAddresses(c[..k + 1]) <= AllAddresses(c)
  {
    hide AddressesOf, AllAddresses;
    var front, one, rest := c[..k], [c[k]], c[k + 1..];
    assert c[..k + 1] == front + one;
    AllAddressesConcat(front, one);
    OneNode(c[k]);
    assert c == (front + one) + rest;
    AllAddressesConcat(front + one, rest);
  }

  lemma OneNode(n: Node)
    ensures AllAddresses([n]) == AddressesOf(n)
  {
    assert AllAddresses([n]) == AddressesOf(n) + AllAddresses([]);
  }

  lemma FirstUpIs(candidates: seq<Address>, up: nat -> bool, m: nat)
    requires m <= |candidates| && forall k :: 0 <= k < m ==> !up(k)
    ensures m < |candidates| && up(m) ==> FirstUp(candidates, up, 0) == Some(m)
    ensures m == |candidates| ==> FirstUp(candidates, up, 0) == None
  {
    var a := FirstUp(candidates, up, 0);
    assert a.Some? ==> up(a.value);
  }

  /** A probe, or a request with the address it went to. */
  datatype Act =
    | Probed(address: Address, up: bool)
    | Asked(address: Address, unreachable: bool)

  /** Probes of `n` addresses in order, the first of them the `made`-th of its scan. */
  function ProbesFrom(addresses: seq<Address>, up: nat -> bool, made: nat, n: nat): (r: seq<Act>)
    requires n <= |addresses|
    ensures |r| == n && forall k :: 0 <= k < n ==> r[k] == Probed(addresses[k], up(made + k))
  {
    seq(n, k requires 0 <= k < n => Probed(addresses[k], up(made + k)))
  }

  function ProbesOf(candidates: seq<Address>, up: nat -> bool, made: nat): seq<Act>
    requires made <= |candidates|
  {
    ProbesFrom(candidates, up, 0, made)
  }

  /** test_reachable: `up` answers the probes in the order they are made. */
  method TestReachable(a: Address, made: nat, up: nat -> bool) returns (ok: bool, ghost probe: Act)
    ensures ok == up(made) && probe == Probed(a, ok)
  {
    ok := up(made);
    probe := Probed(a, ok);
  }

  lemma ProbesJoin(candidates: seq<Address>, own: seq<Address>, up: nat -> bool, made: nat, n: nat)
    requires made + n <= |candidates| && n <= |own| && candidates[made..made + n] == own[..n]
    ensures ProbesOf(candidates, up, made) + ProbesFrom(own, up, made, n) == ProbesOf(candidates, up, made + n)
  {
    forall k | 0 <= k < n ensures own[k] == candidates[made + k] {
      assert own[..n][k] == candidates[made..made + n][k];
    }
  }

  /** select_bootstrap from the drawn index, with the probes it makes. */
  method SelectBootstrap(nodes: seq<Node>, base: nat, up: nat -> bool)
    returns (selected: Option<Address>, ghost probes: seq<Act>)
    requires base < |nodes|
    ensures var candidates := AllAddresses(Cycle(nodes, base));
            selected == match FirstUp(candidates, up, 0) case Some(k) => Some(candidates[k]) case None => None
    ensures var candidates := AllAddresses(Cycle(nodes, base));
            probes == ProbesOf(candidates, up,
                               match FirstUp(candidates, up, 0) case Some(k) => k + 1 case None => |candidates|)
  {
    hide AddressesOf, AllAddresses, FirstUp, ProbesOf, ProbesFrom, Cycle;
    ghost var c := Cycle(nodes, base);
    ghost var candidates := AllAddresses(c);
    ghost var visited: nat := 0;
    var i, first, made := base, true, 0;
    probes := [];
    NoAddresses(c);
    NoProbes(candidates, up);
    CycleAt(nodes, base);
    while first || i != base
      invariant visited <= |nodes| && i == IndexAt(base, visited, |nodes|)
      invariant first <==> visited == 0
      invariant made == |AllAddresses(c[..visited])| <= |candidates|
      invariant probes == ProbesOf(candidates, up, made)
      invariant forall k :: 0 <= k < made ==> !up(k)
      decreases |nodes| - visited
    {
      ghost var start, asked := made, [];
      var found;
      found, made, asked := ProbeNode(nodes[i], made, up);
      NodeProbed(c, visited, up, start, made - start);
      probes := probes + asked;
      if found.Some? {
        FirstUpIs(candidates, up, made - 1);
        return found, probes;
      }
      NextIndex(base, visited, |nodes|);
      i, first, visited := (i + 1) % |nodes|, false, visited + 1;
    }
    assert visited == |nodes| && c[..visited] == c;
    FirstUpIs(candidates, up, made);
    return None, probes;
  }

  lemma CycleAt(nodes: seq<Node>, base: nat)
    requires base < |nodes|
    ensures var c := Cycle(nodes, base);
            |c| == |nodes| && forall k :: 0 <= k < |c| ==> c[k] == nodes[IndexAt(base, k, |nodes|)]
  {
  }

  /** A node's probes go on where those of the nodes in front of it ended. */
  lemma NodeProbed(c: seq<Node>, k: nat, up: nat -> bool, made: nat, n: nat)
    requires k < |c| && made == |AllAddresses(c[..k])| && n <= |AddressesOf(c[k])|
    ensures var candidates, own := AllAddresses(c), AddressesOf(c[k]);
            && made + n <= |candidates| && made + |own| == |AllAddresses(c[..k + 1])| <= |candidates|
            && ProbesOf(candidates, up, made) + ProbesFrom(own, up, made, n) == ProbesOf(candidates, up, made + n)
            && (n > 0 ==> candidates[made + n - 1] == own[n - 1])
  {
    hide AddressesOf, AllAddresses, ProbesOf, ProbesFrom;
    var candidates, own, before := AllAddresses(c), AddressesOf(c[k]), AllAddresses(c[..k]);
    AddressesInTurn(c, k);
    OwnIsNext(candidates, before, own, n);
    ProbesJoin(candidates, own, up, made, n);
    if n > 0 { assert candidates[made..made + n][n - 1] == own[..n][n - 1]; }
  }

  lemma NoAddresses(c: seq<Node>)
    ensures AllAddresses(c[..0]) == []
  {
  }

  lemma NoProbes(candidates: seq<Address>, up: nat -> bool)
    ensures ProbesOf(candidates, up, 0) == []
  {
  }

  lemma OwnIsNext(candidates: seq<Address>, before: seq<Address>, own: seq<Address>, n: nat)
    requires before + own <= candidates && n <= |own|
    ensures |before| + n <= |candidates| && candidates[|before|..|before| + n] == own[..n]
  {
    forall k | 0 <= k < n ensures candidates[|before|..|before| + n][k] == own[..n][k] {
      assert candidates[|before| + k] == (before + own)[|before| + k];
    }
  }

  /** One node of the scan: its IPv4 address, then its IPv6 address. */
  method ProbeNode(n: Node, start: nat, up: nat -> bool)
    returns (found: Option<Address>, made: nat, ghost asked: seq<Act>)
    ensures var own := AddressesOf(n);
            && start <= made <= start + |own|
            && match found
               case Some(a) => made > start && a == own[made - start - 1] && up(made - 1)
                               && forall k :: start <= k < made - 1 ==> !up(k)
               case None => made == start + |own| && forall k :: start <= k < made ==> !up(k)
    ensures start <= made <= start + |AddressesOf(n)| && asked == ProbesFrom(AddressesOf(n), up, start, made - start)
  {
    made, asked := start, [];
    if n.ipv4 != "" {
      var ok;
      ghost var probe;
      ok, probe := TestReachable(Address(n.ipv4, n.port), made, up);
      made, asked := made + 1, asked + [probe];
      if ok { return Some(Address(n.ipv4, n.port)), made, asked; }
    }
    if n.ipv6 != "" {
      var ok;
      ghost var probe;
      ok, probe := TestReachable(Address(n.ipv6, n.port), made, up);
      made, asked := made + 1, asked + [probe];
      if ok { return Some(Address(n.ipv6, n.port)), made, asked; }
    }
    return None, made, asked;
  }

  // ---- failover ----

  datatype RpcValue = RpcValue(nodes: seq<Node>, ip: string, port: nat, trace: seq<Act>)

  /** ipfs_rpc_check_reachable: an empty address is replaced by a new selection. */
  function Checked(v: RpcValue, base: nat, up: nat -> bool): (r: (RpcValue, bool))
    requires base < |v.nodes|
  {
    if v.ip != "" then (v, true)
    else
      var candidates := AllAddresses(Cycle(v.nodes, base));
      match FirstUp(candidates, up, 0)
      case None => (v.(trace := v.trace + ProbesOf(candidates, up, |candidates|)), false)
      case Some(k) =>
        (v.(ip := candidates[k].ip, port := candidates[k].port,
            trace := v.trace + ProbesOf(candidates, up, k + 1)), true)
  }

  /** How a request ends: there is no client for it, the node cannot be reached, another
      error, success with no body, or an answer. */
  datatype Reply = NotSent | Unreachable | Failure | Empty | Success

  /** After a null write nothing is defined. */
  datatype Outcome = Ok | Failed | NullWrite

  /** Check, ask, and mark the node when it could not be reached; `moves` says whether the
      body is moved out, with no place for its length. */
  function AfterAsk(v: RpcValue, base: nat, up: nat -> bool, reply: Reply, moves: bool): (r: (RpcValue, Outcome))
    requires base < |v.nodes|
    ensures r.0.nodes == v.nodes
  {
    var (u, ok) := Checked(v, base, up);
    if !ok || reply == NotSent then (u, Failed)
    else
      var asked := u.(trace := u.trace + [Asked(Address(u.ip, u.port), reply == Unreachable)]);
      match reply
      case Unreachable => (asked.(ip := ""), Failed)
      case Failure => (asked, Failed)
      case Empty => (asked, if moves then NullWrite else Ok)
      case _ => (asked, Ok)
  }

  class Rpc {
    const nodes: seq<Node>
    var ip: string
    var port: nat
    ghost var trace: seq<Act>

    ghost function Value(): RpcValue
      reads this
    {
      RpcValue(nodes, ip, port, trace)
    }

    /** ipfs_rpc_new, before its first selection. */
    constructor (nodes: seq<Node>)
      ensures Value() == RpcValue(nodes, "", 0, [])
    {
      this.nodes, ip, port, trace := nodes, "", 0, [];
    }

    method CheckReachable(base: nat, up: nat -> bool) returns (ok: bool)
      requires base < |nodes|
      modifies this
      ensures (Value(), ok) == Checked(old(Value()), base, up)
    {
      hide AllAddresses, FirstUp;
      if ip != "" { return true; }
      var selected;
      ghost var probes;
      selected, probes := SelectBootstrap(nodes, base, up);
      trace := trace + probes;
      if selected.None? { return false; }
      ip, port := selected.value.ip, selected.value.port;
      return true;
    }

    method MarkUnreachable()
      modifies `ip
      ensures Value() == old(Value()).(ip := "")
    {
      ip := "";
    }

    /** The pattern of put_file_from_buffer and get_file_length, and twice over of
        get_file_to_buffer, which does not move the second body. */
    method Ask(base: nat, up: nat -> bool, reply: Reply, moves: bool) returns (r: Outcome)
      requires base < |nodes|
      modifies this
      ensures (Value(), r) == AfterAsk(old(Value()), base, up, reply, moves)
    {
      hide Checked;
      var ok := CheckReachable(base, up);
      if !ok || reply == NotSent { return Failed; }
      trace := trace + [Asked(Address(ip, port), reply == Unreachable)];
      if reply == Unreachable {
        MarkUnreachable();
        return Failed;
      }
      if reply == Failure { return Failed; }
      return if reply == Empty && moves then NullWrite else Ok;
    }
  }

  /** ipfs_rpc_new: there is no connection without a node that can be reached. */
  method Create(nodes: seq<Node>, base: nat, up: nat -> bool) returns (rpc: Rpc?)
    requires base < |nodes|
    ensures var (v, ok) := Checked(RpcValue(nodes, "", 0, []), base, up);
            (rpc != null <==> ok) && (rpc != null ==> fresh(rpc) && rpc.Value() == v)
  {
    hide Checked;
    var r := new Rpc(nodes);
    var ok := r.CheckReachable(base, up);
    return if ok then r else null;
  }

  // ---- what a check and a request come to ----

  /** The first of the probes that succeeds is the `k`-th. */
  ghost predicate FirstAnswer(up: nat -> bool, k: nat) {
    up(k) && forall j: nat :: j < k ==> !up(j)
  }

  /** A check succeeds exactly when a node is selected or one of the configured addresses
      answers; it selects the first of them that does, and probes up to that one only. */
  lemma CheckMeans(v: RpcValue, base: nat, up: nat -> bool, k: nat)
    requires base < |v.nodes|
    ensures var (u, ok) := Checked(v, base, up);
            var candidates := AllAddresses(Cycle(v.nodes, base));
            && (ok <==> v.ip != "" || exists j: nat :: j < |candidates| && up(j))
            && (v.ip != "" ==> u == v)
            && (v.ip == "" && k < |candidates| && FirstAnswer(up, k) ==>
                  u.ip == candidates[k].ip && u.port == candidates[k].port
                  && u.trace == v.trace + ProbesOf(candidates, up, k + 1))
            && (!ok ==> u.ip == "" && u.port == v.port && u.trace == v.trace + ProbesOf(candidates, up, |candidates|))
  {
    hide AllAddresses, Cycle, ProbesOf;
    var candidates := AllAddresses(Cycle(v.nodes, base));
    if k < |candidates| && FirstAnswer(up, k) { FirstUpIs(candidates, up, k); }
  }

  /** How an operation ends, by the selection, the probes and the reply; which request it has
      sent; and that it leaves a node selected exactly when it found one and could reach it. */
  lemma AskMeans(v: RpcValue, base: nat, up: nat -> bool, reply: Reply, moves: bool)
    requires base < |v.nodes|
    ensures var (u, r) := AfterAsk(v, base, up, reply, moves);
            var candidates := AllAddresses(Cycle(v.nodes, base));
            var found := v.ip != "" || exists j: nat :: j < |candidates| && up(j);
            var checked := Checked(v, base, up).0;
            && (r == Ok <==> found && (reply == Success || (reply == Empty && !moves)))
            && (r == NullWrite <==> found && reply == Empty && moves)
            && (u.ip != "" <==> found && reply != Unreachable)
            && u.port == checked.port && (u.ip != "" ==> u.ip == checked.ip)
            && u.trace == checked.trace + if !found || reply == NotSent then []
                                          else [Asked(Address(checked.ip, checked.port), reply == Unreachable)]
  {
    hide AllAddresses, Cycle, Checked;
    CheckMeans(v, base, up, 0);
    SelectedIsNamed(v, base, up);
    assert Checked(v, base, up).0.trace + [] == Checked(v, base, up).0.trace;
  }

  lemma SelectedIsNamed(v: RpcValue, base: nat, up: nat -> bool)
    requires base < |v.nodes|
    ensures var (u, ok) := Checked(v, base, up); ok <==> u.ip != ""
  {
    hide AllAddresses, Cycle, ProbesOf, Configured;
    var candidates := AllAddresses(Cycle(v.nodes, base));
    var r := FirstUp(candidates, up, 0);
    if v.ip == "" && r.Some? { CandidateIsConfigured(v.nodes, base, r.value); }
  }

  // ---- safety ----

  /** Has a probe of the address succeeded since a request last found it unreachable? */
  function Up(trace: seq<Act>, a: Address): bool {
    if trace == [] then false
    else match trace[|trace| - 1]
      case Probed(b, up) => (b == a && up) || Up(trace[..|trace| - 1], a)
      case Asked(b, unreachable) => !(b == a && unreachable) && Up(trace[..|trace| - 1], a)
  }

  /** Every request goes to an address that is up in this sense. */
  ghost predicate Safe(trace: seq<Act>) {
    trace == [] ||
    (Safe(trace[..|trace| - 1]) && (trace[|trace| - 1].Asked? ==> Up(trace[..|trace| - 1], trace[|trace| - 1].address)))
  }

  /** Between an unreachable answer and a later request to the same address there is a
      successful probe of it. */
  lemma {:induction false} SafeMeansProbeBetween(trace: seq<Act>, i: nat, j: nat) returns (k: nat)
    requires Safe(trace) && i < j < |trace|
    requires trace[i].Asked? && trace[i].unreachable && trace[j].Asked? && trace[j].address == trace[i].address
    ensures i < k < j && trace[k] == Probed(trace[i].address, true)
    decreases |trace|
  {
    var before := trace[..|trace| - 1];
    if j < |trace| - 1 {
      k := SafeMeansProbeBetween(before, i, j);
    } else {
      k := LastProbe(before, i);
    }
  }

  lemma {:induction false} LastProbe(trace: seq<Act>, i: nat) returns (k: nat)
    requires i < |trace| && trace[i].Asked? && trace[i].unreachable && Up(trace, trace[i].address)
    ensures i < k < |trace| && trace[k] == Probed(trace[i].address, true)
    decreases |trace|
  {
    k := |trace| - 1;
    if trace[k] != Probed(trace[i].address, true) {
      k := LastProbe(trace[..k], i);
    }
  }

  lemma LongerTrace(trace: seq<Act>, x: Act, a: Address)
    ensures Up(trace + [x], a) ==
            match x
            case Probed(b, up) => (b == a && up) || Up(trace, a)
            case Asked(b, unreachable) => !(b == a && unreachable) && Up(trace, a)
    ensures Safe(trace + [x]) <==> Safe(trace) && (x.Asked? ==> Up(trace, x.address))
  {
    assert (trace + [x])[..|trace|] == trace;
  }

  lemma {:induction false} ProbesAreSafe(trace: seq<Act>, candidates: seq<Address>, up: nat -> bool, made: nat)
    requires Safe(trace) && made <= |candidates|
    ensures Safe(trace + ProbesOf(candidates, up, made))
    ensures made > 0 && up(made - 1) ==> Up(trace + ProbesOf(candidates, up, made), candidates[made - 1])
  {
    hide Safe, Up;
    if made == 0 {
      assert trace + ProbesOf(candidates, up, made) == trace;
    } else {
      var x := Probed(candidates[made - 1], up(made - 1));
      ProbesAreSafe(trace, candidates, up, made - 1);
      var before := trace + ProbesOf(candidates, up, made - 1);
      assert trace + ProbesOf(candidates, up, made) == before + [x];
      LongerTrace(before, x, candidates[made - 1]);
    }
  }

  /** An address that is configured: one of a node's, with that node's port. */
  ghost predicate Configured(nodes: seq<Node>, a: Address) {
    exists k :: 0 <= k < |nodes| && a in AddressesOf(nodes[k])
  }

  ghost predicate Guarded(v: RpcValue) {
    && Safe(v.trace)
    && (v.ip != "" ==> Configured(v.nodes, Address(v.ip, v.port)) && Up(v.trace, Address(v.ip, v.port)))
  }

  lemma {:induction false} ConfiguredAddress(nodes: seq<Node>, a: Address) returns (k: nat)
    requires a in AllAddresses(nodes)
    ensures k < |nodes| && a in AddressesOf(nodes[k])
  {
    if a in AddressesOf(nodes[0]) {
      k := 0;
    } else {
      var j := ConfiguredAddress(nodes[1..], a);
      k := j + 1;
    }
  }

  lemma CandidateIsConfigured(nodes: seq<Node>, base: nat, k: nat)
    requires base < |nodes| && k < |AllAddresses(Cycle(nodes, base))|
    ensures var a := AllAddresses(Cycle(nodes, base))[k]; Configured(nodes, a) && a.ip != ""
  {
    var c := Cycle(nodes, base);
    var a := AllAddresses(c)[k];
    var j := ConfiguredAddress(c, a);
    assert c[j] == nodes[IndexAt(base, j, |nodes|)];
  }

  lemma CheckGuarded(v: RpcValue, base: nat, up: nat -> bool)
    requires Guarded(v) && base < |v.nodes|
    ensures var (u, ok) := Checked(v, base, up); Guarded(u) && (ok <==> u.ip != "")
  {
    hide Safe, Up, Configured, AllAddresses, Cycle;
    if v.ip == "" {
      var candidates := AllAddresses(Cycle(v.nodes, base));
      var r := FirstUp(candidates, up, 0);
      ProbesAreSafe(v.trace, candidates, up, if r.Some? then r.value + 1 else |candidates|);
      if r.Some? { CandidateIsConfigured(v.nodes, base, r.value); }
    }
  }

  /** One operation: the current node is a configured one or none, and the request it
      makes goes to an address that is up. */
  lemma AskGuarded(v: RpcValue, base: nat, up: nat -> bool, reply: Reply, moves: bool)
    requires Guarded(v) && base < |v.nodes|
    ensures Guarded(AfterAsk(v, base, up, reply, moves).0)
  {
    hide Safe, Up, Configured, Checked;
    CheckGuarded(v, base, up);
    var (u, ok) := Checked(v, base, up);
    if ok {
      LongerTrace(u.trace, Asked(Address(u.ip, u.port), reply == Unreachable), Address(u.ip, u.port));
    }
  }

  /** A new connection is guarded, and has selected a configured node. */
  lemma NewIsGuarded(nodes: seq<Node>, base: nat, up: nat -> bool)
    requires base < |nodes|
    ensures var (v, ok) := Checked(RpcValue(nodes, "", 0, []), base, up);
            Guarded(v) && (ok ==> v.ip != "" && Configured(nodes, Address(v.ip, v.port)))
  {
    hide AllAddresses, Cycle, FirstUp, Up;
    CheckGuarded(RpcValue(nodes, "", 0, []), base, up);
  }

  datatype Operation = Operation(base: nat, up: nat -> bool, reply: Reply, moves: bool)

  /** The operations up to the first that ends in a null write. */
  function Run(v: RpcValue, ops: seq<Operation>): RpcValue
    requires forall k :: 0 <= k < |ops| ==> ops[k].base < |v.nodes|
    decreases |ops|
  {
    if ops == [] then v
    else
      var (u, r) := AfterAsk(v, ops[0].base, ops[0].up, ops[0].reply, ops[0].moves);
      if r == NullWrite then u else Run(u, ops[1..])
  }

  /** Over any run, with any drawn start indices, probe answers and request outcomes, no
      request goes to an address that was found unreachable and not probed since. */
  lemma {:induction false} RunIsSafe(v: RpcValue, ops: seq<Operation>)
    requires Guarded(v) && forall k :: 0 <= k < |ops| ==> ops[k].base < |v.nodes|
    ensures Guarded(Run(v, ops)) && Safe(Run(v, ops).trace)
    decreases |ops|
  {
    hide Safe, Up, Configured, AfterAsk;
    if ops != [] {
      AskGuarded(v, ops[0].base, ops[0].up, ops[0].reply, ops[0].moves);
      var (u, r) := AfterAsk(v, ops[0].base, ops[0].up, ops[0].reply, ops[0].moves);
      if r != NullWrite { RunIsSafe(u, ops[1..]); }
    }
  }

  // ---- the bounded sink ----

  /** get_response_body_cb: a chunk that does not fit is refused whole. A chunk and the
      buffer are both in memory, so their sizes add up to less than the address space. */
  method Sink(buf: array<byte>, bufsz: nat, actual: nat, chunk: Bytes) returns (taken: nat)
    requires actual <= bufsz <= buf.Length && buf.Length + |chunk| < SIZE_RANGE
    modifies buf
    ensures taken == if actual + |chunk| <= bufsz then |chunk| else 0
    ensures buf[..actual + taken] == old(buf[..actual]) + chunk[..taken]
    ensures buf[actual + taken..] == old(buf[actual + taken..])
  {
    if (actual + |chunk|) % SIZE_RANGE > bufsz { return 0; }
    forall i | 0 <= i < |chunk| { buf[actual + i] := chunk[i]; }
    taken := |chunk|;
    assert buf[..actual + taken] == old(buf[..actual]) + chunk;
    assert chunk[..taken] == chunk;
  }

  /** How curl ends the request: broken off, or with a status. */
  datatype Transfer = BrokenOff | Status(code: int)

  datatype Got = Filled(length: nat) | Nothing(fsize: int) | TooSmall | Error

  const HTTP_OK: int := 200

  /** get_file_to_buffer behind its length request, for the chunks that arrive: it succeeds
      exactly when the request does, all chunks fit and they make up the announced length,
      and then they are in the buffer. */
  method Download(buf: array<byte>, buflen: nat, fsize: int, chunks: seq<Bytes>, end: Transfer) returns (r: Got)
    requires buflen <= buf.Length
    requires forall k :: 0 <= k < |chunks| ==> buf.Length + |chunks[k]| < SIZE_RANGE
    modifies buf
    ensures fsize <= 0 ==> r == Nothing(fsize)
    ensures fsize > buflen > 0 ==> r == TooSmall
    ensures r.Filled? <==> fsize > 0 && end == Status(HTTP_OK) && |Flat(chunks)| <= buflen && |Flat(chunks)| == fsize
    ensures r.Filled? ==> r.length == fsize && buf[..fsize] == Flat(chunks) && buf[fsize..] == old(buf[fsize..])
    ensures r.Nothing? || r.TooSmall? ==> buf[..] == old(buf[..])
    ensures buf[buflen..] == old(buf[buflen..])
  {
    if fsize <= 0 { return Nothing(fsize); }
    if fsize > buflen > 0 { return TooSmall; }
    var actual, k := 0, 0;
    assert chunks[0..] == chunks;
    while k < |chunks|
      invariant k <= |chunks| && actual <= buflen
      invariant Flat(chunks) == buf[..actual] + Flat(chunks[k..])
      invariant buf[actual..] == old(buf[actual..])
    {
      ghost var done := buf[..actual];
      assert chunks[k..][0] == chunks[k] && chunks[k..][1..] == chunks[k + 1..];
      ghost var behind := buf[actual..];
      var taken := Sink(buf, buflen, actual, chunks[k]);
      if taken != |chunks[k]| {
        assert buf[..] == done + behind;
        return Error;
      }
      assert buf[actual + taken..] == behind[taken..] == old(buf[actual..])[taken..];
      assert chunks[k][..taken] == chunks[k];
      assert Flat(chunks) == done + (chunks[k] + Flat(chunks[k + 1..])) == (done + chunks[k]) + Flat(chunks[k + 1..]);
      actual, k := actual + taken, k + 1;
    }
    assert Flat(chunks[k..]) == [];
    return if end == Status(HTTP_OK) && fsize == actual then Filled(fsize) else Error;
  }
}
