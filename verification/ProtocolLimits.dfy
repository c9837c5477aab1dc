/** Which releases of held packets keep the table and the server together, and runs in which they come apart. */
module ProtocolLimits {
  import Arena
  import opened Lookups
  import opened Sessions
  import opened Pools
  import opened Protocol
  import opened ProtocolFifo
  import opened ProtocolReplica
  import opened Verdicts
  import T = TcpTracker

  // ---- runs put together ----

  lemma StepFirst(c: Config, s: State, a: Action, run: seq<Action>)
    requires Enabled(c, s, a) && Legal(c, Next(c, s, a), run)
    ensures Legal(c, s, [a] + run) && After(c, s, [a] + run) == After(c, Next(c, s, a), run)
  {
    hide Enabled, Next;
    assert ([a] + run)[1..] == run;
  }

  lemma {:induction false} RunTwice(c: Config, s: State, run: seq<Action>, more: seq<Action>)
    requires Legal(c, s, run) && Legal(c, After(c, s, run), more)
    ensures Legal(c, s, run + more) && After(c, s, run + more) == After(c, After(c, s, run), more)
    decreases |run|
  {
    hide Enabled, Next;
    if run == [] {
      assert run + more == more;
    } else {
      RunTwice(c, Next(c, s, run[0]), run[1..], more);
      StepFirst(c, s, run[0], run[1..] + more);
      assert run + more == [run[0]] + (run[1..] + more);
    }
  }

  /** The six steps that take one item from h_send to the table. */
  function Cycle(spot: Ptr): seq<Action> {
    [Pop] + ([Push] + ([Send] + ([Serve] + ([Take] + ([Change(spot)] + [])))))
  }

  ghost predicate Idling(c: Config, s: State) {
    && !s.failed && s.hSend == [] && s.sender.Idle? && s.hRecv == [] && s.toServer == [] && s.toClient == []
    && s.receiver.Waiting? && c.recvCap > 0 && c.sendCap > 0
  }

  /** The sender's three steps. */
  lemma SenderRuns(c: Config, s: State, msg: Message, run: seq<Action>)
    requires Idling(c, s.(hSend := [])) && s.hSend != [] && Compose(s.nodes, s.hSend[0]) == Some(msg)
    requires Legal(c, s.(hSend := s.hSend[1..], hRecv := [msg.cause], toServer := [msg]), run)
    ensures var all := [Pop] + ([Push] + ([Send] + run));
      && Legal(c, s, all)
      && After(c, s, all) == After(c, s.(hSend := s.hSend[1..], hRecv := [msg.cause], toServer := [msg]), run)
  {
    hide Compose;
    var s1 := s.(hSend := s.hSend[1..], sender := Composed(msg));
    var s2 := s.(hSend := s.hSend[1..], sender := Pushed(msg), hRecv := [msg.cause]);
    var s3 := s.(hSend := s.hSend[1..], hRecv := [msg.cause], toServer := [msg]);
    assert Enabled(c, s, Pop) && Next(c, s, Pop) == s1;
    assert Enabled(c, s1, Push) && Next(c, s1, Push) == s2;
    assert Enabled(c, s2, Send) && Next(c, s2, Send) == s3;
    hide Enabled, Next;
    StepFirst(c, s2, Send, run);
    StepFirst(c, s1, Push, [Send] + run);
    StepFirst(c, s, Pop, [Push] + ([Send] + run));
  }

  /** The server's step and the receiver's two. */
  lemma AnswerRuns(c: Config, s: State, msg: Message, v: Server, r: Reply, t: Live, spot: Ptr)
    requires Idling(c, s.(hSend := [], hRecv := [], toServer := [])) && s.hRecv == [msg.cause] && s.toServer == [msg]
    requires Answer(c.limits, s.server, msg) == (v, Some(r)) && Apply(s.nodes, r, msg.cause, spot) == Some(t)
    requires spot != Arena.NULL && spot !in s.nodes
    ensures var all := [Serve] + ([Take] + ([Change(spot)] + []));
      Legal(c, s, all) && After(c, s, all) == s.(hRecv := [], toServer := [], server := v, nodes := t)
  {
    hide Answer, Apply;
    var s1 := s.(toServer := [], server := v, toClient := [r]);
    var s2 := s.(toServer := [], hRecv := [], server := v, receiver := Holding(r, msg.cause));
    var s3 := s.(toServer := [], hRecv := [], server := v, nodes := t);
    assert Enabled(c, s, Serve) && Next(c, s, Serve) == s1;
    assert Enabled(c, s1, Take) && Next(c, s1, Take) == s2;
    assert Enabled(c, s2, Change(spot)) && Next(c, s2, Change(spot)) == s3;
    hide Enabled, Next;
    StepFirst(c, s2, Change(spot), []);
    StepFirst(c, s1, Take, [Change(spot)] + []);
    StepFirst(c, s, Serve, [Take] + ([Change(spot)] + []));
  }

  lemma CycleRuns(c: Config, s: State, msg: Message, v: Server, r: Reply, t: Live, spot: Ptr)
    requires Idling(c, s.(hSend := [])) && s.hSend != [] && Compose(s.nodes, s.hSend[0]) == Some(msg)
    requires Answer(c.limits, s.server, msg) == (v, Some(r)) && Apply(s.nodes, r, msg.cause, spot) == Some(t)
    requires spot != Arena.NULL && spot !in s.nodes
    ensures Legal(c, s, Cycle(spot))
    ensures After(c, s, Cycle(spot)) == s.(hSend := s.hSend[1..], server := v, nodes := t)
  {
    hide Compose, Answer, Apply, Legal, After;
    AnswerRuns(c, s.(hSend := s.hSend[1..], hRecv := [msg.cause], toServer := [msg]), msg, v, r, t, spot);
    SenderRuns(c, s, msg, [Serve] + ([Take] + ([Change(spot)] + [])));
  }

  // ---- what becomes of a held packet ----

  /** How a packet that was held back left its session. */
  predicate HeldState(x: Item, st: T.State)
    requires x.Held?
  {
    (st == T.Reset || (st == T.Unknown && x.packet.from == T.Lan && !x.packet.flags.rst)) &&
    (x.packet.from == T.Wan ==> st == T.Reset && x.packet.flags.rst)
  }

  lemma HeldBack(st: T.State, f: T.Flags, from: T.Side)
    requires TcpVerdict(st, f, from).0 == ALIAS_RESET_TABLE
    ensures var st' := TcpVerdict(st, f, from).1;
      st' == T.Reset || (st' == T.Unknown && from == T.Lan && !f.rst)
    ensures from == T.Wan ==> TcpVerdict(st, f, from).1 == T.Reset && f.rst
  {
  }

  /** An RST resets every session that is not final, and nothing else gets a packet out of the unknown state. */
  lemma HeldAgain(st: T.State, f: T.Flags)
    ensures f.rst && !Final(st) ==> TcpVerdict(st, f, T.Lan) == (ALIAS_RESET_TABLE, T.Reset)
    ensures !f.rst ==> TcpVerdict(T.Unknown, f, T.Lan) == (ALIAS_RESET_TABLE, T.Unknown)
  {
  }

  /** Another session, closed or reset, has the packet's source as its LAN endpoint and is taken out instead. */
  ghost predicate Instead(nodes: Live, x: Item) {
    x.Held? && x.packet.outward &&
    var q := FindLan(nodes, TCP, x.packet.src);
    q.Some? && q.value != x.node && q.value in nodes && Final(nodes[q.value].state)
  }

  /** No session is new, and none has another mapping. */
  ghost predicate Less(nodes: Live, nodes': Live) {
    forall p :: p in nodes ==> p in nodes' && nodes[p].m == nodes'[p].m
  }

  /** What the acknowledgement of the release written for a held packet does to the table, in all cases. */
  lemma HeldApply(nodes: Live, x: Item, spot: Ptr)
    requires Keyed(nodes) && x.Held? && ItemOk(nodes, x) && HeldState(x, nodes[x.node].state)
    ensures Compose(nodes, x).Some? && Compose(nodes, x).value.Release?
    ensures var msg := Compose(nodes, x).value;
      var t := Apply(nodes, ReleaseAck(msg.m, msg.cause), msg.cause, spot);
      && msg.m in Table(nodes) && t.Some? && (x.node !in t.value <==> Sound(nodes, x)) && Less(t.value, nodes)
      && Table(t.value) == if Sound(nodes, x) || Instead(nodes, x) then Table(nodes) - {msg.m} else Table(nodes)
  {
    hide Keyed, FindLan, FindWan, Table, DeleteValue, Forwarded;
    ComposeExact(nodes, x);
    FindsOwn(nodes, x.node);
    var q := FindLan(nodes, TCP, x.packet.src);
    InTable(nodes, if q.Some? then q.value else x.node);
    if q.None? {
      Through(nodes, x.node, x.packet.flags, T.Wan);
    } else {
      if x.packet.outward {
        if Final(nodes[q.value].state) {
          Through(nodes, q.value, x.packet.flags, T.Lan);
        } else {
          Back(nodes, q.value, x.packet.flags, nodes[q.value].m);
        }
      } else {
        assert Forwarded(nodes, None, x.packet.flags, T.Lan, nodes[q.value].m) == Some(nodes) by {
          NotFound(nodes, x.packet.flags, nodes[q.value].m);
        }
      }
    }
  }

  lemma InTable(nodes: Live, p: Ptr)
    requires p in nodes
    ensures nodes[p].m in Table(nodes)
  {
  }

  lemma NotFound(nodes: Live, f: T.Flags, m: Mapping)
    ensures Forwarded(nodes, None, f, T.Lan, m) == Some(nodes)
  {
  }

  /** A final session lets the packet through and is deleted. */
  lemma Through(nodes: Live, p: Ptr, f: T.Flags, from: T.Side)
    requires Keyed(nodes) && p in nodes && Final(nodes[p].state)
    ensures Forwarded(nodes, Some(p), f, from, nodes[p].m) == Some(nodes - {p})
    ensures Table(nodes - {p}) == Table(nodes) - {nodes[p].m}
  {
    hide DeleteValue, T.TcpStateCheck;
    OnlyOne(nodes, p);
    RemovedOne(nodes, p);
    assert nodes[p := nodes[p].(state := nodes[p].state)] == nodes;
  }

  /** A session that is not final holds the packet back once more and stays. */
  lemma Back(nodes: Live, p: Ptr, f: T.Flags, m: Mapping)
    requires p in nodes && !Final(nodes[p].state) && (f.rst || nodes[p].state == T.Unknown)
    ensures var t := Forwarded(nodes, Some(p), f, T.Lan, m);
      t.Some? && t.value.Keys == nodes.Keys && Table(t.value) == Table(nodes) && Less(t.value, nodes)
  {
    hide DeleteValue, TcpVerdict;
    HeldAgain(nodes[p].state, f);
    MovedGrown(nodes, p, f, T.Lan);
  }

  // ---- one release in an idle system ----

  /** A held packet at the head of h_send, taken through sender, server and receiver. */
  lemma HeldCycle(c: Config, s: State, k: Segment, p: Ptr, spot: Ptr, s1: State)
    requires Good(c, s) && Work(s) == 0 && Enabled(c, s, HoldBack(k, p))
    requires spot != Arena.NULL && spot !in s.nodes && Idling(c, s1.(hSend := []))
    requires s1.hSend != [] && s1.hSend[0] == Held(s.count, k, p)
    requires s1.server == s.server && s1.nodes == Moved(s.nodes, p, k.flags, k.from)
    ensures Legal(c, s1, Cycle(spot))
    ensures var t, n, x := After(c, s1, Cycle(spot)), s1.nodes, s1.hSend[0];
      && t == s1.(hSend := s1.hSend[1..], server := t.server, nodes := t.nodes)
      && (p !in t.nodes <==> Sound(n, x)) && Less(t.nodes, n) && Keyed(n)
      && Compose(n, x).Some? && Compose(n, x).value.Release?
      && var m := Compose(n, x).value.m;
      && m in Table(n) && Left(c, t.server, m) && Mappings(t.server) == Table(n) - {m}
      && Table(t.nodes) == if Sound(n, x) || Instead(n, x) then Table(n) - {m} else Table(n)
  {
    hide Good, Table, Mappings, Keyed, Sound, Instead, Compose, Apply, Answer, Inv, Moved, HeldState, Cycle, Items;
    hide Legal, After, TcpVerdict, FindLan;
    var x, n := s1.hSend[0], s1.nodes;
    GoodParts(c, s);
    Quiet(c, s);
    HeldReady(c, s, k, p);
    HeldApply(n, x, spot);
    var msg := Compose(n, x).value;
    MappingKnown(c.limits, s.server, msg.m);
    AnswerKnown(c.limits, s.server, msg.m, msg.cause);
    var v := Answer(c.limits, s.server, msg).0;
    var r := ReleaseAck(msg.m, msg.cause);
    var t := Apply(n, r, msg.cause, spot).value;
    ComposeCause(n, x);
    CycleRuns(c, s1, msg, v, r, t, spot);
  }

  /** The server has released m, and would acknowledge that again. */
  ghost predicate Left(c: Config, v: Server, m: Mapping) {
    && Inv(c.limits, v.tcp) && Inv(c.limits, v.udp) && (m.protocol == TCP || m.protocol == UDP)
    && m.lan.ip in PoolOf(v, m.protocol).db
  }

  /**
   * One held packet in an otherwise idle system, from the moment its session becomes unusable to the end. The session
   * is gone and the table is the server's exactly when the packet was sound. The two come apart unless it was sound or
   * another, final session was taken out in its place.
   */
  lemma ReleaseExact(c: Config, s: State, k: Segment, p: Ptr, spot: Ptr)
    requires Good(c, s) && Work(s) == 0 && c.recvCap > 0 && Enabled(c, s, HoldBack(k, p))
    requires spot != Arena.NULL && spot !in s.nodes
    ensures var run, x := [HoldBack(k, p)] + Cycle(spot), Held(s.count, k, p);
      && Legal(c, s, run)
      && var t, n := After(c, s, run), Moved(s.nodes, p, k.flags, k.from);
      && !t.failed && Work(t) == 0
      && ((p !in t.nodes && Table(t.nodes) == Mappings(t.server)) <==> Sound(n, x))
      && (Table(t.nodes) == Mappings(t.server) <==> Sound(n, x) || Instead(n, x))
  {
    hide Good, Table, Mappings, Sound, Instead, Legal, After, Moved, Cycle, Items, TcpVerdict;
    var x, n := Held(s.count, k, p), Moved(s.nodes, p, k.flags, k.from);
    GoodParts(c, s);
    var s1 := Next(c, s, HoldBack(k, p));
    HeldCycle(c, s, k, p, spot, s1);
    StepFirst(c, s, HoldBack(k, p), Cycle(spot));
  }

  /** The timer of a session the server has released already: the server acknowledges again, and the session goes. */
  lemma TimerMends(c: Config, s: State, q: Ptr, spot: Ptr)
    requires Idling(c, s) && Keyed(s.nodes) && q in s.nodes && Left(c, s.server, s.nodes[q].m)
    requires spot != Arena.NULL && spot !in s.nodes
    ensures var run, m := [Expire(q)] + Cycle(spot), s.nodes[q].m;
      && Legal(c, s, run)
      && var t := After(c, s, run);
      && !t.failed && Work(t) == 0 && t.nodes == s.nodes - {q}
      && Table(t.nodes) == Table(s.nodes) - {m} && Mappings(t.server) == Mappings(s.server) - {m}
  {
    hide Table, Mappings, Keyed, Answer, Inv, Cycle, Legal, After;
    var m, x := s.nodes[q].m, Expired(s.count, q);
    var msg := Message.Release(m, Entry(x, Timeout));
    AnswerKnown(c.limits, s.server, m, msg.cause);
    RemovedOne(s.nodes, q);
    var s1 := Next(c, s, Expire(q));
    CycleRuns(c, s1, msg, Answer(c.limits, s.server, msg).0, ReleaseAck(m, msg.cause), s.nodes - {q}, spot);
    StepFirst(c, s, Expire(q), Cycle(spot));
  }

  /** Where a release leaves table and server apart, they differ in one session, and its timer brings them together. */
  lemma ApartUntilTimer(c: Config, s: State, k: Segment, p: Ptr, spot: Ptr) returns (q: Ptr)
    requires Good(c, s) && Work(s) == 0 && c.recvCap > 0 && Enabled(c, s, HoldBack(k, p))
    requires spot != Arena.NULL && spot !in s.nodes
    ensures var run := [HoldBack(k, p)] + Cycle(spot);
      && Legal(c, s, run)
      && var t, mend := After(c, s, run), [Expire(q)] + Cycle(spot);
      Table(t.nodes) != Mappings(t.server) ==>
        && q in t.nodes && Mappings(t.server) == Table(t.nodes) - {t.nodes[q].m} && Legal(c, t, mend)
        && var u := After(c, t, mend); !u.failed && Work(u) == 0 && Table(u.nodes) == Mappings(u.server)
  {
    hide Good, Mappings, Sound, Instead, Legal, After, Moved, Cycle, Items, TcpVerdict, Compose, Left, Keyed;
    var x, n := Held(s.count, k, p), Moved(s.nodes, p, k.flags, k.from);
    q := p;
    GoodParts(c, s);
    var s1 := Next(c, s, HoldBack(k, p));
    HeldCycle(c, s, k, p, spot, s1);
    StepFirst(c, s, HoldBack(k, p), Cycle(spot));
    var t, m := After(c, s1, Cycle(spot)), Compose(n, x).value.m;
    if Table(t.nodes) != Mappings(t.server) {
      q :| q in t.nodes && t.nodes[q].m == m;
      hide Table;
      LessKeyed(t.nodes, n);
      assert Moved(s.nodes, p, k.flags, k.from).Keys == s.nodes.Keys by {
        MovedGrown(s.nodes, p, k.flags, k.from);
      }
      TimerMends(c, t, q, spot);
    }
  }

  lemma LessKeyed(t: Live, nodes: Live)
    requires Less(t, nodes) && Keyed(nodes)
    ensures Keyed(t)
  {
  }

  lemma HeldReady(c: Config, s: State, k: Segment, p: Ptr)
    requires Good(c, s) && Enabled(c, s, HoldBack(k, p))
    ensures var n, x := Moved(s.nodes, p, k.flags, k.from), Held(s.count, k, p);
      && Keyed(n) && ItemOk(n, x) && HeldState(x, n[p].state) && Table(n) == Table(s.nodes) && n.Keys == s.nodes.Keys
  {
    hide Good, Table, Keyed, TcpVerdict, Items;
    GoodParts(c, s);
    MovedGrown(s.nodes, p, k.flags, k.from);
    HeldBack(s.nodes[p].state, k.flags, k.from);
  }

  // ---- runs from the start in which they come apart ----

  /** One request in an idle system: the server assigns, the NAT takes the session in. */
  lemma RequestRuns(c: Config, s: State, lan: Endpoint, conn: Conn, spot: Ptr)
    requires Idling(c, s) && Assign(c.limits, s.server.tcp, lan).1 == Some(conn)
    requires spot != Arena.NULL && spot !in s.nodes && conn.lan == lan && Keyed(s.nodes)
    requires var m := Mapping(TCP, conn.lan, conn.wan); !LanTaken(Table(s.nodes), m) && !WanTaken(Table(s.nodes), m)
    ensures var run := [Arrive(TCP, lan)] + Cycle(spot);
      && Legal(c, s, run)
      && After(c, s, run) == s.(count := s.count + 1, server := s.server.(tcp := Assign(c.limits, s.server.tcp, lan).0),
                                nodes := s.nodes[spot := Entered(Mapping(TCP, conn.lan, conn.wan))])
  {
    hide Assign, Table, LanTaken, WanTaken, Cycle, Keyed, SentOn;
    var x := Syn(s.count, TCP, lan);
    var e := Entry(x, NoTag);
    var m := Mapping(TCP, conn.lan, conn.wan);
    var v := s.server.(tcp := Assign(c.limits, s.server.tcp, lan).0);
    var s1 := s.(hSend := [x], count := s.count + 1);
    assert Enabled(c, s, Arrive(TCP, lan)) && Next(c, s, Arrive(TCP, lan)) == s1;
    AddedOne(s.nodes, spot, m);
    EntersOne(s.nodes, spot, m, x);
    CycleRuns(c, s1, Message.Request(TCP, lan, e), v, RequestAck(m, e), s.nodes[spot := Entered(m)], spot);
    StepFirst(c, s, Arrive(TCP, lan), Cycle(spot));
  }

  const LIMITS := Limits(1, 2, 2)
  const CONFIG := Config(LIMITS, 1, 1)
  const POOL: U32 := 0xCB00_7107
  const FIRST := Endpoint(0x0A00_0001, 5)
  const SECOND := Endpoint(0x0A00_0002, 5)

  /** One pool address with two ports. */
  function Pool0(): Pool {
    AddAddress(LIMITS, EMPTY, POOL)
  }

  function State0(): State {
    State([], Idle, [], [], Server(Pool0(), Pool0()), [], Waiting, map[], 0, false)
  }

  lemma Assigned()
    ensures Inv(LIMITS, Pool0()) && Pool0().db == map[]
    ensures var (s1, r1) := Assign(LIMITS, Pool0(), FIRST);
      && r1 == Some(Conn(FIRST, Endpoint(POOL, 1)))
      && Assign(LIMITS, s1, SECOND).1 == Some(Conn(SECOND, Endpoint(POOL, 2)))
  {
    hide Inv;
    EmptyInv(LIMITS);
    AddKeeps(LIMITS, EMPTY, POOL);
    var s := Pool0();
    assert s.addrs == [POOL] && s.ports[POOL] == PortRange(1, 2) && |PortRange(1, 2)| == 2;
    assert PortRange(1, 2) == [1, 2];
    assert FreePorts(s, FIRST.ip) == [1, 2];
    var s1 := Assign(LIMITS, s, FIRST).0;
    assert s1.addrs == [POOL] && s1.ports[POOL] == [2];
    assert FreePorts(s1, SECOND.ip) == [2];
  }

  const M1 := Mapping(TCP, FIRST, Endpoint(POOL, 1))
  const M2 := Mapping(TCP, SECOND, Endpoint(POOL, 2))

  /** The run that sets up the first session, or both. */
  function Setup(both: bool): seq<Action> {
    ([Arrive(TCP, FIRST)] + Cycle(1)) + if both then [Arrive(TCP, SECOND)] + Cycle(2) else []
  }

  lemma SetupRuns(both: bool)
    ensures Start(CONFIG, State0()) && Legal(CONFIG, State0(), Setup(both)) && Directed(CONFIG, State0(), Setup(both))
    ensures var s := After(CONFIG, State0(), Setup(both));
      && Idling(CONFIG, s) && Work(s) == 0
      && s.count == (if both then 2 else 1)
      && s.nodes == SetUpNodes(both)
  {
    hide Assign, Cycle, Legal, After, Directed, Inv, Pool0;
    Assigned();
    var s0 := State0();
    RequestRuns(CONFIG, s0, FIRST, Conn(FIRST, Endpoint(POOL, 1)), 1);
    var first, second := [Arrive(TCP, FIRST)] + Cycle(1), [Arrive(TCP, SECOND)] + Cycle(2);
    var s1 := After(CONFIG, s0, first);
    if both {
      Taken(Table(s1.nodes), M2);
      RequestRuns(CONFIG, s1, SECOND, Conn(SECOND, Endpoint(POOL, 2)), 2);
      RunTwice(CONFIG, s0, first, second);
    } else {
      assert first + [] == first;
    }
    SetupPlain(both);
    RequestsOrderly(CONFIG, s0, Setup(both));
  }

  lemma SetupPlain(both: bool)
    ensures forall i :: 0 <= i < |Setup(both)| ==> Plain(Setup(both)[i])
  {
    hide Cycle;
    CyclePlain(1);
    CyclePlain(2);
  }

  lemma CyclePlain(spot: Ptr)
    ensures forall i :: 0 <= i < |Cycle(spot)| ==> Plain(Cycle(spot)[i])
  {
    assert Cycle(spot) == [Pop, Push, Send, Serve, Take, Change(spot)];
  }

  predicate Plain(a: Action) {
    !a.HoldBack? && !a.Expire?
  }

  predicate Requests(q: seq<Item>) {
    forall i :: 0 <= i < |q| ==> q[i].Syn?
  }

  /** Where nothing is ever released, every step is orderly. */
  lemma {:induction false} RequestsOrderly(c: Config, s: State, run: seq<Action>)
    requires Legal(c, s, run) && Requests(s.hSend) && forall i :: 0 <= i < |run| ==> Plain(run[i])
    ensures Directed(c, s, run)
    decreases |run|
  {
    hide Compose, Answer, Apply, Enabled, Sound;
    if run != [] {
      assert Plain(run[0]);
      RequestsNext(c, s, run[0]);
      assert forall i :: 0 <= i < |run[1..]| ==> run[1..][i] == run[i + 1];
      RequestsOrderly(c, Next(c, s, run[0]), run[1..]);
    }
  }

  lemma RequestsNext(c: Config, s: State, a: Action)
    requires Enabled(c, s, a) && Requests(s.hSend) && Plain(a)
    ensures Requests(Next(c, s, a).hSend) && Orderly(s, a)
  {
    hide Compose, Answer, Apply, Items;
  }

  /** The sessions at the end of the set-up, their SYNs sent on. */
  function SetUpNodes(both: bool): Live {
    if both then map[1 := Entered(M1), 2 := Entered(M2)] else map[1 := Entered(M1)]
  }

  /** An RST to the second session's WAN endpoint, from outside, that names the first session's LAN endpoint. */
  const MISDIRECTED := Segment(T.Wan, FIRST, Endpoint(POOL, 2), T.Flags(false, false, true, false), true, true)

  /** An acknowledgement from the first session's host, before any SYN+ACK. */
  const LOST := Segment(T.Lan, FIRST, Endpoint(0x0808_0808, 80), T.Flags(false, false, false, true), true, true)

  /**
   * An inbound RST whose source is another session's LAN endpoint: 10.0.0.2's session is reset by a packet that names
   * 10.0.0.1 as its source. The server releases the mapping of 10.0.0.1, the NAT keeps it, and nothing is left to do.
   */
  lemma MisdirectedRelease() returns (run: seq<Action>)
    ensures Legal(CONFIG, State0(), run) && Start(CONFIG, State0())
    ensures run == Setup(true) + ([HoldBack(MISDIRECTED, 2)] + Cycle(3))
    ensures var t := After(CONFIG, State0(), run);
      !t.failed && Work(t) == 0 && Table(t.nodes) != Mappings(t.server)
  {
    var k := MISDIRECTED;
    var n := Moved(SetUpNodes(true), 2, k.flags, k.from);
    run := HeldRun(true, k, 2);
    assert n[1] == Entered(M1) && HasLan(n, 1, TCP, FIRST);
    assert !Sound(n, Held(2, k, 2)) && !Instead(n, Held(2, k, 2));
  }

  /** An outbound packet that puts its session into the unknown state: the server releases it, the NAT keeps it. */
  lemma UnknownRelease() returns (run: seq<Action>)
    ensures Legal(CONFIG, State0(), run) && Start(CONFIG, State0())
    ensures run == Setup(false) + ([HoldBack(LOST, 1)] + Cycle(3))
    ensures var t := After(CONFIG, State0(), run);
      !t.failed && Work(t) == 0 && Table(t.nodes) != Mappings(t.server)
  {
    run := HeldRun(false, LOST, 1);
  }

  /** The set-up, then one held packet to its end. */
  lemma HeldRun(both: bool, k: Segment, p: Ptr) returns (run: seq<Action>)
    requires var nodes := SetUpNodes(both);
      p in nodes && Finds(k, nodes[p].m) && TcpVerdict(nodes[p].state, k.flags, k.from).0 == ALIAS_RESET_TABLE
    ensures Legal(CONFIG, State0(), run) && Start(CONFIG, State0())
    ensures var nodes := SetUpNodes(both);
      var t, n, x := After(CONFIG, State0(), run), Moved(nodes, p, k.flags, k.from), Held(if both then 2 else 1, k, p);
      && !t.failed && Work(t) == 0
      && (Table(t.nodes) == Mappings(t.server) <==> Sound(n, x) || Instead(n, x))
    ensures run == Setup(both) + ([HoldBack(k, p)] + Cycle(3))
  {
    hide Legal, After, Directed, Start, Good, Sound, Instead, Table, Mappings, Cycle, TcpVerdict, Moved, State0, Setup;
    SetupRuns(both);
    var s := After(CONFIG, State0(), Setup(both));
    StartGood(CONFIG, State0());
    RunGood(CONFIG, State0(), Setup(both));
    ReleaseExact(CONFIG, s, k, p, 3);
    run := Setup(both) + ([HoldBack(k, p)] + Cycle(3));
    RunTwice(CONFIG, State0(), Setup(both), [HoldBack(k, p)] + Cycle(3));
  }
}
