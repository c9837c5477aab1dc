/** Two releases under way at once: what becomes of the second, however the threads are scheduled. */
module ProtocolRaces {
  import opened Lookups
  import opened Sessions
  import opened Pools
  import opened Protocol
  import opened ProtocolFifo
  import opened ProtocolReplica
  import opened ProtocolLimits
  import opened ProtocolPlans
  import opened Verdicts
  import T = TcpTracker

  // ---- first a reset, then a timer ----

  /** The release the sender writes for an item that is not a request and finds a session. */
  ghost function Written(nodes: Live, x: Item, m: Mapping): (msg: Message)
    ensures msg.Release?
    ensures Compose(nodes, x).Some? && Compose(nodes, x).value.Release? ==> msg == Compose(nodes, x).value
  {
    var msg := Compose(nodes, x);
    if msg.Some? && msg.value.Release? then msg.value else Message.Release(m, Entry(x, NoTag))
  }

  /** The table once the release is acknowledged and applied, where that is possible. */
  ghost function Acked(nodes: Live, msg: Message): (t: Live)
    requires msg.Release?
    ensures var a := Apply(nodes, ReleaseAck(msg.m, msg.cause), msg.cause, 1); a.Some? ==> a == Some(t)
  {
    var a := Apply(nodes, ReleaseAck(msg.m, msg.cause), msg.cause, 1);
    if a.Some? then a.value else nodes
  }

  /** What the threads make of the release for a held packet and of the one for the timer after it. */
  ghost function ResetPlan(c: Config, s: State, k: Segment, p: Ptr): Plan
    requires p in s.nodes
  {
    var n, x, y := Moved(s.nodes, p, k.flags, k.from), Held(s.count, k, p), Expired(s.count + 1, p);
    var msg := Written(n, x, n[p].m);
    var v1, d := Answer(c.limits, s.server, msg).0, Acked(n, msg);
    var w := TimerTail(c, v1, d, n[p].m, y);
    Plan(true, true, x, y, Expire(p), s.count, n, d, n, d, msg, s.server, v1, ReleaseAck(msg.m, msg.cause), w,
         if p in d then Some(w) else None)
  }

  /** What the release for an expired session comes to. */
  ghost function TimerTail(c: Config, v: Server, nodes: Live, m: Mapping, y: Item): Tail {
    var e := Entry(y, Timeout);
    Tail(Message.Release(m, e), Answer(c.limits, v, Message.Release(m, e)).0, ReleaseAck(m, e),
         Apply(nodes, ReleaseAck(m, e), e, 1))
  }

  /** Two releases of mappings the server has: both are acknowledged, the same mapping or not. */
  lemma AnswersTwo(k: Limits, v: Server, m: Mapping, e: Entry, m2: Mapping, e2: Entry)
    requires Inv(k, v.tcp) && Inv(k, v.udp) && m in Mappings(v) && m2 in Mappings(v)
    ensures var (v1, r1) := Answer(k, v, Message.Release(m, e));
      var (v2, r2) := Answer(k, v1, Message.Release(m2, e2));
      && r1 == Some(ReleaseAck(m, e)) && Mappings(v1) == Mappings(v) - {m}
      && r2 == Some(ReleaseAck(m2, e2)) && Mappings(v2) == Mappings(v) - {m} - {m2}
  {
    hide Inv, Mappings, Answer;
    MappingKnown(k, v, m);
    MappingKnown(k, v, m2);
    AnswerKnown(k, v, m, e);
    AnswerKnown(k, Answer(k, v, Message.Release(m, e)).0, m2, e2);
  }

  lemma ResetHolds(c: Config, s: State, k: Segment, p: Ptr)
    requires Good(c, s) && Work(s) == 0 && Enabled(c, s, HoldBack(k, p))
    ensures var pl := ResetPlan(c, s, k, p);
      && p in pl.n1 && Correct(c, pl) && (p in pl.d1 <==> !Sound(pl.n1, pl.x)) && Less(pl.d1, pl.n1)
  {
    hide Good, Table, Mappings, Keyed, Sound, Instead, Apply, Answer, Inv, Moved, HeldState, Items, TcpVerdict;
    var pl := ResetPlan(c, s, k, p);
    GoodParts(c, s);
    Quiet(c, s);
    HeldReady(c, s, k, p);
    HeldApply(pl.n1, pl.x, 1);
    ComposeCause(pl.n1, pl.x);
    InTable(pl.n1, p);
    AnswersTwo(c.limits, s.server, pl.message.m, pl.message.cause, pl.n1[p].m, Entry(pl.y, Timeout));
    assert Compose(pl.n1, pl.y) == Some(pl.early.message);
  }

  lemma ResetArrives(c: Config, s: State, k: Segment, p: Ptr)
    requires Good(c, s) && Work(s) == 0 && Enabled(c, s, HoldBack(k, p))
    ensures var pl := ResetPlan(c, s, k, p);
      Arrives(c, pl) && Next(c, s, HoldBack(k, p)) == Stage(pl, pl.early, 0, -1)
  {
    hide Good, Table, Mappings, Compose, Apply, Answer, Moved, Items, TcpVerdict, Finds, Stage, Arrives, Work;
    hide TimerTail;
    var pl := ResetPlan(c, s, k, p);
    TimerComes(c, pl, p);
    FirstComes(c, pl, s, pl.n0);
  }

  /** What ReleaseExact says holds for every schedule of the threads. */
  lemma ReleaseEverySchedule(c: Config, s: State, k: Segment, p: Ptr, run: seq<Action>)
    requires Good(c, s) && Work(s) == 0 && c.recvCap > 0 && Enabled(c, s, HoldBack(k, p))
    requires Legal(c, Next(c, s, HoldBack(k, p)), run) && forall i :: 0 <= i < |run| ==> Internal(run[i])
    requires Over(After(c, Next(c, s, HoldBack(k, p)), run))
    ensures var n, x := Moved(s.nodes, p, k.flags, k.from), Held(s.count, k, p);
      var t := After(c, Next(c, s, HoldBack(k, p)), run);
      && !t.failed
      && ((p !in t.nodes && Table(t.nodes) == Mappings(t.server)) <==> Sound(n, x))
      && (Table(t.nodes) == Mappings(t.server) <==> Sound(n, x) || Instead(n, x))
  {
    hide Good, Table, Mappings, Sound, Instead, Moved, Items, TcpVerdict, Compose, Correct, Arrives, Stage, Work;
    hide Enabled, Legal, After, Next, Queued, Answer, Apply;
    var spot := FreeSpot(s.nodes);
    ReleaseExact(c, s, k, p, spot);
    HeldReady(c, s, k, p);
    ResetHolds(c, s, k, p);
    ResetArrives(c, s, k, p);
    var pl := ResetPlan(c, s, k, p);
    var s1 := Next(c, s, HoldBack(k, p));
    SoleRuns(c, pl, pl.early, 0, run);
    FirstOff(c, s, HoldBack(k, p), Cycle(spot));
    CyclesInternal(spot);
    SoleRuns(c, pl, pl.early, 0, Cycle(spot));
  }

  lemma FirstOff(c: Config, s: State, a: Action, run: seq<Action>)
    requires Legal(c, s, [a] + run)
    ensures Enabled(c, s, a) && Legal(c, Next(c, s, a), run)
    ensures After(c, s, [a] + run) == After(c, Next(c, s, a), run)
  {
    hide Enabled, Next;
    assert ([a] + run)[1..] == run;
  }

  lemma CyclesInternal(spot: Ptr)
    ensures forall i :: 0 <= i < |Cycle(spot)| ==> Internal(Cycle(spot)[i])
  {
    assert Cycle(spot) == [Pop, Push, Send, Serve, Take, Change(spot)];
  }

  /** The table and the server once both releases are through. */
  lemma ResetEnds(c: Config, s: State, k: Segment, p: Ptr)
    requires Good(c, s) && Work(s) == 0 && Enabled(c, s, HoldBack(k, p)) && p in ResetPlan(c, s, k, p).d1
    ensures var pl := ResetPlan(c, s, k, p);
      var q, w := FindLan(pl.n1, TCP, k.src), pl.early;
      && w.nodes.Some?
      && (Table(w.nodes.value) == Mappings(w.server) <==> Instead(pl.n1, pl.x) || q == None || q == Some(p))
  {
    hide Good, Table, Mappings, Keyed, Sound, Instead, Apply, Answer, Inv, Moved, HeldState, Items, TcpVerdict, Compose;
    var pl := ResetPlan(c, s, k, p);
    GoodParts(c, s);
    Quiet(c, s);
    HeldReady(c, s, k, p);
    ResetHolds(c, s, k, p);
    HeldApply(pl.n1, pl.x, 1);
    ComposeCause(pl.n1, pl.x);
    ComposeExact(pl.n1, pl.x);
    InTable(pl.n1, p);
    AnswersTwo(c.limits, s.server, pl.message.m, pl.message.cause, pl.n1[p].m, Entry(pl.y, Timeout));
    LessKeyed(pl.d1, pl.n1);
    RemovedOne(pl.d1, p);
    TimerApplied(pl.d1, p, pl.n1[p].m, pl.y);
    BothOut(Table(pl.n1), pl.message.m, pl.n1[p].m);
  }

  lemma BothOut(t: set<Mapping>, m: Mapping, m2: Mapping)
    requires m in t
    ensures t - {m2} == t - {m} - {m2} <==> m == m2
  {
    if t - {m2} == t - {m} - {m2} {
      assert m !in t - {m2};
    }
  }

  lemma TimerApplied(nodes: Live, p: Ptr, m: Mapping, y: Item)
    requires p in nodes && y.Expired? && y.node == p
    ensures Apply(nodes, ReleaseAck(m, Entry(y, Timeout)), Entry(y, Timeout), 1) == Some(nodes - {p})
  {
  }

  /**
   * A timer that fires while the release of a reset session is under way, whenever it does and however the threads are
   * scheduled: some thread uses the node after the receiver has freed it exactly if the first release was sound, and
   * that is the sender if it takes the timer's item up after the node went, and the receiver otherwise. If the first
   * release was not sound, the second takes the session out, and table and server are in step again exactly if the
   * first one was for that session or took another one out on both sides.
   */
  lemma SecondRelease(c: Config, s: State, k: Segment, p: Ptr, run: seq<Action>, e: nat)
    requires Good(c, s) && Work(s) == 0 && Enabled(c, s, HoldBack(k, p)) && Legal(c, Next(c, s, HoldBack(k, p)), run)
    requires e < |run| && run[e] == Expire(p) && forall i :: 0 <= i < |run| && i != e ==> Internal(run[i])
    requires Over(After(c, Next(c, s, HoldBack(k, p)), run))
    ensures var n, x := Moved(s.nodes, p, k.flags, k.from), Held(s.count, k, p);
      var t, q := After(c, Next(c, s, HoldBack(k, p)), run), FindLan(n, TCP, k.src);
      && (t.failed <==> Sound(n, x))
      && (t.failed ==> (t.hSend != [] <==> Late(run)))
      && (!t.failed ==> (Table(t.nodes) == Mappings(t.server) <==> Instead(n, x) || q == None || q == Some(p)))
  {
    hide Good, Table, Mappings, Keyed, Sound, Instead, Apply, Answer, Inv, Moved, Items, TcpVerdict, Compose, Correct;
    hide Legal, After, Work, Next, Late, Popped, Arrives, Stage, Over, Changed;
    var pl := ResetPlan(c, s, k, p);
    hide Enabled;
    ResetHolds(c, s, k, p);
    ResetArrives(c, s, k, p);
    RunsFrom(c, pl, Next(c, s, HoldBack(k, p)), run, e);
    if p in pl.d1 {
      ResetEnds(c, s, k, p);
    } else {
      NodeGone(pl.d1, p, pl.n1[p].m, pl.y);
    }
  }

  lemma NodeGone(nodes: Live, p: Ptr, m: Mapping, y: Item)
    requires p !in nodes && y.Expired? && y.node == p
    ensures Apply(nodes, ReleaseAck(m, Entry(y, Timeout)), Entry(y, Timeout), 1) == None
  {
  }

  // ---- first a timer, then a reset ----

  /** What the release for a held packet comes to. */
  ghost function HeldTail(c: Config, v: Server, nodes: Live, msg: Message): Tail
    requires msg.Release?
  {
    var r := ReleaseAck(msg.m, msg.cause);
    Tail(msg, Answer(c.limits, v, msg).0, r, Apply(nodes, r, msg.cause, 1))
  }

  /** What the threads make of the release for a timer and of the one for a packet held back after it. */
  ghost function TimerPlan(c: Config, s: State, k: Segment, p: Ptr): Plan
    requires p in s.nodes
  {
    var n, x, y := Moved(s.nodes, p, k.flags, k.from), Expired(s.count, p), Held(s.count + 1, k, p);
    var w := TimerTail(c, s.server, n, n[p].m, x);
    Plan(true, true, x, y, HoldBack(k, p), s.count, s.nodes, s.nodes - {p}, n, n - {p},
         w.message, s.server, w.server, w.reply,
         HeldTail(c, w.server, n - {p}, Written(n, y, n[p].m)),
         if Compose(n - {p}, y).None? then None
         else Some(HeldTail(c, w.server, n - {p}, Written(n - {p}, y, n[p].m))))
  }

  lemma HeldMessage(nodes: Live, x: Item)
    requires x.Held?
    ensures var msg, q, r := Compose(nodes, x), FindLan(nodes, TCP, x.packet.src), FindWan(nodes, TCP, x.packet.dst);
      && (msg.None? <==> q.None? && r.None?)
      && (msg.Some? ==> msg.value.Release? && msg.value.m in Table(nodes) && msg.value.cause.item == x)
      && (q.Some? ==> msg.Some? && msg.value.cause.tag == RelL2W && msg.value.m == nodes[q.value].m)
      && (q.None? && r.Some? ==> msg.Some? && msg.value.cause.tag == RelW2L && msg.value.m == nodes[r.value].m)
  {
    hide FindLan, FindWan;
  }

  /** Sessions of one protocol that share an endpoint on one side are one. */
  lemma SameFound(nodes: Live, t: Live, e: Endpoint)
    requires Keyed(nodes) && Less(t, nodes)
    ensures var q, r := FindLan(nodes, TCP, e), FindLan(t, TCP, e); r.Some? ==> q == r
    ensures var q, r := FindWan(nodes, TCP, e), FindWan(t, TCP, e); r.Some? ==> q == r
  {
    var q, r := FindLan(nodes, TCP, e), FindLan(t, TCP, e);
    if r.Some? {
      assert HasLan(nodes, r.value, TCP, e);
      assert Meet(nodes[r.value].m, nodes[q.value].m);
    }
    var q', r' := FindWan(nodes, TCP, e), FindWan(t, TCP, e);
    if r'.Some? {
      assert HasWan(nodes, r'.value, TCP, e);
      assert Meet(nodes[r'.value].m, nodes[q'.value].m);
    }
  }

  lemma ForwardedKnown(nodes: Live, q: Option<Ptr>, f: T.Flags, from: T.Side, m: Mapping)
    requires q.Some? && q.value in nodes ==> m in Table(nodes)
    ensures Forwarded(nodes, q, f, from, m).Some?
    ensures m !in Table(nodes) ==> Forwarded(nodes, q, f, from, m) == Some(nodes)
  {
    hide TcpVerdict, Table;
    if q.Some? && q.value in nodes {
      MovedGrown(nodes, q.value, f, from);
    }
  }

  /** A release for a held packet, composed from nodes, is applied without an exit after sessions left. */
  lemma HeldLater(nodes: Live, t: Live, y: Item)
    requires Keyed(nodes) && Less(t, nodes) && y.Held? && Compose(nodes, y).Some?
    ensures var msg := Compose(nodes, y).value;
      && msg.Release? && Apply(t, ReleaseAck(msg.m, msg.cause), msg.cause, 1).Some?
      && (msg.m !in Table(t) ==> Apply(t, ReleaseAck(msg.m, msg.cause), msg.cause, 1) == Some(t))
  {
    hide FindLan, FindWan, Forwarded, Table, Keyed;
    HeldMessage(nodes, y);
    var msg, k := Compose(nodes, y).value, y.packet;
    SameFound(nodes, t, k.src);
    SameFound(nodes, t, k.dst);
    var q, r := FindLan(t, TCP, k.src), FindWan(t, TCP, k.dst);
    if q.Some? {
      InTable(t, q.value);
    }
    if r.Some? {
      InTable(t, r.value);
    }
    if FindLan(nodes, TCP, k.src).Some? {
      ForwardedKnown(t, if k.outward then q else None, k.flags, T.Lan, msg.m);
    } else {
      ForwardedKnown(t, if k.inward then r else None, k.flags, T.Wan, msg.m);
    }
  }

  /** The packet held back finds at least its own session. */
  lemma TimerReady(c: Config, s: State, k: Segment, p: Ptr)
    requires Good(c, s) && Work(s) == 0 && Enabled(c, s, HoldBack(k, p))
    ensures var n, y := Moved(s.nodes, p, k.flags, k.from), Held(s.count + 1, k, p);
      && Keyed(n) && p in n && n[p].m == s.nodes[p].m && Compose(n, y).Some? && Table(n) == Mappings(s.server)
      && Compose(n, y).value.Release? && Compose(n, y).value.cause.item == y
      && var q := FindLan(n, TCP, k.src); (Compose(n, y).value.m == n[p].m <==> q == None || q == Some(p))
  {
    hide Good, Table, Mappings, Keyed, FindLan, FindWan, TcpVerdict, Items;
    var n, y := Moved(s.nodes, p, k.flags, k.from), Held(s.count + 1, k, p);
    GoodParts(c, s);
    Quiet(c, s);
    HeldReady(c, s, k, p);
    ComposeExact(n, y);
    HeldMessage(n, y);
  }

  /** After a release of m, one for a packet that finds something in nodes, or in the later table t, goes through. */
  lemma TailHolds(c: Config, v: Server, nodes: Live, t: Live, y: Item, m: Mapping, e: Entry)
    requires Inv(c.limits, v.tcp) && Inv(c.limits, v.udp) && m in Mappings(v)
    requires Keyed(nodes) && Less(t, nodes) && Table(nodes) == Mappings(v) && y.Held?
    ensures var w := HeldTail(c, Answer(c.limits, v, Message.Release(m, e)).0, t, Written(nodes, y, m));
      Compose(nodes, y).Some? ==>
        && Compose(nodes, y) == Some(w.message) && w.nodes.Some?
        && Answered(c.limits, Answer(c.limits, v, Message.Release(m, e)).0, t, w)
    ensures var w := HeldTail(c, Answer(c.limits, v, Message.Release(m, e)).0, t, Written(t, y, m));
      Compose(t, y).Some? ==>
        && Compose(t, y) == Some(w.message) && w.nodes.Some?
        && Answered(c.limits, Answer(c.limits, v, Message.Release(m, e)).0, t, w)
  {
    hide Table, Mappings, Keyed, Inv, Compose, Answer, Apply, FindLan, FindWan;
    LessKeyed(t, nodes);
    HeldMessage(nodes, y);
    HeldMessage(t, y);
    if Compose(nodes, y).Some? {
      var msg := Compose(nodes, y).value;
      HeldLater(nodes, t, y);
      AnswersTwo(c.limits, v, m, e, msg.m, msg.cause);
    }
    if Compose(t, y).Some? {
      var msg := Compose(t, y).value;
      HeldLater(t, t, y);
      TableLess(t, nodes, msg.m);
      AnswersTwo(c.limits, v, m, e, msg.m, msg.cause);
    }
  }

  lemma TimerHolds(c: Config, s: State, k: Segment, p: Ptr)
    requires Good(c, s) && Work(s) == 0 && Enabled(c, s, HoldBack(k, p))
    ensures var pl := TimerPlan(c, s, k, p);
      && Correct(c, pl) && pl.early.nodes.Some? && (pl.late.Some? ==> pl.late.value.nodes.Some?)
      && (pl.late.None? <==> FindLan(pl.d1, TCP, k.src) == None && FindWan(pl.d1, TCP, k.dst) == None)
  {
    hide Good, Table, Mappings, Keyed, Inv, Moved, Items, TcpVerdict, FindLan, FindWan, Compose, Apply, Answer, Finds;
    hide Work, Queued;
    TimerReady(c, s, k, p);
    GoodParts(c, s);
    Quiet(c, s);
    var pl := TimerPlan(c, s, k, p);
    var m, e := s.nodes[p].m, Entry(pl.x, Timeout);
    TimerComposed(pl.n0, pl.x);
    TimerComposed(pl.n1, pl.x);
    TimerApplied(pl.n0, p, m, pl.x);
    TimerApplied(pl.n1, p, m, pl.x);
    InTable(s.nodes, p);
    AnswersTwo(c.limits, s.server, m, e, m, e);
    TailHolds(c, s.server, pl.n1, pl.d1, pl.y, m, e);
    HeldMessage(pl.d1, pl.y);
  }

  lemma TimerComposed(nodes: Live, x: Item)
    requires x.Expired? && x.node in nodes
    ensures Compose(nodes, x) == Some(Message.Release(nodes[x.node].m, Entry(x, Timeout)))
  {
  }

  /** The server is asked twice for the same mapping, and the NAT has nothing more to delete. */
  lemma TimerEnds(c: Config, s: State, k: Segment, p: Ptr)
    requires Good(c, s) && Work(s) == 0 && Enabled(c, s, HoldBack(k, p))
    requires TimerPlan(c, s, k, p).early.message.m == s.nodes[p].m
    ensures var w := TimerPlan(c, s, k, p).early;
      w.nodes.Some? && Table(w.nodes.value) == Mappings(w.server)
  {
    hide Good, Table, Mappings, Keyed, Inv, Moved, Items, TcpVerdict, Compose, Apply, Answer;
    TimerReady(c, s, k, p);
    GoodParts(c, s);
    Quiet(c, s);
    var pl := TimerPlan(c, s, k, p);
    var m, e := s.nodes[p].m, Entry(pl.x, Timeout);
    RemovedOne(pl.n1, p);
    LessKeyed(pl.d1, pl.n1);
    HeldLater(pl.n1, pl.d1, pl.y);
    InTable(pl.n1, p);
    AnswersTwo(c.limits, s.server, m, e, pl.early.message.m, pl.early.message.cause);
  }

  lemma TableLess(t: Live, nodes: Live, m: Mapping)
    requires Less(t, nodes) && m in Table(t)
    ensures m in Table(nodes)
  {
    var p :| p in t && t[p].m == m;
    assert nodes[p].m == m;
  }

  lemma TimerArrives(c: Config, s: State, k: Segment, p: Ptr)
    requires Good(c, s) && Work(s) == 0 && Enabled(c, s, Expire(p))
    ensures var pl := TimerPlan(c, s, k, p);
      Arrives(c, pl) && Next(c, s, Expire(p)) == Stage(pl, pl.early, 0, -1)
  {
    hide Good, Table, Mappings, Compose, Apply, Answer, Moved, Items, TcpVerdict, Finds, Stage, Arrives, Work;
    hide TimerTail, HeldTail;
    var pl := TimerPlan(c, s, k, p);
    PacketComes(c, pl, k, p);
    FirstComes(c, pl, s, pl.n0);
  }

  /**
   * A packet that is held back while the release of its session's timer is under way, whenever it is and however the
   * threads are scheduled: the sender finds no session and uses NULL exactly if it takes the packet up after the node
   * went and neither of the packet's endpoints is another session's. Taken up before, and with no other session at its
   * source, the packet does no harm: its release finds nothing left to do, and table and server are in step.
   */
  lemma ResetAfterTimer(c: Config, s: State, k: Segment, p: Ptr, run: seq<Action>, e: nat)
    requires Good(c, s) && Work(s) == 0 && Enabled(c, s, Expire(p)) && Legal(c, Next(c, s, Expire(p)), run)
    requires Enabled(c, s, HoldBack(k, p))
    requires e < |run| && run[e] == HoldBack(k, p) && forall i :: 0 <= i < |run| && i != e ==> Internal(run[i])
    requires Over(After(c, Next(c, s, Expire(p)), run))
    ensures var t, n := After(c, Next(c, s, Expire(p)), run), Moved(s.nodes, p, k.flags, k.from);
      var q := FindLan(n, TCP, k.src);
      && (t.failed <==> Late(run) && FindLan(n - {p}, TCP, k.src) == None && FindWan(n - {p}, TCP, k.dst) == None)
      && (t.failed ==> t.hSend != [])
      && (!Late(run) && (q == None || q == Some(p)) ==> Table(t.nodes) == Mappings(t.server))
  {
    hide Good, Table, Mappings, Keyed, Apply, Answer, Inv, Moved, Items, TcpVerdict, Compose, Correct, FindLan, FindWan;
    hide Legal, After, Work, Next, Late, Popped, Arrives, Stage, Over, Changed;
    TimerReady(c, s, k, p);
    TimerHolds(c, s, k, p);
    TimerArrives(c, s, k, p);
    var pl := TimerPlan(c, s, k, p);
    RunsFrom(c, pl, Next(c, s, Expire(p)), run, e);
    if pl.early.message.m == s.nodes[p].m {
      TimerEnds(c, s, k, p);
    }
  }

  // ---- two timers ----

  ghost function TimersPlan(c: Config, s: State, p: Ptr): Plan
    requires p in s.nodes
  {
    var n, m := s.nodes, s.nodes[p].m;
    var x, y := Expired(s.count, p), Expired(s.count + 1, p);
    var w := TimerTail(c, s.server, n, m, x);
    Plan(true, true, x, y, Expire(p), s.count, n, n - {p}, n, n - {p}, w.message, s.server, w.server, w.reply,
         TimerTail(c, w.server, n - {p}, m, y), None)
  }

  lemma TimersHold(c: Config, s: State, p: Ptr)
    requires Good(c, s) && Work(s) == 0 && Enabled(c, s, Expire(p))
    ensures var pl := TimersPlan(c, s, p);
      Correct(c, pl) && pl.early.nodes.None?
  {
    hide Good, Table, Mappings, Answer, Items, Compose, Apply, Work, Queued, Inv;
    GoodParts(c, s);
    Quiet(c, s);
    InTable(s.nodes, p);
    var pl := TimersPlan(c, s, p);
    var m := s.nodes[p].m;
    TimerComposed(pl.n0, pl.x);
    TimerComposed(pl.n0, pl.y);
    TimerApplied(pl.n0, p, m, pl.x);
    NodeGone(pl.d1, p, m, pl.y);
    NothingComposed(pl.d1, pl.y);
    AnswersTwo(c.limits, s.server, m, Entry(pl.x, Timeout), m, Entry(pl.y, Timeout));
  }

  lemma NothingComposed(nodes: Live, x: Item)
    requires x.Expired? && x.node !in nodes
    ensures Compose(nodes, x) == None
  {
  }

  lemma TimersArrive(c: Config, s: State, p: Ptr)
    requires Good(c, s) && Work(s) == 0 && Enabled(c, s, Expire(p))
    ensures var pl := TimersPlan(c, s, p);
      Arrives(c, pl) && Next(c, s, Expire(p)) == Stage(pl, pl.early, 0, -1)
  {
    hide Good, Table, Mappings, Compose, Apply, Answer, Moved, Items, TcpVerdict, Finds, Stage, Arrives, Work;
    hide TimerTail;
    var pl := TimersPlan(c, s, p);
    TimerComes(c, pl, p);
    FirstComes(c, pl, s, pl.n0);
  }

  /** A session released by two timers at once always ends in the use of a freed node, by one thread or the other. */
  lemma TimerTwice(c: Config, s: State, p: Ptr, run: seq<Action>, e: nat)
    requires Good(c, s) && Work(s) == 0 && Enabled(c, s, Expire(p)) && Legal(c, Next(c, s, Expire(p)), run)
    requires e < |run| && run[e] == Expire(p) && forall i :: 0 <= i < |run| && i != e ==> Internal(run[i])
    requires Over(After(c, Next(c, s, Expire(p)), run))
    ensures var t := After(c, Next(c, s, Expire(p)), run); t.failed && (t.hSend != [] <==> Late(run))
  {
    hide Good, Apply, Answer, Items, Compose, Correct, Legal, After, Work, Next, Late, Popped, Arrives, Stage, Over;
    hide Changed;
    TimersHold(c, s, p);
    TimersArrive(c, s, p);
    var pl := TimersPlan(c, s, p);
    RunsFrom(c, pl, Next(c, s, Expire(p)), run, e);
  }

  // ---- two packets ----

  /** Only a session in the unknown state holds a second packet back, and it stays there unless that is an RST. */
  lemma SecondHeld(c: Config, s: State, k: Segment, p: Ptr, k2: Segment)
    requires Good(c, s) && Work(s) == 0 && Enabled(c, s, HoldBack(k, p))
    requires var n := Moved(s.nodes, p, k.flags, k.from);
      p in n && Finds(k2, n[p].m) && TcpVerdict(n[p].state, k2.flags, k2.from).0 == ALIAS_RESET_TABLE
    ensures var n := Moved(s.nodes, p, k.flags, k.from);
      var n2 := Moved(n, p, k2.flags, k2.from);
      && Keyed(n) && Keyed(n2) && Table(n) == Mappings(s.server) && Table(n2) == Table(n) && Less(n2, n)
      && n[p].m == s.nodes[p].m && n[p].state == T.Unknown && Finds(k, n[p].m)
      && p in n2 && n2[p].m == n[p].m && k.from == T.Lan && !k.flags.rst
      && if k2.flags.rst then n2[p].state == T.Reset else n2 == n
  {
    hide Good, Table, Mappings, Keyed, Items;
    var n := Moved(s.nodes, p, k.flags, k.from);
    GoodParts(c, s);
    Quiet(c, s);
    HeldReady(c, s, k, p);
    HeldBack(s.nodes[p].state, k.flags, k.from);
    MovedGrown(n, p, k2.flags, k2.from);
    hide T.TcpStateCheck;
    HeldBack(n[p].state, k2.flags, k2.from);
    assert !k2.flags.rst ==> Moved(n, p, k2.flags, k2.from) == n;
  }

  /** The first packet leaves its session in the unknown state; the second comes before the first is done, or after. */
  ghost function PacketsPlan(c: Config, s: State, k: Segment, p: Ptr, k2: Segment, before: bool): Plan
    requires p in s.nodes
  {
    var n := Moved(s.nodes, p, k.flags, k.from);
    var n2 := Moved(n, p, k2.flags, k2.from);
    var x, y, m := Held(s.count, k, p), Held(s.count + 1, k2, p), s.nodes[p].m;
    var w := HeldTail(c, s.server, n, Message.Release(m, Entry(x, RelL2W)));
    var d := if before && k2.flags.rst then n2 - {p} else n2;
    var early := HeldTail(c, w.server, d, Written(n2, y, m));
    Plan(before, !before, x, y, HoldBack(k2, p), s.count, n, n, n2, d, w.message, s.server, w.server, w.reply, early,
         if before && Compose(d, y).None? then None else Some(HeldTail(c, w.server, d, Written(d, y, m))))
  }

  /** The first packet is held back once more and stays without effect, unless the second has reset its session. */
  lemma FirstHeld(n: Live, x: Item, p: Ptr)
    requires x.Held? && Keyed(n) && p in n && Finds(x.packet, n[p].m) && x.packet.from == T.Lan
    ensures var e := Entry(x, RelL2W);
      var msg := Message.Release(n[p].m, e);
      && Compose(n, x) == Some(msg)
      && (n[p].state == T.Unknown && !x.packet.flags.rst ==> Apply(n, ReleaseAck(n[p].m, e), e, 1) == Some(n))
      && (n[p].state == T.Reset ==> Apply(n, ReleaseAck(n[p].m, e), e, 1) == Some(n - {p}))
  {
    hide FindLan, FindWan, Keyed, DeleteValue;
    FindsOwn(n, p);
    HeldAgain(n[p].state, x.packet.flags);
    if n[p].state == T.Reset {
      Through(n, p, x.packet.flags, T.Lan);
    }
    assert n[p := n[p].(state := n[p].state)] == n;
  }

  lemma PacketsFirst(c: Config, s: State, k: Segment, p: Ptr, k2: Segment, before: bool)
    requires Good(c, s) && Work(s) == 0 && Enabled(c, s, HoldBack(k, p))
    requires var n := Moved(s.nodes, p, k.flags, k.from);
      p in n && Finds(k2, n[p].m) && TcpVerdict(n[p].state, k2.flags, k2.from).0 == ALIAS_RESET_TABLE
    ensures var pl := PacketsPlan(c, s, k, p, k2, before);
      && Compose(pl.n0, pl.x) == Some(pl.message) && Compose(pl.n1, pl.x) == Some(pl.message)
      && Apply(pl.n0, pl.reply, pl.message.cause, 1) == Some(pl.d0)
      && (before ==> Apply(pl.n1, pl.reply, pl.message.cause, 1) == Some(pl.d1))
  {
    SecondHeld(c, s, k, p, k2);
    hide Good, Table, Mappings, Keyed, TcpVerdict, FindLan, FindWan, Answer, Finds, Compose, Apply, Moved;
    var pl := PacketsPlan(c, s, k, p, k2, before);
    FirstHeld(pl.n0, pl.x, p);
    FirstHeld(pl.n1, pl.x, p);
  }

  lemma PacketsHold(c: Config, s: State, k: Segment, p: Ptr, k2: Segment, before: bool)
    requires Good(c, s) && Work(s) == 0 && Enabled(c, s, HoldBack(k, p))
    requires var n := Moved(s.nodes, p, k.flags, k.from);
      p in n && Finds(k2, n[p].m) && TcpVerdict(n[p].state, k2.flags, k2.from).0 == ALIAS_RESET_TABLE
    ensures var pl := PacketsPlan(c, s, k, p, k2, before);
      && Correct(c, pl) && pl.early.nodes.Some? && (pl.late.Some? ==> pl.late.value.nodes.Some?)
      && (pl.late.None? <==> before && k2.flags.rst
                             && FindLan(pl.d1, TCP, k2.src) == None && FindWan(pl.d1, TCP, k2.dst) == None)
  {
    hide Good, Table, Mappings, Keyed, TcpVerdict, FindLan, FindWan, Answer, Finds, Compose, Apply, Moved, Inv, Work;
    hide Queued, Items;
    SecondHeld(c, s, k, p, k2);
    PacketsFirst(c, s, k, p, k2, before);
    GoodParts(c, s);
    var pl := PacketsPlan(c, s, k, p, k2, before);
    var m, e := s.nodes[p].m, Entry(pl.x, RelL2W);
    InTable(pl.n0, p);
    OwnFound(pl.n1, pl.y);
    AnswersTwo(c.limits, s.server, m, e, m, e);
    TailHolds(c, s.server, pl.n1, pl.d1, pl.y, m, e);
    HeldMessage(pl.d1, pl.y);
  }

  lemma OwnFound(n: Live, y: Item)
    requires Keyed(n) && y.Held? && y.node in n && Finds(y.packet, n[y.node].m)
    ensures Compose(n, y).Some?
  {
    hide FindLan, FindWan, Keyed;
    FindsOwn(n, y.node);
  }

  lemma PacketsArrive(c: Config, s: State, k: Segment, p: Ptr, k2: Segment, before: bool)
    requires Good(c, s) && Work(s) == 0 && Enabled(c, s, HoldBack(k, p))
    ensures var pl := PacketsPlan(c, s, k, p, k2, before);
      Arrives(c, pl) && Next(c, s, HoldBack(k, p)) == Stage(pl, pl.early, 0, -1)
  {
    hide Good, Table, Mappings, Compose, Apply, Answer, Moved, Items, TcpVerdict, Finds, Stage, Arrives, Work;
    hide HeldTail;
    var pl := PacketsPlan(c, s, k, p, k2, before);
    PacketComes(c, pl, k2, p);
    FirstComes(c, pl, s, pl.n0);
  }

  /**
   * A second packet held back for a session that the first left in the unknown state, whenever it is and however the
   * threads are scheduled: the sender finds no session and uses NULL exactly if the second is an RST that came before
   * the receiver was done with the first, so that the first took the session out, if the sender took the second up only
   * after that, and if neither of its endpoints is another session's.
   */
  lemma HeldTwice(c: Config, s: State, k: Segment, p: Ptr, k2: Segment, run: seq<Action>, e: nat)
    requires Good(c, s) && Work(s) == 0 && Enabled(c, s, HoldBack(k, p)) && Legal(c, Next(c, s, HoldBack(k, p)), run)
    requires var n := Moved(s.nodes, p, k.flags, k.from);
      p in n && Finds(k2, n[p].m) && TcpVerdict(n[p].state, k2.flags, k2.from).0 == ALIAS_RESET_TABLE
    requires e < |run| && run[e] == HoldBack(k2, p) && forall i :: 0 <= i < |run| && i != e ==> Internal(run[i])
    requires Over(After(c, Next(c, s, HoldBack(k, p)), run))
    ensures var t, n := After(c, Next(c, s, HoldBack(k, p)), run), Moved(s.nodes, p, k.flags, k.from);
      var u := Moved(n, p, k2.flags, k2.from) - {p};
      && (t.failed <==> k2.flags.rst && !Changed(run, e) && Late(run)
                        && FindLan(u, TCP, k2.src) == None && FindWan(u, TCP, k2.dst) == None)
      && (t.failed ==> t.hSend != [])
  {
    hide Good, Apply, Answer, Items, TcpVerdict, Compose, FindLan, FindWan, HeldTail, Written, Moved, Stage;
    hide Legal, After, Late, Popped, Changed, Finds, Next, Enabled, Over;
    var before := !Changed(run, e);
    PacketsRun(c, s, k, p, k2, before, run, e);
    PacketsHold(c, s, k, p, k2, before);
  }

  lemma PacketsRun(c: Config, s: State, k: Segment, p: Ptr, k2: Segment, before: bool, run: seq<Action>, e: nat)
    requires Good(c, s) && Work(s) == 0 && Enabled(c, s, HoldBack(k, p)) && Legal(c, Next(c, s, HoldBack(k, p)), run)
    requires var n := Moved(s.nodes, p, k.flags, k.from);
      p in n && Finds(k2, n[p].m) && TcpVerdict(n[p].state, k2.flags, k2.from).0 == ALIAS_RESET_TABLE
    requires e < |run| && run[e] == HoldBack(k2, p) && forall i :: 0 <= i < |run| && i != e ==> Internal(run[i])
    requires before == !Changed(run, e)
    requires Over(After(c, Next(c, s, HoldBack(k, p)), run))
    ensures var pl, t := PacketsPlan(c, s, k, p, k2, before), After(c, Next(c, s, HoldBack(k, p)), run);
      var o := if Late(run) then pl.late else Some(pl.early);
      (t.failed <==> o.None? || o.value.nodes.None?) && (t.failed ==> t.hSend == if o.None? then [pl.y] else [])
  {
    assert p in s.nodes;
    hide Good, Apply, Answer, Items, TcpVerdict, Compose, FindLan, FindWan, HeldTail, Written, Moved, Stage, Correct;
    hide Legal, After, Late, Popped, Changed, Finds, Next, Enabled, Over, Arrives;
    PacketsHold(c, s, k, p, k2, before);
    PacketsArrive(c, s, k, p, k2, before);
    var pl := PacketsPlan(c, s, k, p, k2, before);
    RunsFrom(c, pl, Next(c, s, HoldBack(k, p)), run, e);
  }
}
