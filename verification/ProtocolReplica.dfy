/** Over every run whose held packets are sound, the NAT's table is a late copy of the server's mappings. */
module ProtocolReplica {
  import opened Lookups
  import opened Sessions
  import opened Pools
  import opened Protocol
  import opened ProtocolFifo
  import opened Verdicts
  import T = TcpTracker

  // ---- the invariant ----

  predicate ItemOk(nodes: Live, x: Item) {
    match x
    case Syn(_, _, _) => true
    case Expired(_, p) => p in nodes
    case Held(_, k, p) => p in nodes && Finds(k, nodes[p].m)
  }

  /** Where the search that tagged a held packet finds the session of m again. */
  predicate Tagged(k: Segment, tag: Tag, m: Mapping) {
    (tag == RelL2W && k.outward && k.src == m.lan) || (tag == RelW2L && k.inward && k.dst == m.wan)
  }

  /** The entry a release of the mapping m was pushed as. */
  predicate ReleaseEntry(nodes: Live, e: Entry, m: Mapping) {
    && !e.item.Syn? && e.item.node in nodes && nodes[e.item.node].m == m
    && (e.item.Expired? ==> e.tag == Timeout)
    && (e.item.Held? ==> m.protocol == TCP && nodes[e.item.node].state == T.Reset && Tagged(e.item.packet, e.tag, m))
  }

  predicate SameNode(x: Item, y: Item) {
    !x.Syn? && !y.Syn? && x.node == y.node
  }

  /** Items refer to sessions that are there, and no two to the same one. */
  ghost predicate ItemsOk(nodes: Live, q: seq<Item>) {
    (forall i :: 0 <= i < |q| ==> ItemOk(nodes, q[i])) && forall i, j :: 0 <= i < j < |q| ==> !SameNode(q[i], q[j])
  }

  predicate ReplyOk(nodes: Live, r: Reply) {
    r.ReleaseAck? ==> ReleaseEntry(nodes, r.cause, r.m)
  }

  predicate MessageOk(nodes: Live, msg: Message) {
    msg.Release? ==> ReleaseEntry(nodes, msg.cause, msg.m)
  }

  ghost predicate LinesOk(nodes: Live, rs: seq<Reply>, ms: seq<Message>) {
    (forall i :: 0 <= i < |rs| ==> ReplyOk(nodes, rs[i])) && forall i :: 0 <= i < |ms| ==> MessageOk(nodes, ms[i])
  }

  /** A mapping acknowledged is in the table already or has both its keys free; one released is in the table. */
  ghost predicate Fits(t: set<Mapping>, r: Reply) {
    match r
    case RequestAck(m, _) => m in t || (!LanTaken(t, m) && !WanTaken(t, m))
    case RequestDiscard(_, _, _) => true
    case ReleaseAck(m, _) => m in t
  }

  ghost predicate AllFit(t: set<Mapping>, rs: seq<Reply>)
    decreases |rs|
  {
    rs == [] || (Fits(t, rs[0]) && AllFit(Effect(t, rs[0]), rs[1..]))
  }

  /** Applying the replies on the wire to the table gives the server's mappings, without a collision on the way. */
  ghost predicate Replica(s: State) {
    AllFit(Table(s.nodes), InFlight(s)) && Replay(Table(s.nodes), InFlight(s)) == Mappings(s.server)
  }

  ghost predicate Good(c: Config, s: State) {
    && !s.failed && Queued(c, s)
    && Inv(c.limits, s.server.tcp) && Inv(c.limits, s.server.udp)
    && Keyed(s.nodes) && ItemsOk(s.nodes, Items(s)) && LinesOk(s.nodes, InFlight(s), Unanswered(s))
    && Replica(s)
  }

  // ---- one reply more, one message more ----

  lemma {:induction false} ReplaySnoc(t: set<Mapping>, rs: seq<Reply>, r: Reply)
    ensures Replay(t, rs + [r]) == Effect(Replay(t, rs), r)
    ensures AllFit(t, rs + [r]) <==> AllFit(t, rs) && Fits(Replay(t, rs), r)
    decreases |rs|
  {
    if rs == [] {
      assert [] + [r] == [r] && [r][1..] == [];
    } else {
      assert (rs + [r])[1..] == rs[1..] + [r];
      ReplaySnoc(Effect(t, rs[0]), rs[1..], r);
    }
  }

  /** A mapping stays as long as no release of it is on the wire. */
  lemma {:induction false} Survives(t: set<Mapping>, rs: seq<Reply>, m: Mapping)
    requires m in t && forall i :: 0 <= i < |rs| ==> !(rs[i].ReleaseAck? && rs[i].m == m)
    ensures m in Replay(t, rs)
    decreases |rs|
  {
    if rs != [] {
      Survives(Effect(t, rs[0]), rs[1..], m);
    }
  }

  // ---- what the server's answers do to its mappings ----

  lemma ConnAt(s: Pool, c: Conn) returns (h: U32, i: nat)
    requires c in Conns(s)
    ensures At(s, h, i) && s.db[h][i] == c
  {
    h :| h in s.db && c in s.db[h];
    i :| 0 <= i < |s.db[h]| && s.db[h][i] == c;
  }

  lemma AssignConns(k: Limits, s: Pool, lan: Endpoint)
    requires Inv(k, s)
    ensures var (s', r) := Assign(k, s, lan);
      && (r.None? ==> Conns(s') == Conns(s))
      && (r.Some? ==> r.value.lan == lan && Conns(s') == Conns(s) + {r.value})
      && (r.Some? ==> r.value in Conns(s) || forall c :: c in Conns(s) ==> c.lan != lan && c.wan != r.value.wan)
  {
    var (s', r) := Assign(k, s, lan);
    if SameEntry(s, lan).Some? {
      assert r.value in s.db[lan.ip];
      assert Conns(s) + {r.value} == Conns(s);
    } else if r.Some? {
      forall c | c in Conns(s)
        ensures c.lan != lan && c.wan != r.value.wan
      {
        var h, i := ConnAt(s, c);
        assert EntryOk(k, s, h, s.db[h][i]);
        assert s.ports[r.value.wan.ip][0] in s.ports[r.value.wan.ip];
      }
      AddedConns(s, s', lan.ip, r.value);
    }
  }

  lemma AddedConns(s: Pool, s': Pool, h: U32, c: Conn)
    requires s'.db == s.db[h := Host(s, h) + [c]]
    ensures Conns(s') == Conns(s) + {c}
  {
    forall d | d in Conns(s)
      ensures d in Conns(s')
    {
      var g, i := ConnAt(s, d);
      assert d in s'.db[g];
    }
    assert c in s'.db[h];
  }

  lemma ReleaseConns(k: Limits, s: Pool, c: Conn)
    requires Inv(k, s) && c in Conns(s)
    ensures Pools.Release(s, c).1 == Done && Conns(Pools.Release(s, c).0) == Conns(s) - {c}
  {
    hide Conns, ListOk, Lists, Covered;
    var s' := Pools.Release(s, c).0;
    var h, j := ConnAt(s, c);
    assert EntryOk(k, s, h, s.db[h][j]);
    var i := ConnIndex(s.db[h], c);
    assert At(s, h, i);
    ReleaseLists(k, s, c, i);
    ReleaseUnique(k, s, c, i);
    hide Inv, Entries, Unique;
    RemovedConns(s, s', h, i);
  }

  lemma RemovedConns(s: Pool, s': Pool, h: U32, i: nat)
    requires At(s, h, i) && s'.db == s.db[h := s.db[h][..i] + s.db[h][i + 1..]]
    requires forall g, j: nat :: At(s', g, j) ==> s'.db[g][j].wan != s.db[h][i].wan
    ensures Conns(s') == Conns(s) - {s.db[h][i]}
  {
    hide Conns;
    forall d | d in Conns(s) && d != s.db[h][i]
      ensures d in Conns(s')
    {
      ConnStays(s, s', h, i, d);
    }
    forall d | d in Conns(s')
      ensures d in Conns(s) && d != s.db[h][i]
    {
      var g, m := ConnAt(s', d);
      ConnCame(s, s', h, i, g, m);
    }
  }

  lemma ConnStays(s: Pool, s': Pool, h: U32, i: nat, d: Conn)
    requires At(s, h, i) && s'.db == s.db[h := s.db[h][..i] + s.db[h][i + 1..]]
    requires d in Conns(s) && d != s.db[h][i]
    ensures d in Conns(s')
  {
    var g, m := ConnAt(s, d);
    if g == h {
      assert s'.db[g][if m > i then m - 1 else m] == d;
    }
    assert g in s'.db && d in s'.db[g];
  }

  lemma ConnCame(s: Pool, s': Pool, h: U32, i: nat, g: U32, m: nat)
    requires At(s, h, i) && s'.db == s.db[h := s.db[h][..i] + s.db[h][i + 1..]] && At(s', g, m)
    ensures s'.db[g][m] in Conns(s)
  {
    assert s'.db[g][m] == s.db[g][if g == h && m >= i then m + 1 else m];
    assert g in s.db && s'.db[g][m] in s.db[g];
  }

  lemma InMappings(v: Server, m: Mapping)
    ensures m in Mappings(v) <==>
            (m.protocol == TCP && ToConn(m) in Conns(v.tcp)) || (m.protocol == UDP && ToConn(m) in Conns(v.udp))
  {
    hide Conns;
    var c := ToConn(m);
    assert m == Mapping(m.protocol, c.lan, c.wan);
  }

  /** The pool that serves a protocol. */
  function PoolOf(v: Server, protocol: U8): Pool {
    if protocol == TCP then v.tcp else v.udp
  }

  /** One pool takes on a connection or gives one up. */
  lemma MappingsChange(v: Server, v': Server, protocol: U8, c: Conn)
    requires protocol == TCP || protocol == UDP
    requires if protocol == TCP then v'.udp == v.udp else v'.tcp == v.tcp
    ensures var m := Mapping(protocol, c.lan, c.wan);
      && (Conns(PoolOf(v', protocol)) == Conns(PoolOf(v, protocol)) + {c} ==> Mappings(v') == Mappings(v) + {m})
      && (Conns(PoolOf(v', protocol)) == Conns(PoolOf(v, protocol)) - {c} ==> Mappings(v') == Mappings(v) - {m})
      && (Conns(PoolOf(v', protocol)) == Conns(PoolOf(v, protocol)) ==> Mappings(v') == Mappings(v))
  {
    hide Conns, Mappings;
    forall x
      ensures x in Mappings(v) <==>
              (x.protocol == TCP && ToConn(x) in Conns(v.tcp)) || (x.protocol == UDP && ToConn(x) in Conns(v.udp))
      ensures x in Mappings(v') <==>
              (x.protocol == TCP && ToConn(x) in Conns(v'.tcp)) || (x.protocol == UDP && ToConn(x) in Conns(v'.udp))
    {
      InMappings(v, x);
      InMappings(v', x);
    }
    assert forall x: Mapping :: x == Mapping(protocol, c.lan, c.wan) <==> x.protocol == protocol && ToConn(x) == c;
  }

  /** Two mappings share a side only if they are of one protocol and share that endpoint. */
  lemma Taken(t: set<Mapping>, m: Mapping)
    ensures LanTaken(t, m) <==> exists x :: x in t && x.protocol == m.protocol && x.lan == m.lan
    ensures WanTaken(t, m) <==> exists x :: x in t && x.protocol == m.protocol && x.wan == m.wan
  {
    hide Pack;
    forall x: Mapping
      ensures LanKey(x) == LanKey(m) <==> x.protocol == m.protocol && x.lan == m.lan
      ensures WanKey(x) == WanKey(m) <==> x.protocol == m.protocol && x.wan == m.wan
    {
      PackInjective(x.protocol, x.lan, m.protocol, m.lan);
      PackInjective(x.protocol, x.wan, m.protocol, m.wan);
    }
  }

  /** An answered request fits the server's mappings and changes them as the reply says. */
  lemma AnswerRequest(k: Limits, v: Server, protocol: U8, lan: Endpoint, e: Entry)
    requires Inv(k, v.tcp) && Inv(k, v.udp)
    ensures var (v', r) := Answer(k, v, Message.Request(protocol, lan, e));
      && Inv(k, v'.tcp) && Inv(k, v'.udp)
      && r.Some? && r.value.cause == e && Fits(Mappings(v), r.value) && Mappings(v') == Effect(Mappings(v), r.value)
      && match r.value
         case RequestAck(m, _) => m.protocol == protocol && m.lan == lan
         case RequestDiscard(p, l, _) => p == protocol && l == lan
         case ReleaseAck(_, _) => false
  {
    hide Inv, Conns, Mappings, Assign, LanTaken, WanTaken, Pack;
    if protocol == TCP || protocol == UDP {
      var s := PoolOf(v, protocol);
      var (s', r) := Assign(k, s, lan);
      var v' := Answer(k, v, Message.Request(protocol, lan, e)).0;
      AssignConns(k, s, lan);
      AssignKeeps(k, s, lan);
      assert PoolOf(v', protocol) == s';
      var c := if r.Some? then r.value else Conn(lan, lan);
      MappingsChange(v, v', protocol, c);
      if r.Some? {
        NewFits(v, protocol, c);
      }
    }
  }

  lemma NewFits(v: Server, protocol: U8, c: Conn)
    requires protocol == TCP || protocol == UDP
    requires var cs := Conns(PoolOf(v, protocol)); c in cs || forall d :: d in cs ==> d.lan != c.lan && d.wan != c.wan
    ensures var t, m := Mappings(v), Mapping(protocol, c.lan, c.wan);
      (m in t || (!LanTaken(t, m) && !WanTaken(t, m))) && Inserted(t, m) == t + {m}
  {
    hide Conns, Mappings;
    var t, m := Mappings(v), Mapping(protocol, c.lan, c.wan);
    Taken(t, m);
    InMappings(v, m);
    hide LanTaken, WanTaken;
    assert ToConn(m) == c;
    if c in Conns(PoolOf(v, protocol)) {
      assert m in t && m.lan == m.lan;
      assert t + {m} == t;
    } else {
      forall x | x in t && x.protocol == protocol
        ensures x.lan != m.lan && x.wan != m.wan
      {
        InMappings(v, x);
      }
    }
  }

  /** A release of a mapping the server has is done and acknowledged. */
  lemma AnswerRelease(k: Limits, v: Server, m: Mapping, e: Entry)
    requires Inv(k, v.tcp) && Inv(k, v.udp) && m in Mappings(v)
    ensures var (v', r) := Answer(k, v, Message.Release(m, e));
      && Inv(k, v'.tcp) && Inv(k, v'.udp)
      && r == Some(ReleaseAck(m, e)) && Mappings(v') == Mappings(v) - {m}
  {
    hide Inv, Conns, Mappings, Pools.Release;
    InMappings(v, m);
    var s := PoolOf(v, m.protocol);
    ReleaseConns(k, s, ToConn(m));
    ReleaseKeeps(k, s, ToConn(m));
    MappingsChange(v, Answer(k, v, Message.Release(m, e)).0, m.protocol, ToConn(m));
    assert m == Mapping(m.protocol, ToConn(m).lan, ToConn(m).wan);
  }

  /** A release from a host the server knows is acknowledged, whether or not the server still has the mapping. */
  lemma AnswerKnown(k: Limits, v: Server, m: Mapping, e: Entry)
    requires Inv(k, v.tcp) && Inv(k, v.udp) && (m.protocol == TCP || m.protocol == UDP)
    requires m.lan.ip in PoolOf(v, m.protocol).db
    ensures var (v', r) := Answer(k, v, Message.Release(m, e));
      && Inv(k, v'.tcp) && Inv(k, v'.udp)
      && r == Some(ReleaseAck(m, e)) && Mappings(v') == Mappings(v) - {m}
      && v'.tcp.db.Keys == v.tcp.db.Keys && v'.udp.db.Keys == v.udp.db.Keys
  {
    InMappings(v, m);
    hide Inv, Conns, Mappings;
    var s, c := PoolOf(v, m.protocol), ToConn(m);
    ReleaseKeeps(k, s, c);
    HostKnown(k, s, c);
    if c in s.db[c.lan.ip] {
      AnswerRelease(k, v, m, e);
    } else {
      hide Pools.Release;
      assert Pools.Release(s, c) == (s, NotFound) by {
        Unchanged(s, c);
      }
    }
  }

  lemma MappingKnown(k: Limits, v: Server, m: Mapping)
    requires Inv(k, v.tcp) && Inv(k, v.udp) && m in Mappings(v)
    ensures (m.protocol == TCP || m.protocol == UDP) && m.lan.ip in PoolOf(v, m.protocol).db
  {
    InMappings(v, m);
    hide Inv, Conns, Mappings;
    HostKnown(k, PoolOf(v, m.protocol), ToConn(m));
  }

  lemma Unchanged(s: Pool, c: Conn)
    requires Pools.Release(s, c).1 == NotFound
    ensures Pools.Release(s, c) == (s, NotFound)
  {
  }

  lemma HostKnown(k: Limits, s: Pool, c: Conn)
    requires Inv(k, s)
    ensures c in Conns(s) <==> c.lan.ip in s.db && c in s.db[c.lan.ip]
    ensures Pools.Release(s, c).0.db.Keys == s.db.Keys
  {
    if c in Conns(s) {
      var h, i := ConnAt(s, c);
      assert EntryOk(k, s, h, s.db[h][i]);
    }
  }

  // ---- packets and timers keep the invariant ----

  /** Sessions keep their mapping, and reset ones stay reset. */
  ghost predicate Grown(nodes: Live, nodes': Live) {
    forall p :: p in nodes ==>
      p in nodes' && nodes'[p].m == nodes[p].m && (nodes[p].state == T.Reset ==> nodes'[p].state == T.Reset)
  }

  lemma LinesGrown(nodes: Live, nodes': Live, rs: seq<Reply>, ms: seq<Message>)
    requires LinesOk(nodes, rs, ms) && Grown(nodes, nodes')
    ensures LinesOk(nodes', rs, ms)
  {
    hide Tagged;
    assert forall i :: 0 <= i < |rs| ==> ReplyOk(nodes, rs[i]);
    assert forall i :: 0 <= i < |ms| ==> MessageOk(nodes, ms[i]);
  }

  lemma ItemsGrown(nodes: Live, nodes': Live, q: seq<Item>)
    requires ItemsOk(nodes, q) && Grown(nodes, nodes')
    ensures ItemsOk(nodes', q)
  {
    hide Finds;
    assert forall i :: 0 <= i < |q| ==> ItemOk(nodes, q[i]);
  }

  lemma ItemsSnoc(nodes: Live, q: seq<Item>, x: Item)
    requires ItemsOk(nodes, q) && ItemOk(nodes, x) && forall i :: 0 <= i < |q| ==> !SameNode(q[i], x)
    ensures ItemsOk(nodes, q + [x])
  {
    hide ItemOk;
    var q' := q + [x];
    assert forall i :: 0 <= i < |q'| ==> q'[i] == if i < |q| then q[i] else x;
  }

  lemma MovedGrown(nodes: Live, p: Ptr, f: T.Flags, from: T.Side)
    requires p in nodes
    ensures var t := Moved(nodes, p, f, from);
      Grown(nodes, t) && Table(t) == Table(nodes) && (Keyed(nodes) ==> Keyed(t)) && t.Keys == nodes.Keys
  {
    hide T.TcpStateCheck;
    var t := Moved(nodes, p, f, from);
    assert forall q :: q in nodes ==> q in t && t[q].m == nodes[q].m;
    assert t.Keys == nodes.Keys;
  }

  lemma GoodParts(c: Config, s: State)
    requires Good(c, s)
    ensures !s.failed && Queued(c, s) && Keyed(s.nodes) && ItemsOk(s.nodes, Items(s))
    ensures LinesOk(s.nodes, InFlight(s), Unanswered(s)) && Replica(s)
    ensures Inv(c.limits, s.server.tcp) && Inv(c.limits, s.server.udp)
  {
  }

  lemma TrafficKeeps(c: Config, s: State, a: Action)
    requires Good(c, s) && Enabled(c, s, a) && a.Traffic?
    ensures Good(c, Next(c, s, a))
  {
    hide Inv, Keyed, ItemsOk, LinesOk, Grown, Table, Queued, Replay, AllFit, Mappings, Moved, TcpVerdict, Leaving;
    NextQueued(c, s, a);
    MovedGrown(s.nodes, a.node, a.flags, a.from);
    var s' := Next(c, s, a);
    assert Items(s') == Items(s) && InFlight(s') == InFlight(s) && Unanswered(s') == Unanswered(s);
    LinesGrown(s.nodes, s'.nodes, InFlight(s), Unanswered(s));
    ItemsGrown(s.nodes, s'.nodes, Items(s));
  }

  /** Something new goes to the end of h_send. */
  lemma Enqueued(c: Config, s: State, s': State, x: Item)
    requires Good(c, s) && Queued(c, s') && ItemOk(s'.nodes, x)
    requires forall i :: 0 <= i < |Items(s)| ==> !SameNode(Items(s)[i], x)
    requires s' == s.(hSend := s.hSend + [x], count := s.count + 1, nodes := s'.nodes)
    requires Grown(s.nodes, s'.nodes) && Keyed(s'.nodes) && Table(s'.nodes) == Table(s.nodes)
    ensures Good(c, s')
  {
    hide Inv, Keyed, ItemsOk, LinesOk, Grown, Table, Queued, Replay, AllFit, Mappings, ItemOk;
    LinesGrown(s.nodes, s'.nodes, InFlight(s), Unanswered(s));
    ItemsGrown(s.nodes, s'.nodes, Items(s));
    ItemsSnoc(s'.nodes, Items(s), x);
    assert Items(s') == Items(s) + [x];
  }

  lemma OutsideKeeps(c: Config, s: State, a: Action)
    requires Good(c, s) && Enabled(c, s, a) && !Internal(a) && !a.Traffic? && Orderly(s, a)
    ensures Good(c, Next(c, s, a))
  {
    hide Good, Items, Table, Keyed, Grown, Queued, Moved, TcpVerdict, Inv, Sound;
    GoodParts(c, s);
    NextQueued(c, s, a);
    var s' := Next(c, s, a);
    var x := s'.hSend[|s.hSend|];
    assert forall i :: 0 <= i < |Items(s)| && !x.Syn? ==> !Names(Items(s)[i], x.node);
    GrownItself(s.nodes);
    if a.HoldBack? {
      MovedGrown(s.nodes, a.node, a.packet.flags, a.packet.from);
      GrownAt(s.nodes, s'.nodes, a.node);
    }
    assert s' == s.(hSend := s.hSend + [x], count := s.count + 1, nodes := s'.nodes);
    Enqueued(c, s, s', x);
  }

  lemma GrownItself(nodes: Live)
    ensures Grown(nodes, nodes)
  {
  }

  lemma GrownAt(nodes: Live, nodes': Live, p: Ptr)
    requires Grown(nodes, nodes') && p in nodes
    ensures p in nodes' && nodes'[p].m == nodes[p].m
  {
  }

  // ---- the sender keeps it ----

  /** For a sound packet the sender finds the session itself, and the tag says by which search. */
  lemma ComposeOk(nodes: Live, x: Item)
    requires Keyed(nodes) && ItemOk(nodes, x) && Sound(nodes, x)
    ensures Compose(nodes, x).Some? && MessageOk(nodes, Compose(nodes, x).value)
  {
    hide Keyed, FindLan, FindWan;
    if x.Held? {
      FindsOwn(nodes, x.node);
    }
  }

  /**
   * The release the sender writes for a held packet is its session's exactly when no other session has the packet's
   * source as its LAN endpoint.
   */
  lemma ComposeExact(nodes: Live, x: Item)
    requires Keyed(nodes) && ItemOk(nodes, x) && x.Held?
    ensures var msg, q := Compose(nodes, x), FindLan(nodes, TCP, x.packet.src);
      && msg.Some? && msg.value.Release?
      && (msg.value.m == nodes[x.node].m <==> q == None || q == Some(x.node))
      && (q.Some? ==> msg.value.m == nodes[q.value].m && msg.value.cause.tag == RelL2W)
  {
    hide FindLan, FindWan;
    FindsOwn(nodes, x.node);
    var q := FindLan(nodes, TCP, x.packet.src);
    if q.Some? && q.value != x.node {
      assert !Meet(nodes[q.value].m, nodes[x.node].m);
    }
  }

  /**
   * Where every session has a private LAN address, as chk_drop sees to outbound, a reset packet from outside is sound
   * if its source is not private.
   */
  lemma PublicSource(nodes: Live, x: Item)
    requires ItemOk(nodes, x) && x.Held? && nodes[x.node].state == T.Reset && !Inside(x.packet.src.ip)
    requires forall p :: p in nodes ==> Inside(nodes[p].m.lan.ip)
    ensures Sound(nodes, x)
  {
    hide Inside;
    var q := FindLan(nodes, TCP, x.packet.src);
    assert q.Some? ==> !HasLan(nodes, q.value, TCP, x.packet.src);
  }

  lemma HeadItem(s: State)
    requires s.hSend != [] && ItemsOk(s.nodes, Items(s))
    ensures ItemOk(s.nodes, s.hSend[0])
  {
    hide ItemOk;
    assert Items(s)[|Items(s)| - |s.hSend|] == s.hSend[0];
  }

  lemma LinesSnoc(nodes: Live, rs: seq<Reply>, ms: seq<Message>, msg: Message)
    requires LinesOk(nodes, rs, ms) && MessageOk(nodes, msg)
    ensures LinesOk(nodes, rs, ms + [msg])
  {
    hide MessageOk, ReplyOk;
  }

  lemma PopKeeps(c: Config, s: State)
    requires Good(c, s) && Enabled(c, s, Pop) && Sound(s.nodes, s.hSend[0])
    ensures Good(c, Next(c, s, Pop))
  {
    hide Inv, Keyed, LinesOk, Table, Compose, ItemsOk, MessageOk, Replay, AllFit, Mappings, Queued, Items, InFlight,
      Unanswered, Sound, ItemOk;
    NextQueued(c, s, Pop);
    HeadItem(s);
    ComposeOk(s.nodes, s.hSend[0]);
    PopShape(c, s);
    LinesSnoc(s.nodes, InFlight(s), Unanswered(s), Compose(s.nodes, s.hSend[0]).value);
  }

  lemma PushKeeps(c: Config, s: State)
    requires Good(c, s) && Enabled(c, s, Push)
    ensures Good(c, Next(c, s, Push))
  {
    hide Inv, Keyed, LinesOk, Table, ItemsOk, Replay, AllFit, Mappings, Queued, Items, InFlight, Unanswered;
    NextQueued(c, s, Push);
    PushShape(c, s);
  }

  lemma SendKeeps(c: Config, s: State)
    requires Good(c, s) && Enabled(c, s, Send)
    ensures Good(c, Next(c, s, Send))
  {
    hide Inv, Keyed, LinesOk, Table, ItemsOk, Replay, AllFit, Mappings, Queued, Items, InFlight, Unanswered;
    NextQueued(c, s, Send);
    SendShape(c, s);
  }

  // ---- the server keeps it ----

  /** No release of the session that the server is about to release is on its way back. */
  lemma NotYetReleased(s: State, m: Mapping)
    requires ItemsOk(s.nodes, Items(s)) && LinesOk(s.nodes, InFlight(s), Unanswered(s)) && Keyed(s.nodes)
    requires Unanswered(s) != [] && Unanswered(s)[0].Release? && Unanswered(s)[0].m == m
    ensures m in Table(s.nodes)
    ensures forall i :: 0 <= i < |InFlight(s)| ==> !(InFlight(s)[i].ReleaseAck? && InFlight(s)[i].m == m)
  {
    hide Items, InFlight, Unanswered, ItemOk;
    var n, msg := |InFlight(s)|, Unanswered(s)[0];
    assert MessageOk(s.nodes, msg);
    var p := msg.cause.item.node;
    Earlier(s, 0);
    forall i | 0 <= i < n && InFlight(s)[i].ReleaseAck?
      ensures InFlight(s)[i].m != m
    {
      var r := InFlight(s)[i];
      assert ReplyOk(s.nodes, r);
      Earlier(s, i);
      assert !SameNode(Items(s)[i], Items(s)[n]);
      assert !Meet(s.nodes[p].m, s.nodes[r.cause.item.node].m);
    }
  }

  lemma FirstUnanswered(s: State)
    requires s.toServer != []
    ensures Unanswered(s) != [] && Unanswered(s)[0] == s.toServer[0]
  {
  }

  lemma ServeAnswer(c: Config, s: State)
    requires Good(c, s) && s.toServer != []
    ensures var (v, r) := Answer(c.limits, s.server, s.toServer[0]);
      && Inv(c.limits, v.tcp) && Inv(c.limits, v.udp)
      && r.Some? && ReplyOk(s.nodes, r.value)
      && Fits(Mappings(s.server), r.value) && Mappings(v) == Effect(Mappings(s.server), r.value)
  {
    hide Inv, Keyed, ItemsOk, Table, Replay, AllFit, Mappings, Queued, Items, InFlight, Unanswered, Answer,
      ReleaseEntry, Inserted, LanTaken, WanTaken;
    var msg := s.toServer[0];
    FirstUnanswered(s);
    assert MessageOk(s.nodes, msg);
    match msg
    case Request(protocol, lan, e) =>
      AnswerRequest(c.limits, s.server, protocol, lan, e);
    case Release(m, e) =>
      NotYetReleased(s, m);
      Survives(Table(s.nodes), InFlight(s), m);
      AnswerRelease(c.limits, s.server, m, e);
  }

  lemma ServeKeeps(c: Config, s: State)
    requires Good(c, s) && Enabled(c, s, Serve)
    ensures Good(c, Next(c, s, Serve))
  {
    hide Inv, Keyed, LinesOk, ItemsOk, Table, Replay, AllFit, Mappings, Fits, Effect, ReplyOk, Answer, Queued, Items,
      InFlight, Unanswered;
    NextQueued(c, s, Serve);
    ServeAnswer(c, s);
    ServeShape(c, s);
    var r := Answer(c.limits, s.server, s.toServer[0]).1.value;
    ReplaySnoc(Table(s.nodes), InFlight(s), r);
    LinesMove(s.nodes, InFlight(s), Unanswered(s), r);
  }

  lemma LinesMove(nodes: Live, rs: seq<Reply>, ms: seq<Message>, r: Reply)
    requires LinesOk(nodes, rs, ms) && ReplyOk(nodes, r) && ms != []
    ensures LinesOk(nodes, rs + [r], ms[1..])
  {
    hide MessageOk, ReplyOk;
  }

  // ---- the receiver keeps it ----

  lemma TakeKeeps(c: Config, s: State)
    requires Good(c, s) && Enabled(c, s, Take)
    ensures Good(c, Next(c, s, Take))
  {
    hide Inv, Keyed, LinesOk, Table, ItemsOk, Replay, AllFit, Mappings, Items, InFlight, Unanswered, Aligned, Ordered,
      Paired;
    NextQueued(c, s, Take);
    TakeShape(c, s);
  }

  /** All sessions but the one an item refers to are as they were. */
  ghost predicate KeptBut(nodes: Live, t: Live, x: Item) {
    forall p :: p in nodes && !Names(x, p) ==> p in t && t[p] == nodes[p]
  }

  lemma OnlyOne(nodes: Live, p: Ptr)
    requires Keyed(nodes) && p in nodes
    ensures DeleteValue(nodes, nodes[p].m) == Some(nodes - {p})
  {
    var m := nodes[p].m;
    forall q | q in nodes && q != p
      ensures nodes[q].m != m
    {
      assert !Meet(nodes[p].m, nodes[q].m);
    }
    assert Holders(nodes, m) == {p};
    assert m in Table(nodes);
  }

  lemma RemovedOne(nodes: Live, p: Ptr)
    requires Keyed(nodes) && p in nodes
    ensures Table(nodes - {p}) == Table(nodes) - {nodes[p].m} && Keyed(nodes - {p})
  {
    var m, t := nodes[p].m, nodes - {p};
    forall x | x in Table(nodes) && x != m
      ensures x in Table(t)
    {
      var q :| q in nodes && nodes[q].m == x;
      assert q in t && t[q].m == x;
    }
    forall x | x in Table(t)
      ensures x in Table(nodes) && x != m
    {
      var q :| q in t && t[q].m == x;
      assert nodes[q].m == x && q != p;
      assert x == m ==> Meet(x, m);
    }
  }

  lemma AddedOne(nodes: Live, p: Ptr, m: Mapping)
    requires Keyed(nodes) && p !in nodes && !LanTaken(Table(nodes), m) && !WanTaken(Table(nodes), m)
    ensures var t := nodes[p := Fresh(m)]; Table(t) == Table(nodes) + {m} && Keyed(t)
  {
    hide Pack;
    var t := nodes[p := Fresh(m)];
    forall q | q in nodes
      ensures !Meet(m, nodes[q].m) && !Meet(nodes[q].m, m)
    {
      assert nodes[q].m in Table(nodes);
    }
    forall x | x in Table(nodes) + {m}
      ensures x in Table(t)
    {
      if x in Table(nodes) {
        var q :| q in nodes && nodes[q].m == x;
        assert q in t && t[q].m == x;
      } else {
        assert t[p].m == x;
      }
    }
  }

  /** A session with its first packet sent on. */
  function Entered(m: Mapping): Session<T.State> {
    Session(m, if m.protocol == TCP then T.SynAckReceived else T.Established)
  }

  /** A TCP session starts at the beginning of its trace, and its SYN, sent on, is the first packet of it. */
  lemma TraceStarts(m: Mapping)
    ensures m.protocol == TCP ==> Fresh(m).state == T.Run([])
    ensures m.protocol == TCP ==> Entered(m).state == T.Run([T.Packet(T.Lan, T.Flags(false, true, false, false))])
    ensures m.protocol != TCP ==> Fresh(m).state == Entered(m).state == T.Established
    ensures Fresh(m).m == m && Entered(m).m == m
  {
    assert [T.Packet(T.Lan, T.Flags(false, true, false, false))][..0] == [];
  }

  /** The waiting packet belongs to the new session. */
  lemma EntersOne(nodes: Live, p: Ptr, m: Mapping, x: Item)
    requires p !in nodes && Keyed(nodes[p := Fresh(m)]) && x.Syn? && x.protocol == m.protocol && x.lan == m.lan
    ensures SentOn(nodes[p := Fresh(m)], x) == nodes[p := Entered(m)]
    ensures Keyed(nodes[p := Entered(m)]) && Table(nodes[p := Entered(m)]) == Table(nodes[p := Fresh(m)])
  {
    var t := nodes[p := Fresh(m)];
    hide Keyed, FindLan, Table;
    FindsOwn(t, p);
    MovedGrown(t, p, SYN, T.Lan);
    assert Moved(t, p, SYN, T.Lan) == if m.protocol == TCP then nodes[p := Entered(m)] else Moved(t, p, SYN, T.Lan);
    if m.protocol != TCP {
      assert nodes[p := Entered(m)] == t;
    }
  }

  /** The packet whose session is reset is let through the second time, and the session goes. */
  lemma ForwardedReset(nodes: Live, p: Ptr, f: T.Flags, from: T.Side)
    requires Keyed(nodes) && p in nodes && nodes[p].state == T.Reset
    ensures Forwarded(nodes, Some(p), f, from, nodes[p].m) == Some(nodes - {p})
  {
    hide DeleteValue, T.TcpStateCheck;
    OnlyOne(nodes, p);
    assert nodes[p := nodes[p].(state := T.Reset)] == nodes;
  }

  /** Applying a reply with the entry pushed for it never fails and has exactly the reply's effect. */
  lemma ApplyOk(nodes: Live, r: Reply, spot: Ptr)
    requires Keyed(nodes) && ReplyOk(nodes, r) && ReplyPaired(r) && spot !in nodes && Fits(Table(nodes), r)
    ensures var t := Apply(nodes, r, r.cause, spot);
      t.Some? && Keyed(t.value) && Table(t.value) == Effect(Table(nodes), r) && KeptBut(nodes, t.value, r.cause.item)
  {
    hide Keyed, Table, FindLan, FindWan, DeleteValue, LanTaken, WanTaken, Forwarded, SentOn;
    match r
    case RequestAck(m, e) =>
      if !LanTaken(Table(nodes), m) && !WanTaken(Table(nodes), m) {
        AddedOne(nodes, spot, m);
        EntersOne(nodes, spot, m, e.item);
      }
    case RequestDiscard(_, _, _) =>
    case ReleaseAck(m, e) =>
      var p := e.item.node;
      RemovedOne(nodes, p);
      FindsOwn(nodes, p);
      if e.item.Held? {
        ForwardedReset(nodes, p, e.item.packet.flags, T.Lan);
        ForwardedReset(nodes, p, e.item.packet.flags, T.Wan);
      }
  }

  lemma ItemsAfter(nodes: Live, t: Live, q: seq<Item>)
    requires ItemsOk(nodes, q) && q != [] && KeptBut(nodes, t, q[0])
    ensures ItemsOk(t, q[1..])
  {
    hide Finds;
    forall i | 1 <= i < |q|
      ensures ItemOk(t, q[i])
    {
      assert ItemOk(nodes, q[i]) && !SameNode(q[0], q[i]);
      assert !q[i].Syn? ==> !Names(q[0], q[i].node);
    }
  }

  lemma EntryKept(nodes: Live, t: Live, x: Item, e: Entry, m: Mapping)
    requires ReleaseEntry(nodes, e, m) && KeptBut(nodes, t, x) && !SameNode(x, e.item)
    ensures ReleaseEntry(t, e, m)
  {
    assert !Names(x, e.item.node);
  }

  lemma LinesAfter(s: State, t: Live)
    requires ItemsOk(s.nodes, Items(s)) && LinesOk(s.nodes, InFlight(s), Unanswered(s))
    requires InFlight(s) != [] && Items(s) != [] && KeptBut(s.nodes, t, Items(s)[0])
    ensures LinesOk(t, InFlight(s)[1..], Unanswered(s))
  {
    hide ItemOk, KeptBut, ReleaseEntry, Items, InFlight, Unanswered;
    var x, rs, ms := Items(s)[0], InFlight(s), Unanswered(s);
    forall i | 1 <= i < |rs|
      ensures ReplyOk(t, rs[i])
    {
      assert ReplyOk(s.nodes, rs[i]);
      Earlier(s, i);
      assert !SameNode(x, Items(s)[i]);
      if rs[i].ReleaseAck? {
        EntryKept(s.nodes, t, x, rs[i].cause, rs[i].m);
      }
    }
    forall i | 0 <= i < |ms|
      ensures MessageOk(t, ms[i])
    {
      assert MessageOk(s.nodes, ms[i]);
      Earlier(s, i);
      assert !SameNode(x, Items(s)[|rs| + i]);
      if ms[i].Release? {
        EntryKept(s.nodes, t, x, ms[i].cause, ms[i].m);
      }
    }
  }

  /** What the receiver is about to apply is as the invariant needs it. */
  lemma AboutToApply(c: Config, s: State)
    requires Good(c, s) && s.receiver.Holding?
    ensures var r := s.receiver.reply;
      && InFlight(s) == [r] + s.toClient && s.receiver.entry == r.cause && ReplyPaired(r)
      && ReplyOk(s.nodes, r) && Fits(Table(s.nodes), r)
      && AllFit(Effect(Table(s.nodes), r), s.toClient)
      && Replay(Effect(Table(s.nodes), r), s.toClient) == Mappings(s.server)
  {
    hide Inv, Keyed, Table, Mappings, ReplyOk, Fits, Effect, Items, ItemsOk, Unanswered, ReplyPaired, Ordered;
    var r := s.receiver.reply;
    assert InFlight(s)[0] == r && InFlight(s)[1..] == s.toClient;
    assert ReplyOk(s.nodes, InFlight(s)[0]) && ReplyPaired(InFlight(s)[0]);
  }

  lemma ChangeKeeps(c: Config, s: State, spot: Ptr)
    requires Good(c, s) && Enabled(c, s, Change(spot))
    ensures Good(c, Next(c, s, Change(spot)))
  {
    hide Inv, Keyed, LinesOk, ItemsOk, Table, Replay, AllFit, Mappings, Apply, ReplyOk, ReplyPaired, Fits, Effect,
      KeptBut, Queued, Items, InFlight, Unanswered;
    var r := s.receiver.reply;
    NextQueued(c, s, Change(spot));
    AboutToApply(c, s);
    ApplyOk(s.nodes, r, spot);
    ChangeShape(c, s, spot);
    var s' := Next(c, s, Change(spot));
    assert Items(s)[0] == r.cause.item && Items(s)[1..] == Items(s') && InFlight(s)[1..] == InFlight(s') == s.toClient;
    LinesAfter(s, s'.nodes);
    ItemsAfter(s.nodes, s'.nodes, Items(s));
  }

  lemma NextKeeps(c: Config, s: State, a: Action)
    requires Good(c, s) && Enabled(c, s, a) && Orderly(s, a)
    ensures Good(c, Next(c, s, a))
  {
    hide Good, Next, Sound, Leaving, TcpVerdict, Finds;
    match a
    case Arrive(_, _) => OutsideKeeps(c, s, a);
    case Expire(_) => OutsideKeeps(c, s, a);
    case HoldBack(_, _) => OutsideKeeps(c, s, a);
    case Traffic(_, _, _) => TrafficKeeps(c, s, a);
    case Pop => PopKeeps(c, s);
    case Push => PushKeeps(c, s);
    case Send => SendKeeps(c, s);
    case Serve => ServeKeeps(c, s);
    case Take => TakeKeeps(c, s);
    case Change(spot) => ChangeKeeps(c, s, spot);
  }

  // ---- every run ----

  lemma StartGood(c: Config, s: State)
    requires Start(c, s)
    ensures Good(c, s)
  {
    hide Inv, Queued;
    StartQueued(c, s);
    assert Conns(s.server.tcp) == {} && Conns(s.server.udp) == {};
  }

  lemma {:induction false} RunGood(c: Config, s: State, run: seq<Action>)
    requires Good(c, s) && Legal(c, s, run) && Directed(c, s, run)
    ensures Good(c, After(c, s, run))
    decreases |run|
  {
    hide Good, Enabled, Next, Sound;
    if run != [] {
      NextKeeps(c, s, run[0]);
      RunGood(c, Next(c, s, run[0]), run[1..]);
    }
  }

  lemma KeyedBijective(nodes: Live)
    requires Keyed(nodes)
    ensures Bijective(Table(nodes))
  {
    hide Pack;
    forall x, y | x in Table(nodes) && y in Table(nodes) && (LanKey(x) == LanKey(y) || WanKey(x) == WanKey(y))
      ensures x == y
    {
      var p :| p in nodes && nodes[p].m == x;
      var q :| q in nodes && nodes[q].m == y;
      MeetKeys(x, y);
    }
  }

  /**
   * In every state reached by orderly releases no thread has given up, and the table, once the replies on the wire are
   * applied in order, holds exactly the mappings of tcpDB and udpDB.
   */
  lemma TableFollowsServer(c: Config, s0: State, run: seq<Action>)
    requires Start(c, s0) && Legal(c, s0, run) && Directed(c, s0, run)
    ensures var s := After(c, s0, run);
      && !s.failed && Bijective(Table(s.nodes)) && Replay(Table(s.nodes), InFlight(s)) == Mappings(s.server)
  {
    hide Good, Start, Legal, Directed, After, Keyed, Queued;
    StartGood(c, s0);
    RunGood(c, s0, run);
    var s := After(c, s0, run);
    GoodParts(c, s);
    KeyedBijective(s.nodes);
  }

  /**
   * Applying a reply never runs into another session: an acknowledged mapping is in the table already or has both keys
   * free and is in it afterwards; an acknowledged release takes out exactly its mapping, which was there.
   */
  lemma NoCollision(c: Config, s0: State, run: seq<Action>, spot: Ptr)
    requires Start(c, s0) && Legal(c, s0, run) && Directed(c, s0, run) && Enabled(c, After(c, s0, run), Change(spot))
    ensures var s := After(c, s0, run);
      var t, t' := Table(s.nodes), Table(Next(c, s, Change(spot)).nodes);
      match s.receiver.reply
      case RequestAck(m, e) =>
        && (m in t || (!LanTaken(t, m) && !WanTaken(t, m))) && t' == t + {m}
        && RequestEntry(s.receiver.entry, m.protocol, m.lan)
      case RequestDiscard(_, _, _) => t' == t && s.receiver.entry.item.Syn?
      case ReleaseAck(m, _) => m in t && t' == t - {m} && ReleaseEntry(s.nodes, s.receiver.entry, m)
  {
    hide Start, Legal, Directed, Sound;
    StartGood(c, s0);
    RunGood(c, s0, run);
    Collides(c, After(c, s0, run), spot);
  }

  lemma Collides(c: Config, s: State, spot: Ptr)
    requires Good(c, s) && Enabled(c, s, Change(spot))
    ensures var t, t' := Table(s.nodes), Table(Next(c, s, Change(spot)).nodes);
      match s.receiver.reply
      case RequestAck(m, e) =>
        && (m in t || (!LanTaken(t, m) && !WanTaken(t, m))) && t' == t + {m}
        && RequestEntry(s.receiver.entry, m.protocol, m.lan)
      case RequestDiscard(_, _, _) => t' == t && s.receiver.entry.item.Syn?
      case ReleaseAck(m, _) => m in t && t' == t - {m} && ReleaseEntry(s.nodes, s.receiver.entry, m)
  {
    hide Good, Table, Keyed, Apply, LanTaken, WanTaken, Inserted, Items, ReleaseEntry, Replay, AllFit;
    GoodParts(c, s);
    AboutToApply(c, s);
    ApplyOk(s.nodes, s.receiver.reply, spot);
    if s.receiver.reply.RequestAck? {
      FitsEffect(Table(s.nodes), s.receiver.reply);
    }
  }

  lemma FitsEffect(t: set<Mapping>, r: Reply)
    requires Fits(t, r) && r.RequestAck?
    ensures Effect(t, r) == t + {r.m}
  {
    assert r.m in t ==> t + {r.m} == t;
  }

  /** With nothing under way the table is the server's. */
  lemma Quiet(c: Config, s: State)
    requires Good(c, s) && Work(s) == 0
    ensures s.hRecv == [] && Table(s.nodes) == Mappings(s.server)
  {
    hide Table, Mappings, Items, Ordered, Paired;
    assert InFlight(s) == [];
  }

  /**
   * However the threads are scheduled, as long as what they pop is sound, each step is one of those to be made; when
   * all are made, rings and streams are empty and the table is the server's.
   */
  lemma Drains(c: Config, s: State, run: seq<Action>)
    requires Good(c, s) && Legal(c, s, run) && Directed(c, s, run) && forall i :: 0 <= i < |run| ==> Internal(run[i])
    ensures var t := After(c, s, run);
      && Good(c, t) && |run| <= Work(s) && Work(t) == Work(s) - |run|
      && (|run| == Work(s) ==> t.hRecv == [] && Table(t.nodes) == Mappings(t.server))
  {
    hide Good, Next, Work, Table, Mappings, Legal, Directed, After;
    RunGood(c, s, run);
    ThreadsEnd(c, s, run);
    var t := After(c, s, run);
    GoodParts(c, t);
    if Work(t) == 0 {
      Quiet(c, t);
    }
  }
}
