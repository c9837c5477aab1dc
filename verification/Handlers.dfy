/** The two pool threads' handlers: what they do to the trees, the flags and the held packet. */
module Handlers {
  import opened Aliases
  import opened ByteOrder
  import opened Lookups
  import opened Packets
  import opened Sessions
  import opened Verdicts
  import Arena
  import opened PacketThreads
  import P = Protocol
  import R = ProtocolReplica
  import T = TcpTracker
  import W = Wire

  // ---- a held packet as bytes and as the protocol sees it ----

  /** The buffer s holds the packet k. */
  predicate Describes(env: Env, s: Bytes, k: P.Segment) {
    && Transport(s) && s[9] == TCP && Source(s) == Net(k.src) && Destination(s) == Net(k.dst)
    && FlagsOf(FlagByte(s)) == k.flags
    && (k.outward <==> Admitted(env, s, T.Lan) && !ToMe(env, Host32(s, 16), T.Lan))
    && (k.inward <==> Admitted(env, s, T.Wan))
  }

  /** The buffer s holds a packet that waits for a mapping of the LAN endpoint lan. */
  predicate Awaits(env: Env, s: Bytes, protocol: U8, lan: Endpoint) {
    && Readable(s) && Transport(s) && s[9] == protocol && Source(s) == Net(lan)
    && (protocol == TCP ==> Admitted(env, s, T.Lan) && !ToMe(env, Host32(s, 16), T.Lan) && FlagByte(s) == TH_SYN)
  }

  lemma NetMoved(nodes: P.Live, p: Ptr, f: T.Flags, from: T.Side)
    requires p in nodes
    ensures var l := NetTable(nodes)[p];
      NetTable(P.Moved(nodes, p, f, from)) == NetTable(nodes)[p := l.(state := TcpVerdict(l.state, f, from).1)]
  {
    hide TcpVerdict, NetMapping;
  }

  /** The table after the held packet went through translation again. */
  ghost function Rerun(nodes: P.Live, k: P.Segment, from: T.Side): P.Live {
    var p := Found(nodes, k, from);
    if p.Some? && p.value in nodes then P.Moved(nodes, p.value, k.flags, from) else nodes
  }

  ghost function Found(nodes: P.Live, k: P.Segment, from: T.Side): Option<Ptr> {
    if from == T.Lan then (if k.outward then FindLan(nodes, TCP, k.src) else None)
    else if k.inward then FindWan(nodes, TCP, k.dst) else None
  }

  /** lan2wan_alias on the held packet does to the sessions what the protocol says. */
  lemma OutwardAgain(env: Env, nodes: P.Live, s: Bytes, k: P.Segment, m: Mapping)
    requires Keyed(nodes) && Describes(env, s, k)
    ensures var o, t := Lan2Wan(env, NetTable(nodes), s), Rerun(nodes, k, T.Lan);
      && o.nodes == NetTable(t)
      && P.Forwarded(nodes, Found(nodes, k, T.Lan), k.flags, T.Lan, m)
         == if o.code == ALIAS_DOALIAS then P.DeleteValue(t, m) else Some(t)
  {
    hide Translate, TcpVerdict, Net, NetTable, FindLan, FindWan, Admitted, ToMe, Host32, FlagsOf, FlagByte,
      P.DeleteValue;
    NetFinds(nodes, TCP, k.src);
    var p := FindLan(nodes, TCP, k.src);
    if k.outward && p.Some? {
      NetMoved(nodes, p.value, k.flags, T.Lan);
      NetAt(nodes, p.value);
    }
    NotAdmitted(env, s, T.Lan);
  }

  lemma InwardAgain(env: Env, nodes: P.Live, s: Bytes, k: P.Segment, m: Mapping)
    requires Keyed(nodes) && Describes(env, s, k)
    ensures var o, t := Wan2Lan(env, NetTable(nodes), s), Rerun(nodes, k, T.Wan);
      && o.nodes == NetTable(t)
      && P.Forwarded(nodes, Found(nodes, k, T.Wan), k.flags, T.Wan, m)
         == if o.code == ALIAS_DOALIAS then P.DeleteValue(t, m) else Some(t)
  {
    hide Translate, TcpVerdict, Net, NetTable, FindLan, FindWan, Admitted, ToMe, Host32, FlagsOf, FlagByte,
      P.DeleteValue;
    NetFinds(nodes, TCP, k.dst);
    var p := FindWan(nodes, TCP, k.dst);
    if k.inward && p.Some? {
      NetMoved(nodes, p.value, k.flags, T.Wan);
      NetAt(nodes, p.value);
    }
    NotAdmitted(env, s, T.Wan);
  }

  /** The translation function for packets from one side. */
  ghost function Towards(env: Env, t: Table, s: Bytes, from: T.Side): Outcome
    requires Readable(s)
  {
    if from == T.Lan then Lan2Wan(env, t, s) else Wan2Lan(env, t, s)
  }

  /**
   * A TCP packet that is looked up to the session p: the translation function moves p's state and returns the code as
   * the protocol's steps have it, so it is held back exactly where the step HoldBack can be taken.
   */
  lemma PacketMoves(env: Env, nodes: P.Live, s: Bytes, k: P.Segment, p: Ptr)
    requires Keyed(nodes) && Describes(env, s, k) && p in nodes && P.Finds(k, nodes[p].m)
    ensures var o := Towards(env, NetTable(nodes), s, k.from);
      && o.code == TcpVerdict(nodes[p].state, k.flags, k.from).0
      && o.nodes == NetTable(P.Moved(nodes, p, k.flags, k.from))
  {
    hide Translate, TcpVerdict, Net, NetTable, FindLan, FindWan, Admitted, ToMe, Host32, FlagsOf, FlagByte;
    FindsOwn(nodes, p);
    NetFinds(nodes, TCP, if k.from == T.Lan then k.src else k.dst);
    NetMoved(nodes, p, k.flags, k.from);
    NetAt(nodes, p);
  }

  /** With room in h_send, such a packet is held back exactly when the code is 4, and passes as traffic otherwise. */
  lemma HeldExactly(env: Env, c: P.Config, s: P.State, b: Bytes, k: P.Segment, p: Ptr)
    requires Keyed(s.nodes) && Describes(env, b, k) && p in s.nodes && P.Finds(k, s.nodes[p].m)
    requires !s.failed && |s.hSend| < c.sendCap
    ensures var o := Towards(env, NetTable(s.nodes), b, k.from);
      && (P.Enabled(c, s, P.HoldBack(k, p)) <==> o.code == 4)
      && (P.Enabled(c, s, P.Traffic(k.from, k.flags, p)) <==> o.code != 4)
      && (o.code == 4 ==> o.nodes == NetTable(P.Next(c, s, P.HoldBack(k, p)).nodes))
      && (o.code != 4 ==> o.nodes == NetTable(P.Next(c, s, P.Traffic(k.from, k.flags, p)).nodes))
  {
    hide Describes, Towards, TcpVerdict, NetTable, Keyed, P.Moved, P.Items;
    PacketMoves(env, s.nodes, b, k, p);
  }

  /** With room in h_send, a packet that gets ALIAS_NO_TABLE joins it, as one of its protocol and LAN endpoint. */
  lemma ArrivesExactly(env: Env, c: P.Config, s: P.State, b: Bytes)
    requires Readable(b) && Keyed(s.nodes) && Lan2Wan(env, NetTable(s.nodes), b).code == -1
    requires !s.failed && |s.hSend| < c.sendCap
    ensures var o := Lan2Wan(env, NetTable(s.nodes), b);
      && Transport(o.packet)
      && var a := P.Arrive(b[9], Net(Source(o.packet)));
      && P.Enabled(c, s, a)
      && P.Next(c, s, a) == s.(hSend := s.hSend + [P.Syn(s.count, b[9], Net(Source(o.packet)))], count := s.count + 1)
      && Awaits(env, o.packet, b[9], Net(Source(o.packet)))
  {
    hide Lan2Wan, NetTable, Keyed, P.Items, Awaits, Net, Source;
    NoTableWaits(env, s.nodes, b);
  }

  /** Any session may expire while there is room, and its node joins h_send. */
  lemma ExpiresExactly(c: P.Config, s: P.State, p: Ptr)
    requires !s.failed
    ensures P.Enabled(c, s, P.Expire(p)) <==> |s.hSend| < c.sendCap && p in s.nodes
    ensures P.Enabled(c, s, P.Expire(p)) ==>
              P.Next(c, s, P.Expire(p)) == s.(hSend := s.hSend + [P.Expired(s.count, p)], count := s.count + 1)
  {
    hide P.Items;
  }

  lemma NetAt(nodes: P.Live, p: Ptr)
    requires p in nodes
    ensures p in NetTable(nodes) && NetTable(nodes)[p].state == nodes[p].state
  {
  }

  lemma NotAdmitted(env: Env, s: Bytes, from: T.Side)
    ensures !Admitted(env, s, from) ==> Early(env, s, from) != ALIAS_DOALIAS
  {
  }

  // ---- the table in either order ----

  lemma DeleteFound(nodes: P.Live, p: Ptr, m: Mapping)
    requires Keyed(nodes) && p in nodes && NetTable(nodes)[p].m == NetMapping(m)
    ensures P.DeleteValue(nodes, m) == Some(nodes - {p}) && NetTable(nodes - {p}) == NetTable(nodes) - {p}
  {
    hide NetMapping, P.DeleteValue, Keyed;
    NetMappingInjective(nodes[p].m, m);
    R.OnlyOne(nodes, p);
  }

  lemma DeleteAbsent(nodes: P.Live, m: Mapping)
    requires forall p :: p in nodes ==> NetTable(nodes)[p].m != NetMapping(m)
    ensures P.DeleteValue(nodes, m) == None
  {
    hide NetMapping;
  }

  /** The mappings of the nodes, in network order. */
  ghost function NetMappings(nodes: P.Live): set<Mapping> {
    set p | p in nodes :: NetMapping(nodes[p].m)
  }

  lemma NetTaken(nodes: P.Live, m: Mapping)
    ensures LanTaken(NetMappings(nodes), NetMapping(m)) <==> LanTaken(P.Table(nodes), m)
    ensures WanTaken(NetMappings(nodes), NetMapping(m)) <==> WanTaken(P.Table(nodes), m)
  {
    hide NetMapping, Pack;
    var t, u := P.Table(nodes), NetMappings(nodes);
    forall x: Mapping
      ensures LanKey(NetMapping(x)) == LanKey(NetMapping(m)) <==> LanKey(x) == LanKey(m)
      ensures WanKey(NetMapping(x)) == WanKey(NetMapping(m)) <==> WanKey(x) == WanKey(m)
    {
      NetKeys(x, m);
    }
    assert forall p :: p in nodes ==> nodes[p].m in t && NetMapping(nodes[p].m) in u;
    if y :| y in u && LanKey(y) == LanKey(NetMapping(m)) {
      var p :| p in nodes && NetMapping(nodes[p].m) == y;
      assert LanKey(nodes[p].m) == LanKey(m);
    }
    if y :| y in u && WanKey(y) == WanKey(NetMapping(m)) {
      var p :| p in nodes && NetMapping(nodes[p].m) == y;
      assert WanKey(nodes[p].m) == WanKey(m);
    }
    if x :| x in t && LanKey(x) == LanKey(m) {
      assert NetMapping(x) in u;
    }
    if x :| x in t && WanKey(x) == WanKey(m) {
      assert NetMapping(x) in u;
    }
  }

  lemma NetKeys(x: Mapping, m: Mapping)
    ensures LanKey(NetMapping(x)) == LanKey(NetMapping(m)) <==> LanKey(x) == LanKey(m)
    ensures WanKey(NetMapping(x)) == WanKey(NetMapping(m)) <==> WanKey(x) == WanKey(m)
  {
    hide Net, Pack;
    NetInjective(x.lan, m.lan);
    NetInjective(x.wan, m.wan);
    PackInjective(x.protocol, x.lan, m.protocol, m.lan);
    PackInjective(x.protocol, x.wan, m.protocol, m.wan);
    PackInjective(x.protocol, Net(x.lan), m.protocol, Net(m.lan));
    PackInjective(x.protocol, Net(x.wan), m.protocol, Net(m.wan));
  }

  lemma NetAdded(nodes: P.Live, p: Ptr, m: Mapping)
    ensures NetTable(nodes[p := P.Fresh(m)]) == NetTable(nodes)[p := Session(NetMapping(m), P.Fresh(m).state)]
  {
    hide NetMapping;
  }

  // ---- the handler ----

  /** The sessions in the trees of n are those of nodes, in network order. */
  ghost predicate Holds(n: Nat, nodes: P.Live)
    reads n, n.table, n.table.l2w, n.table.w2l
  {
    n.Valid() && Keyed(nodes) && n.View() == NetTable(nodes)
  }

  lemma Members(n: Nat, nodes: P.Live)
    requires Holds(n, nodes)
    ensures n.table.Members() == nodes.Keys && n.table.Table() == NetMappings(nodes)
    ensures forall p :: p in nodes ==> n.table.node[p] == NetMapping(nodes[p].m)
  {
    hide NetMapping;
    assert n.View().Keys == n.table.Members() && NetTable(nodes).Keys == nodes.Keys;
    assert forall p :: p in nodes ==> n.View()[p].m == NetTable(nodes)[p].m;
  }

  /** s_delete_for_value with the values of the message; false where nothing is deleted and the receiver exits. */
  method Delete(n: Nat, m: Mapping, ghost nodes: P.Live) returns (ok: bool)
    requires Holds(n, nodes)
    modifies n.table.l2w, n.table.w2l
    ensures ok == P.DeleteValue(nodes, m).Some?
    ensures n.Valid() && (ok ==> n.View() == NetTable(P.DeleteValue(nodes, m).value))
  {
    hide NetMapping, P.DeleteValue, Keyed;
    var r := n.DeleteValue(NetMapping(m));
    ok := r != Arena.NULL;
    if ok {
      DeleteFound(nodes, r, m);
    } else {
      DeleteAbsent(nodes, m);
    }
  }

  /** What becomes of the waiting packet once its session is in the table: a hairpin is taken in first. */
  ghost function SendOn(env: Env, t: Table, s: Bytes): Outcome
    requires Readable(s) && Transport(s)
  {
    if s[9] == UDP && ToMe(env, Host32(s, 16), T.Lan) then
      var w := Wan2Lan(env, t, s);
      if w.code != ALIAS_DOALIAS then w
      else HairpinShape(env, t, s); Lan2Wan(env, w.nodes, w.packet)
    else Lan2Wan(env, t, s)
  }

  /** The packet sent on does to the sessions what the protocol says: a SYN moves its session, a UDP packet none. */
  lemma SentSessions(env: Env, nodes: P.Live, s: Bytes, x: P.Item)
    requires Keyed(nodes) && x.Syn? && (x.protocol == TCP || x.protocol == UDP) && Awaits(env, s, x.protocol, x.lan)
    ensures SendOn(env, NetTable(nodes), s).nodes == NetTable(P.SentOn(nodes, x))
  {
    hide Net, NetTable, FindLan, FindWan, Admitted, ToMe, Host32, FlagByte, WellFormed, Lan2Wan, Source, Destination;
    if x.protocol == TCP {
      var dst := Destination(s);
      NetTwice(dst);
      var k := P.Segment(T.Lan, x.lan, Net(dst), P.SYN, true, Admitted(env, s, T.Wan));
      OutwardAgain(env, nodes, s, k, Mapping(TCP, x.lan, x.lan));
    } else {
      UdpStays(env, NetTable(nodes), s);
    }
  }

  lemma UdpStays(env: Env, t: Table, s: Bytes)
    requires Readable(s) && Transport(s) && s[9] == UDP
    ensures SendOn(env, t, s).nodes == t
  {
    hide Translate, FindLan, FindWan, Admitted, ToMe, Host32;
    HairpinShape(env, t, s);
    var w := Wan2Lan(env, t, s);
    HairpinShape(env, t, w.packet);
  }

  /** What lan2wan_alias finds no session for waits, and as a packet of a host without a mapping for it. */
  lemma NoTableWaits(env: Env, nodes: P.Live, s: Bytes)
    requires Readable(s) && Keyed(nodes) && Lan2Wan(env, NetTable(nodes), s).code == ALIAS_NO_TABLE
    ensures |s| > ALIAS_MIN_SIZE && (s[9] == TCP || s[9] == UDP)
    ensures var o := Lan2Wan(env, NetTable(nodes), s);
      && Transport(o.packet) && o.nodes == NetTable(nodes)
      && var lan := Net(Source(o.packet));
      Awaits(env, o.packet, s[9], lan) && FindLan(nodes, s[9], lan) == None
  {
    hide Lan2Wan, Net, NetTable, FindLan, FindWan, ToMe, Host32, Source, Admitted;
    NoTable(env, NetTable(nodes), s);
    var lan := Net(Source(s));
    NetTwice(Source(s));
    NetFinds(nodes, s[9], lan);
  }

  lemma NoTable(env: Env, t: Table, s: Bytes)
    requires Readable(s) && Lan2Wan(env, t, s).code == ALIAS_NO_TABLE
    ensures |s| > ALIAS_MIN_SIZE && Transport(s) && FindLan(t, s[9], Source(s)) == None
    ensures var o := Lan2Wan(env, t, s);
      && Transport(o.packet) && o.nodes == t && o.packet[9] == s[9] && Source(o.packet) == Source(s)
      && (s[9] == TCP ==>
            Admitted(env, s, T.Lan) && !ToMe(env, Host32(s, 16), T.Lan) && FlagByte(s) == TH_SYN && o.packet == s)
  {
    hide Translate, T.TcpStateCheck, FindLan, FindWan, ToMe, Host32, Source, Dropped, TooBig, FlagByte, Destination;
    if |s| > ALIAS_MIN_SIZE && s[9] == UDP {
      HairpinShape(env, t, s);
    }
  }

  /** And the other way round: such a packet does get that code, so that the packet thread has a mapping requested. */
  lemma WaitingAsks(env: Env, nodes: P.Live, s: Bytes, lan: Endpoint)
    requires |s| > 20 && (s[9] == TCP || s[9] == UDP) && Awaits(env, s, s[9], lan) && Keyed(nodes)
    requires forall p :: p in nodes && nodes[p].m.protocol == s[9] ==> nodes[p].m.lan != lan
    requires s[9] == UDP ==> Admitted(env, s, T.Lan) && !ToMe(env, Host32(s, 16), T.Lan)
    ensures var o := Lan2Wan(env, NetTable(nodes), s); o.code == -1 && o.packet == s && o.nodes == NetTable(nodes)
  {
    hide Translate, Net, NetTable, FindLan, FindWan, ToMe, Host32, Source, Admitted, Keyed;
    W.NotFound(nodes, s[9], lan);
    NetFinds(nodes, s[9], lan);
  }

  /** Once its mapping is in the table, the packet that waited for it leaves, and with the mapping's WAN endpoint. */
  lemma FirstPacketLeaves(env: Env, nodes: P.Live, spot: Ptr, m: Mapping, s: Bytes)
    requires Keyed(nodes[spot := P.Fresh(m)]) && Awaits(env, s, m.protocol, m.lan)
    requires m.protocol == UDP ==> Admitted(env, s, T.Lan) && !ToMe(env, Host32(s, 16), T.Lan)
    ensures var o := SendOn(env, NetTable(nodes[spot := P.Fresh(m)]), s);
      o.code == ALIAS_DOALIAS && o.packet == Translate(s, Src, Net(m.wan))
  {
    hide Translate, Net, FindLan, FindWan, ToMe, Host32, Source, Admitted, Keyed;
    var t := nodes[spot := P.Fresh(m)];
    FindsOwn(t, spot);
    NetFinds(t, m.protocol, m.lan);
  }

  /** A hairpin that waited goes to the session q it was addressed to, with the new mapping's WAN endpoint as source. */
  lemma HairpinLeaves(env: Env, nodes: P.Live, spot: Ptr, m: Mapping, s: Bytes, q: Ptr)
    requires m.protocol == UDP && Keyed(nodes[spot := P.Fresh(m)]) && Awaits(env, s, UDP, m.lan)
    requires ToMe(env, Host32(s, 16), T.Lan) && Admitted(env, s, T.Wan)
    requires var t := nodes[spot := P.Fresh(m)];
      q in t && t[q].m.protocol == UDP && Net(t[q].m.wan) == Destination(s)
    requires var w := Translate(s, Dst, Net(nodes[spot := P.Fresh(m)][q].m.lan));
      Transport(w) ==> Admitted(env, w, T.Lan) && !ToMe(env, Host32(w, 16), T.Lan)
    ensures var w := Translate(s, Dst, Net(nodes[spot := P.Fresh(m)][q].m.lan));
      && Transport(w)
      && var o := SendOn(env, NetTable(nodes[spot := P.Fresh(m)]), s);
      o.code == 0 && o.packet == Translate(w, Src, Net(m.wan))
  {
    hide Translate, Net, FindLan, FindWan, ToMe, Host32, Source, Destination, Admitted, Keyed;
    var t := nodes[spot := P.Fresh(m)];
    FindsOwn(t, spot);
    FindsOwn(t, q);
    NetFinds(t, UDP, m.lan);
    NetFinds(t, UDP, t[q].m.wan);
    HairpinShape(env, NetTable(t), s);
  }

  /** The waiting packet goes through wan2lan_alias, if it is a hairpin, and lan2wan_alias. */
  method PassOn(n: Nat, env: Env, buf: array<U8>) returns (code: int)
    requires n.Valid() && Readable(buf[..]) && Transport(buf[..])
    modifies buf, n`flags
    ensures n.Valid() && Outcome(code, buf[..], n.View()) == SendOn(env, old(n.View()), old(buf[..]))
  {
    hide Wan2Lan, Lan2Wan, ToMe, Host32;
    if buf[9] == UDP {
      var dst := LoadHost(buf, 16);
      var self := CheckSelf(env.lanAddrs, dst);
      assert self <==> ToMe(env, Host32(buf[..], 16), T.Lan) by {
        Self(env, dst);
      }
      if self {
        HairpinShape(env, n.View(), buf[..]);
        code := n.WanToLan(env, buf);
        if code != ALIAS_DOALIAS {
          return;
        }
      }
    }
    code := n.LanToWan(env, buf);
  }

  lemma Self(env: Env, dst: U32)
    ensures ToMe(env, dst, T.Lan) <==> dst in env.lanAddrs
  {
  }

  /**
   * A request_ack: a node is allocated at spot and filled, and goes in unless one of its sides is taken. If it went in,
   * the packet that waited is translated; sent tells whether it leaves.
   */
  method InsertSession(n: Nat, env: Env, m: Mapping, spot: Ptr, buf: array<U8>, ghost nodes: P.Live, ghost e: P.Entry)
    returns (sent: bool)
    requires Holds(n, nodes) && spot != Arena.NULL && spot !in nodes && (m.protocol == TCP || m.protocol == UDP)
    requires e.item.Syn? && e.item.protocol == m.protocol && Awaits(env, buf[..], m.protocol, e.item.lan)
    modifies buf, n`flags, n.table, n.table.l2w, n.table.w2l
    ensures n.Valid() && n.View() == NetTable(P.Apply(nodes, P.RequestAck(m, e), e, spot).value)
    ensures if LanTaken(P.Table(nodes), m) || WanTaken(P.Table(nodes), m) then !sent && buf[..] == old(buf[..])
            else
              var o := SendOn(env, NetTable(nodes[spot := P.Fresh(m)]), old(buf[..]));
              buf[..] == o.packet && (sent <==> o.code == ALIAS_DOALIAS)
  {
    hide NetMapping, Keyed, LanTaken, WanTaken, NetTable, Net, SendOn, P.SentOn, WellFormed, ToMe, Host32, Admitted;
    Members(n, nodes);
    NetTaken(nodes, m);
    NetAdded(nodes, spot, m);
    var r := n.Insert(spot, Session(NetMapping(m), if m.protocol == TCP then T.SynSent else T.Established));
    if r != Arena.NULL {
      return false;
    }
    R.AddedOne(nodes, spot, m);
    SentSessions(env, nodes[spot := P.Fresh(m)], buf[..], e.item);
    var code := PassOn(n, env, buf);
    sent := code == ALIAS_DOALIAS;
  }

  /** A release_ack for an expired session: its node goes, by pointer. */
  method DeleteNode(n: Nat, p: Ptr, ghost nodes: P.Live)
    requires Holds(n, nodes) && p in nodes
    modifies n.table.l2w, n.table.w2l
    ensures n.Valid() && n.View() == NetTable(nodes - {p})
  {
    hide NetMapping, Keyed;
    Members(n, nodes);
    n.DeleteNode(p);
    NetLess(nodes, p);
  }

  lemma NetLess(nodes: P.Live, p: Ptr)
    ensures NetTable(nodes - {p}) == NetTable(nodes) - {p}
  {
    hide NetMapping;
  }

  /**
   * A release_ack for a held packet: it is translated once more, and only if it is let through its session is deleted
   * and it leaves.
   */
  method Forward(n: Nat, env: Env, buf: array<U8>, from: T.Side, m: Mapping, ghost nodes: P.Live, ghost k: P.Segment)
    returns (ok: bool, sent: bool)
    requires Holds(n, nodes) && Describes(env, buf[..], k)
    modifies buf, n`flags, n.table.l2w, n.table.w2l
    ensures n.Valid()
    ensures var t := P.Forwarded(nodes, Found(nodes, k, from), k.flags, from, m);
      ok == t.Some? && (ok ==> n.View() == NetTable(t.value))
    ensures var o := Towards(env, NetTable(nodes), old(buf[..]), from);
      buf[..] == o.packet && (sent <==> ok && o.code == ALIAS_DOALIAS)
  {
    hide Translate, Keyed, Admitted, ToMe, FlagsOf, FlagByte, Host32, Net, P.Forwarded, P.DeleteValue, Lan2Wan,
      Wan2Lan, NetTable, Rerun, Found, WellFormed, Source, Destination;
    var code;
    RerunKeyed(nodes, k, from);
    if from == T.Lan {
      OutwardAgain(env, nodes, buf[..], k, m);
      code := n.LanToWan(env, buf);
    } else {
      InwardAgain(env, nodes, buf[..], k, m);
      code := n.WanToLan(env, buf);
    }
    if code != ALIAS_DOALIAS {
      return true, false;
    }
    ok := Delete(n, m, Rerun(nodes, k, from));
    sent := ok;
  }

  lemma RerunKeyed(nodes: P.Live, k: P.Segment, from: T.Side)
    requires Keyed(nodes)
    ensures Keyed(Rerun(nodes, k, from))
  {
    hide Keyed, P.Moved, Found;
    var p := Found(nodes, k, from);
    if p.Some? && p.value in nodes {
      R.MovedGrown(nodes, p.value, k.flags, from);
    }
  }

  /**
   * What the receiver does with a reply and the entry popped for it, on the trees, the flags and the packet's buffer,
   * is what the protocol's Apply says; ok is false where it exits. A packet that waited or was held back leaves, as
   * sent tells, with what the translation functions made of it.
   */
  method Receive(n: Nat, env: Env, r: P.Reply, e: P.Entry, buf: array<U8>, spot: Ptr, ghost nodes: P.Live)
    returns (ok: bool, sent: bool)
    requires Holds(n, nodes) && spot != Arena.NULL && spot !in nodes
    requires e.item.Held? ==> Describes(env, buf[..], e.item.packet)
    requires r.RequestAck? ==>
               && e.item.Syn? && e.item.protocol == r.m.protocol && (r.m.protocol == TCP || r.m.protocol == UDP)
               && Awaits(env, buf[..], r.m.protocol, e.item.lan)
    requires r.ReleaseAck? && e.tag == P.Timeout ==> e.item.Expired? && e.item.node in nodes
    requires r.ReleaseAck? && (e.tag == P.RelL2W || e.tag == P.RelW2L) ==> e.item.Held?
    modifies buf, n`flags, n.table, n.table.l2w, n.table.w2l
    ensures n.Valid()
    ensures var t := P.Apply(nodes, r, e, spot); ok == t.Some? && (ok ==> n.View() == NetTable(t.value))
    ensures r.RequestAck? && !LanTaken(P.Table(nodes), r.m) && !WanTaken(P.Table(nodes), r.m) ==>
              var o := SendOn(env, NetTable(nodes[spot := P.Fresh(r.m)]), old(buf[..]));
              buf[..] == o.packet && (sent <==> o.code == ALIAS_DOALIAS)
    ensures r.ReleaseAck? && (e.tag == P.RelL2W || e.tag == P.RelW2L) ==>
              var o := Towards(env, NetTable(nodes), old(buf[..]), if e.tag == P.RelL2W then T.Lan else T.Wan);
              buf[..] == o.packet && (sent <==> ok && o.code == ALIAS_DOALIAS)
  {
    hide Keyed, P.DeleteValue, P.Forwarded, Awaits, NetTable, LanTaken, WanTaken, P.SentOn, Towards, SendOn, Net;
    hide Transport, Admitted, ToMe, Host32, FlagsOf, FlagByte, Source, Destination;
    ok, sent := true, false;
    match r
    case RequestAck(m, _) => sent := InsertSession(n, env, m, spot, buf, nodes, e);
    case RequestDiscard(_, _, _) =>
    case ReleaseAck(m, _) =>
      match e.tag
      case NoTag => ok := Delete(n, m, nodes);
      case Timeout => DeleteNode(n, e.item.node, nodes);
      case RelL2W => ok, sent := Forward(n, env, buf, T.Lan, m, nodes, e.item.packet);
      case RelW2L => ok, sent := Forward(n, env, buf, T.Wan, m, nodes, e.item.packet);
  }

  lemma NetBack(m: Mapping)
    ensures NetMapping(NetMapping(m)) == m
  {
    hide Net;
    NetTwice(m.lan);
    NetTwice(m.wan);
  }

  /** The message and the tag the sender writes for an item, from the values of the node its searches find. */
  method Compose(n: Nat, x: P.Item, ghost nodes: P.Live) returns (msg: Option<P.Message>)
    requires Holds(n, nodes) && (x.Expired? ==> x.node in nodes)
    ensures msg == P.Compose(nodes, x)
  {
    hide Net, NetMapping, NetTable, Keyed, FindLan, FindWan;
    Members(n, nodes);
    match x
    case Syn(_, protocol, lan) =>
      msg := Some(P.Message.Request(protocol, lan, P.Entry(x, P.NoTag)));
    case Held(_, k, _) =>
      NetFinds(nodes, TCP, k.src);
      NetFinds(nodes, TCP, k.dst);
      var tag := P.RelL2W;
      var table := n.LookupLan(TCP, Net(k.src));
      if table == Arena.NULL {
        tag := P.RelW2L;
        table := n.LookupWan(TCP, Net(k.dst));
        if table == Arena.NULL {
          return None;
        }
      }
      NetBack(nodes[table].m);
      msg := Some(P.Message.Release(NetMapping(n.table.node[table]), P.Entry(x, tag)));
    case Expired(_, p) =>
      NetBack(nodes[p].m);
      msg := Some(P.Message.Release(NetMapping(n.table.node[p]), P.Entry(x, P.Timeout)));
  }
}
