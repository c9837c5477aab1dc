/** What the pool server answers to each line, told on the entries, lists and limits of its two pools. */
module ServerAnswers {
  import opened Sessions
  import opened Pools
  import opened PoolAnswers
  import opened Protocol

  /** The address picked for the host has a free port. */
  predicate FreeFor(s: Pool, host: U32) {
    s.addrs != [] && Picked(s, host) in s.ports && s.ports[Picked(s, host)] != []
  }

  /**
   * A TCP or UDP request is acknowledged exactly when the pool of its protocol has an entry for the LAN endpoint, or a
   * port is free at the host's address and the host is under its limit; with that entry's WAN endpoint, or the oldest
   * free port. The other pool stays as it is.
   */
  lemma RequestAnswered(k: Limits, v: Server, protocol: U8, lan: Endpoint, e: Entry)
    requires Inv(k, v.tcp) && Inv(k, v.udp) && (protocol == 6 || protocol == 17)
    ensures var s, (v', r) := if protocol == 6 then v.tcp else v.udp, Answer(k, v, Message.Request(protocol, lan, e));
      var found, under := exists i: nat :: Has(s, lan, i), lan.ip in s.db ==> |s.db[lan.ip]| < k.maxConnection;
      && r.Some? && (if protocol == 6 then v'.udp == v.udp else v'.tcp == v.tcp)
      && (r.value.RequestAck? <==> found || (FreeFor(s, lan.ip) && under))
      && (r.value.RequestAck? || r.value == RequestDiscard(protocol, lan, e))
      && (forall i: nat :: Has(s, lan, i) ==>
            v' == v && r.value == RequestAck(Mapping(protocol, lan, s.db[lan.ip][i].wan), e))
      && (!found && r.value.RequestAck? ==>
            var a := Picked(s, lan.ip);
            r.value == RequestAck(Mapping(protocol, lan, Endpoint(a, s.ports[a][0])), e))
  {
    hide Inv, Assign;
    var s := if protocol == 6 then v.tcp else v.udp;
    if i: nat :| Has(s, lan, i) {
      forall j: nat | Has(s, lan, j)
        ensures Assign(k, s, lan) == (s, Some(s.db[lan.ip][j]))
      {
        RequestKnown(k, s, lan, j);
      }
    } else if FreeFor(s, lan.ip) {
      RequestNew(k, s, lan);
      var under := lan.ip in s.db ==> |s.db[lan.ip]| < k.maxConnection;
      var r := Answer(k, v, Message.Request(protocol, lan, e)).1;
      assert Assign(k, s, lan).1.Some? <==> under;
      assert r.Some? && (r.value.RequestAck? <==> under);
    } else {
      AddressKnown(k, s, lan.ip);
      RequestNoPort(k, s, lan);
    }
  }

  lemma AddressKnown(k: Limits, s: Pool, host: U32)
    requires Inv(k, s)
    ensures s.addrs != [] ==> Picked(s, host) in s.ports
  {
    hide Entries, Unique, Covered, ListOk;
  }

  /** Requests and releases of any other protocol do nothing. */
  lemma ForeignAnswered(k: Limits, v: Server, protocol: U8, lan: Endpoint, m: Mapping, e: Entry)
    requires protocol != 6 && protocol != 17 && m.protocol == protocol
    ensures Answer(k, v, Message.Request(protocol, lan, e)) == (v, Some(RequestDiscard(protocol, lan, e)))
    ensures Answer(k, v, Message.Release(m, e)) == (v, Some(ReleaseAck(m, e)))
  {
  }

  /** A release goes to the pool of its protocol; it stays unanswered exactly when that pool never saw the host. */
  lemma ReleaseAnswered(k: Limits, v: Server, m: Mapping, e: Entry)
    requires Inv(k, v.tcp) && Inv(k, v.udp) && (m.protocol == 6 || m.protocol == 17)
    ensures var s, (v', r) := if m.protocol == 6 then v.tcp else v.udp, Answer(k, v, Message.Release(m, e));
      var s', c := if m.protocol == 6 then v'.tcp else v'.udp, Conn(m.lan, m.wan);
      && (if m.protocol == 6 then v'.udp == v.udp else v'.tcp == v.tcp)
      && r == (if m.lan.ip in s.db then Some(ReleaseAck(m, e)) else None)
      && (m.lan.ip !in s.db || c !in s.db[m.lan.ip] ==> v' == v)
      && (forall i :: m.lan.ip in s.db && 0 <= i < |s.db[m.lan.ip]| && s.db[m.lan.ip][i] == c ==>
            && m.wan.ip in s.ports
            && s' == Pool(s.addrs, s.ports[m.wan.ip := s.ports[m.wan.ip] + [m.wan.port]],
                          s.db[m.lan.ip := s.db[m.lan.ip][..i] + s.db[m.lan.ip][i + 1..]], s.dropped))
  {
    hide Inv, Pools.Release;
    var s, c := if m.protocol == 6 then v.tcp else v.udp, Conn(m.lan, m.wan);
    if c.lan.ip in s.db && c in s.db[c.lan.ip] {
      forall i | 0 <= i < |s.db[c.lan.ip]| && s.db[c.lan.ip][i] == c
        ensures c.wan.ip in s.ports && Pools.Release(s, c) == (
                  Pool(s.addrs, s.ports[c.wan.ip := s.ports[c.wan.ip] + [c.wan.port]],
                       s.db[c.lan.ip := s.db[c.lan.ip][..i] + s.db[c.lan.ip][i + 1..]], s.dropped), Done)
      {
        ReleaseKnown(k, s, c, i);
      }
      var i :| 0 <= i < |s.db[c.lan.ip]| && s.db[c.lan.ip][i] == c;
      assert Pools.Release(s, c).1 == Done;
    } else {
      ReleaseUnknown(s, c);
    }
  }
}
