/** htonl and htons: endpoints in host order, as messages carry them, and in network order, as packets and nodes do. */
module ByteOrder {
  import opened Checksums
  import opened Lookups
  import opened Sessions

  /** htonl and ntohl on a little-endian host. */
  function SwapIp(ip: U32): U32 {
    Swap(ip / 0x1_0000) + Swap(ip % 0x1_0000) as nat * 0x1_0000
  }

  function Net(e: Endpoint): Endpoint {
    Endpoint(SwapIp(e.ip), Swap(e.port))
  }

  function NetMapping(m: Mapping): Mapping {
    Mapping(m.protocol, Net(m.lan), Net(m.wan))
  }

  function NetTable<S>(t: Nodes<S>): Nodes<S> {
    map p | p in t :: Session(NetMapping(t[p].m), t[p].state)
  }

  lemma SwapIpTwice(ip: U32)
    ensures SwapIp(SwapIp(ip)) == ip
  {
    hide Swap;
    var hi, lo := ip / 0x1_0000, ip % 0x1_0000;
    SwapCong(hi);
    SwapCong(lo);
    Halves(Swap(lo), Swap(hi));
    assert ip == hi * 0x1_0000 + lo;
  }

  lemma Halves(hi: U16, lo: U16)
    ensures var x := lo + hi as nat * 0x1_0000; x / 0x1_0000 == hi && x % 0x1_0000 == lo
  {
  }

  /** Swapping twice is swapping not at all, so different endpoints stay different. */
  lemma NetTwice(e: Endpoint)
    ensures Net(Net(e)) == e
  {
    hide Swap, SwapIp;
    SwapIpTwice(e.ip);
    SwapCong(e.port);
  }

  lemma NetInjective(e: Endpoint, f: Endpoint)
    ensures Net(e) == Net(f) <==> e == f
  {
    hide Net;
    NetTwice(e);
    NetTwice(f);
  }

  lemma NetMappingInjective(m: Mapping, n: Mapping)
    ensures (NetMapping(m) == NetMapping(n) <==> m == n) && (Meet(NetMapping(m), NetMapping(n)) <==> Meet(m, n))
  {
    hide Net;
    NetInjective(m.lan, n.lan);
    NetInjective(m.wan, n.wan);
  }

  /** The searches find the same session in either order. */
  lemma NetFinds<S>(t: Nodes<S>, protocol: U8, e: Endpoint)
    requires Keyed(t)
    ensures Keyed(NetTable(t))
    ensures FindLan(NetTable(t), protocol, Net(e)) == FindLan(t, protocol, e)
    ensures FindWan(NetTable(t), protocol, Net(e)) == FindWan(t, protocol, e)
  {
    hide Net, NetMapping, Keyed;
    NetKeyed(t);
    var u := NetTable(t);
    forall p
      ensures HasLan(u, p, protocol, Net(e)) <==> HasLan(t, p, protocol, e)
      ensures HasWan(u, p, protocol, Net(e)) <==> HasWan(t, p, protocol, e)
    {
      NetHas(t, p, protocol, e);
    }
    var a, b := FindLan(t, protocol, e), FindWan(t, protocol, e);
    if a.Some? {
      FindsOwn(u, a.value);
      assert HasLan(u, a.value, protocol, Net(e));
    }
    if b.Some? {
      FindsOwn(u, b.value);
      assert HasWan(u, b.value, protocol, Net(e));
    }
  }

  lemma NetHas<S>(t: Nodes<S>, p: Ptr, protocol: U8, e: Endpoint)
    ensures HasLan(NetTable(t), p, protocol, Net(e)) <==> HasLan(t, p, protocol, e)
    ensures HasWan(NetTable(t), p, protocol, Net(e)) <==> HasWan(t, p, protocol, e)
  {
    hide Net;
    if p in t {
      NetInjective(t[p].m.lan, e);
      NetInjective(t[p].m.wan, e);
    }
  }

  lemma NetKeyed<S>(t: Nodes<S>)
    requires Keyed(t)
    ensures Keyed(NetTable(t))
  {
    hide NetMapping, Meet;
    var u := NetTable(t);
    forall p, q | p in u && q in u && Meet(u[p].m, u[q].m)
      ensures p == q
    {
      NetMappingInjective(t[p].m, t[q].m);
    }
  }
}
