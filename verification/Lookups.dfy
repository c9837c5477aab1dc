/** What the two tree searches find, told on the sessions of a table; S is what is kept of a session's state. */
module Lookups {
  import opened Sessions
  import Arena

  type Ptr = Arena.Ptr

  datatype Session<S> = Session(m: Mapping, state: S)

  type Nodes<S> = map<Ptr, Session<S>>

  ghost predicate HasLan<S>(t: Nodes<S>, p: Ptr, protocol: U8, e: Endpoint) {
    p in t && t[p].m.protocol == protocol && t[p].m.lan == e
  }

  ghost predicate HasWan<S>(t: Nodes<S>, p: Ptr, protocol: U8, e: Endpoint) {
    p in t && t[p].m.protocol == protocol && t[p].m.wan == e
  }

  /** Two mappings of one protocol share a LAN or a WAN endpoint. */
  predicate Meet(m: Mapping, n: Mapping) {
    m.protocol == n.protocol && (m.lan == n.lan || m.wan == n.wan)
  }

  lemma MeetKeys(m: Mapping, n: Mapping)
    ensures Meet(m, n) <==> LanKey(m) == LanKey(n) || WanKey(m) == WanKey(n)
  {
    PackInjective(m.protocol, m.lan, n.protocol, n.lan);
    PackInjective(m.protocol, m.wan, n.protocol, n.wan);
  }

  /** Different sessions differ in both keys. */
  ghost predicate Keyed<S>(t: Nodes<S>) {
    forall p, q :: p in t && q in t && Meet(t[p].m, t[q].m) ==> p == q
  }

  /** find_l2w. */
  ghost function FindLan<S>(t: Nodes<S>, protocol: U8, e: Endpoint): (r: Option<Ptr>)
    ensures r.Some? ==> HasLan(t, r.value, protocol, e)
    ensures r.None? ==> forall p :: !HasLan(t, p, protocol, e)
  {
    if p :| HasLan(t, p, protocol, e) then Some(p) else None
  }

  /** find_w2l. */
  ghost function FindWan<S>(t: Nodes<S>, protocol: U8, e: Endpoint): (r: Option<Ptr>)
    ensures r.Some? ==> HasWan(t, r.value, protocol, e)
    ensures r.None? ==> forall p :: !HasWan(t, p, protocol, e)
  {
    if p :| HasWan(t, p, protocol, e) then Some(p) else None
  }

  /** In a keyed table either search finds a session by its own endpoint. */
  lemma FindsOwn<S>(t: Nodes<S>, p: Ptr)
    requires Keyed(t) && p in t
    ensures FindLan(t, t[p].m.protocol, t[p].m.lan) == Some(p)
    ensures FindWan(t, t[p].m.protocol, t[p].m.wan) == Some(p)
  {
    assert HasLan(t, p, t[p].m.protocol, t[p].m.lan);
    assert HasWan(t, p, t[p].m.protocol, t[p].m.wan);
    var q := FindLan(t, t[p].m.protocol, t[p].m.lan).value;
    var r := FindWan(t, t[p].m.protocol, t[p].m.wan).value;
    assert Meet(t[p].m, t[q].m) && Meet(t[p].m, t[r].m);
  }
}
