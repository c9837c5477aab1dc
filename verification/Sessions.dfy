/** Sessions of the NAT, the keys the two trees order them by, and the table as a set of mappings. */
module Sessions {
  type U8 = x: nat | x < 0x100
  type U16 = x: nat | x < 0x1_0000
  type U32 = x: nat | x < 0x1_0000_0000

  const TCP: U8 := 6
  const UDP: U8 := 17

  datatype Option<T> = None | Some(value: T)

  /** ALIAS_IS_PRIVATE, of an address in host order. */
  predicate Inside(ip: U32) {
    ip / 0x100_0000 == 0x0A || ip / 0x10_0000 == 0xAC1 || ip / 0x1_0000 == 0xC0A8 || ip / 0x40_0000 == 0x191
  }

  datatype Endpoint = Endpoint(ip: U32, port: U16)

  datatype Mapping = Mapping(protocol: U8, lan: Endpoint, wan: Endpoint)

  /** The 64-bit key of an endpoint: protocol, port and address side by side. */
  function Pack(protocol: U8, e: Endpoint): (k: nat)
    ensures k < 0x100_0000_0000_0000
  {
    protocol * 0x1_0000_0000_0000 + e.port * 0x1_0000_0000 + e.ip
  }

  // The three fields of a key, as the timer loop takes them out again.

  function UnpackProtocol(k: nat): U8
    requires k < 0x100_0000_0000_0000
  {
    k / 0x1_0000_0000_0000
  }

  function UnpackPort(k: nat): U16 {
    k / 0x1_0000_0000 % 0x1_0000
  }

  function UnpackIp(k: nat): U32 {
    k % 0x1_0000_0000
  }

  lemma UnpackOfPack(protocol: U8, e: Endpoint)
    ensures var k := Pack(protocol, e);
      UnpackProtocol(k) == protocol && UnpackPort(k) == e.port && UnpackIp(k) == e.ip
  {
    var k := Pack(protocol, e);
    var high := protocol * 0x1_0000 + e.port;
    assert k == high * 0x1_0000_0000 + e.ip;
    assert k / 0x1_0000_0000 == high;
  }

  /** Two endpoints have the same key only if they are the same. */
  lemma PackInjective(p: U8, e: Endpoint, p': U8, e': Endpoint)
    ensures Pack(p, e) == Pack(p', e') <==> p == p' && e == e'
  {
    UnpackOfPack(p, e);
    UnpackOfPack(p', e');
  }

  function LanKey(m: Mapping): nat {
    Pack(m.protocol, m.lan)
  }

  function WanKey(m: Mapping): nat {
    Pack(m.protocol, m.wan)
  }

  // ---- the table as a set of mappings ----

  ghost predicate LanTaken(t: set<Mapping>, m: Mapping) {
    exists x :: x in t && LanKey(x) == LanKey(m)
  }

  ghost predicate WanTaken(t: set<Mapping>, m: Mapping) {
    exists x :: x in t && WanKey(x) == WanKey(m)
  }

  /** No two mappings share a LAN side, and no two share a WAN side. */
  ghost predicate Bijective(t: set<Mapping>) {
    forall x, y :: x in t && y in t && (LanKey(x) == LanKey(y) || WanKey(x) == WanKey(y)) ==> x == y
  }

  /** s_insert: a mapping goes in only when both its sides are free. */
  ghost function Inserted(t: set<Mapping>, m: Mapping): set<Mapping> {
    if LanTaken(t, m) || WanTaken(t, m) then t else t + {m}
  }

  /** A mapping gets in exactly when it was in or both its sides are free, and the table stays a bijection. */
  lemma InsertedBijective(t: set<Mapping>, m: Mapping)
    requires Bijective(t)
    ensures Bijective(Inserted(t, m)) && t <= Inserted(t, m) <= t + {m}
    ensures m in Inserted(t, m) <==>
            m in t || forall x :: x in t && x.protocol == m.protocol ==> x.lan != m.lan && x.wan != m.wan
  {
    hide Pack;
    forall x: Mapping
      ensures LanKey(x) == LanKey(m) <==> x.protocol == m.protocol && x.lan == m.lan
      ensures WanKey(x) == WanKey(m) <==> x.protocol == m.protocol && x.wan == m.wan
    {
      PackInjective(x.protocol, x.lan, m.protocol, m.lan);
      PackInjective(x.protocol, x.wan, m.protocol, m.wan);
    }
  }
}
