/** What the pool answers to each request and release, and its whole new state, told on lengths, lists and places. */
module PoolAnswers {
  import opened Sessions
  import opened Pools

  /** Where the host's entry for the LAN endpoint is, if it has one. */
  ghost predicate Has(s: Pool, lan: Endpoint, i: nat) {
    lan.ip in s.db && i < |s.db[lan.ip]| && s.db[lan.ip][i].lan == lan
  }

  /** The pool address that the last octet of the host picks. */
  function Picked(s: Pool, host: U32): U32
    requires s.addrs != []
  {
    s.addrs[host % 256 % |s.addrs|]
  }

  /** A request for an endpoint that has an entry gets that entry, and changes nothing. */
  lemma RequestKnown(k: Limits, s: Pool, lan: Endpoint, i: nat)
    requires Inv(k, s) && Has(s, lan, i)
    ensures Assign(k, s, lan) == (s, Some(s.db[lan.ip][i]))
  {
    var j := LanIndex(s.db[lan.ip], lan);
    assert At(s, lan.ip, i) && At(s, lan.ip, j) && Clash(s.db[lan.ip][i], s.db[lan.ip][j]);
  }

  /** Without an address or a free port at the one picked, a new request is refused, and changes nothing. */
  lemma RequestNoPort(k: Limits, s: Pool, lan: Endpoint)
    requires Inv(k, s) && forall i: nat :: !Has(s, lan, i)
    requires s.addrs != [] ==> Picked(s, lan.ip) in s.ports && s.ports[Picked(s, lan.ip)] == []
    ensures Assign(k, s, lan) == (s, None)
  {
    NoEntry(s, lan);
  }

  lemma NoEntry(s: Pool, lan: Endpoint)
    requires forall i: nat :: !Has(s, lan, i)
    ensures SameEntry(s, lan) == None
  {
    if lan.ip in s.db {
      var i := LanIndex(s.db[lan.ip], lan);
      assert !Has(s, lan, i);
    }
  }

  /**
   * With a free port a new request is granted exactly when its host is unknown or has fewer than maxConnection entries:
   * it gets the oldest free port of the address picked. Granted or not, that port is off the list.
   */
  lemma RequestNew(k: Limits, s: Pool, lan: Endpoint)
    requires Inv(k, s) && s.addrs != [] && forall i: nat :: !Has(s, lan, i)
    requires Picked(s, lan.ip) in s.ports && s.ports[Picked(s, lan.ip)] != []
    ensures var a, (s', r) := Picked(s, lan.ip), Assign(k, s, lan);
      var q, known := s.ports[a], if lan.ip in s.db then s.db[lan.ip] else [];
      var c := Conn(lan, Endpoint(a, q[0]));
      && a in s.dropped
      && (r.Some? <==> lan.ip !in s.db || |s.db[lan.ip]| < k.maxConnection)
      && (r.Some? ==> r == Some(c) && s' == Pool(s.addrs, s.ports[a := q[1..]], s.db[lan.ip := known + [c]], s.dropped))
      && (r.None? ==> s' == Pool(s.addrs, s.ports[a := q[1..]], s.db, s.dropped[a := s.dropped[a] + {q[0]}]))
  {
    NoEntry(s, lan);
  }

  /** A release takes out the entry, wherever its host has it, and puts the port at the end of its list. */
  lemma ReleaseKnown(k: Limits, s: Pool, c: Conn, i: nat)
    requires Inv(k, s) && c.lan.ip in s.db && i < |s.db[c.lan.ip]| && s.db[c.lan.ip][i] == c
    ensures c.wan.ip in s.ports
    ensures var h, a := c.lan.ip, c.wan.ip;
      Release(s, c) == (Pool(s.addrs, s.ports[a := s.ports[a] + [c.wan.port]],
                             s.db[h := s.db[h][..i] + s.db[h][i + 1..]], s.dropped), Done)
  {
    hide Lists, Covered;
    var j := ConnIndex(s.db[c.lan.ip], c);
    assert At(s, c.lan.ip, i) && At(s, c.lan.ip, j) && Clash(s.db[c.lan.ip][i], s.db[c.lan.ip][j]);
    ReleaseShape(k, s, c, j);
  }

  /** A release of anything else changes nothing; for a host never seen it throws. */
  lemma ReleaseUnknown(s: Pool, c: Conn)
    requires c.lan.ip in s.db ==> c !in s.db[c.lan.ip]
    ensures Release(s, c) == (s, if c.lan.ip in s.db then NotFound else Threw)
  {
  }

  /** A new address comes last, with all ports of the range free in order; one the pool has changes nothing. */
  lemma AddressAdded(k: Limits, s: Pool, a: U32)
    ensures a in s.addrs ==> AddAddress(k, s, a) == s
    ensures a !in s.addrs ==>
              var s' := AddAddress(k, s, a);
              && s' == Pool(s.addrs + [a], s'.ports, s.db, s.dropped[a := {}]) && a in s'.ports
              && s'.ports == s.ports[a := s'.ports[a]]
              && |s'.ports[a]| == (if k.startPort <= k.endPort then k.endPort + 1 - k.startPort else 0)
              && forall i :: 0 <= i < |s'.ports[a]| ==> s'.ports[a][i] == k.startPort + i
  {
  }

  /** An address goes with its list, and every host keeps its other entries, in order. */
  lemma AddressDeleted(s: Pool, i: nat)
    requires i < |s.addrs| && forall j :: 0 <= j < i ==> s.addrs[j] != s.addrs[i]
    ensures var a, s' := s.addrs[i], DelAddress(s, s.addrs[i]);
      && s'.addrs == s.addrs[..i] + s.addrs[i + 1..] && s'.ports == s.ports - {a} && s'.dropped == s.dropped - {a}
      && s'.db.Keys == s.db.Keys && forall h :: h in s.db ==> s'.db[h] == Without(s.db[h], a)
  {
  }

  /** Entries without those of an address, from the last one back. */
  lemma {:induction false} WithoutLast(c: seq<Conn>, x: Conn, a: U32)
    ensures Without(c + [x], a) == Without(c, a) + if x.wan.ip == a then [] else [x]
  {
    if c == [] {
      assert [x][1..] == [];
    } else {
      assert (c + [x])[1..] == c[1..] + [x];
      WithoutLast(c[1..], x, a);
    }
  }

  lemma NothingDeleted(s: Pool, a: U32)
    requires a !in s.addrs
    ensures DelAddress(s, a) == s
  {
  }
}
