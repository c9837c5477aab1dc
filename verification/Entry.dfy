/** The pool of one protocol as the server keeps it: an object whose lists change in place. */
module Entries {
  import opened Sessions
  import opened Pools

  /** addPoolAddresses with a list, one address after the other. */
  function AddAll(k: Limits, s: Pool, a: seq<U32>): Pool {
    if a == [] then s else AddAddress(k, AddAll(k, s, a[..|a| - 1]), a[|a| - 1])
  }

  /** delPoolAddresses with a list. */
  function DelAll(s: Pool, a: seq<U32>): Pool {
    if a == [] then s else DelAddress(DelAll(s, a[..|a| - 1]), a[|a| - 1])
  }

  /** New addresses stand in the pool in the order in which they were given. */
  lemma {:induction false} AddedInOrder(k: Limits, s: Pool, a: seq<U32>)
    requires forall i :: 0 <= i < |a| ==> a[i] !in s.addrs && a[i] !in a[..i]
    ensures AddAll(k, s, a).addrs == s.addrs + a
  {
    if a != [] {
      var n := |a| - 1;
      assert forall i :: 0 <= i < n ==> a[..n][i] == a[i] && a[..n][..i] == a[..i];
      AddedInOrder(k, s, a[..n]);
      assert a == a[..n] + [a[n]];
    }
  }

  lemma {:induction false} WithoutIn(c: seq<Conn>, x: Conn, a: U32)
    ensures x in Without(c, a) <==> x in c && x.wan.ip != a
  {
    if c != [] {
      WithoutIn(c[1..], x, a);
      assert x in c <==> x == c[0] || x in c[1..];
    }
  }

  /** The addresses given are gone, and with them the entries that used them, and nothing else is. */
  lemma {:induction false} DeletedAll(k: Limits, s: Pool, a: seq<U32>, b: U32, h: U32, x: Conn)
    requires Inv(k, s)
    ensures Inv(k, DelAll(s, a)) && DelAll(s, a).db.Keys == s.db.Keys
    ensures b in DelAll(s, a).addrs <==> b in s.addrs && b !in a
    ensures h in s.db ==> (x in DelAll(s, a).db[h] <==> x in s.db[h] && x.wan.ip !in a)
  {
    if a != [] {
      var n := |a| - 1;
      var t := DelAll(s, a[..n]);
      DeletedAll(k, s, a[..n], b, h, x);
      assert a == a[..n] + [a[n]];
      DelKeeps(k, t, a[n]);
      OneDeleted(k, t, a[n], b, h, x);
    }
  }

  lemma OneDeleted(k: Limits, s: Pool, a: U32, b: U32, h: U32, x: Conn)
    requires Inv(k, s)
    ensures var t := DelAddress(s, a);
      && t.db.Keys == s.db.Keys && (b in t.addrs <==> b in s.addrs && b != a)
      && (h in s.db ==> (x in t.db[h] <==> x in s.db[h] && x.wan.ip != a))
  {
    hide Unique, Covered, ListOk;
    if h in s.db {
      WithoutIn(s.db[h], x, a);
      if x in s.db[h] {
        var i :| 0 <= i < |s.db[h]| && s.db[h][i] == x;
        assert At(s, h, i) && EntryOk(k, s, h, s.db[h][i]);
      }
    }
    hide Entries;
    if a in s.addrs {
      CutDistinct(s.addrs, IndexOf(s.addrs, a), b);
    }
  }

  lemma CutDistinct(s: seq<U32>, i: nat, b: U32)
    requires i < |s| && forall j, m :: 0 <= j < m < |s| ==> s[j] != s[m]
    ensures b in s[..i] + s[i + 1..] <==> b in s && b != s[i]
  {
    assert s == s[..i] + [s[i]] + s[i + 1..];
  }

  /** The ports from lo up to but not including port. */
  function PortsBefore(lo: U16, port: nat): seq<U16>
    requires lo <= port <= 0x1_0000
  {
    if port == lo then [] else PortRange(lo, port - 1)
  }

  lemma NextPort(lo: U16, port: U16)
    requires lo <= port
    ensures PortsBefore(lo, port + 1) == PortsBefore(lo, port) + [port]
  {
    assert |PortsBefore(lo, port + 1)| == |PortsBefore(lo, port)| + 1;
  }

  lemma AllPorts(lo: U16, hi: U16)
    ensures PortsBefore(lo, lo) == []
    ensures PortRange(lo, hi) == if lo <= hi then PortsBefore(lo, hi + 1) else []
  {
  }

  lemma LanIndexAt(c: seq<Conn>, lan: Endpoint, i: nat)
    requires i <= |c| && (forall j :: 0 <= j < i ==> c[j].lan != lan) && (i < |c| ==> c[i].lan == lan)
    ensures LanIndex(c, lan) == i
  {
  }

  lemma ConnIndexAt(c: seq<Conn>, x: Conn, i: nat)
    requires i <= |c| && (forall j :: 0 <= j < i ==> c[j] != x) && (i < |c| ==> c[i] == x)
    ensures ConnIndex(c, x) == i
  {
  }

  lemma IndexAt(s: seq<U32>, a: U32, i: nat)
    requires i < |s| && s[i] == a && forall j :: 0 <= j < i ==> s[j] != a
    ensures a in s && IndexOf(s, a) == i
  {
  }

  class Entry {
    const limits: Limits
    var poolAddrs: seq<U32>
    var poolPorts: map<U32, seq<U16>>
    var db: map<U32, seq<Conn>>
    ghost var dropped: map<U32, set<U16>>

    ghost function State(): Pool
      reads this
    {
      Pool(poolAddrs, poolPorts, db, dropped)
    }

    constructor (wanAddrs: seq<U32>, startPort: U16, endPort: U16, maxConnections: nat)
      ensures limits == Limits(startPort, endPort, maxConnections)
      ensures State() == AddAll(limits, EMPTY, wanAddrs)
    {
      limits := Limits(startPort, endPort, maxConnections);
      poolAddrs, poolPorts, db, dropped := [], map[], map[], map[];
      new;
      AddPoolAddresses(wanAddrs);
    }

    method AddPoolAddresses(wanAddrs: seq<U32>)
      modifies this
      ensures State() == AddAll(limits, old(State()), wanAddrs)
    {
      var i := 0;
      while i < |wanAddrs|
        invariant 0 <= i <= |wanAddrs|
        invariant State() == AddAll(limits, old(State()), wanAddrs[..i])
      {
        assert wanAddrs[..i + 1][..i] == wanAddrs[..i];
        AddPoolAddress(wanAddrs[i]);
        i := i + 1;
      }
      assert wanAddrs[..i] == wanAddrs;
    }

    /** One turn of the loop in addPoolAddresses. */
    method AddPoolAddress(a: U32)
      modifies this
      ensures State() == AddAddress(limits, old(State()), a)
    {
      var ret := false;
      var j := 0;
      while j < |poolAddrs|
        invariant 0 <= j <= |poolAddrs| && a !in poolAddrs[..j] && !ret
      {
        if a == poolAddrs[j] {
          ret := true;
          break;
        }
        j := j + 1;
      }
      if ret {
        return;
      }
      assert poolAddrs[..j] == poolAddrs;
      poolAddrs := poolAddrs + [a];
      poolPorts := poolPorts[a := []];
      ghost var ports := poolPorts;
      AllPorts(limits.startPort, limits.endPort);
      hide PortRange, PortsBefore;
      var port: nat := limits.startPort;
      while port <= limits.endPort
        invariant limits.startPort <= port && (port <= limits.endPort + 1 || port == limits.startPort)
        invariant poolPorts == ports[a := PortsBefore(limits.startPort, port)]
        invariant poolAddrs == old(poolAddrs) + [a] && db == old(db) && dropped == old(dropped)
        decreases limits.endPort + 1 - port
      {
        NextPort(limits.startPort, port);
        poolPorts := poolPorts[a := poolPorts[a] + [port]];
        port := port + 1;
      }
      dropped := dropped[a := {}];
    }

    method DelPoolAddresses(addrs: seq<U32>)
      modifies this
      ensures State() == DelAll(old(State()), addrs)
    {
      var i := 0;
      while i < |addrs|
        invariant 0 <= i <= |addrs|
        invariant State() == DelAll(old(State()), addrs[..i])
      {
        assert addrs[..i + 1][..i] == addrs[..i];
        DelPoolAddress(addrs[i]);
        i := i + 1;
      }
      assert addrs[..i] == addrs;
    }

    /** One turn of the loop in delPoolAddresses; the loop here is indexOf. */
    method DelPoolAddress(a: U32)
      modifies this
      ensures State() == DelAddress(old(State()), a)
    {
      var index := 0;
      while index < |poolAddrs| && poolAddrs[index] != a
        invariant 0 <= index <= |poolAddrs| && forall j :: 0 <= j < index ==> poolAddrs[j] != a
      {
        index := index + 1;
      }
      if index < |poolAddrs| {
        IndexAt(poolAddrs, a, index);
        poolAddrs := poolAddrs[..index] + poolAddrs[index + 1..];
        poolPorts := poolPorts - {a};
        dropped := dropped - {a};
        DelDBEntryByPoolAddr(a);
      }
    }

    /** The entries of every host that use the address are spliced out where they stand. */
    method DelDBEntryByPoolAddr(a: U32)
      modifies this`db
      ensures db == map h | h in old(db) :: Without(old(db)[h], a)
    {
      var keys := db.Keys;
      while keys != {}
        invariant keys <= db.Keys == old(db).Keys
        invariant forall h :: h in db ==> db[h] == if h in keys then old(db)[h] else Without(old(db)[h], a)
      {
        var i :| i in keys;
        FilterHost(i, a);
        keys := keys - {i};
      }
    }

    /** The inner loop of delDBEntoryByPoolAddr. */
    method FilterHost(i: U32, a: U32)
      requires i in db
      modifies this`db
      ensures db == old(db)[i := Without(old(db)[i], a)]
    {
      var j: int := 0;
      while j < |db[i]|
        invariant i in db && db == old(db)[i := db[i]]
        invariant 0 <= j <= |db[i]| && db[i][..j] + Without(db[i][j..], a) == Without(old(db)[i], a)
        decreases |db[i]| - j
      {
        SpliceStep(db[i], a, j);
        if db[i][j].wan.ip == a {
          db := db[i := db[i][..j] + db[i][j + 1..]];
          j := j - 1;
        }
        j := j + 1;
      }
      assert db[i][..j] + [] == db[i] && db[i][j..] == [];
    }

    static lemma SpliceStep(c: seq<Conn>, a: U32, j: nat)
      requires j < |c|
      ensures var l := if c[j].wan.ip == a then c[..j] + c[j + 1..] else c;
        var m := if c[j].wan.ip == a then j else j + 1;
        c[..j] + Without(c[j..], a) == l[..m] + Without(l[m..], a)
    {
      var rest := c[j..];
      assert rest[1..] == c[j + 1..];
      if c[j].wan.ip == a {
        assert (c[..j] + c[j + 1..])[j..] == c[j + 1..];
      } else {
        assert c[..j + 1] == c[..j] + [c[j]];
      }
    }

    method SameEntryCheck(lan: Endpoint) returns (r: Option<Conn>)
      ensures r == SameEntry(State(), lan)
    {
      if lan.ip in db {
        var list := db[lan.ip];
        var i := 0;
        while i < |list|
          invariant 0 <= i <= |list| && forall j :: 0 <= j < i ==> list[j].lan != lan
        {
          if list[i].lan == lan {
            LanIndexAt(list, lan, i);
            return Some(list[i]);
          }
          i := i + 1;
        }
        LanIndexAt(list, lan, i);
      }
      r := None;
    }

    method AssignWanIP(ip: U32) returns (r: Option<U32>)
      ensures r == WanAddress(State(), ip)
    {
      var mod := |poolAddrs|;
      if mod == 0 {
        return None;
      }
      r := Some(poolAddrs[ip % 0x100 % mod]);
    }

    /** The oldest free port of the address, taken off its list. */
    method AssignWanPort(ip: Option<U32>) returns (r: Option<U16>)
      modifies this`poolPorts
      ensures var q := if ip.Some? && ip.value in old(poolPorts) then old(poolPorts)[ip.value] else [];
        if q == [] then r == None && poolPorts == old(poolPorts)
        else r == Some(q[0]) && poolPorts == old(poolPorts)[ip.value := q[1..]]
    {
      if ip.None? || ip.value !in poolPorts || poolPorts[ip.value] == [] {
        return None;
      }
      var q := poolPorts[ip.value];
      r := Some(q[0]);
      poolPorts := poolPorts[ip.value := q[1..]];
    }

    method AssignConnection(lan: Endpoint) returns (r: Option<Conn>)
      modifies this
      ensures (State(), r) == Assign(limits, old(State()), lan)
    {
      var entry := SameEntryCheck(lan);
      if entry.Some? {
        return entry;
      }
      var wanIp := AssignWanIP(lan.ip);
      var wanPort := AssignWanPort(wanIp);
      if wanPort.None? {
        return None;
      }
      var result := Conn(lan, Endpoint(wanIp.value, wanPort.value));
      if lan.ip in db {
        if |db[lan.ip]| < limits.maxConnection {
          db := db[lan.ip := db[lan.ip] + [result]];
        } else {
          ghost var lost := if wanIp.value in dropped then dropped[wanIp.value] else {};
          dropped := dropped[wanIp.value := lost + {wanPort.value}];
          return None;
        }
      } else {
        ghost var before := db;
        db := db[lan.ip := []];
        db := db[lan.ip := db[lan.ip] + [result]];
        assert db == before[lan.ip := [] + [result]];
      }
      r := Some(result);
    }

    /** false tells that the address is not in the pool, where pushing onto its list throws. */
    method ReleaseWanPort(ip: U32, port: U16) returns (ok: bool)
      modifies this`poolPorts
      ensures ok <==> ip in old(poolPorts)
      ensures poolPorts == if ok then old(poolPorts)[ip := old(poolPorts)[ip] + [port]] else old(poolPorts)
    {
      if ip !in poolPorts {
        return false;
      }
      poolPorts := poolPorts[ip := poolPorts[ip] + [port]];
      ok := true;
    }

    method ReleaseConnection(c: Conn) returns (r: Released)
      modifies this
      ensures (State(), r) == Release(old(State()), c)
    {
      if c.lan.ip !in db {
        return Threw;
      }
      var table := db[c.lan.ip];
      var i := 0;
      while i < |table|
        invariant 0 <= i <= |table| && forall j :: 0 <= j < i ==> table[j] != c
        invariant State() == old(State())
      {
        if table[i].lan.ip == c.lan.ip {
          if table[i].wan.ip == c.wan.ip {
            if table[i].lan.port == c.lan.port {
              if table[i].wan.port == c.wan.port {
                ConnIndexAt(table, c, i);
                db := db[c.lan.ip := table[..i] + table[i + 1..]];
                var ok := ReleaseWanPort(c.wan.ip, c.wan.port);
                return if ok then Done else Threw;
              }
            }
          }
        }
        i := i + 1;
      }
      ConnIndexAt(table, c, i);
      r := NotFound;
    }
  }
}
