/** The pool of WAN addresses and ports of one protocol: what each operation does to it, as a function on values. */
module Pools {
  import opened Sessions

  datatype Conn = Conn(lan: Endpoint, wan: Endpoint)

  /** The limits a pool is created with. */
  datatype Limits = Limits(startPort: U16, endPort: U16, maxConnection: nat)

  /**
   * pool_addrs, pool_ports and db, and with them, per address, the ports that requests over the limit
   * took off the free list and lost.
   */
  datatype Pool = Pool(addrs: seq<U32>, ports: map<U32, seq<U16>>, db: map<U32, seq<Conn>>, dropped: map<U32, set<U16>>)

  const EMPTY: Pool := Pool([], map[], map[], map[])

  /** The ports from lo to hi, in order. */
  function PortRange(lo: nat, hi: U16): (r: seq<U16>)
    ensures forall i :: 0 <= i < |r| ==> r[i] == lo + i
    ensures |r| == if lo <= hi then hi + 1 - lo else 0
    decreases hi + 1 - lo
  {
    if lo > hi then [] else [lo] + PortRange(lo + 1, hi)
  }

  // ---- the operations ----

  /** addPoolAddresses with one address. */
  function AddAddress(k: Limits, s: Pool, a: U32): Pool {
    if a in s.addrs then s
    else s.(addrs := s.addrs + [a],
            ports := s.ports[a := PortRange(k.startPort, k.endPort)],
            dropped := s.dropped[a := {}])
  }

  /** The entries of one host that do not use the address a. */
  function Without(c: seq<Conn>, a: U32): seq<Conn> {
    if c == [] then [] else (if c[0].wan.ip == a then [] else [c[0]]) + Without(c[1..], a)
  }

  function IndexOf(s: seq<U32>, a: U32): (i: nat)
    requires a in s
    ensures i < |s| && s[i] == a && forall j :: 0 <= j < i ==> s[j] != a
  {
    if s[0] == a then 0 else 1 + IndexOf(s[1..], a)
  }

  /** delPoolAddresses with one address. */
  function DelAddress(s: Pool, a: U32): Pool {
    if a !in s.addrs then s
    else
      var i := IndexOf(s.addrs, a);
      Pool(s.addrs[..i] + s.addrs[i + 1..], s.ports - {a}, map h | h in s.db :: Without(s.db[h], a), s.dropped - {a})
  }

  /** The first entry of c for the LAN endpoint, or |c|. */
  function LanIndex(c: seq<Conn>, lan: Endpoint): (i: nat)
    ensures i <= |c| && (forall j :: 0 <= j < i ==> c[j].lan != lan) && (i < |c| ==> c[i].lan == lan)
  {
    if c == [] || c[0].lan == lan then 0 else 1 + LanIndex(c[1..], lan)
  }

  /** The first entry of c that is the connection x, or |c|. */
  function ConnIndex(c: seq<Conn>, x: Conn): (i: nat)
    ensures i <= |c| && (forall j :: 0 <= j < i ==> c[j] != x) && (i < |c| ==> c[i] == x)
  {
    if c == [] || c[0] == x then 0 else 1 + ConnIndex(c[1..], x)
  }

  /** The entries of a host: none if the host is not known. */
  function Host(s: Pool, h: U32): seq<Conn> {
    if h in s.db then s.db[h] else []
  }

  /** sameEntryCheck. */
  function SameEntry(s: Pool, lan: Endpoint): Option<Conn> {
    var c := Host(s, lan.ip);
    var i := LanIndex(c, lan);
    if i < |c| then Some(c[i]) else None
  }

  /** assignWanIP. */
  function WanAddress(s: Pool, lanIp: U32): Option<U32> {
    if s.addrs == [] then None else Some(s.addrs[lanIp % 0x100 % |s.addrs|])
  }

  /** The free ports of the address a request of the host would get. */
  function FreePorts(s: Pool, lanIp: U32): seq<U16> {
    var w := WanAddress(s, lanIp);
    if w.Some? && w.value in s.ports then s.ports[w.value] else []
  }

  predicate OverLimit(k: Limits, s: Pool, lanIp: U32) {
    lanIp in s.db && |s.db[lanIp]| >= k.maxConnection
  }

  /** assignWanPort: the first free port comes off the list. */
  function Shifted(s: Pool, a: U32): Pool
    requires a in s.ports && s.ports[a] != []
  {
    s.(ports := s.ports[a := s.ports[a][1..]])
  }

  /** assignConnection. */
  function Assign(k: Limits, s: Pool, lan: Endpoint): (Pool, Option<Conn>) {
    var same := SameEntry(s, lan);
    if same.Some? then (s, same)
    else if FreePorts(s, lan.ip) == [] then (s, None)
    else
      var a, p := WanAddress(s, lan.ip).value, FreePorts(s, lan.ip)[0];
      var s1 := Shifted(s, a);
      if OverLimit(k, s, lan.ip) then
        (s1.(dropped := s.dropped[a := (if a in s.dropped then s.dropped[a] else {}) + {p}]), None)
      else
        var c := Conn(lan, Endpoint(a, p));
        (s1.(db := s.db[lan.ip := Host(s, lan.ip) + [c]]), Some(c))
  }

  /** What releaseConnection comes back with; a host never seen makes it throw. */
  datatype Released = Done | NotFound | Threw

  /** releaseConnection. */
  function Release(s: Pool, c: Conn): (Pool, Released) {
    var l := Host(s, c.lan.ip);
    var i := ConnIndex(l, c);
    if c.lan.ip !in s.db then (s, Threw)
    else if i == |l| then (s, NotFound)
    else
      var s1 := s.(db := s.db[c.lan.ip := l[..i] + l[i + 1..]]);
      if c.wan.ip !in s.ports then (s1, Threw)
      else (s1.(ports := s.ports[c.wan.ip := s.ports[c.wan.ip] + [c.wan.port]]), Done)
  }

  // ---- what every operation keeps ----

  predicate At(s: Pool, h: U32, i: nat) {
    h in s.db && i < |s.db[h]|
  }

  /** Some entry holds the port p of the address a. */
  ghost predicate HeldPort(s: Pool, a: U32, p: U16) {
    exists h, i: nat :: At(s, h, i) && s.db[h][i].wan == Endpoint(a, p)
  }

  predicate NoRepeats(q: seq<U16>) {
    forall i, j :: 0 <= i < j < |q| ==> q[i] != q[j]
  }

  /** A free list and the ports dropped: no repeats, within the port range, nothing in both. */
  predicate ListOk(k: Limits, q: seq<U16>, d: set<U16>) {
    NoRepeats(q) && (forall p :: p in q ==> k.startPort <= p <= k.endPort && p !in d)
    && (forall p :: p in d ==> k.startPort <= p <= k.endPort)
  }

  /** Exactly the addresses of the pool have a free list, and the lists are in order. */
  ghost predicate Lists(k: Limits, s: Pool) {
    && (forall i, j :: 0 <= i < j < |s.addrs| ==> s.addrs[i] != s.addrs[j])
    && (forall a :: a in s.addrs <==> a in s.ports)
    && s.ports.Keys == s.dropped.Keys
    && (forall a :: a in s.ports ==> ListOk(k, s.ports[a], s.dropped[a]))
  }

  /** An entry is filed under its host, and its port is of the pool, in range, and neither free nor dropped. */
  predicate EntryOk(k: Limits, s: Pool, h: U32, c: Conn) {
    c.lan.ip == h && c.wan.ip in s.ports && c.wan.ip in s.dropped && k.startPort <= c.wan.port <= k.endPort
    && c.wan.port !in s.ports[c.wan.ip] && c.wan.port !in s.dropped[c.wan.ip]
  }

  ghost predicate Entries(k: Limits, s: Pool) {
    forall h, i: nat :: At(s, h, i) ==> EntryOk(k, s, h, s.db[h][i])
  }

  predicate Clash(c: Conn, d: Conn) {
    c.wan == d.wan || c.lan == d.lan
  }

  /** No WAN endpoint is in two entries, and no LAN endpoint is. */
  ghost predicate Unique(s: Pool) {
    forall h, i: nat, g, j: nat :: At(s, h, i) && At(s, g, j) && Clash(s.db[h][i], s.db[g][j]) ==> h == g && i == j
  }

  /** No port of a pool address is lost without trace. */
  ghost predicate Covered(k: Limits, s: Pool) {
    forall a, p: U16 :: a in s.ports && a in s.dropped && k.startPort <= p <= k.endPort ==>
      p in s.ports[a] || p in s.dropped[a] || HeldPort(s, a, p)
  }

  ghost predicate Inv(k: Limits, s: Pool) {
    Lists(k, s) && Entries(k, s) && Unique(s) && Covered(k, s)
  }

  // ---- assignConnection keeps it ----

  /** The entries after c is appended to the list of host h. */
  lemma Appended(s: Pool, s': Pool, h: U32, c: Conn)
    requires s'.db == s.db[h := Host(s, h) + [c]]
    ensures forall g, j: nat :: At(s, g, j) ==> At(s', g, j) && s'.db[g][j] == s.db[g][j]
    ensures At(s', h, |Host(s, h)|) && s'.db[h][|Host(s, h)|] == c
    ensures forall g, j: nat :: At(s', g, j) ==> At(s, g, j) || (g == h && j == |Host(s, h)|)
  {
  }

  lemma ShiftedLists(k: Limits, s: Pool, a: U32)
    requires Lists(k, s) && a in s.ports && s.ports[a] != []
    ensures Lists(k, Shifted(s, a)) && s.ports[a][0] !in Shifted(s, a).ports[a]
    ensures forall p :: p in s.ports[a] <==> p == s.ports[a][0] || p in Shifted(s, a).ports[a]
  {
    assert ListOk(k, s.ports[a], s.dropped[a]);
    ListTail(k, s.ports[a], s.dropped[a]);
    ListsChanged(k, s, Shifted(s, a), a);
  }

  /** Only the lists of the address b change. */
  lemma ListsChanged(k: Limits, s: Pool, s': Pool, b: U32)
    requires Lists(k, s) && s'.addrs == s.addrs && b in s.ports && b in s'.ports && b in s'.dropped
    requires ListOk(k, s'.ports[b], s'.dropped[b])
    requires s'.ports == s.ports[b := s'.ports[b]] && s'.dropped == s.dropped[b := s'.dropped[b]]
    ensures Lists(k, s')
  {
    assert s.ports.Keys == s'.ports.Keys && s.dropped.Keys == s'.dropped.Keys;
  }

  /** What a request that finds no entry and takes a port does to the pool, refused or not. */
  lemma AssignShape(k: Limits, s: Pool, lan: Endpoint)
    requires SameEntry(s, lan).None? && FreePorts(s, lan.ip) != []
    ensures WanAddress(s, lan.ip).Some? && WanAddress(s, lan.ip).value in s.ports
    ensures var a, (s', r) := WanAddress(s, lan.ip).value, Assign(k, s, lan);
      && s.ports[a] != [] && s'.addrs == s.addrs && s'.ports == s.ports[a := s.ports[a][1..]]
      && (r.None? ==>
            && s'.db == s.db
            && s'.dropped == s.dropped[a := (if a in s.dropped then s.dropped[a] else {}) + {s.ports[a][0]}])
      && (r.Some? ==> s'.dropped == s.dropped && r.value == Conn(lan, Endpoint(a, s.ports[a][0])) &&
                      s'.db == s.db[lan.ip := Host(s, lan.ip) + [r.value]])
  {
  }

  lemma AssignLists(k: Limits, s: Pool, lan: Endpoint)
    requires Inv(k, s)
    ensures Lists(k, Assign(k, s, lan).0)
  {
    hide Entries, Unique, Covered, ListOk;
    if SameEntry(s, lan).None? && FreePorts(s, lan.ip) != [] {
      AssignShape(k, s, lan);
      var b := WanAddress(s, lan.ip).value;
      hide Assign, SameEntry, FreePorts, WanAddress;
      var q, d := s.ports[b], s.dropped[b];
      assert ListOk(k, q, d);
      ListTail(k, q, d);
      var s' := Assign(k, s, lan).0;
      assert s'.dropped == s.dropped[b := if b in s'.dropped then s'.dropped[b] else {}];
      ListsChanged(k, s, s', b);
    }
  }

  lemma ListTail(k: Limits, q: seq<U16>, d: set<U16>)
    requires ListOk(k, q, d) && q != []
    ensures ListOk(k, q[1..], d) && ListOk(k, q[1..], d + {q[0]})
    ensures forall p :: p in q <==> p == q[0] || p in q[1..]
    ensures q[0] !in q[1..]
  {
    TailElements(q);
    assert q[0] in q;
  }

  lemma TailElements(q: seq<U16>)
    requires NoRepeats(q) && q != []
    ensures NoRepeats(q[1..]) && q[0] !in q[1..]
    ensures forall p :: p in q <==> p == q[0] || p in q[1..]
  {
    var t := q[1..];
    assert q == [q[0]] + t;
    assert forall j :: 0 <= j < |t| ==> t[j] == q[j + 1];
  }

  lemma AssignEntries(k: Limits, s: Pool, lan: Endpoint)
    requires Inv(k, s)
    ensures Entries(k, Assign(k, s, lan).0)
  {
    hide Unique, Covered, ListOk;
    var (s', r) := Assign(k, s, lan);
    if SameEntry(s, lan).None? && FreePorts(s, lan.ip) != [] {
      AssignShape(k, s, lan);
      var a := WanAddress(s, lan.ip).value;
      hide Assign, SameEntry, FreePorts, WanAddress;
      ShiftedLists(k, s, a);
      assert s.ports[a][0] in s.ports[a];
      InRange(k, s, a);
      if r.Some? {
        Appended(s, s', lan.ip, r.value);
      }
      hide Lists;
      forall h, i: nat | At(s', h, i)
        ensures EntryOk(k, s', h, s'.db[h][i])
      {
        if At(s, h, i) {
          assert EntryOk(k, s, h, s.db[h][i]) && s'.db[h][i] == s.db[h][i];
        }
      }
    }
  }

  /** The next free port of an address is in range and neither dropped nor held. */
  lemma InRange(k: Limits, s: Pool, a: U32)
    requires Lists(k, s) && a in s.ports && s.ports[a] != []
    ensures a in s.dropped && k.startPort <= s.ports[a][0] <= k.endPort && s.ports[a][0] !in s.dropped[a]
  {
    assert ListOk(k, s.ports[a], s.dropped[a]);
    assert s.ports[a][0] in s.ports[a];
  }

  lemma AssignUnique(k: Limits, s: Pool, lan: Endpoint)
    requires Inv(k, s)
    ensures Unique(Assign(k, s, lan).0)
  {
    hide Covered, Lists;
    var (s', r) := Assign(k, s, lan);
    if SameEntry(s, lan).None? && FreePorts(s, lan.ip) != [] {
      AssignShape(k, s, lan);
      if r.Some? {
        Appended(s, s', lan.ip, r.value);
        forall g, j: nat | At(s, g, j)
          ensures !Clash(s.db[g][j], r.value)
        {
          assert EntryOk(k, s, g, s.db[g][j]);
        }
        hide Entries, Assign, FreePorts, WanAddress, SameEntry;
        AddedUnique(s, s', lan.ip, r.value);
      }
    }
  }

  lemma AddedUnique(s: Pool, s': Pool, h: U32, c: Conn)
    requires Unique(s) && s'.db == s.db[h := Host(s, h) + [c]]
    requires forall g, j: nat :: At(s, g, j) ==> !Clash(s.db[g][j], c)
    ensures Unique(s')
  {
    Appended(s, s', h, c);
    forall g, i: nat, f, j: nat | At(s', g, i) && At(s', f, j) && Clash(s'.db[g][i], s'.db[f][j])
      ensures g == f && i == j
    {
      if At(s, g, i) {
        assert s'.db[g][i] == s.db[g][i];
      }
      if At(s, f, j) {
        assert s'.db[f][j] == s.db[f][j];
      }
    }
  }

  lemma AssignCovered(k: Limits, s: Pool, lan: Endpoint)
    requires Inv(k, s)
    ensures Covered(k, Assign(k, s, lan).0)
  {
    hide Unique, Entries, ListOk;
    var (s', r) := Assign(k, s, lan);
    if SameEntry(s, lan).None? && FreePorts(s, lan.ip) != [] {
      AssignShape(k, s, lan);
      var b := WanAddress(s, lan.ip).value;
      hide Assign, SameEntry, FreePorts, WanAddress;
      ShiftedLists(k, s, b);
      if r.Some? {
        Appended(s, s', lan.ip, r.value);
      }
      forall a, p: U16 | a in s'.ports && a in s'.dropped && k.startPort <= p <= k.endPort
        ensures p in s'.ports[a] || p in s'.dropped[a] || HeldPort(s', a, p)
      {
        assert p in s.ports[a] || p in s.dropped[a] || HeldPort(s, a, p);
        if HeldPort(s, a, p) {
          var h, i: nat :| At(s, h, i) && s.db[h][i].wan == Endpoint(a, p);
          assert At(s', h, i);
        } else if r.Some? && a == b && p == s.ports[b][0] {
          assert At(s', lan.ip, |Host(s, lan.ip)|);
        }
      }
    }
  }

  lemma AssignKeeps(k: Limits, s: Pool, lan: Endpoint)
    requires Inv(k, s)
    ensures Inv(k, Assign(k, s, lan).0)
  {
    AssignLists(k, s, lan);
    AssignEntries(k, s, lan);
    AssignUnique(k, s, lan);
    AssignCovered(k, s, lan);
  }

  // ---- releaseConnection keeps it ----

  /** Where the elements of a sequence come from, and go, when element i is cut out. */
  lemma CutOut<A>(l: seq<A>, i: nat)
    requires i < |l|
    ensures var d := l[..i] + l[i + 1..];
      && |d| == |l| - 1
      && (forall j: nat :: j < |d| ==> d[j] == l[if j >= i then j + 1 else j])
      && (forall j: nat :: j < |l| && j != i ==> l[j] == d[if j > i then j - 1 else j])
  {
  }

  /** The entries after entry i of host h is spliced out. */
  lemma Spliced(s: Pool, s': Pool, h: U32, i: nat)
    requires At(s, h, i) && s'.db == s.db[h := s.db[h][..i] + s.db[h][i + 1..]]
    ensures forall g, j: nat :: At(s', g, j) ==>
        var m := if g == h && j >= i then j + 1 else j; At(s, g, m) && s'.db[g][j] == s.db[g][m]
    ensures forall g, j: nat :: At(s, g, j) && !(g == h && j == i) ==>
        var m := if g == h && j > i then j - 1 else j; At(s', g, m) && s'.db[g][m] == s.db[g][j]
  {
    var l, d := s.db[h], s'.db[h];
    CutOut(l, i);
    forall g, j: nat | At(s', g, j)
      ensures var m := if g == h && j >= i then j + 1 else j; At(s, g, m) && s'.db[g][j] == s.db[g][m]
    {
      if g == h {
        assert d[j] == l[if j >= i then j + 1 else j];
      }
    }
    forall g, j: nat | At(s, g, j) && !(g == h && j == i)
      ensures var m := if g == h && j > i then j - 1 else j; At(s', g, m) && s'.db[g][m] == s.db[g][j]
    {
      if g == h {
        assert l[j] == d[if j > i then j - 1 else j];
      }
    }
  }

  lemma ReleaseKeeps(k: Limits, s: Pool, c: Conn)
    requires Inv(k, s)
    ensures Inv(k, Release(s, c).0)
    ensures Release(s, c).1 == if c.lan.ip !in s.db then Threw else if c in s.db[c.lan.ip] then Done else NotFound
  {
    var (s', r) := Release(s, c);
    var l := Host(s, c.lan.ip);
    var i := ConnIndex(l, c);
    if c.lan.ip in s.db && i < |l| {
      assert At(s, c.lan.ip, i);
      hide Lists, Entries, Unique, Covered;
      ReleaseLists(k, s, c, i);
      ReleaseEntries(k, s, c, i);
      ReleaseUnique(k, s, c, i);
      ReleaseCovered(k, s, c, i);
    }
  }

  /** What releasing an entry that is there does to the pool. */
  lemma ReleaseShape(k: Limits, s: Pool, c: Conn, i: nat)
    requires Inv(k, s) && At(s, c.lan.ip, i) && i == ConnIndex(s.db[c.lan.ip], c)
    ensures s.db[c.lan.ip][i] == c && EntryOk(k, s, c.lan.ip, c)
    ensures var (s', r) := Release(s, c);
      && r == Done && s'.addrs == s.addrs && s'.dropped == s.dropped
      && s'.db == s.db[c.lan.ip := s.db[c.lan.ip][..i] + s.db[c.lan.ip][i + 1..]]
      && s'.ports == s.ports[c.wan.ip := s.ports[c.wan.ip] + [c.wan.port]]
  {
    hide Unique, Covered, Lists;
    assert EntryOk(k, s, c.lan.ip, s.db[c.lan.ip][i]);
  }

  lemma ReleaseLists(k: Limits, s: Pool, c: Conn, i: nat)
    requires Inv(k, s) && At(s, c.lan.ip, i) && i == ConnIndex(s.db[c.lan.ip], c)
    ensures Release(s, c).1 == Done && Lists(k, Release(s, c).0)
  {
    hide ConnIndex, Entries, Unique, Covered, Release, ListOk;
    ReleaseShape(k, s, c, i);
    var q, d := s.ports[c.wan.ip], s.dropped[c.wan.ip];
    assert ListOk(k, q, d);
    ListMore(k, q, d, c.wan.port);
    var s' := Release(s, c).0;
    assert s'.dropped == s.dropped[c.wan.ip := s'.dropped[c.wan.ip]];
    ListsChanged(k, s, s', c.wan.ip);
  }

  lemma ListMore(k: Limits, q: seq<U16>, d: set<U16>, p: U16)
    requires ListOk(k, q, d) && p !in q && p !in d && k.startPort <= p <= k.endPort
    ensures ListOk(k, q + [p], d)
  {
    assert forall x :: x in q + [p] <==> x in q || x == p;
  }

  /** Where an entry left after the splice comes from: never the place cut out, different ones from different places. */
  lemma SplicedFrom(s: Pool, s': Pool, h: U32, i: nat, g: U32, j: nat) returns (m: nat)
    requires At(s, h, i) && s'.db == s.db[h := s.db[h][..i] + s.db[h][i + 1..]] && At(s', g, j)
    ensures At(s, g, m) && s'.db[g][j] == s.db[g][m] && !(g == h && m == i)
    ensures m == if g == h && j >= i then j + 1 else j
  {
    CutOut(s.db[h], i);
    m := if g == h && j >= i then j + 1 else j;
  }

  lemma SplicedUnique(s: Pool, s': Pool, h: U32, i: nat)
    requires Unique(s) && At(s, h, i) && s'.db == s.db[h := s.db[h][..i] + s.db[h][i + 1..]]
    ensures Unique(s') && forall g, j: nat :: At(s', g, j) ==> s'.db[g][j].wan != s.db[h][i].wan
  {
    hide Unique;
    forall g, j: nat | At(s', g, j)
      ensures s'.db[g][j].wan != s.db[h][i].wan
    {
      var m := SplicedFrom(s, s', h, i, g, j);
      Different(s, g, m, h, i);
    }
    forall g, j: nat, f, l: nat | At(s', g, j) && At(s', f, l) && !(g == f && j == l)
      ensures !Clash(s'.db[g][j], s'.db[f][l])
    {
      var m := SplicedFrom(s, s', h, i, g, j);
      var n := SplicedFrom(s, s', h, i, f, l);
      Different(s, g, m, f, n);
    }
    UniqueIf(s');
  }

  lemma Different(s: Pool, g: U32, m: nat, f: U32, n: nat)
    requires Unique(s) && At(s, g, m) && At(s, f, n) && !(g == f && m == n)
    ensures !Clash(s.db[g][m], s.db[f][n])
  {
  }

  lemma UniqueIf(s: Pool)
    requires forall g, j: nat, f, l: nat :: At(s, g, j) && At(s, f, l) && !(g == f && j == l) ==>
               !Clash(s.db[g][j], s.db[f][l])
    ensures Unique(s)
  {
  }

  lemma ReleaseUnique(k: Limits, s: Pool, c: Conn, i: nat)
    requires Inv(k, s) && At(s, c.lan.ip, i) && i == ConnIndex(s.db[c.lan.ip], c)
    ensures Unique(Release(s, c).0)
    ensures forall g, j: nat :: At(Release(s, c).0, g, j) ==> Release(s, c).0.db[g][j].wan != c.wan
  {
    hide ConnIndex, Entries, Unique, Covered, Lists, Release;
    ReleaseShape(k, s, c, i);
    SplicedUnique(s, Release(s, c).0, c.lan.ip, i);
  }

  lemma ReleaseEntries(k: Limits, s: Pool, c: Conn, i: nat)
    requires Inv(k, s) && At(s, c.lan.ip, i) && i == ConnIndex(s.db[c.lan.ip], c)
    ensures Entries(k, Release(s, c).0)
  {
    hide ConnIndex, Unique, Covered, Lists, Release;
    ReleaseShape(k, s, c, i);
    ReleaseUnique(k, s, c, i);
    var s' := Release(s, c).0;
    Spliced(s, s', c.lan.ip, i);
    forall g, j: nat | At(s', g, j)
      ensures EntryOk(k, s', g, s'.db[g][j])
    {
      var m := if g == c.lan.ip && j >= i then j + 1 else j;
      assert At(s, g, m) && EntryOk(k, s, g, s.db[g][m]);
      StillOk(k, s, s', g, s'.db[g][j], c);
    }
  }

  lemma StillOk(k: Limits, s: Pool, s': Pool, g: U32, d: Conn, c: Conn)
    requires EntryOk(k, s, g, d) && d.wan != c.wan && s'.dropped == s.dropped
    requires c.wan.ip in s.ports && s'.ports == s.ports[c.wan.ip := s.ports[c.wan.ip] + [c.wan.port]]
    ensures EntryOk(k, s', g, d)
  {
  }

  lemma ReleaseCovered(k: Limits, s: Pool, c: Conn, i: nat)
    requires Inv(k, s) && At(s, c.lan.ip, i) && i == ConnIndex(s.db[c.lan.ip], c)
    ensures Covered(k, Release(s, c).0)
  {
    hide ConnIndex, Unique, Entries, Lists, Release;
    ReleaseShape(k, s, c, i);
    var s' := Release(s, c).0;
    Spliced(s, s', c.lan.ip, i);
    forall a, p: U16 | a in s'.ports && a in s'.dropped && k.startPort <= p <= k.endPort
      ensures p in s'.ports[a] || p in s'.dropped[a] || HeldPort(s', a, p)
    {
      assert p in s.ports[a] || p in s.dropped[a] || HeldPort(s, a, p);
      if HeldPort(s, a, p) && !(p in s.ports[a] || p in s.dropped[a]) {
        var h, j: nat :| At(s, h, j) && s.db[h][j].wan == Endpoint(a, p);
        if h == c.lan.ip && j == i {
          assert p in s'.ports[a];
        } else {
          assert At(s', h, if h == c.lan.ip && j > i then j - 1 else j);
        }
      }
    }
  }

  // ---- addPoolAddresses and delPoolAddresses keep it ----

  lemma AddKeeps(k: Limits, s: Pool, a: U32)
    requires Inv(k, s)
    ensures Inv(k, AddAddress(k, s, a))
  {
    var s' := AddAddress(k, s, a);
    if a !in s.addrs {
      AddLists(k, s, a);
      AddCovered(k, s, a);
      hide Lists, Covered, ListOk, PortRange;
      AddEntries(k, s, a);
    }
  }

  lemma AddLists(k: Limits, s: Pool, a: U32)
    requires Inv(k, s) && a !in s.addrs
    ensures Lists(k, AddAddress(k, s, a))
  {
    hide Entries, Unique, Covered;
    assert ListOk(k, PortRange(k.startPort, k.endPort), {});
    hide PortRange, ListOk;
  }

  lemma AddEntries(k: Limits, s: Pool, a: U32)
    requires Inv(k, s) && a !in s.addrs
    ensures Entries(k, AddAddress(k, s, a)) && Unique(AddAddress(k, s, a))
  {
    hide Covered, ListOk, PortRange;
    var s' := AddAddress(k, s, a);
    assert forall h, i: nat :: At(s', h, i) ==> At(s, h, i) && EntryOk(k, s, h, s.db[h][i]);
  }

  lemma AddCovered(k: Limits, s: Pool, a: U32)
    requires Inv(k, s) && a !in s.addrs
    ensures Covered(k, AddAddress(k, s, a))
  {
    hide Entries, Unique, ListOk;
    var s', r := AddAddress(k, s, a), PortRange(k.startPort, k.endPort);
    forall b, p: U16 | b in s'.ports && b in s'.dropped && k.startPort <= p <= k.endPort
      ensures p in s'.ports[b] || p in s'.dropped[b] || HeldPort(s', b, p)
    {
      if b == a {
        assert r[p - k.startPort] == p;
      } else if HeldPort(s, b, p) {
        var h, i: nat :| At(s, h, i) && s.db[h][i].wan == Endpoint(b, p);
        assert At(s', h, i);
      }
    }
  }

  /** Filtering keeps the other entries, in order: where each comes from, and where each goes. */
  lemma {:induction false} WithoutFrom(c: seq<Conn>, a: U32, j: nat) returns (i: nat)
    requires j < |Without(c, a)|
    ensures j <= i < |c| && Without(c, a)[j] == c[i] && c[i].wan.ip != a
    ensures |Without(c[..i], a)| == j
  {
    if c[0].wan.ip == a {
      i := WithoutFrom(c[1..], a, j);
      i := i + 1;
      assert c[..i][1..] == c[1..][..i - 1];
    } else if j == 0 {
      i := 0;
    } else {
      i := WithoutFrom(c[1..], a, j - 1);
      i := i + 1;
      assert c[..i][1..] == c[1..][..i - 1];
    }
  }

  lemma {:induction false} WithoutTo(c: seq<Conn>, a: U32, i: nat) returns (j: nat)
    requires i < |c| && c[i].wan.ip != a
    ensures j < |Without(c, a)| && Without(c, a)[j] == c[i]
  {
    if i == 0 {
      j := 0;
    } else {
      j := WithoutTo(c[1..], a, i - 1);
      j := if c[0].wan.ip == a then j else j + 1;
    }
  }

  /** The entries left after an address went are entries from before, different ones from different places. */
  lemma DelFrom(s: Pool, a: U32, h: U32, j: nat) returns (i: nat)
    requires a in s.addrs && At(DelAddress(s, a), h, j)
    ensures At(s, h, i) && DelAddress(s, a).db[h][j] == s.db[h][i] && s.db[h][i].wan.ip != a
    ensures |Without(s.db[h][..i], a)| == j
  {
    i := WithoutFrom(s.db[h], a, j);
  }

  lemma DelLists(k: Limits, s: Pool, a: U32)
    requires Inv(k, s) && a in s.addrs
    ensures Lists(k, DelAddress(s, a))
  {
    var s' := DelAddress(s, a);
    CutAddress(s.addrs, IndexOf(s.addrs, a));
    assert forall b :: b in s'.ports ==> ListOk(k, s.ports[b], s.dropped[b]);
  }

  lemma CutAddress(c: seq<U32>, i: nat)
    requires i < |c| && forall m, n :: 0 <= m < n < |c| ==> c[m] != c[n]
    ensures var d := c[..i] + c[i + 1..];
      (forall m, n :: 0 <= m < n < |d| ==> d[m] != d[n]) && forall b :: b in d <==> b in c && b != c[i]
  {
    var d := c[..i] + c[i + 1..];
    assert forall j :: 0 <= j < |d| ==> d[j] == c[if j < i then j else j + 1];
    forall b | b in c && b != c[i]
      ensures b in d
    {
      var j :| 0 <= j < |c| && c[j] == b;
      assert d[if j < i then j else j - 1] == b;
    }
  }

  lemma DelEntries(k: Limits, s: Pool, a: U32)
    requires Inv(k, s) && a in s.addrs
    ensures Entries(k, DelAddress(s, a))
  {
    var s' := DelAddress(s, a);
    forall h, j: nat | At(s', h, j)
      ensures EntryOk(k, s', h, s'.db[h][j])
    {
      var i := DelFrom(s, a, h, j);
      assert EntryOk(k, s, h, s.db[h][i]);
    }
  }

  lemma DelUnique(k: Limits, s: Pool, a: U32)
    requires Inv(k, s) && a in s.addrs
    ensures Unique(DelAddress(s, a))
  {
    var s' := DelAddress(s, a);
    forall h, i: nat, g, j: nat | At(s', h, i) && At(s', g, j) && Clash(s'.db[h][i], s'.db[g][j])
      ensures h == g && i == j
    {
      var m := DelFrom(s, a, h, i);
      var n := DelFrom(s, a, g, j);
      assert h == g && m == n;
    }
  }

  lemma DelCovered(k: Limits, s: Pool, a: U32)
    requires Inv(k, s) && a in s.addrs
    ensures Covered(k, DelAddress(s, a))
  {
    var s' := DelAddress(s, a);
    forall b, p: U16 | b in s'.ports && b in s'.dropped && k.startPort <= p <= k.endPort
      ensures p in s'.ports[b] || p in s'.dropped[b] || HeldPort(s', b, p)
    {
      assert p in s.ports[b] || p in s.dropped[b] || HeldPort(s, b, p);
      if HeldPort(s, b, p) {
        var h, i: nat :| At(s, h, i) && s.db[h][i].wan == Endpoint(b, p);
        var j := WithoutTo(s.db[h], a, i);
        assert At(s', h, j);
      }
    }
  }

  lemma DelKeeps(k: Limits, s: Pool, a: U32)
    requires Inv(k, s)
    ensures Inv(k, DelAddress(s, a))
  {
    if a in s.addrs {
      DelLists(k, s, a);
      DelEntries(k, s, a);
      DelUnique(k, s, a);
      DelCovered(k, s, a);
    }
  }

  // ---- whole runs ----

  datatype Op = Add(a: U32) | Del(a: U32) | Request(lan: Endpoint) | Free(c: Conn)

  function Step(k: Limits, s: Pool, op: Op): Pool {
    match op
    case Add(a) => AddAddress(k, s, a)
    case Del(a) => DelAddress(s, a)
    case Request(lan) => Assign(k, s, lan).0
    case Free(c) => Release(s, c).0
  }

  function Run(k: Limits, s: Pool, ops: seq<Op>): Pool
    decreases |ops|
  {
    if ops == [] then s else Run(k, Step(k, s, ops[0]), ops[1..])
  }

  lemma StepKeeps(k: Limits, s: Pool, op: Op)
    requires Inv(k, s)
    ensures Inv(k, Step(k, s, op))
  {
    match op
    case Add(a) => AddKeeps(k, s, a);
    case Del(a) => DelKeeps(k, s, a);
    case Request(lan) => AssignKeeps(k, s, lan);
    case Free(c) => ReleaseKeeps(k, s, c);
  }

  /** Ports are conserved over every sequence of operations. */
  lemma {:induction false} RunKeeps(k: Limits, s: Pool, ops: seq<Op>)
    requires Inv(k, s)
    ensures Inv(k, Run(k, s, ops))
    decreases |ops|
  {
    if ops != [] {
      StepKeeps(k, s, ops[0]);
      RunKeeps(k, Step(k, s, ops[0]), ops[1..]);
    }
  }

  lemma EmptyInv(k: Limits)
    ensures Inv(k, EMPTY)
  {
  }

  /** Entry i of host h holds the port p of the address a. */
  predicate Holds(s: Pool, h: U32, i: nat, a: U32, p: U16) {
    At(s, h, i) && s.db[h][i].wan == Endpoint(a, p)
  }

  /** From the empty pool on, each port of each address is free, held by one entry or dropped: one of these. */
  lemma PortsConserved(k: Limits, ops: seq<Op>, a: U32, p: U16)
    requires a in Run(k, EMPTY, ops).addrs && k.startPort <= p <= k.endPort
    ensures var s := Run(k, EMPTY, ops);
      && a in s.ports && a in s.dropped
      && (p in s.ports[a] || p in s.dropped[a] || HeldPort(s, a, p))
      && !(p in s.ports[a] && p in s.dropped[a])
      && !((p in s.ports[a] || p in s.dropped[a]) && HeldPort(s, a, p))
      && (forall i, j :: 0 <= i < j < |s.ports[a]| ==> s.ports[a][i] != s.ports[a][j])
      && (forall h, i: nat, g, j: nat :: Holds(s, h, i, a, p) && Holds(s, g, j, a, p) ==> h == g && i == j)
  {
    EmptyInv(k);
    RunKeeps(k, EMPTY, ops);
    var s := Run(k, EMPTY, ops);
    assert ListOk(k, s.ports[a], s.dropped[a]);
    if HeldPort(s, a, p) {
      var h, i: nat :| At(s, h, i) && s.db[h][i].wan == Endpoint(a, p);
      assert EntryOk(k, s, h, s.db[h][i]);
    }
    forall h, i: nat, g, j: nat | Holds(s, h, i, a, p) && Holds(s, g, j, a, p)
      ensures h == g && i == j
    {
      assert Clash(s.db[h][i], s.db[g][j]);
    }
  }
}
