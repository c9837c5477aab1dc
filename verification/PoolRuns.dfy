/** What runs of the pool promise: fair reuse of ports, stable mappings, limits, and what over-limit requests cost. */
module PoolRuns {
  import opened Sessions
  import opened Pools

  // ---- a released port goes to the end of the queue ----

  /** The ports an operation takes off the free list of a. */
  function Taken(k: Limits, s: Pool, op: Op, a: U32): seq<U16> {
    if op.Request? && SameEntry(s, op.lan).None? && WanAddress(s, op.lan.ip) == Some(a) then
      var q := FreePorts(s, op.lan.ip);
      if q == [] then [] else [q[0]]
    else []
  }

  /** The ports an operation gives back to a. */
  function Returned(s: Pool, op: Op, a: U32): seq<U16> {
    if op.Free? && op.c.wan.ip == a && Release(s, op.c).1 == Done then [op.c.wan.port] else []
  }

  function AllTaken(k: Limits, s: Pool, ops: seq<Op>, a: U32): seq<U16>
    decreases |ops|
  {
    if ops == [] then [] else Taken(k, s, ops[0], a) + AllTaken(k, Step(k, s, ops[0]), ops[1..], a)
  }

  function AllReturned(k: Limits, s: Pool, ops: seq<Op>, a: U32): seq<U16>
    decreases |ops|
  {
    if ops == [] then [] else Returned(s, ops[0], a) + AllReturned(k, Step(k, s, ops[0]), ops[1..], a)
  }

  lemma QueueStep(k: Limits, s: Pool, op: Op, a: U32)
    requires a in s.addrs && a in s.ports && op != Del(a)
    ensures a in Step(k, s, op).ports
    ensures Taken(k, s, op, a) + Step(k, s, op).ports[a] == s.ports[a] + Returned(s, op, a)
  {
    var q := s.ports[a];
    assert [] + q == q && q + [] == q;
    match op
    case Add(b) =>
    case Del(b) =>
    case Request(lan) =>
      QueueRequest(k, s, lan, a);
    case Free(c) =>
  }

  lemma QueueRequest(k: Limits, s: Pool, lan: Endpoint, a: U32)
    requires a in s.ports
    ensures var s' := Assign(k, s, lan).0;
      a in s'.ports && Taken(k, s, Request(lan), a) + s'.ports[a] == s.ports[a]
  {
    var q := s.ports[a];
    assert [] + q == q;
    if q != [] {
      assert q == [q[0]] + q[1..];
    }
  }

  lemma InListed(k: Limits, s: Pool, a: U32)
    requires Inv(k, s)
    ensures a in s.addrs <==> a in s.ports
  {
  }

  /** As long as an address stays in the pool, its free list is a queue. */
  lemma {:induction false} QueueLaw(k: Limits, s: Pool, ops: seq<Op>, a: U32)
    requires Inv(k, s) && a in s.ports && Del(a) !in ops
    ensures a in Run(k, s, ops).ports
    ensures AllTaken(k, s, ops, a) + Run(k, s, ops).ports[a] == s.ports[a] + AllReturned(k, s, ops, a)
    decreases |ops|
  {
    hide Inv, Step, Taken, Returned;
    InListed(k, s, a);
    if ops != [] {
      var s' := Step(k, s, ops[0]);
      QueueStep(k, s, ops[0], a);
      StepKeeps(k, s, ops[0]);
      QueueLaw(k, s', ops[1..], a);
      var t, u := Taken(k, s, ops[0], a), Returned(s, ops[0], a);
      var t', u', q' := AllTaken(k, s', ops[1..], a), AllReturned(k, s', ops[1..], a), Run(k, s', ops[1..]).ports[a];
      calc {
        (t + t') + q';
        t + (t' + q');
        t + (s'.ports[a] + u');
        (t + s'.ports[a]) + u';
        (s.ports[a] + u) + u';
        s.ports[a] + (u + u');
      }
    }
  }

  /** A released port is handed out again only after every port that was free when it was released. */
  lemma ReleasedGoesLast(k: Limits, s: Pool, c: Conn, ops: seq<Op>)
    requires Inv(k, s) && Release(s, c).1 == Done && Del(c.wan.ip) !in ops
    ensures c.wan.ip in s.ports
    ensures var a, q := c.wan.ip, s.ports[c.wan.ip];
      var out := AllTaken(k, Release(s, c).0, ops, a);
      if |out| <= |q| then out == q[..|out|] && c.wan.port !in out
      else out[..|q|] == q && out[|q|] == c.wan.port && c.wan.port !in out[..|q|]
  {
    hide Inv, Run, AllTaken, AllReturned;
    ReleaseKeeps(k, s, c);
    var s1 := Release(s, c).0;
    var a, q := c.wan.ip, s.ports[c.wan.ip];
    ReleasedPort(k, s, c);
    QueueLaw(k, s1, ops, a);
    QueueOrder(AllTaken(k, s1, ops, a), Run(k, s1, ops).ports[a], q, c.wan.port, AllReturned(k, s1, ops, a));
  }

  lemma ReleasedPort(k: Limits, s: Pool, c: Conn)
    requires Inv(k, s) && Release(s, c).1 == Done
    ensures c.wan.ip in s.ports && c.wan.port !in s.ports[c.wan.ip]
    ensures c.wan.ip in Release(s, c).0.ports && Release(s, c).0.ports[c.wan.ip] == s.ports[c.wan.ip] + [c.wan.port]
  {
    hide Lists, Unique, Covered;
    var i := ConnIndex(Host(s, c.lan.ip), c);
    assert At(s, c.lan.ip, i) && EntryOk(k, s, c.lan.ip, c);
  }

  /** What leaves a queue that holds q and then p. */
  lemma QueueOrder(out: seq<U16>, rest: seq<U16>, q: seq<U16>, p: U16, back: seq<U16>)
    requires out + rest == (q + [p]) + back && p !in q
    ensures if |out| <= |q| then out == q[..|out|] && p !in out
            else out[..|q|] == q && out[|q|] == p && p !in out[..|q|]
  {
    var whole := (q + [p]) + back;
    if |out| <= |q| {
      assert out == whole[..|out|] == q[..|out|];
    } else {
      assert out[..|q|] == whole[..|q|] == q && out[|q|] == whole[|q|];
    }
  }

  // ---- mappings are stable ----

  lemma {:induction false} FindAppended(l: seq<Conn>, c: Conn)
    requires LanIndex(l, c.lan) == |l|
    ensures LanIndex(l + [c], c.lan) == |l|
  {
    if l != [] {
      assert (l + [c])[1..] == l[1..] + [c];
      FindAppended(l[1..], c);
    }
  }

  /** A request that is answered is answered the same again. */
  lemma RepeatedRequest(k: Limits, s: Pool, lan: Endpoint)
    requires Inv(k, s) && Assign(k, s, lan).1.Some?
    ensures Assign(k, Assign(k, s, lan).0, lan) == Assign(k, s, lan)
    ensures Assign(k, s, lan).1.value.lan == lan
  {
    if SameEntry(s, lan).None? {
      FindAppended(Host(s, lan.ip), Assign(k, s, lan).1.value);
    }
  }

  /** The entry of c, wherever it is in its host's list, is what a request finds. */
  lemma EntryFound(k: Limits, s: Pool, c: Conn)
    requires Inv(k, s)
    ensures SameEntry(s, c.lan) == Some(c) <==> c in Host(s, c.lan.ip)
  {
    var l := Host(s, c.lan.ip);
    if c in l {
      var j :| 0 <= j < |l| && l[j] == c;
      var i := LanIndex(l, c.lan);
      assert At(s, c.lan.ip, j) && At(s, c.lan.ip, i) && Clash(l[i], l[j]);
    }
  }

  lemma EntryStays(k: Limits, s: Pool, op: Op, c: Conn)
    requires c in Host(s, c.lan.ip) && op != Free(c) && op != Del(c.wan.ip)
    ensures c in Host(Step(k, s, op), c.lan.ip)
  {
    var l := Host(s, c.lan.ip);
    var j :| 0 <= j < |l| && l[j] == c;
    match op
    case Add(a) =>
    case Del(a) =>
      if a in s.addrs {
        var i := WithoutTo(l, a, j);
      }
    case Request(lan) =>
      if lan.ip == c.lan.ip {
        assert (l + [Conn(lan, c.wan)])[j] == c;
      }
    case Free(d) =>
      if d.lan.ip == c.lan.ip {
        var i := ConnIndex(l, d);
        if i < |l| {
          assert (l[..i] + l[i + 1..])[if j < i then j else j - 1] == c;
        }
      }
  }

  /** A mapping lasts until it is released or its address leaves the pool. */
  lemma {:induction false} MappingLasts(k: Limits, s: Pool, ops: seq<Op>, c: Conn)
    requires Inv(k, s) && SameEntry(s, c.lan) == Some(c) && Free(c) !in ops && Del(c.wan.ip) !in ops
    ensures SameEntry(Run(k, s, ops), c.lan) == Some(c)
    decreases |ops|
  {
    if ops != [] {
      EntryFound(k, s, c);
      EntryStays(k, s, ops[0], c);
      StepKeeps(k, s, ops[0]);
      EntryFound(k, Step(k, s, ops[0]), c);
      MappingLasts(k, Step(k, s, ops[0]), ops[1..], c);
    }
  }

  // ---- limits per host ----

  ghost predicate WithinLimit(k: Limits, s: Pool) {
    forall h :: h in s.db ==> |s.db[h]| <= k.maxConnection
  }

  lemma {:induction false} WithoutShorter(c: seq<Conn>, a: U32)
    ensures |Without(c, a)| <= |c|
  {
    if c != [] {
      WithoutShorter(c[1..], a);
    }
  }

  lemma LimitStep(k: Limits, s: Pool, op: Op)
    requires WithinLimit(k, s) && k.maxConnection >= 1
    ensures WithinLimit(k, Step(k, s, op))
  {
    match op
    case Add(a) =>
    case Del(a) =>
      forall h | h in s.db
        ensures |Without(s.db[h], a)| <= k.maxConnection
      {
        WithoutShorter(s.db[h], a);
      }
    case Request(lan) =>
    case Free(c) =>
  }

  /** No host ever has more than maxConnection entries; with a limit of zero its first request already has. */
  lemma {:induction false} LimitHolds(k: Limits, s: Pool, ops: seq<Op>)
    requires WithinLimit(k, s)
    ensures k.maxConnection >= 1 ==> WithinLimit(k, Run(k, s, ops))
    ensures k.maxConnection == 0 ==>
        forall lan: Endpoint :: lan.ip !in s.db && FreePorts(s, lan.ip) != [] ==>
          !WithinLimit(k, Step(k, s, Request(lan)))
    decreases |ops|
  {
    if ops != [] && k.maxConnection >= 1 {
      LimitStep(k, s, ops[0]);
      LimitHolds(k, Step(k, s, ops[0]), ops[1..]);
    }
    forall lan: Endpoint | lan.ip !in s.db && FreePorts(s, lan.ip) != [] && k.maxConnection == 0
      ensures !WithinLimit(k, Step(k, s, Request(lan)))
    {
      var s' := Step(k, s, Request(lan));
      assert lan.ip in s'.db && |s'.db[lan.ip]| == 1;
    }
  }

  // ---- all mappings of a host share one WAN address ----

  ghost predicate Shared(s: Pool) {
    forall h, i: nat :: At(s, h, i) ==> WanAddress(s, h) == Some(s.db[h][i].wan.ip)
  }

  lemma SharedStep(k: Limits, s: Pool, op: Op)
    requires Shared(s) && (op.Request? || op.Free?)
    ensures Shared(Step(k, s, op)) && Step(k, s, op).addrs == s.addrs
  {
    match op
    case Request(lan) =>
      var (s', r) := Assign(k, s, lan);
      if SameEntry(s, lan).None? && FreePorts(s, lan.ip) != [] && r.Some? {
        Appended(s, s', lan.ip, r.value);
      }
    case Free(c) =>
      var l := Host(s, c.lan.ip);
      var i := ConnIndex(l, c);
      if i < |l| {
        Spliced(s, Release(s, c).0, c.lan.ip, i);
      }
  }

  /** While the pool stays as it is, a host keeps to one WAN address. */
  lemma {:induction false} SharedRun(k: Limits, s: Pool, ops: seq<Op>)
    requires Shared(s) && forall i :: 0 <= i < |ops| ==> ops[i].Request? || ops[i].Free?
    ensures Shared(Run(k, s, ops))
    decreases |ops|
  {
    if ops != [] {
      SharedStep(k, s, ops[0]);
      SharedRun(k, Step(k, s, ops[0]), ops[1..]);
    }
  }

  lemma SharedMoves(k: Limits, s: Pool, a: U32)
    requires Shared(s)
    ensures Shared(AddAddress(k, s, a)) <==>
            forall h :: h in s.db && s.db[h] != [] ==> WanAddress(AddAddress(k, s, a), h) == WanAddress(s, h)
  {
    var s' := AddAddress(k, s, a);
    if Shared(s') {
      forall h | h in s.db && s.db[h] != []
        ensures WanAddress(s', h) == WanAddress(s, h)
      {
        assert At(s, h, 0) && At(s', h, 0);
      }
    }
    assert forall h, i: nat :: At(s', h, i) ==> At(s, h, i);
  }

  /** The place of a host's address in a pool of n. */
  function Place(h: U32, n: nat): nat {
    if n == 0 then 0 else h % 0x100 % n
  }

  /** A new address keeps it exactly when no host with entries has another place among n + 1 addresses than among n. */
  lemma SharedAfterAdd(k: Limits, s: Pool, a: U32)
    requires Inv(k, s) && Shared(s)
    ensures Shared(AddAddress(k, s, a)) <==>
            a in s.addrs || forall h :: h in s.db && s.db[h] != [] ==> Place(h, |s.addrs| + 1) == Place(h, |s.addrs|)
  {
    SharedMoves(k, s, a);
    forall h | h in s.db && s.db[h] != [] && a !in s.addrs
      ensures WanAddress(AddAddress(k, s, a), h) == WanAddress(s, h) <==> Place(h, |s.addrs| + 1) == Place(h, |s.addrs|)
    {
      assert At(s, h, 0);
      MovesOnAdd(k, s, a, h);
    }
  }

  lemma MovesOnAdd(k: Limits, s: Pool, a: U32, h: U32)
    requires Lists(k, s) && a !in s.addrs && s.addrs != []
    ensures WanAddress(AddAddress(k, s, a), h) == WanAddress(s, h) <==> Place(h, |s.addrs| + 1) == Place(h, |s.addrs|)
  {
    var n := |s.addrs|;
    var i, j := Place(h, n), Place(h, n + 1);
    assert s.addrs[i] in s.addrs;
    assert WanAddress(AddAddress(k, s, a), h) == Some((s.addrs + [a])[j]);
  }

  lemma {:induction false} WithoutAll(c: seq<Conn>, w: U32, a: U32)
    requires forall i :: 0 <= i < |c| ==> c[i].wan.ip == w
    ensures Without(c, a) == if w == a then [] else c
  {
    if c != [] {
      assert c == [c[0]] + c[1..];
      WithoutAll(c[1..], w, a);
    }
  }

  /** The place that place j among the n - 1 addresses left had before address i went. */
  function Former(j: nat, i: nat): nat {
    if j < i then j else j + 1
  }

  /**
   * Deleting an address keeps it exactly when every host with entries either was on that address, and loses them, or
   * finds its own address again at its place among one address fewer.
   */
  lemma SharedAfterDel(k: Limits, s: Pool, a: U32)
    requires Inv(k, s) && Shared(s)
    ensures Shared(DelAddress(s, a)) <==>
            (a in s.addrs ==> forall h :: h in s.db && s.db[h] != [] ==>
               var n, i := |s.addrs|, IndexOf(s.addrs, a);
               Place(h, n) == i || Former(Place(h, n - 1), i) == Place(h, n))
  {
    hide Entries, Unique, Covered, ListOk, Shared, WanAddress, DelAddress, Place, Without;
    if a in s.addrs {
      var s', n, i := DelAddress(s, a), |s.addrs|, IndexOf(s.addrs, a);
      EmptyOnDel(s, a);
      forall h | h in s.db && s.db[h] != []
        ensures s'.db[h] == if Place(h, n) == i then [] else s.db[h]
        ensures Place(h, n) == i
                || (WanAddress(s', h) == WanAddress(s, h) <==> Former(Place(h, n - 1), i) == Place(h, n))
      {
        LeftOnDel(s, a, h);
        MovesOnDel(s, a, h);
      }
      SharedLeft(s, s', n, i);
    } else {
      DelNothing(s, a);
    }
  }

  lemma DelNothing(s: Pool, a: U32)
    requires a !in s.addrs
    ensures DelAddress(s, a) == s
  {
  }

  lemma EmptyOnDel(s: Pool, a: U32)
    requires a in s.addrs
    ensures DelAddress(s, a).db.Keys == s.db.Keys
    ensures forall h :: h in s.db && s.db[h] == [] ==> DelAddress(s, a).db[h] == []
  {
    hide IndexOf;
  }

  lemma LeftOnDel(s: Pool, a: U32, h: U32)
    requires Shared(s) && (forall i, j :: 0 <= i < j < |s.addrs| ==> s.addrs[i] != s.addrs[j])
    requires a in s.addrs && h in s.db && s.db[h] != []
    ensures DelAddress(s, a).db[h] == if Place(h, |s.addrs|) == IndexOf(s.addrs, a) then [] else s.db[h]
  {
    var w := s.addrs[Place(h, |s.addrs|)];
    forall j: nat | j < |s.db[h]|
      ensures s.db[h][j].wan.ip == w
    {
      assert At(s, h, j);
    }
    hide Shared;
    WithoutAll(s.db[h], w, a);
  }

  lemma AddressesLeft(s: Pool, a: U32)
    requires a in s.addrs
    ensures var i := IndexOf(s.addrs, a); DelAddress(s, a).addrs == s.addrs[..i] + s.addrs[i + 1..]
  {
    hide IndexOf;
  }

  lemma MovesOnDel(s: Pool, a: U32, h: U32)
    requires a in s.addrs && forall i, j :: 0 <= i < j < |s.addrs| ==> s.addrs[i] != s.addrs[j]
    ensures var s', n, i := DelAddress(s, a), |s.addrs|, IndexOf(s.addrs, a);
      Place(h, n) == i || (WanAddress(s', h) == WanAddress(s, h) <==> Former(Place(h, n - 1), i) == Place(h, n))
  {
    hide Place, Former, IndexOf, WanAddress, DelAddress;
    var n, i := |s.addrs|, IndexOf(s.addrs, a);
    AddressesLeft(s, a);
    PlaceIn(h, n);
    if Place(h, n) != i {
      PlaceIn(h, n - 1);
      AddressAt(s, h);
      AddressAt(DelAddress(s, a), h);
      DropPlace(s.addrs, i, Place(h, n - 1), Place(h, n));
    }
  }

  lemma PlaceIn(h: U32, n: nat)
    requires n > 0
    ensures Place(h, n) < n
  {
  }

  lemma AddressAt(s: Pool, h: U32)
    requires s.addrs != []
    ensures Place(h, |s.addrs|) < |s.addrs| && WanAddress(s, h) == Some(s.addrs[Place(h, |s.addrs|)])
  {
  }

  lemma DropPlace(c: seq<U32>, i: nat, j: nat, p: nat)
    requires i < |c| && p < |c| && j < |c| - 1 && forall m, n :: 0 <= m < n < |c| ==> c[m] != c[n]
    ensures (c[..i] + c[i + 1..])[j] == c[p] <==> Former(j, i) == p
  {
    assert (c[..i] + c[i + 1..])[j] == c[Former(j, i)];
  }

  lemma SharedLeft(s: Pool, s': Pool, n: nat, i: nat)
    requires Shared(s) && s'.db.Keys == s.db.Keys
    requires forall h :: h in s.db && s.db[h] != [] ==> s'.db[h] == if Place(h, n) == i then [] else s.db[h]
    requires forall h :: h in s.db && s.db[h] == [] ==> s'.db[h] == []
    ensures Shared(s') <==>
            forall h :: h in s.db && s.db[h] != [] ==> Place(h, n) == i || WanAddress(s', h) == WanAddress(s, h)
  {
    if Shared(s') {
      forall h | h in s.db && s.db[h] != [] && Place(h, n) != i
        ensures WanAddress(s', h) == WanAddress(s, h)
      {
        assert At(s, h, 0) && At(s', h, 0);
      }
    }
    assert forall h, j: nat :: At(s', h, j) ==> At(s, h, j) && Place(h, n) != i && s'.db[h][j] == s.db[h][j];
  }

  /** The pool with its addresses and the first request of host 10.0.0.1: one address, or three. */
  lemma OneHost(k: Limits, three: bool) returns (s: Pool)
    requires k.startPort <= k.endPort && k.maxConnection > 0
    ensures Inv(k, s) && Shared(s) && s.addrs == (if three then [7, 8, 9] else [7])
    ensures 0x0A00_0001 in s.db && s.db[0x0A00_0001] != []
  {
    hide Inv, AddAddress, PortRange, WanAddress;
    var lan := Endpoint(0x0A00_0001, 5);
    var s0 := NoHost(k, three);
    s := Assign(k, s0, lan).0;
    AssignKeeps(k, s0, lan);
    SharedStep(k, s0, Request(lan));
  }

  lemma NoHost(k: Limits, three: bool) returns (s: Pool)
    requires k.startPort <= k.endPort
    ensures Inv(k, s) && s.addrs == (if three then [7, 8, 9] else [7]) && s.db == map[]
      && FreePorts(s, 0x0A00_0001) != []
  {
    hide Inv;
    EmptyInv(k);
    AddKeeps(k, EMPTY, 7);
    s := AddAddress(k, EMPTY, 7);
    if three {
      AddKeeps(k, s, 8);
      s := AddAddress(k, s, 8);
      AddKeeps(k, s, 9);
      s := AddAddress(k, s, 9);
    }
  }

  /** Both do happen: host 10.0.0.1 goes from 7 to 8 when 8 is added, and from 8 to 9 when 7 is deleted. */
  lemma SharedCanBreak(k: Limits) returns (s: Pool, u: Pool)
    requires k.startPort <= k.endPort && k.maxConnection > 0
    ensures Inv(k, s) && Shared(s) && !Shared(AddAddress(k, s, 8))
    ensures Inv(k, u) && Shared(u) && !Shared(DelAddress(u, 7))
  {
    hide Inv, Shared, AddAddress, DelAddress;
    var h: U32 := 0x0A00_0001;
    s := OneHost(k, false);
    u := OneHost(k, true);
    SharedAfterAdd(k, s, 8);
    SharedAfterDel(k, u, 7);
    assert Place(h, 1) == 0 && Place(h, 2) == 1 && Place(h, 3) == 1;
    assert IndexOf(u.addrs, 7) == 0 && Former(1, 0) == 2;
  }

  // ---- what requests over the limit cost ----

  /** A refused request changes the pool exactly when its host is over the limit and a port was free: that is lost. */
  lemma RefusedRequest(k: Limits, s: Pool, lan: Endpoint)
    requires Inv(k, s) && SameEntry(s, lan).None?
    ensures var (s', r) := Assign(k, s, lan);
      var over := lan.ip in s.db && |s.db[lan.ip]| >= k.maxConnection;
      var q := FreePorts(s, lan.ip);
      && (r.None? && s' != s <==> over && q != [])
      && (over ==> s'.db == s.db && s'.addrs == s.addrs && FreePorts(s', lan.ip) == if q == [] then [] else q[1..])
  {
    var q := FreePorts(s, lan.ip);
    if q != [] {
      assert q[1..] != q;
    }
  }

  /** A host over its limit that keeps asking for new ports empties the free list of its address for everyone. */
  lemma {:induction false} Starvation(k: Limits, s: Pool, lans: seq<Endpoint>, h: U32)
    requires Inv(k, s) && h in s.db && |s.db[h]| >= k.maxConnection && |lans| >= |FreePorts(s, h)|
    requires forall i :: 0 <= i < |lans| ==> lans[i].ip == h && SameEntry(s, lans[i]).None?
    ensures FreePorts(Run(k, s, Requests(lans)), h) == []
    decreases |lans|
  {
    hide Inv;
    if lans != [] {
      var s' := Assign(k, s, lans[0]).0;
      RefusedRequest(k, s, lans[0]);
      AssignKeeps(k, s, lans[0]);
      assert Requests(lans)[1..] == Requests(lans[1..]);
      Starvation(k, s', lans[1..], h);
    }
  }

  function Requests(lans: seq<Endpoint>): seq<Op> {
    seq(|lans|, i requires 0 <= i < |lans| => Request(lans[i]))
  }

  // ---- a pool in which all of this happens ----

  const A := Endpoint(0x0A00_0001, 5)
  const B := Endpoint(0x0A00_0001, 6)
  const C := Endpoint(0x0A00_0001, 7)
  const OTHER := Endpoint(0x0A00_0002, 5)

  /** One address with the ports 1 to 3, and the first mapping of host 10.0.0.1. */
  function Small(maxConnection: nat): Pool {
    Run(Limits(1, 3, maxConnection), EMPTY, [Add(7), Request(A)])
  }

  lemma SmallPool(maxConnection: nat)
    ensures Small(maxConnection) == Pool([7], map[7 := [2, 3]], map[A.ip := [Conn(A, Endpoint(7, 1))]], map[7 := {}])
  {
    hide Run;
    var k := Limits(1, 3, maxConnection);
    var s0 := AddAddress(k, EMPTY, 7);
    assert PortRange(1, 3) == [1, 2, 3];
    assert s0 == Pool([7], map[7 := [1, 2, 3]], map[], map[7 := {}]);
    assert FreePorts(s0, A.ip) == [1, 2, 3] && SameEntry(s0, A) == None;
    assert [1, 2, 3][1..] == [2, 3] && Host(s0, A.ip) + [Conn(A, Endpoint(7, 1))] == [Conn(A, Endpoint(7, 1))];
    assert Shifted(s0, 7).ports == map[7 := [2, 3]];
    TwoSteps(k, Add(7), Request(A));
    assert Assign(k, s0, A).0.db == map[A.ip := [Conn(A, Endpoint(7, 1))]];
  }

  lemma TwoSteps(k: Limits, a: Op, b: Op)
    ensures Run(k, EMPTY, [a, b]) == Step(k, Step(k, EMPTY, a), b)
  {
    hide Step;
    var s1 := Step(k, EMPTY, a);
    assert [a, b][1..] == [b] && [b][1..] == [];
    assert Run(k, s1, [b]) == Run(k, Step(k, s1, b), []);
  }

  /** A refused request of host 10.0.0.1, over its limit of one, costs the next free port. */
  lemma OnePortLost(s: Pool, lan: Endpoint, p: U16, q: seq<U16>)
    requires s.addrs == [7] && s.ports == map[7 := [p] + q] && 7 in s.dropped
    requires lan.ip in s.db && |s.db[lan.ip]| == 1 && SameEntry(s, lan) == None
    ensures Assign(Limits(1, 3, 1), s, lan)
      == (s.(ports := map[7 := q], dropped := s.dropped[7 := s.dropped[7] + {p}]), None)
  {
    hide SameEntry;
    assert FreePorts(s, lan.ip) == [p] + q && ([p] + q)[1..] == q && ([p] + q)[0] == p;
    assert s.ports[7 := q] == map[7 := q];
  }

  /**
   * With a limit of one, the second and third request of host 10.0.0.1 are refused and cost the ports 2 and 3; then
   * host 10.0.0.2, which never had a mapping, is refused too.
   */
  lemma PortsAreLost()
    ensures var k, s := Limits(1, 3, 1), Small(1);
      var (s1, r1) := Assign(k, s, B);
      var (s2, r2) := Assign(k, s1, C);
      && r1 == None && s1 == s.(ports := map[7 := [3]], dropped := map[7 := {2}])
      && r2 == None && s2 == s.(ports := map[7 := []], dropped := map[7 := {2, 3}])
      && s.ports == map[7 := [2, 3]] && OTHER.ip !in s2.db && Assign(k, s2, OTHER).1 == None
  {
    var k, s := Limits(1, 3, 1), Small(1);
    SmallPool(1);
    hide Small, Assign, FreePorts, OverLimit, Shifted, WanAddress, Run;
    assert [2] + [3] == [2, 3] && [3] + [] == [3];
    OnePortLost(s, B, 2, [3]);
    var s1 := s.(ports := map[7 := [3]], dropped := map[7 := {2}]);
    assert s.dropped[7] + {2} == {2} && s.dropped[7 := {2}] == map[7 := {2}];
    OnePortLost(s1, C, 3, []);
    assert s1.dropped[7] + {3} == {2, 3} && s1.dropped[7 := {2, 3}] == map[7 := {2, 3}];
    NoPortLeft(s1.(ports := map[7 := []], dropped := map[7 := {2, 3}]), OTHER);
  }

  lemma NoPortLeft(s: Pool, lan: Endpoint)
    requires s.addrs == [7] && s.ports == map[7 := []] && lan.ip !in s.db
    ensures Assign(Limits(1, 3, 1), s, lan).1 == None
  {
    assert FreePorts(s, lan.ip) == [];
  }

  /** With a limit of zero the first request is granted all the same. */
  lemma ZeroIsOne()
    ensures A.ip in Small(0).db && |Small(0).db[A.ip]| == 1
  {
    SmallPool(0);
  }
}
