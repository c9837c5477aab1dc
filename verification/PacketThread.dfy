/** The two translation functions as the packet thread runs them: on the buffer, the trees and the nodes' flags. */
module PacketThreads {
  import opened Lookups
  import opened Sessions
  import opened Packets
  import opened PacketBuffers
  import opened Aliases
  import opened Verdicts
  import Arena
  import T = TcpTracker
  import SessionTables

  /** A 32-bit field in host order, read from the buffer. */
  method LoadHost(buf: array<U8>, at: nat) returns (v: U32)
    requires at + 4 <= buf.Length
    ensures v == Host32(buf[..], at)
  {
    var hi: nat := buf[at] as nat * 0x100 + buf[at + 1];
    var lo: nat := buf[at + 2] as nat * 0x100 + buf[at + 3];
    v := hi * 0x1_0000 + lo;
  }

  /** The loop of chk_selfaddr over lan_addr or wan_addr. */
  method CheckSelf(addrs: seq<U32>, dst: U32) returns (found: bool)
    ensures found <==> dst in addrs
  {
    var i := 0;
    while i < |addrs|
      invariant 0 <= i <= |addrs| && dst !in addrs[..i]
    {
      if addrs[i] == dst {
        return true;
      }
      i := i + 1;
    }
    assert addrs[..i] == addrs;
    found := false;
  }

  /** The sessions that the nodes in s hold. */
  ghost function SessionsOf(node: map<Ptr, Mapping>, flags: map<Ptr, T.State>, s: set<Ptr>): Table
    requires s <= node.Keys && s <= flags.Keys
  {
    map n | n in s :: Session(node[n], flags[n])
  }

  lemma ViewMoved(node: map<Ptr, Mapping>, flags: map<Ptr, T.State>, s: set<Ptr>, p: Ptr, st: T.State)
    requires s <= node.Keys && s <= flags.Keys && p in s
    ensures SessionsOf(node, flags[p := st], s) == SessionsOf(node, flags, s)[p := Session(node[p], st)]
  {
  }

  lemma ViewLess(node: map<Ptr, Mapping>, flags: map<Ptr, T.State>, s: set<Ptr>, p: Ptr)
    requires s <= node.Keys && s <= flags.Keys
    ensures SessionsOf(node, flags, s - {p}) == SessionsOf(node, flags, s) - {p}
  {
  }

  lemma ViewMore(node: map<Ptr, Mapping>, flags: map<Ptr, T.State>, s: set<Ptr>, p: Ptr, l: Session<T.State>)
    requires s <= node.Keys && s <= flags.Keys && p !in s
    ensures var node', flags' := node[p := l.m], flags[p := l.state];
      && SessionsOf(node', flags', s) == SessionsOf(node, flags, s)
      && SessionsOf(node', flags', s + {p}) == SessionsOf(node, flags, s)[p := l]
  {
  }

  class Nat {
    const table: SessionTables.SessionTable
    // The flags field of each node.
    var flags: map<Ptr, T.State>

    ghost predicate Valid()
      reads this, table, table.l2w, table.w2l
    {
      table.Valid() && table.Members() <= flags.Keys
    }

    ghost function View(): Table
      reads this, table, table.l2w, table.w2l
      requires Valid()
    {
      SessionsOf(table.node, flags, table.Members())
    }

    constructor ()
      ensures Valid() && View() == map[]
    {
      table := new SessionTables.SessionTable();
      flags := map[];
    }

    lemma ViewKeyed()
      requires Valid()
      ensures Keyed(View())
    {
      var t := View();
      forall p, q | p in t && q in t && Meet(t[p].m, t[q].m)
        ensures p == q
      {
        table.Apart(p, q);
      }
    }

    /** s_delete_for_point. */
    method DeleteNode(p: Ptr)
      requires Valid() && p in table.Members()
      modifies table.l2w, table.w2l
      ensures Valid() && View() == old(View()) - {p}
    {
      hide SessionsOf;
      ViewLess(table.node, flags, table.Members(), p);
      var r := table.DeleteForPoint(p);
    }

    /** s_delete_for_value. */
    method DeleteValue(m: Mapping) returns (r: Ptr)
      requires Valid()
      modifies table.l2w, table.w2l
      ensures Valid() && (r == Arena.NULL <==> forall p :: p in old(View()) ==> old(View())[p].m != m)
      ensures r != Arena.NULL ==> r in old(View()) && old(View())[r].m == m && View() == old(View()) - {r}
      ensures r == Arena.NULL ==> View() == old(View())
    {
      hide Pack;
      ghost var s, node := table.Members(), table.node;
      Within(m);
      r := table.DeleteForValue(m);
      hide SessionsOf;
      if r != Arena.NULL {
        ViewLess(node, flags, s, r);
      }
    }

    lemma InTable()
      requires Valid()
      ensures View().Keys == table.Members()
    {
    }

    /** The mappings of the table are those of the view. */
    lemma Within(m: Mapping)
      requires Valid()
      ensures m !in table.Table() <==> forall p :: p in View() ==> View()[p].m != m
      ensures forall p :: p in table.Members() ==> p in View() && View()[p].m == table.node[p]
    {
      hide LanKey, WanKey;
      if m in table.Table() {
        var p :| p in table.Members() && table.node[p] == m;
        assert p in View() && View()[p].m == m;
      }
    }

    /** A new node filled and given to s_insert. */
    method Insert(spot: Ptr, l: Session<T.State>) returns (r: Ptr)
      requires Valid() && spot != Arena.NULL && spot !in View()
      modifies this`flags, table, table.l2w, table.w2l
      ensures Valid()
      ensures r == Arena.NULL <==> !LanTaken(old(table.Table()), l.m) && !WanTaken(old(table.Table()), l.m)
      ensures View() == if r == Arena.NULL then old(View())[spot := l] else old(View())
    {
      hide SessionsOf, LanTaken, WanTaken;
      InTable();
      ViewMore(table.node, flags, table.Members(), spot, l);
      flags := flags[spot := l.state];
      r := table.InsertMapping(spot, l.m);
    }

    /** The tree search by LAN key finds what the specification finds. */
    method LookupLan(protocol: U8, e: Endpoint) returns (r: Ptr)
      requires Valid()
      ensures FindLan(View(), protocol, e) == if r == Arena.NULL then None else Some(r)
      ensures r != Arena.NULL ==> r in table.Members() && table.node[r].protocol == protocol && table.node[r].lan == e
    {
      r := table.FindL2W(protocol, e);
      if r != Arena.NULL {
        ViewKeyed();
        FindsOwn(View(), r);
      }
    }

    method LookupWan(protocol: U8, e: Endpoint) returns (r: Ptr)
      requires Valid()
      ensures FindWan(View(), protocol, e) == if r == Arena.NULL then None else Some(r)
      ensures r != Arena.NULL ==> r in table.Members() && table.node[r].protocol == protocol && table.node[r].wan == e
    {
      r := table.FindW2L(protocol, e);
      if r != Arena.NULL {
        ViewKeyed();
        FindsOwn(View(), r);
      }
    }

    /** The checks at the head of both functions; code is for a packet that does not pass them. */
    method Check(env: Env, buf: array<U8>, from: T.Side) returns (admitted: bool, code: int)
      requires Readable(buf[..])
      ensures admitted <==> Admitted(env, buf[..], from)
      ensures !admitted ==> code == Early(env, buf[..], from)
    {
      if buf.Length <= ALIAS_MIN_SIZE {
        return false, ALIAS_TOOSHORT;
      }
      if buf[0] / 0x10 != 4 {
        return false, ALIAS_DODROP;
      }
      var src := LoadHost(buf, 12);
      var dst := LoadHost(buf, 16);
      if Dropped(src, dst, from) {
        return false, ALIAS_DODROP;
      }
      if buf[6] / 0x40 % 2 == 1 {
        if !env.negateDf && buf.Length > if from == T.Lan then env.wanMtu else env.lanMtu {
          return false, ALIAS_TOO_BIG;
        }
      }
      admitted, code := true, ALIAS_DOALIAS;
    }

    /** The session's flags move on; code tells what becomes of the packet. */
    method Advance(p: Ptr, b: U8, from: T.Side) returns (code: int)
      requires Valid() && p in table.Members()
      modifies this`flags
      ensures Valid() && (code, flags[p]) == TcpVerdict(old(flags[p]), FlagsOf(b), from)
      ensures View() == old(View())[p := Session(table.node[p], flags[p])]
    {
      hide T.TcpStateCheck, FlagsOf, SessionsOf;
      ViewMoved(table.node, flags, table.Members(), p, TcpVerdict(flags[p], FlagsOf(b), from).1);
      if flags[p] == T.Closed || flags[p] == T.Reset {
        assert flags[p := flags[p]] == flags;
        return ALIAS_DOALIAS;
      }
      flags := flags[p := T.TcpStateCheck(flags[p], FlagsOf(b), from)];
      if flags[p] == T.Closed {
        code := ALIAS_DEL_TABLE;
      } else if flags[p] == T.Reset {
        code := ALIAS_RESET_TABLE;
      } else if flags[p] == T.Unknown {
        code := if from == T.Lan then ALIAS_RESET_TABLE else ALIAS_DODROP;
      } else {
        code := ALIAS_DOALIAS;
      }
    }

    /** th_flags. */
    static method LoadFlags(buf: array<U8>) returns (b: U8)
      requires Transport(buf[..]) && buf[9] == TCP
      ensures b == FlagByte(buf[..])
    {
      b := buf[buf[0] % 0x10 * 4 + 13];
    }

    /** The TCP part of both functions, once the session is found. */
    method TcpPacket(buf: array<U8>, p: Ptr, from: T.Side) returns (code: int)
      requires Valid() && Transport(buf[..]) && buf[9] == TCP && p in table.Members()
      requires EndOf(buf[..], if from == T.Lan then Src else Dst)
            == if from == T.Lan then table.node[p].lan else table.node[p].wan
      modifies buf, this`flags
      ensures Valid()
      ensures Transport(old(buf[..])) && p in old(View())
      ensures Outcome(code, buf[..], View()) == TcpSession(old(View()), old(buf[..]), p, from)
    {
      hide Translate, TcpVerdict, FlagsOf, FlagByte, HeaderLength, Source, Destination;
      var b := LoadFlags(buf);
      code := Advance(p, b, from);
      if code == ALIAS_DOALIAS || code == ALIAS_DEL_TABLE {
        if from == T.Lan {
          TranslateInPlace(buf, Src, table.node[p].lan, table.node[p].wan);
        } else {
          TranslateInPlace(buf, Dst, table.node[p].wan, table.node[p].lan);
        }
      }
    }

    /** find_w2l for the packet's destination. */
    method LookupInward(buf: array<U8>) returns (r: Ptr)
      requires Valid() && Transport(buf[..])
      ensures FindWan(View(), buf[9], Destination(buf[..])) == if r == Arena.NULL then None else Some(r)
      ensures r != Arena.NULL ==>
              r in table.Members() && table.node[r].protocol == buf[9] && table.node[r].wan == Destination(buf[..])
    {
      hide FindWan, Raw16, Raw32;
      var h := buf[0] % 0x10 * 4;
      var ip := Load32(buf, 16);
      var port := Load16(buf, h + 2);
      r := LookupWan(buf[9], Endpoint(ip, port));
    }

    /** find_l2w for the packet's source. */
    method LookupOutward(buf: array<U8>) returns (r: Ptr)
      requires Valid() && Transport(buf[..])
      ensures FindLan(View(), buf[9], Source(buf[..])) == if r == Arena.NULL then None else Some(r)
      ensures r != Arena.NULL ==>
              r in table.Members() && table.node[r].protocol == buf[9] && table.node[r].lan == Source(buf[..])
    {
      hide FindLan, Raw16, Raw32;
      var h := buf[0] % 0x10 * 4;
      var ip := Load32(buf, 12);
      var port := Load16(buf, h);
      r := LookupLan(buf[9], Endpoint(ip, port));
    }

    /** The lookup in wan2lan_alias and what follows it. */
    method Inward(env: Env, buf: array<U8>) returns (code: int)
      requires Valid() && Readable(buf[..]) && Admitted(env, buf[..], T.Wan) && Transport(buf[..])
      modifies buf, this`flags
      ensures Valid() && Outcome(code, buf[..], View()) == Wan2Lan(env, old(View()), old(buf[..]))
    {
      hide Translate, TcpSession, FindWan, Admitted, Source, Destination, HeaderLength, Host32, WellFormed;
      assert buf.Length > ALIAS_MIN_SIZE by {
        AdmittedLong(env, buf[..], T.Wan);
      }
      var p := LookupInward(buf);
      if p == Arena.NULL {
        var dst := LoadHost(buf, 16);
        var self := CheckSelf(env.wanAddrs, dst);
        return if self then ALIAS_TO_ME else ALIAS_NO_TABLE;
      }
      if buf[9] == TCP {
        code := TcpPacket(buf, p, T.Wan);
      } else {
        TranslateInPlace(buf, Dst, table.node[p].wan, table.node[p].lan);
        code := ALIAS_DOALIAS;
      }
    }

    /** Wan2Lan. */
    method WanToLan(env: Env, buf: array<U8>) returns (code: int)
      requires Valid() && Readable(buf[..])
      modifies buf, this`flags
      ensures Valid() && Outcome(code, buf[..], View()) == Wan2Lan(env, old(View()), old(buf[..]))
    {
      hide Translate, Admitted, Early, TcpSession, FindWan, FindLan, WellFormed;
      var ok;
      ok, code := Check(env, buf, T.Wan);
      if !ok {
        return;
      }
      assert buf.Length > ALIAS_MIN_SIZE by {
        AdmittedLong(env, buf[..], T.Wan);
      }
      if buf[9] == TCP || buf[9] == UDP {
        code := Inward(env, buf);
      } else {
        code := ALIAS_NOT_SUPPORT;
      }
    }

    /** The UDP part of lan2wan_alias after the test for hairpins. */
    method UdpPacket(buf: array<U8>) returns (code: int)
      requires Valid() && Transport(buf[..]) && buf[9] == UDP
      modifies buf
      ensures Valid() && Transport(old(buf[..])) && Outcome(code, buf[..], View()) == UdpOut(old(View()), old(buf[..]))
    {
      hide Translate, FindLan, Source, Destination, HeaderLength;
      var p := LookupOutward(buf);
      if p == Arena.NULL {
        return ALIAS_NO_TABLE;
      }
      TranslateInPlace(buf, Src, table.node[p].lan, table.node[p].wan);
      code := ALIAS_DOALIAS;
    }

    /** The TCP part of lan2wan_alias. */
    method TcpOut(env: Env, buf: array<U8>) returns (code: int)
      requires Valid() && Readable(buf[..]) && Admitted(env, buf[..], T.Lan) && buf[9] == TCP
      modifies buf, this`flags
      ensures Valid() && Outcome(code, buf[..], View()) == Lan2Wan(env, old(View()), old(buf[..]))
    {
      hide Translate, TcpSession, FindWan, FindLan, Wan2Lan, Admitted, Source, Destination;
      assert buf.Length > ALIAS_MIN_SIZE by {
        AdmittedLong(env, buf[..], T.Lan);
      }
      var dst := LoadHost(buf, 16);
      var self := CheckSelf(env.lanAddrs, dst);
      if self {
        return ALIAS_TO_ME;
      }
      var p := LookupOutward(buf);
      if p == Arena.NULL {
        var b := LoadFlags(buf);
        return if b == TH_SYN then ALIAS_NO_TABLE else ALIAS_DODROP;
      }
      code := TcpPacket(buf, p, T.Lan);
    }

    /** Lan2Wan. */
    method LanToWan(env: Env, buf: array<U8>) returns (code: int)
      requires Valid() && Readable(buf[..])
      modifies buf, this`flags
      ensures Valid() && Outcome(code, buf[..], View()) == Lan2Wan(env, old(View()), old(buf[..]))
    {
      hide Translate, Admitted, Early, TcpSession, FindWan, FindLan, Wan2Lan, UdpOut, WellFormed;
      var ok;
      ok, code := Check(env, buf, T.Lan);
      if !ok {
        return;
      }
      assert buf.Length > ALIAS_MIN_SIZE by {
        AdmittedLong(env, buf[..], T.Lan);
      }
      if buf[9] == TCP {
        code := TcpOut(env, buf);
      } else if buf[9] == UDP {
        var dst := LoadHost(buf, 16);
        var self := CheckSelf(env.lanAddrs, dst);
        if self {
          HairpinShape(env, View(), buf[..]);
          var inward := WanToLan(env, buf);
          if inward != ALIAS_DOALIAS {
            return ALIAS_TO_ME;
          }
        }
        code := UdpPacket(buf);
      } else {
        code := ALIAS_NOT_SUPPORT;
      }
    }

    static lemma AdmittedLong(env: Env, s: Bytes, from: T.Side)
      requires Admitted(env, s, from)
      ensures |s| > ALIAS_MIN_SIZE
    {
    }
  }
}
