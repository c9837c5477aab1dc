/** The server's message handler on its two pools. */
module Threads {
  import opened Sessions
  import opened Pools
  import Protocol
  import Entries

  class PoolServer {
    const tcpDB: Entries.Entry
    const udpDB: Entries.Entry

    ghost predicate Valid() {
      tcpDB != udpDB && tcpDB.limits == udpDB.limits
    }

    ghost function State(): Protocol.Server
      reads tcpDB, udpDB
    {
      Protocol.Server(tcpDB.State(), udpDB.State())
    }

    constructor (wanAddrs: seq<U32>, startPort: U16, endPort: U16, maxConnections: nat)
      ensures Valid() && fresh(tcpDB) && fresh(udpDB) && tcpDB.limits == Limits(startPort, endPort, maxConnections)
      ensures var s := Entries.AddAll(tcpDB.limits, EMPTY, wanAddrs); State() == Protocol.Server(s, s)
    {
      tcpDB := new Entries.Entry(wanAddrs, startPort, endPort, maxConnections);
      udpDB := new Entries.Entry(wanAddrs, startPort, endPort, maxConnections);
    }

    /** mk_message, for the initialize message; it has no answer. */
    method Initialize(wanAddrs: seq<U32>)
      requires Valid()
      modifies tcpDB, udpDB
      ensures var k, s := tcpDB.limits, old(State());
        State() == Protocol.Server(Entries.AddAll(k, s.tcp, wanAddrs), Entries.AddAll(k, s.udp, wanAddrs))
    {
      tcpDB.AddPoolAddresses(wanAddrs);
      udpDB.AddPoolAddresses(wanAddrs);
    }

    /** mk_message, for requests and releases. */
    method MkMessage(msg: Protocol.Message) returns (result: Option<Protocol.Reply>)
      requires Valid()
      modifies tcpDB, udpDB
      ensures (State(), result) == Protocol.Answer(tcpDB.limits, old(State()), msg)
    {
      match msg
      case Request(protocol, lan, cause) =>
        var r: Option<Conn> := None;
        if protocol == TCP {
          r := tcpDB.AssignConnection(lan);
        } else if protocol == UDP {
          r := udpDB.AssignConnection(lan);
        }
        if r.None? {
          result := Some(Protocol.RequestDiscard(protocol, lan, cause));
        } else {
          result := Some(Protocol.RequestAck(Mapping(protocol, r.value.lan, r.value.wan), cause));
        }
      case Release(m, cause) =>
        var r := NotFound;
        if m.protocol == TCP {
          r := tcpDB.ReleaseConnection(Conn(m.lan, m.wan));
        } else if m.protocol == UDP {
          r := udpDB.ReleaseConnection(Conn(m.lan, m.wan));
        }
        if r == Threw {
          result := None;
        } else if r == NotFound {
          // A release that failed is acknowledged too, so that the NAT drops its session.
          result := Some(Protocol.ReleaseAck(m, cause));
        } else {
          result := Some(Protocol.ReleaseAck(m, cause));
        }
    }
  }

  /** However the addresses of the pool come in, the server is then as the protocol starts from. */
  lemma {:induction false} Initialized(k: Limits, wanAddrs: seq<U32>)
    ensures var s := Entries.AddAll(k, EMPTY, wanAddrs); Inv(k, s) && s.db == map[]
    ensures forall a :: a in Entries.AddAll(k, EMPTY, wanAddrs).addrs <==> a in wanAddrs
  {
    if wanAddrs == [] {
      EmptyInv(k);
    } else {
      var n := |wanAddrs| - 1;
      Initialized(k, wanAddrs[..n]);
      AddKeeps(k, Entries.AddAll(k, EMPTY, wanAddrs[..n]), wanAddrs[n]);
      assert wanAddrs == wanAddrs[..n] + [wanAddrs[n]];
      hide Inv;
    }
  }
}
