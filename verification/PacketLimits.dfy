/** Packets, byte by byte, that leave with a wrong checksum or have the wrong session released. */
module PacketLimits {
  import opened Aliases
  import opened ByteOrder
  import opened Checksums
  import opened Lookups
  import opened Packets
  import opened Sessions
  import opened Verdicts
  import H = Handlers
  import L = ProtocolLimits
  import P = Protocol
  import T = TcpTracker

  const ENV := Env(1500, 1500, false, [], [])

  /** A UDP packet without data to port 53 of 8.8.8.8, its checksum zero. */
  function Query(b1: U8, b2: U8, b3: U8, p0: U8, p1: U8): Bytes {
    [0x45, 0, 0, 28, 0, 0, 0, 0, 64, UDP, 0, 0, 10, b1, b2, b3, 8, 8, 8, 8, p0, p1, 0, 53, 0, 8, 0, 0]
  }

  lemma QueryShape(b1: U8, b2: U8, b3: U8, p0: U8, p1: U8)
    ensures var s := Query(b1, b2, b3, p0, p1);
      && |s| == 28 && Transport(s) && Readable(s) && SumAt(s) == 26 && Raw16(s, 26) == 0
      && Source(s) == Endpoint(10 + 0x100 * b1 + 0x1_0000 * b2 + 0x100_0000 * b3, p0 + 0x100 * (p1 as nat))
      && Admitted(ENV, s, T.Lan)
  {
    var s := Query(b1, b2, b3, p0, p1);
    assert s[0] % 0x10 == 5 && s[0] / 0x10 == 4;
    assert Host32(s, 12) / 0x100_0000 == 10;
  }

  /** The table with one UDP session. */
  function One(lan: Endpoint, wan: Endpoint): Table {
    map[1 := Session(Mapping(UDP, lan, wan), T.Established)]
  }

  /** A packet of that session's host is translated. */
  lemma OneTranslates(s: Bytes, wan: Endpoint)
    requires Readable(s) && Transport(s) && s[9] == UDP && Admitted(ENV, s, T.Lan)
    ensures Lan2Wan(ENV, One(Source(s), wan), s) == Outcome(ALIAS_DOALIAS, Translate(s, Src, wan), One(Source(s), wan))
  {
    hide Admitted, Translate, Source, FindLan, WellFormed;
    var t := One(Source(s), wan);
    FindsOwn(t, 1);
  }

  /** Recomputing the checksum touches nothing that decides where a packet goes. */
  lemma RecomputeShape(s: Bytes)
    requires Readable(s) && Transport(s)
    ensures var r := Recompute(s);
      && Transport(r) && Readable(r) && r[9] == s[9] && Source(r) == Source(s)
      && (Admitted(ENV, s, T.Lan) ==> Admitted(ENV, r, T.Lan))
  {
    hide TransportSum, Fold, Swap, Dropped;
    var r := Recompute(s);
    assert forall i :: 0 <= i < |s| && !(SumAt(s) <= i < SumAt(s) + 2) ==> r[i] == s[i];
  }

  /** From 10.0.255.255, port 65535, the sum carries, to 203.0.113.7 it does not: a valid packet leaves invalid. */
  lemma CarryBreaks() returns (s: Bytes, t: Table)
    ensures |s| == 28 && Readable(s) && Transport(s) && Verifies(s) && Admitted(ENV, s, T.Lan)
    ensures var o := Lan2Wan(ENV, t, s);
      o.code == ALIAS_DOALIAS && Transport(o.packet) && Carry(Source(s)) != Carry(Source(o.packet))
        && !Verifies(o.packet)
  {
    hide Admitted, Translate, Verifies, Recompute, Query, Readable, WellFormed;
    var q := Query(0, 255, 255, 255, 255);
    QueryShape(0, 255, 255, 255, 255);
    s := Recompute(q);
    RecomputeShape(q);
    RecomputeVerifies(q);
    RecomputeLength(q);
    var wan := Endpoint(0x0771_00CB, 0x0010);
    t := One(Source(s), wan);
    OneTranslates(s, wan);
    TranslateShape(s, Src, wan);
    TranslateVerifies(s, Src, wan);
    assert Carry(wan) == 0 && Carry(Source(s)) == 1;
  }

  lemma RecomputeLength(s: Bytes)
    requires Transport(s)
    ensures |Recompute(s)| == |s|
  {
  }

  /** A packet sent without a checksum, from 10.0.0.1 port 5 by way of 1.0.0.1 port 1: it gets one. */
  lemma ChecksumAppears() returns (s: Bytes, t: Table)
    ensures |s| == 28 && Readable(s) && Transport(s) && Admitted(ENV, s, T.Lan) && Raw16(s, SumAt(s)) == 0
    ensures var o := Lan2Wan(ENV, t, s);
      o.code == ALIAS_DOALIAS && Transport(o.packet) && SumAt(o.packet) == SumAt(s) && Raw16(o.packet, SumAt(s)) != 0
  {
    hide Admitted, Translate, Query, Readable, Half, HalfSum, Cong;
    s := Query(0, 0, 1, 0, 5);
    QueryShape(0, 0, 1, 0, 5);
    QueryUdp(0, 0, 1, 0, 5);
    var wan := Endpoint(0x0100_0001, 0x0100);
    t := One(Source(s), wan);
    OneTranslates(s, wan);
    TranslateShape(s, Src, wan);
    NoChecksumKept(s, Src, wan);
    TwoHalves(Source(s).ip + Source(s).port);
    TwoHalves(wan.ip + wan.port);
  }

  lemma QueryUdp(b1: U8, b2: U8, b3: U8, p0: U8, p1: U8)
    ensures Query(b1, b2, b3, p0, p1)[9] == UDP
  {
  }

  // ---- the held packets of ProtocolLimits ----

  /** A TCP segment without data from 10.0.0.1 port 5. */
  function Bare(d0: U8, d1: U8, d2: U8, d3: U8, port: U8, flags: U8): Bytes {
    [0x45, 0, 0, 40, 0, 0, 0, 0, 64, TCP, 0, 0, 10, 0, 0, 1, d0, d1, d2, d3,
     0, 5, 0, port, 0, 0, 0, 0, 0, 0, 0, 0, 0x50, flags, 0, 0, 0, 0, 0, 0]
  }

  lemma BareShape(d0: U8, d1: U8, d2: U8, d3: U8, port: U8, flags: U8)
    ensures var s := Bare(d0, d1, d2, d3, port, flags);
      && |s| == 40 && Readable(s) && Transport(s) && s[9] == TCP && FlagByte(s) == flags
      && Source(s) == Endpoint(10 + 0x100_0000, 5 * 0x100)
      && Destination(s) == Endpoint(d0 + 0x100 * (d1 as nat) + 0x1_0000 * (d2 as nat) + 0x100_0000 * (d3 as nat),
                                    0x100 * (port as nat))
  {
    var s := Bare(d0, d1, d2, d3, port, flags);
    assert s[0] % 0x10 == 5;
  }

  lemma BareAdmitted(d0: U8, d1: U8, d2: U8, d3: U8, port: U8, flags: U8)
    requires d0 == 8 || d0 == 203
    ensures var s := Bare(d0, d1, d2, d3, port, flags);
      Admitted(ENV, s, T.Lan) && Admitted(ENV, s, T.Wan) && !ToMe(ENV, Host32(s, 16), T.Lan)
  {
    var s := Bare(d0, d1, d2, d3, port, flags);
    assert Host32(s, 12) == 0x0A00_0001;
    LeadingByte(Host32(s, 16), d0, d1, d2, d3);
  }

  lemma LeadingByte(ip: U32, d0: U8, d1: U8, d2: U8, d3: U8)
    requires ip == (d0 as nat * 0x100 + d1) * 0x1_0000 + (d2 as nat * 0x100 + d3)
    ensures ip / 0x1000_0000 == d0 / 0x10 && ip / 0x100_0000 == d0 && ip / 0x1_0000 == d0 as nat * 0x100 + d1
  {
  }

  lemma SetUpKeyed(both: bool)
    ensures Keyed(L.SetUpNodes(both))
  {
  }

  /** The misdirected RST exists, and the packet thread holds it back for the second session. */
  lemma MisdirectedBytes() returns (s: Bytes)
    ensures |s| == 40 && Readable(s) && H.Describes(ENV, s, L.MISDIRECTED)
    ensures var o := Wan2Lan(ENV, NetTable(L.SetUpNodes(true)), s);
      o.code == ALIAS_RESET_TABLE && o.nodes == NetTable(P.Moved(L.SetUpNodes(true), 2, L.MISDIRECTED.flags, T.Wan))
  {
    hide Admitted, Readable, Source, Destination, Host32, Bare, FlagByte, NetTable, Wan2Lan, P.Moved, Transport, ToMe;
    s := Bare(203, 0, 113, 7, 2, 4);
    BareShape(203, 0, 113, 7, 2, 4);
    BareAdmitted(203, 0, 113, 7, 2, 4);
    SetUpKeyed(true);
    H.PacketMoves(ENV, L.SetUpNodes(true), s, L.MISDIRECTED, 2);
  }

  /** So does the acknowledgement that puts the first session into the unknown state. */
  lemma LostBytes() returns (s: Bytes)
    ensures |s| == 40 && Readable(s) && H.Describes(ENV, s, L.LOST)
    ensures var o := Lan2Wan(ENV, NetTable(L.SetUpNodes(false)), s);
      o.code == ALIAS_RESET_TABLE && o.nodes == NetTable(P.Moved(L.SetUpNodes(false), 1, L.LOST.flags, T.Lan))
  {
    hide Admitted, Readable, Source, Destination, Host32, Bare, FlagByte, NetTable, Lan2Wan, P.Moved, Transport, ToMe;
    s := Bare(8, 8, 8, 8, 80, 16);
    BareShape(8, 8, 8, 8, 80, 16);
    BareAdmitted(8, 8, 8, 8, 80, 16);
    SetUpKeyed(false);
    H.PacketMoves(ENV, L.SetUpNodes(false), s, L.LOST, 1);
  }
}
