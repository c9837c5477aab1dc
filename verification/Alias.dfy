/** Translation of TCP and UDP packets in both directions, over the session table. */
module Aliases {
  import opened Lookups
  import opened Sessions
  import opened Checksums
  import opened Packets
  import opened Verdicts
  import T = TcpTracker

  const ALIAS_MIN_SIZE: nat := 20
  const ICMP: U8 := 1
  const TH_SYN: U8 := 2

  /** The sessions with their flags, which only TCP uses. */
  type Table = Nodes<T.State>

  datatype Env = Env(wanMtu: nat, lanMtu: nat, negateDf: bool, lanAddrs: seq<U32>, wanAddrs: seq<U32>)

  datatype Outcome = Outcome(code: int, packet: Bytes, nodes: Table)

  // ---- the checks before the lookup ----

  /** Taken for granted by the code: a buffer longer than the minimum holds the headers it announces; no ICMP here. */
  predicate Readable(s: Bytes) {
    |s| > ALIAS_MIN_SIZE ==> WellFormed(s) && s[9] != ICMP
  }

  /** A 32-bit field in host order. */
  function Host32(s: Bytes, at: nat): U32
    requires at + 4 <= |s|
  {
    WordAt(s, at) as nat * 0x1_0000 + WordAt(s, at + 2)
  }

  /** chk_drop. */
  predicate Dropped(src: U32, dst: U32, from: T.Side) {
    if from == T.Lan then !Inside(src) || dst / 0x1000_0000 == 0xE || src == 0 || dst == 0
    else dst / 0x1_0000 == 0xA9FE || dst / 0x1000_0000 == 0xE || dst / 0x100_0000 == 0x7F || src == 0 || dst == 0
  }

  /** is_too_big. */
  predicate TooBig(env: Env, s: Bytes, from: T.Side)
    requires |s| > ALIAS_MIN_SIZE
  {
    s[6] / 0x40 % 2 == 1 && !env.negateDf && |s| > if from == T.Lan then env.wanMtu else env.lanMtu
  }

  /** chk_selfaddr. */
  predicate ToMe(env: Env, dst: U32, from: T.Side) {
    dst in if from == T.Lan then env.lanAddrs else env.wanAddrs
  }

  /** The packet gets as far as the lookup. */
  predicate Admitted(env: Env, s: Bytes, from: T.Side) {
    |s| > ALIAS_MIN_SIZE && s[0] / 0x10 == 4 && !Dropped(Host32(s, 12), Host32(s, 16), from) && !TooBig(env, s, from)
  }

  function FlagByte(s: Bytes): U8
    requires WellFormed(s) && s[9] == TCP
  {
    s[HeaderLength(s) + 13]
  }

  function FlagsOf(b: U8): T.Flags {
    T.Flags(b % 2 == 1, b / 2 % 2 == 1, b / 4 % 2 == 1, b / 16 % 2 == 1)
  }

  /** The flag byte of a TCP header: FIN is 1, SYN 2, RST 4, PSH 8, ACK 16, and URG and the rest the high three bits. */
  function FlagBits(f: T.Flags, psh: bool, high: nat): U8
    requires high < 8
  {
    (if f.fin then 1 else 0) + (if f.syn then 2 else 0) + (if f.rst then 4 else 0) + (if psh then 8 else 0)
    + (if f.ack then 16 else 0) + 32 * high
  }

  lemma Halving(b: nat)
    ensures b == b % 2 + 2 * (b / 2) && b / 2 == b / 2 % 2 + 2 * (b / 4) && b / 4 == b / 4 % 2 + 2 * (b / 8)
    ensures b / 8 == b / 8 % 2 + 2 * (b / 16) && b / 16 == b / 16 % 2 + 2 * (b / 32)
  {
  }

  /** Exactly those four flags are read back from it; PSH and the high bits change nothing. */
  lemma FlagsRead(f: T.Flags, psh: bool, high: nat)
    requires high < 8
    ensures FlagsOf(FlagBits(f, psh, high)) == f
  {
    Digits(if f.fin then 1 else 0, if f.syn then 1 else 0, if f.rst then 1 else 0, if psh then 1 else 0,
           if f.ack then 1 else 0, high);
  }

  lemma Digits(a: nat, b: nat, c: nat, d: nat, e: nat, high: nat)
    requires a < 2 && b < 2 && c < 2 && d < 2 && e < 2
    ensures var x := a + 2 * b + 4 * c + 8 * d + 16 * e + 32 * high;
      x % 2 == a && x / 2 % 2 == b && x / 4 % 2 == c && x / 16 % 2 == e
  {
    var x := a + 2 * b + 4 * c + 8 * d + 16 * e + 32 * high;
    Digit(x, a, b + 2 * c + 4 * d + 8 * e + 16 * high);
    Digit(x / 2, b, c + 2 * d + 4 * e + 8 * high);
    Digit(x / 4, c, d + 2 * e + 4 * high);
    Digit(x / 8, d, e + 2 * high);
    Digit(x / 16, e, high);
  }

  lemma Digit(x: nat, d: nat, rest: nat)
    requires d < 2 && x == d + 2 * rest
    ensures x % 2 == d && x / 2 == rest
  {
  }

  /** The segment in s carries the flags f at 13 of its header. */
  ghost predicate Flagged(s: Bytes, f: T.Flags)
    requires WellFormed(s) && s[9] == TCP
  {
    exists psh, high: nat :: high < 8 && s[s[0] % 16 * 4 + 13] == FlagBits(f, psh, high)
  }

  lemma FlaggedRead(s: Bytes, f: T.Flags)
    requires WellFormed(s) && s[9] == TCP && Flagged(s, f)
    ensures FlagsOf(FlagByte(s)) == f
  {
    var psh, high: nat :| high < 8 && s[s[0] % 16 * 4 + 13] == FlagBits(f, psh, high);
    FlagsRead(f, psh, high);
  }

  /** Every segment carries some flags. */
  lemma FlaggedBy(s: Bytes) returns (f: T.Flags)
    requires WellFormed(s) && s[9] == TCP
    ensures Flagged(s, f)
  {
    var b := s[s[0] % 16 * 4 + 13];
    f := FlagsOf(b);
    Halving(b);
    assert b == FlagBits(f, b / 8 % 2 == 1, b / 32);
  }

  // ---- the two directions ----

  /** The checks at the head of both functions. */
  function Early(env: Env, s: Bytes, from: T.Side): int
    requires !Admitted(env, s, from)
  {
    if |s| <= ALIAS_MIN_SIZE then ALIAS_TOOSHORT
    else if s[0] / 0x10 != 4 then ALIAS_DODROP
    else if Dropped(Host32(s, 12), Host32(s, 16), from) then ALIAS_DODROP
    else ALIAS_TOO_BIG
  }

  /** A TCP packet of the session p. */
  function TcpSession(t: Table, s: Bytes, p: Ptr, from: T.Side): Outcome
    requires Transport(s) && s[9] == TCP && p in t
  {
    var l := t[p];
    var (code, st) := TcpVerdict(l.state, FlagsOf(FlagByte(s)), from);
    Outcome(code,
            if code != ALIAS_DOALIAS && code != ALIAS_DEL_TABLE then s
            else if from == T.Lan then Translate(s, Src, l.m.wan)
            else Translate(s, Dst, l.m.lan),
            t[p := l.(state := st)])
  }

  /** wan2lan_alias. */
  ghost function Wan2Lan(env: Env, t: Table, s: Bytes): Outcome
    requires Readable(s)
  {
    if !Admitted(env, s, T.Wan) then Outcome(Early(env, s, T.Wan), s, t)
    else if s[9] == TCP || s[9] == UDP then
      match FindWan(t, s[9], Destination(s))
      case None => Outcome(if ToMe(env, Host32(s, 16), T.Wan) then ALIAS_TO_ME else ALIAS_NO_TABLE, s, t)
      case Some(p) =>
        if s[9] == TCP then TcpSession(t, s, p, T.Wan) else Outcome(ALIAS_DOALIAS, Translate(s, Dst, t[p].m.lan), t)
    else Outcome(ALIAS_NOT_SUPPORT, s, t)
  }

  ghost function UdpOut(t: Table, s: Bytes): Outcome
    requires Transport(s)
  {
    match FindLan(t, UDP, Source(s))
    case None => Outcome(ALIAS_NO_TABLE, s, t)
    case Some(p) => Outcome(ALIAS_DOALIAS, Translate(s, Src, t[p].m.wan), t)
  }

  /** lan2wan_alias; a UDP packet for the NAT itself is first taken as one from outside. */
  ghost function Lan2Wan(env: Env, t: Table, s: Bytes): Outcome
    requires Readable(s)
  {
    if !Admitted(env, s, T.Lan) then Outcome(Early(env, s, T.Lan), s, t)
    else if s[9] == TCP then
      if ToMe(env, Host32(s, 16), T.Lan) then Outcome(ALIAS_TO_ME, s, t)
      else
        match FindLan(t, TCP, Source(s))
        case None => Outcome(if FlagByte(s) == TH_SYN then ALIAS_NO_TABLE else ALIAS_DODROP, s, t)
        case Some(p) => TcpSession(t, s, p, T.Lan)
    else if s[9] == UDP then
      if ToMe(env, Host32(s, 16), T.Lan) then
        var w := Wan2Lan(env, t, s);
        if w.code != ALIAS_DOALIAS then Outcome(ALIAS_TO_ME, w.packet, w.nodes)
        else HairpinShape(env, t, s); UdpOut(w.nodes, w.packet)
      else UdpOut(t, s)
    else Outcome(ALIAS_NOT_SUPPORT, s, t)
  }

  lemma HairpinShape(env: Env, t: Table, s: Bytes)
    requires Readable(s) && |s| > ALIAS_MIN_SIZE && s[9] == UDP
    ensures var w := Wan2Lan(env, t, s).packet;
      Transport(w) && w[9] == UDP && Source(w) == Source(s) && HeaderLength(w) == HeaderLength(s)
  {
    hide Translate;
    if Admitted(env, s, T.Wan) {
      match FindWan(t, s[9], Destination(s))
      case None =>
      case Some(p) => TranslateShape(s, Dst, t[p].m.lan);
    }
  }

  // ---- there and back ----

  /** The packet was translated; DEL_TABLE also lets the last packet of a session through. */
  predicate Translated(o: Outcome) {
    o.code == ALIAS_DOALIAS || o.code == ALIAS_DEL_TABLE
  }

  /** The same sessions, whatever became of their state. */
  ghost predicate SameSessions(t: Table, u: Table) {
    t.Keys == u.Keys && forall p :: p in t ==> u[p].m == t[p].m
  }

  /** The TCP packet does not end up as a reset or in the unknown state. */
  predicate Forwards(l: Session<T.State>, s: Bytes, from: T.Side)
    requires WellFormed(s)
  {
    s[9] == TCP ==>
      Final(l.state)
      || (var st := T.TcpStateCheck(l.state, FlagsOf(FlagByte(s)), from); st != T.Reset && st != T.Unknown)
  }

  /** An outbound packet that is translated belongs to a session and leaves with its WAN endpoint as source. */
  lemma Outbound(env: Env, t: Table, s: Bytes) returns (p: Ptr)
    requires Readable(s) && Keyed(t) && Translated(Lan2Wan(env, t, s))
    ensures Transport(s) && p in t && t[p].m.protocol == s[9] && t[p].m.lan == Source(s)
    ensures var o := Lan2Wan(env, t, s);
      Transport(o.packet) && o.packet[9] == s[9] && Source(o.packet) == t[p].m.wan && SameSessions(t, o.nodes)
      && (!ToMe(env, Host32(s, 16), T.Lan) ==>
            o.packet == Translate(s, Src, t[p].m.wan) && Destination(o.packet) == Destination(s))
  {
    hide Translate, Keyed, Dropped, TooBig, ToMe, FindLan, FindWan, WellFormed, TcpVerdict;
    assert Transport(s);
    var w := if s[9] == UDP && ToMe(env, Host32(s, 16), T.Lan) then Wan2Lan(env, t, s).packet else s;
    if s[9] == UDP {
      HairpinShape(env, t, s);
    }
    p := FindLan(t, s[9], Source(s)).value;
    TranslateShape(w, Src, t[p].m.wan);
  }

  /** An inbound packet to a session's WAN endpoint reaches its LAN endpoint, unless its session is reset or lost. */
  lemma Inbound(env: Env, t: Table, p: Ptr, r: Bytes)
    requires Readable(r) && Keyed(t) && Admitted(env, r, T.Wan) && p in t && t[p].m.protocol == r[9]
    requires r[9] == TCP || r[9] == UDP
    requires Destination(r) == t[p].m.wan
    ensures var o := Wan2Lan(env, t, r);
      && (Translated(o) <==> Forwards(t[p], r, T.Wan)) && SameSessions(t, o.nodes)
      && o.packet == (if Translated(o) then Translate(r, Dst, t[p].m.lan) else r)
  {
    hide Translate, Keyed, Dropped, TooBig, ToMe, FindWan, WellFormed;
    FindsOwn(t, p);
  }

  lemma {:induction false} KeyedSame(t: Table, u: Table)
    requires Keyed(t) && SameSessions(t, u)
    ensures Keyed(u)
  {
  }

  /**
   * Outbound and back: after a packet was translated, and whatever other packets did to the states since, a reply to it
   * is delivered to exactly the address and port the packet came from, with nothing else of it changed.
   */
  lemma ReplyReachesSender(env: Env, t: Table, s: Bytes, u: Table, r: Bytes) returns (p: Ptr)
    requires Readable(s) && Keyed(t) && Translated(Lan2Wan(env, t, s)) && SameSessions(t, u)
    requires Readable(r) && Admitted(env, r, T.Wan) && r[9] == s[9]
    requires var o := Lan2Wan(env, t, s).packet; Transport(o) && Transport(r) && Destination(r) == Source(o)
    ensures Transport(s) && p in u && u[p].m.lan == Source(s)
    ensures var o := Wan2Lan(env, u, r);
      && (Translated(o) <==> Forwards(u[p], r, T.Wan))
      && (Translated(o) ==> Transport(o.packet) && Destination(o.packet) == Source(s) && Source(o.packet) == Source(r))
      && (Translated(o) ==>
            |o.packet| == |r| && forall i :: 0 <= i < |r| && Untouched(r, Dst, i) ==> o.packet[i] == r[i])
  {
    hide Translate, Keyed, Untouched, Wan2Lan, Lan2Wan, Admitted;
    p := Outbound(env, t, s);
    KeyedSame(t, u);
    Inbound(env, u, p, r);
    TranslateShape(r, Dst, u[p].m.lan);
  }

  /** For UDP, and for a TCP session established and not being reset, that is every reply. */
  lemma EstablishedForwards(l: Session<T.State>, r: Bytes)
    requires WellFormed(r)
    requires r[9] == TCP ==> l.state == T.Established && !FlagsOf(FlagByte(r)).rst
    ensures Forwards(l, r, T.Wan)
  {
  }

  /** An inbound packet that is translated belongs to a session and comes in for that session's LAN endpoint. */
  lemma InboundSession(env: Env, t: Table, r: Bytes) returns (q: Ptr)
    requires Readable(r) && Keyed(t) && Translated(Wan2Lan(env, t, r))
    ensures Transport(r) && q in t && t[q].m.protocol == r[9] && t[q].m.wan == Destination(r)
    ensures Wan2Lan(env, t, r).packet == Translate(r, Dst, t[q].m.lan)
  {
    hide Translate, Keyed, Dropped, TooBig, ToMe, FindWan, WellFormed;
    assert Transport(r);
    q := FindWan(t, r[9], Destination(r)).value;
  }

  /** And nothing else is delivered there: only packets to the WAN endpoint the packet left with. */
  lemma OnlyReplies(env: Env, t: Table, s: Bytes, u: Table, r: Bytes)
    requires Readable(s) && Keyed(t) && Translated(Lan2Wan(env, t, s)) && SameSessions(t, u)
    requires Readable(r) && Translated(Wan2Lan(env, u, r)) && Transport(s) && Transport(r) && r[9] == s[9]
    ensures Transport(Wan2Lan(env, u, r).packet) && Transport(Lan2Wan(env, t, s).packet)
    ensures Destination(Wan2Lan(env, u, r).packet) == Source(s) <==> Destination(r) == Source(Lan2Wan(env, t, s).packet)
  {
    hide Translate, Untouched, Lan2Wan, Wan2Lan, WellFormed, HeaderLength, SumAt;
    var p := Outbound(env, t, s);
    KeyedSame(t, u);
    var q := InboundSession(env, u, r);
    TranslateShape(r, Dst, u[q].m.lan);
  }

  // ---- checksums ----

  /** A packet for the NAT itself that is let through was UDP, taken in for a session and sent out for its own. */
  lemma Hairpin(env: Env, t: Table, s: Bytes) returns (p: Ptr)
    requires Readable(s) && Keyed(t) && Translated(Lan2Wan(env, t, s)) && |s| > ALIAS_MIN_SIZE
    requires ToMe(env, Host32(s, 16), T.Lan)
    ensures Transport(s) && s[9] == UDP && Translated(Wan2Lan(env, t, s))
    ensures p in t && t[p].m.protocol == UDP && t[p].m.lan == Source(s)
    ensures var w := Wan2Lan(env, t, s).packet;
      Transport(w) && Source(w) == Source(s) && Lan2Wan(env, t, s).packet == Translate(w, Src, t[p].m.wan)
  {
    hide Translate, Keyed, Dropped, TooBig, ToMe, FindLan, FindWan, WellFormed;
    assert Transport(s);
    HairpinShape(env, t, s);
    p := FindLan(t, UDP, Source(s)).value;
  }

  /**
   * A packet that verified before it was translated verifies after it exactly if the two endpoint sums of its session p
   * carry alike; for a hairpin, if the errors made with p and with the session q it is taken in for make up for each
   * other.
   */
  lemma TranslationVerifies(env: Env, t: Table, s: Bytes, from: T.Side) returns (p: Ptr, q: Ptr)
    requires Readable(s) && Keyed(t) && Transport(s) && Verifies(s)
    requires Translated(if from == T.Lan then Lan2Wan(env, t, s) else Wan2Lan(env, t, s))
    ensures p in t && t[p].m.protocol == s[9]
    ensures if from == T.Wan then t[p].m.wan == Destination(s) else t[p].m.lan == Source(s)
    ensures var o := if from == T.Lan then Lan2Wan(env, t, s) else Wan2Lan(env, t, s);
      && Transport(o.packet)
      && if from == T.Wan || !ToMe(env, Host32(s, 16), T.Lan) then
           Verifies(o.packet) <==> Carry(t[p].m.lan) == Carry(t[p].m.wan)
         else
           && q in t && t[q].m.protocol == UDP && t[q].m.wan == Destination(s)
           && (Verifies(o.packet) <==>
                 Carry(t[p].m.wan) + Carry(t[q].m.lan) == Carry(t[p].m.lan) + Carry(t[q].m.wan))
  {
    hide Translate, Verifies, Admitted, Carry, WellFormed, Lan2Wan, Wan2Lan, ToMe, Host32;
    LongEnough(s);
    if from == T.Wan {
      p := InboundSession(env, t, s);
      q := p;
      TranslateVerifies(s, Dst, t[p].m.lan);
    } else if !ToMe(env, Host32(s, 16), T.Lan) {
      p := Outbound(env, t, s);
      q := p;
      TranslateVerifies(s, Src, t[p].m.wan);
    } else {
      p := Hairpin(env, t, s);
      q := InboundSession(env, t, s);
      TwiceVerifies(s, Dst, t[q].m.lan, Src, t[p].m.wan);
    }
  }

  lemma LongEnough(s: Bytes)
    requires Transport(s)
    ensures |s| > ALIAS_MIN_SIZE
  {
  }

  // ---- states ----

  /** A packet as the packet thread gets it. */
  datatype Arrival = Arrival(from: T.Side, s: Bytes)

  ghost function Handle(env: Env, t: Table, a: Arrival): Outcome
    requires Readable(a.s)
  {
    if a.from == T.Lan then Lan2Wan(env, t, a.s) else Wan2Lan(env, t, a.s)
  }

  /** The TCP packets that are looked up to the session p. */
  ghost predicate Concerns(env: Env, t: Table, a: Arrival, p: Ptr)
    requires Readable(a.s)
  {
    Admitted(env, a.s, a.from) && a.s[9] == TCP &&
    if a.from == T.Lan then !ToMe(env, Host32(a.s, 16), T.Lan) && FindLan(t, TCP, Source(a.s)) == Some(p)
    else FindWan(t, TCP, Destination(a.s)) == Some(p)
  }

  /** What the tracker sees of a packet with the flags f, for the session p: the packet, or nothing. */
  ghost function SeenAs(env: Env, t: Table, a: Arrival, f: T.Flags, p: Ptr): seq<T.Packet>
    requires Readable(a.s)
  {
    if Concerns(env, t, a, p) then [T.Packet(a.from, f)] else []
  }

  function TrackIf(st: T.State, q: seq<T.Packet>): T.State {
    if q == [] then st else T.Track(st, q[0])
  }

  lemma SessionTracks(t: Table, s: Bytes, q: Ptr, p: Ptr, from: T.Side)
    requires Transport(s) && s[9] == TCP && p in t && q in t
    ensures var u := TcpSession(t, s, q, from).nodes;
      && SameSessions(t, u)
      && u[p].state == if q == p then T.Track(t[p].state, T.Packet(from, FlagsOf(FlagByte(s)))) else t[p].state
  {
    hide Translate, T.TcpStateCheck;
  }

  lemma InwardTracks(env: Env, t: Table, s: Bytes, f: T.Flags, p: Ptr)
    requires Readable(s) && p in t && (Admitted(env, s, T.Wan) && s[9] == TCP ==> f == FlagsOf(FlagByte(s)))
    ensures var u := Wan2Lan(env, t, s).nodes;
      SameSessions(t, u) && u[p].state == TrackIf(t[p].state, SeenAs(env, t, Arrival(T.Wan, s), f, p))
  {
    hide Translate, Dropped, TooBig, ToMe, WellFormed, TcpSession, T.Track;
    if Admitted(env, s, T.Wan) && s[9] == TCP {
      var q := FindWan(t, TCP, Destination(s));
      if q.Some? {
        SessionTracks(t, s, q.value, p, T.Wan);
      }
    }
  }

  lemma OutwardTracks(env: Env, t: Table, s: Bytes, f: T.Flags, p: Ptr)
    requires Readable(s) && p in t && (Admitted(env, s, T.Lan) && s[9] == TCP ==> f == FlagsOf(FlagByte(s)))
    ensures var u := Lan2Wan(env, t, s).nodes;
      SameSessions(t, u) && u[p].state == TrackIf(t[p].state, SeenAs(env, t, Arrival(T.Lan, s), f, p))
  {
    hide Translate, Dropped, TooBig, ToMe, WellFormed, TcpSession, T.Track, Wan2Lan;
    if Admitted(env, s, T.Lan) && s[9] == TCP {
      var q := FindLan(t, TCP, Source(s));
      if q.Some? {
        SessionTracks(t, s, q.value, p, T.Lan);
      }
    }
    if Admitted(env, s, T.Lan) && s[9] == UDP {
      HairpinShape(env, t, s);
      UdpTable(env, t, s);
    }
  }

  lemma UdpTable(env: Env, t: Table, s: Bytes)
    requires Readable(s) && |s| > ALIAS_MIN_SIZE && s[9] == UDP
    ensures Wan2Lan(env, t, s).nodes == t
  {
    hide Translate;
  }

  /** One packet moves the session it concerns as the tracker says for the flags it carries, and nothing else. */
  lemma HandleTracks(env: Env, t: Table, a: Arrival, f: T.Flags, p: Ptr)
    requires Readable(a.s) && p in t && (Concerns(env, t, a, p) ==> Flagged(a.s, f))
    ensures var u := Handle(env, t, a).nodes;
      SameSessions(t, u) && u[p].state == TrackIf(t[p].state, SeenAs(env, t, a, f, p))
  {
    hide Lan2Wan, Wan2Lan, FlagsOf, Flagged, TrackIf;
    var g := if Admitted(env, a.s, a.from) && a.s[9] == TCP then FlagsOf(FlagByte(a.s)) else f;
    if Concerns(env, t, a, p) {
      FlaggedRead(a.s, f);
    }
    if a.from == T.Lan {
      OutwardTracks(env, t, a.s, g, p);
    } else {
      InwardTracks(env, t, a.s, g, p);
    }
    assert a == Arrival(a.from, a.s);
  }

  ghost function HandleAll(env: Env, t: Table, q: seq<Arrival>): Table
    requires forall i :: 0 <= i < |q| ==> Readable(q[i].s)
  {
    if q == [] then t else Handle(env, HandleAll(env, t, q[..|q| - 1]), q[|q| - 1]).nodes
  }

  /** What the tracker sees of a session over packets with the flags fs. */
  ghost function TraceOf(env: Env, t: Table, q: seq<Arrival>, fs: seq<T.Flags>, p: Ptr): seq<T.Packet>
    requires |fs| == |q| && forall i :: 0 <= i < |q| ==> Readable(q[i].s)
  {
    if q == [] then []
    else
      var n := |q| - 1;
      TraceOf(env, t, q[..n], fs[..n], p) + SeenAs(env, HandleAll(env, t, q[..n]), q[n], fs[n], p)
  }

  lemma RunMore(tr: seq<T.Packet>, x: seq<T.Packet>)
    requires |x| <= 1
    ensures T.Run(tr + x) == TrackIf(T.Run(tr), x)
  {
    if x == [] {
      assert tr + x == tr;
    } else {
      assert (tr + x)[..|tr|] == tr;
    }
  }

  /**
   * Over every mixed sequence of packets, a session that started in S_TF_SYN_SENT is in the state its own trace
   * leads to, read from the flags the segments carry, and the mappings stay as they are.
   */
  lemma {:induction false} SessionFollowsTrace(env: Env, t: Table, q: seq<Arrival>, fs: seq<T.Flags>, p: Ptr)
    requires |fs| == |q| && forall i :: 0 <= i < |q| ==> Readable(q[i].s)
    requires forall i :: 0 <= i < |q| && WellFormed(q[i].s) && q[i].s[9] == TCP ==> Flagged(q[i].s, fs[i])
    requires p in t && t[p].state == T.SynSent
    ensures var u := HandleAll(env, t, q);
      SameSessions(t, u) && u[p].state == T.Run(TraceOf(env, t, q, fs, p))
  {
    hide Handle, T.Track, T.Run, TrackIf, Flagged, HeaderLength, Dropped, TooBig, ToMe;
    if q == [] {
      StartState();
    } else {
      var n := |q| - 1;
      SessionFollowsTrace(env, t, q[..n], fs[..n], p);
      var u := HandleAll(env, t, q[..n]);
      HandleTracks(env, u, q[n], fs[n], p);
      RunMore(TraceOf(env, t, q[..n], fs[..n], p), SeenAs(env, u, q[n], fs[n], p));
    }
  }

  lemma StartState()
    ensures T.Run([]) == T.SynSent
  {
  }
}
