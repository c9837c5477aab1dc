/** What the code reads and writes at which byte, and the codes it returns, told with the numbers of the standards. */
module Wire {
  import opened Aliases
  import opened ByteOrder
  import opened Checksums
  import opened Lookups
  import opened Packets
  import opened Sessions
  import opened Verdicts
  import T = TcpTracker

  // ---- fields, in network order ----

  /** The 16-bit field at k. */
  function Pair(s: Bytes, k: nat): U16
    requires k + 2 <= |s|
  {
    s[k] as nat * 0x100 + s[k + 1]
  }

  /** The 32-bit field at k. */
  function Quad(s: Bytes, k: nat): U32
    requires k + 4 <= |s|
  {
    s[k] as nat * 0x100_0000 + s[k + 1] as nat * 0x1_0000 + s[k + 2] as nat * 0x100 + s[k + 3]
  }

  lemma RawPair(s: Bytes, k: nat)
    requires k + 2 <= |s|
    ensures Swap(Raw16(s, k)) == Pair(s, k)
  {
  }

  lemma RawQuad(s: Bytes, k: nat)
    requires k + 4 <= |s|
    ensures SwapIp(Raw32(s, k)) == Quad(s, k) == Host32(s, k)
  {
    hide Swap;
    RawPair(s, k);
    RawPair(s, k + 2);
    Halves(Raw16(s, k + 2), Raw16(s, k));
    Big(s[k], s[k + 1], s[k + 2], s[k + 3]);
  }

  lemma Big(a: U8, b: U8, c: U8, d: U8)
    ensures a as nat * 0x100_0000 + b as nat * 0x1_0000 + c as nat * 0x100 + d
         == (a as nat * 0x100 + b) * 0x1_0000 + (c as nat * 0x100 + d)
  {
  }

  /** The endpoints of a packet are at 12 and 16 of the IP header and at the start of the segment, in network order. */
  lemma EndpointsRead(s: Bytes)
    requires Transport(s)
    ensures var h := s[0] % 16 * 4;
      && Net(Source(s)) == Endpoint(Quad(s, 12), Pair(s, h))
      && Net(Destination(s)) == Endpoint(Quad(s, 16), Pair(s, h + 2))
  {
    hide Swap, SwapIp, Raw16, Raw32;
    RawQuad(s, 12);
    RawQuad(s, 16);
    RawPair(s, s[0] % 16 * 4);
    RawPair(s, s[0] % 16 * 4 + 2);
  }

  // ---- what translation writes ----

  /** Outside the rewritten address and port and the checksum at at, t is s. */
  predicate Kept(s: Bytes, t: Bytes, e: End, at: nat)
    requires |s| > 20
  {
    var h, a, p := s[0] % 16 * 4, if e.Src? then 12 else 16, if e.Src? then 0 else 2;
    |t| == |s| && forall i :: 0 <= i < |s| && !(a <= i < a + 4) && !(h + p <= i < h + p + 2) && !(at <= i < at + 2) ==>
      t[i] == s[i]
  }

  /**
   * The new address and port stand at one end, in network order. The checksum is at 16 of a TCP segment and at 6 of a
   * UDP one; every other byte is kept, so sequence numbers, flags and window are.
   */
  lemma TranslatedBytes(s: Bytes, e: End, to: Endpoint)
    requires Transport(s)
    ensures var h, t := s[0] % 16 * 4, Translate(s, e, to);
      && Kept(s, t, e, h + if s[9] == 6 then 16 else 6)
      && Quad(t, if e.Src? then 12 else 16) == Net(to).ip && Pair(t, if e.Src? then h else h + 2) == Net(to).port
  {
    hide Translate, Swap, SwapIp, Raw16, Raw32;
    TranslateShape(s, e, to);
    EndpointsRead(Translate(s, e, to));
  }

  /** checksum_transport writes the checksum only, at 16 of a TCP segment and at 6 of a UDP one. */
  lemma RecomputedBytes(s: Bytes)
    requires Transport(s)
    ensures var h, t := s[0] % 16 * 4, Recompute(s);
      var at := h + if s[9] == 6 then 16 else 6;
      |t| == |s| && forall i :: 0 <= i < |s| && !(at <= i < at + 2) ==> t[i] == s[i]
  {
    hide TransportSum, Fold, Swap;
  }

  /** The pseudo header of section 4.2 of RFC 3022: both addresses, zero, the protocol and the segment's length. */
  function Pseudo(s: Bytes): Bytes
    requires Transport(s)
  {
    var n := |s| - s[0] % 16 * 4;
    [s[12], s[13], s[14], s[15], s[16], s[17], s[18], s[19], 0, s[9], n / 0x100, n % 0x100]
  }

  lemma {:induction false} WordSumAppend(a: seq<U8>, b: seq<U8>)
    requires |a| % 2 == 0
    ensures WordSum(a + b) == WordSum(a) + WordSum(b)
  {
    if a == [] {
      assert a + b == b;
    } else {
      assert (a + b)[2..] == a[2..] + b;
      WordSumAppend(a[2..], b);
    }
  }

  /** The sum of a transport checksum is that of the pseudo header followed by the segment. */
  lemma SumWithPseudo(s: Bytes)
    requires Transport(s)
    ensures TransportSum(s) == WordSum(Pseudo(s) + s[s[0] % 16 * 4..])
  {
    var p, n := Pseudo(s), |s| - s[0] % 16 * 4;
    WordSumAppend(p, s[s[0] % 16 * 4..]);
    assert WordSum(p) == WordSum(p[2..]) + (s[12] as nat * 0x100 + s[13]);
    assert WordSum(p[2..]) == WordSum(p[4..]) + (s[14] as nat * 0x100 + s[15]) by {
      assert p[2..][2..] == p[4..];
    }
    assert WordSum(p[4..]) == WordSum(p[6..]) + (s[16] as nat * 0x100 + s[17]) by {
      assert p[4..][2..] == p[6..];
    }
    assert WordSum(p[6..]) == WordSum(p[8..]) + (s[18] as nat * 0x100 + s[19]) by {
      assert p[6..][2..] == p[8..];
    }
    assert WordSum(p[8..]) == WordSum(p[10..]) + s[9] by {
      assert p[8..][2..] == p[10..];
    }
    assert WordSum(p[10..]) == n by {
      assert p[10..][2..] == [];
    }
  }

  /** A segment whose checksum was recomputed sums to all ones with its pseudo header. */
  lemma RecomputedStandard(s: Bytes)
    requires Transport(s)
    ensures var t := Recompute(s);
      Transport(t) && Fold(WordSum(Pseudo(t) + t[t[0] % 16 * 4..])) == 0xFFFF
  {
    hide TransportSum, Fold, Recompute, WordSum, Pseudo;
    RecomputeVerifies(s);
    SumWithPseudo(Recompute(s));
  }

  /** The example of section 3 of RFC 1071. */
  lemma ChecksumExample()
    ensures Fold(WordSum([0x00, 0x01, 0xF2, 0x03, 0xF4, 0xF5, 0xF6, 0xF7])) == 0xDDF2
  {
    var s := [0x00, 0x01, 0xF2, 0x03, 0xF4, 0xF5, 0xF6, 0xF7];
    assert s[2..] == [0xF2, 0x03, 0xF4, 0xF5, 0xF6, 0xF7] && s[2..][2..] == [0xF4, 0xF5, 0xF6, 0xF7];
    assert s[2..][2..][2..] == [0xF6, 0xF7] && s[2..][2..][2..][2..] == [];
    assert WordSum(s) == 0x2_DDF0;
    assert Fold(0x2_DDF0) == Fold(0xDDF2);
  }

  // ---- return codes ----

  /** The private ranges of RFC 1918 and the shared one of RFC 6598. */
  predicate Private(ip: U32) {
    || 0x0A00_0000 <= ip <= 0x0AFF_FFFF
    || 0xAC10_0000 <= ip <= 0xAC1F_FFFF
    || 0xC0A8_0000 <= ip <= 0xC0A8_FFFF
    || 0x6440_0000 <= ip <= 0x647F_FFFF
  }

  lemma InsideRanges(ip: U32)
    ensures Inside(ip) <==> Private(ip)
  {
  }

  /** Addresses that are refused: from inside, a source that is not private; from outside, a local destination. */
  predicate Refused(src: U32, dst: U32, from: T.Side) {
    || src == 0 || dst == 0 || 0xE000_0000 <= dst <= 0xEFFF_FFFF
    || (from == T.Lan && !Private(src))
    || (from == T.Wan && (0xA9FE_0000 <= dst <= 0xA9FE_FFFF || 0x7F00_0000 <= dst <= 0x7FFF_FFFF))
  }

  lemma RefusedIsDropped(src: U32, dst: U32, from: T.Side)
    ensures Dropped(src, dst, from) <==> Refused(src, dst, from)
  {
    InsideRanges(src);
    hide Inside, Private;
  }

  /** The don't-fragment bit, 0x4000 of the field at 6, and more bytes than the interface it goes to takes. */
  predicate TooLong(env: Env, s: Bytes, from: T.Side)
    requires |s| > 20
  {
    && Pair(s, 6) / 0x4000 % 2 == 1
    && !env.negateDf && |s| > if from == T.Lan then env.wanMtu else env.lanMtu
  }

  lemma DontFragment(a: U8, b: U8)
    ensures (a as nat * 0x100 + b) / 0x4000 == a / 0x40
  {
    assert a as nat * 0x100 + b == 0x4000 * (a / 0x40) + (a % 0x40 * 0x100 + b);
  }

  /** Which packets get as far as the lookup, and the codes of those that do not. */
  lemma AdmittedExactly(env: Env, t: Table, s: Bytes, from: T.Side)
    requires Readable(s)
    ensures Admitted(env, s, from) <==>
            |s| > 20 && s[0] / 16 == 4 && !Refused(Quad(s, 12), Quad(s, 16), from) && !TooLong(env, s, from)
    ensures var c := if from == T.Lan then Lan2Wan(env, t, s).code else Wan2Lan(env, t, s).code;
      && (|s| <= 20 ==> c == -2)
      && (|s| > 20 && (s[0] / 16 != 4 || Refused(Quad(s, 12), Quad(s, 16), from)) ==> c == -3)
      && (|s| > 20 && s[0] / 16 == 4 && !Refused(Quad(s, 12), Quad(s, 16), from) && TooLong(env, s, from) ==> c == -5)
  {
    hide Dropped, Refused, FindLan, FindWan, TcpSession, Translate, Swap, SwapIp, Raw32, Host32, Quad;
    if |s| > 20 {
      RawQuad(s, 12);
      RawQuad(s, 16);
      RefusedIsDropped(Quad(s, 12), Quad(s, 16), from);
      DontFragment(s[6], s[7]);
    }
  }

  /** No session of the protocol has e as its LAN endpoint, or as its WAN endpoint. */
  ghost predicate NoLan(t: Table, protocol: U8, e: Endpoint) {
    forall p :: p in t && t[p].m.protocol == protocol ==> t[p].m.lan != e
  }

  ghost predicate NoWan(t: Table, protocol: U8, e: Endpoint) {
    forall p :: p in t && t[p].m.protocol == protocol ==> t[p].m.wan != e
  }

  lemma NotFound(t: Table, protocol: U8, e: Endpoint)
    ensures NoLan(t, protocol, e) <==> FindLan(t, protocol, e) == None
    ensures NoWan(t, protocol, e) <==> FindWan(t, protocol, e) == None
  {
    forall p | p in t && t[p].m.protocol == protocol
      ensures FindLan(t, protocol, e) == None ==> t[p].m.lan != e
      ensures FindWan(t, protocol, e) == None ==> t[p].m.wan != e
    {
      assert !HasLan(t, p, protocol, e) <==> t[p].m.lan != e;
      assert !HasWan(t, p, protocol, e) <==> t[p].m.wan != e;
    }
  }

  /** A hairpin: a UDP packet to the NAT itself that wan2lan_alias takes in for a session. */
  ghost predicate TakenIn(env: Env, t: Table, s: Bytes)
    requires Readable(s) && Transport(s)
  {
    Admitted(env, s, T.Wan) && !NoWan(t, 17, Destination(s))
  }

  /**
   * The packets that have a mapping requested for them, among all that get to the lookup and have no session: UDP to
   * others, TCP to others with the SYN flag and no other, and UDP hairpins that are taken in. Everything else has its
   * own code.
   */
  lemma AsksForMapping(env: Env, t: Table, s: Bytes)
    requires Readable(s) && Transport(s) && Admitted(env, s, T.Lan) && NoLan(t, s[9], Source(s))
    ensures var c, self := Lan2Wan(env, t, s).code, Quad(s, 16) in env.lanAddrs;
      && (s[9] == 6 && self ==> c == 1)
      && (s[9] == 6 && !self ==> c == if s[s[0] % 16 * 4 + 13] == 2 then -1 else -3)
      && (s[9] == 17 && self ==> c == if TakenIn(env, t, s) then -1 else 1)
      && (s[9] == 17 && !self ==> c == -1)
    ensures Lan2Wan(env, t, s).nodes == t
  {
    hide Admitted, Translate, Source, Destination, Raw32, Swap, SwapIp, Quad, NoLan, NoWan;
    RawQuad(s, 16);
    NotFound(t, s[9], Source(s));
    if s[9] == UDP {
      NotFound(t, s[9], Destination(s));
      HairpinShape(env, t, s);
    }
  }

  /** The code for a TCP packet that takes its session from the state old_ to the state st. */
  function SessionCode(old_: T.State, st: T.State, from: T.Side): int {
    if old_ == T.Closed || old_ == T.Reset then 0
    else if st == T.Closed then 3
    else if st == T.Reset then 4
    else if st == T.Unknown then (if from == T.Lan then 4 else -3)
    else 0
  }

  /** A TCP packet of a session: its flags move the state, and it is rewritten when the code is 0 or 3. */
  lemma TcpCode(env: Env, t: Table, s: Bytes, from: T.Side, f: T.Flags, p: Ptr)
    requires Readable(s) && Transport(s) && s[9] == 6 && Admitted(env, s, from) && Flagged(s, f) && Keyed(t)
    requires p in t && t[p].m.protocol == 6
    requires if from == T.Lan then t[p].m.lan == Source(s) else t[p].m.wan == Destination(s)
    ensures var o := if from == T.Lan then Lan2Wan(env, t, s) else Wan2Lan(env, t, s);
      var l, m := t[p], t[p].m;
      var st := if l.state == T.Closed || l.state == T.Reset then l.state else T.TcpStateCheck(l.state, f, from);
      if from == T.Lan && Quad(s, 16) in env.lanAddrs then o == Outcome(1, s, t)
      else
        && o.code == SessionCode(l.state, st, from) && o.nodes == t[p := Session(m, st)]
        && o.packet == if o.code != 0 && o.code != 3 then s
                       else if from == T.Lan then Translate(s, Src, m.wan) else Translate(s, Dst, m.lan)
  {
    hide Admitted, Translate, Source, Destination, Raw32, Swap, SwapIp, Quad, FlagsOf, Flagged, FindLan, FindWan, Keyed;
    hide T.TcpStateCheck, FlagByte;
    RawQuad(s, 16);
    FlaggedRead(s, f);
    FindsOwn(t, p);
  }

  /** A UDP packet of a session. */
  lemma UdpCode(env: Env, t: Table, s: Bytes, from: T.Side, p: Ptr)
    requires Readable(s) && Transport(s) && s[9] == 17 && Admitted(env, s, from) && Keyed(t)
    requires p in t && t[p].m.protocol == 17
    requires if from == T.Lan then t[p].m.lan == Source(s) else t[p].m.wan == Destination(s)
    ensures from == T.Wan ==> Wan2Lan(env, t, s) == Outcome(0, Translate(s, Dst, t[p].m.lan), t)
    ensures var self := Quad(s, 16) in env.lanAddrs;
      && (from == T.Lan && !self ==> Lan2Wan(env, t, s) == Outcome(0, Translate(s, Src, t[p].m.wan), t))
      && (from == T.Lan && self && !TakenIn(env, t, s) ==> Lan2Wan(env, t, s) == Outcome(1, s, t))
  {
    hide Admitted, Translate, Source, Destination, Raw32, Swap, SwapIp, Quad, FindLan, FindWan, Keyed, NoWan;
    RawQuad(s, 16);
    FindsOwn(t, p);
    NotFound(t, 17, Destination(s));
  }

  /** A hairpin goes to the session q it was addressed to, from the WAN endpoint of its sender's own session p. */
  lemma HairpinCode(env: Env, t: Table, s: Bytes, p: Ptr, q: Ptr)
    requires Readable(s) && Transport(s) && s[9] == 17 && Keyed(t) && Quad(s, 16) in env.lanAddrs
    requires Admitted(env, s, T.Lan) && Admitted(env, s, T.Wan)
    requires p in t && t[p].m.protocol == 17 && t[p].m.lan == Source(s)
    requires q in t && t[q].m.protocol == 17 && t[q].m.wan == Destination(s)
    ensures var w := Translate(s, Dst, t[q].m.lan);
      Transport(w) && Lan2Wan(env, t, s) == Outcome(0, Translate(w, Src, t[p].m.wan), t)
  {
    hide Admitted, Translate, Source, Destination, Raw32, Swap, SwapIp, Quad, FindLan, FindWan, Keyed;
    RawQuad(s, 16);
    FindsOwn(t, p);
    FindsOwn(t, q);
    HairpinShape(env, t, s);
  }

  /** From outside without a session: for the NAT itself or for nobody. */
  lemma InwardUnknown(env: Env, t: Table, s: Bytes)
    requires Readable(s) && Transport(s) && Admitted(env, s, T.Wan) && NoWan(t, s[9], Destination(s))
    ensures Wan2Lan(env, t, s) == Outcome(if Quad(s, 16) in env.wanAddrs then 1 else -1, s, t)
  {
    hide Admitted, Translate, Source, Destination, Raw32, Swap, SwapIp, Quad, FindLan, FindWan, NoWan;
    RawQuad(s, 16);
    NotFound(t, s[9], Destination(s));
  }

  /** Other protocols are not translated. */
  lemma OtherProtocol(env: Env, t: Table, s: Bytes, from: T.Side)
    requires Readable(s) && Admitted(env, s, from) && s[9] != 6 && s[9] != 17
    ensures (if from == T.Lan then Lan2Wan(env, t, s) else Wan2Lan(env, t, s)) == Outcome(-4, s, t)
  {
    hide Admitted;
  }
}
