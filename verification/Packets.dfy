/** IPv4 packets as byte buffers, rewriting their endpoints, and what that does to their checksums. */
module Packets {
  import opened Sessions
  import opened Checksums

  type Bytes = seq<U8>

  // ---- layout ----

  function HeaderLength(s: Bytes): nat
    requires |s| > 0
  {
    s[0] % 0x10 * 4
  }

  /** The header fields and the ports and checksum of the segment lie inside the buffer. */
  predicate WellFormed(s: Bytes) {
    20 < |s| <= 65535 && HeaderLength(s) >= 20 &&
    (s[9] == TCP ==> HeaderLength(s) + 20 <= |s|) && (s[9] == UDP ==> HeaderLength(s) + 8 <= |s|)
  }

  predicate Transport(s: Bytes) {
    WellFormed(s) && (s[9] == TCP || s[9] == UDP)
  }

  /** Where the checksum of the segment is. */
  function SumAt(s: Bytes): nat
    requires Transport(s)
  {
    HeaderLength(s) + if s[9] == TCP then 16 else 6
  }

  // ---- words in memory: raw, as a little-endian host reads them ----

  function Raw16(s: Bytes, k: nat): U16
    requires k + 2 <= |s|
  {
    s[k] + s[k + 1] as nat * 0x100
  }

  function Raw32(s: Bytes, k: nat): U32
    requires k + 4 <= |s|
  {
    Raw16(s, k) + Raw16(s, k + 2) as nat * 0x1_0000
  }

  function Put16(s: Bytes, k: nat, v: U16): (r: Bytes)
    requires k + 2 <= |s|
    ensures |r| == |s| && Raw16(r, k) == v
    ensures forall i :: 0 <= i < |s| && i != k && i != k + 1 ==> r[i] == s[i]
  {
    s[k := v % 0x100][k + 1 := v / 0x100]
  }

  function Put32(s: Bytes, k: nat, v: U32): (r: Bytes)
    requires k + 4 <= |s|
    ensures |r| == |s| && Raw32(r, k) == v
    ensures forall i :: 0 <= i < |s| && !(k <= i < k + 4) ==> r[i] == s[i]
  {
    Put16(Put16(s, k, v % 0x1_0000), k + 2, v / 0x1_0000)
  }

  function Source(s: Bytes): Endpoint
    requires Transport(s)
  {
    Endpoint(Raw32(s, 12), Raw16(s, HeaderLength(s)))
  }

  function Destination(s: Bytes): Endpoint
    requires Transport(s)
  {
    Endpoint(Raw32(s, 16), Raw16(s, HeaderLength(s) + 2))
  }

  /** Which endpoint of a packet is rewritten. */
  datatype End = Src | Dst

  function EndOf(s: Bytes, e: End): Endpoint
    requires Transport(s)
  {
    if e.Src? then Source(s) else Destination(s)
  }

  function AddressAt(e: End): nat {
    if e.Src? then 12 else 16
  }

  function PortAt(s: Bytes, e: End): nat
    requires Transport(s)
  {
    HeaderLength(s) + if e.Src? then 0 else 2
  }

  function Rewrite(s: Bytes, e: End, to: Endpoint): (r: Bytes)
    requires Transport(s)
    ensures |r| == |s| && Transport(r) && HeaderLength(r) == HeaderLength(s) && r[9] == s[9]
    ensures EndOf(r, e) == to
    ensures EndOf(r, if e.Src? then Dst else Src) == EndOf(s, if e.Src? then Dst else Src)
  {
    Put16(Put32(s, AddressAt(e), to.ip), PortAt(s, e), to.port)
  }

  // ---- sums ----

  function PseudoHeader(s: Bytes): nat
    requires Transport(s)
  {
    WordAt(s, 12) + WordAt(s, 14) + WordAt(s, 16) + WordAt(s, 18) + s[9] + (|s| - HeaderLength(s))
  }

  /** The sum a transport checksum is taken over: pseudo header and segment, in network order. */
  function TransportSum(s: Bytes): nat
    requires Transport(s)
  {
    PseudoHeader(s) + WordSum(s[HeaderLength(s)..])
  }

  lemma {:induction false} WordSumPut(s: Bytes, k: nat, v: U16)
    requires k % 2 == 0 && k + 2 <= |s|
    ensures WordSum(Put16(s, k, v)) == WordSum(s) - WordAt(s, k) + Swap(v)
  {
    var t := Put16(s, k, v);
    if k == 0 {
      assert t[2..] == s[2..];
    } else {
      assert t[2..] == Put16(s[2..], k - 2, v);
      WordSumPut(s[2..], k - 2, v);
    }
  }

  lemma SwapRaw(s: Bytes, k: nat)
    requires k + 2 <= |s|
    ensures WordAt(s, k) == Swap(Raw16(s, k))
  {
  }

  lemma PseudoPut(s: Bytes, k: nat, v: U16)
    requires Transport(s) && HeaderLength(s) <= k && k + 2 <= |s|
    ensures var t := Put16(s, k, v);
      Transport(t) && HeaderLength(t) == HeaderLength(s) && t[9] == s[9] && PseudoHeader(t) == PseudoHeader(s)
  {
  }

  /** Writing one word of the segment. */
  lemma SegmentPut(s: Bytes, k: nat, v: U16)
    requires Transport(s) && HeaderLength(s) <= k && k + 2 <= |s| && (k - HeaderLength(s)) % 2 == 0
    ensures var t := Put16(s, k, v);
      Transport(t) && HeaderLength(t) == HeaderLength(s) && t[9] == s[9]
      && TransportSum(t) == TransportSum(s) - Swap(Raw16(s, k)) + Swap(v)
  {
    var h := HeaderLength(s);
    var t := Put16(s, k, v);
    assert t[h..] == Put16(s[h..], k - h, v);
    WordSumPut(s[h..], k - h, v);
    SwapRaw(s, k);
    assert WordAt(s[h..], k - h) == WordAt(s, k);
  }

  /** Writing one word of the addresses. */
  lemma AddressPut(s: Bytes, k: nat, v: U16)
    requires Transport(s) && (k == 12 || k == 14 || k == 16 || k == 18)
    ensures var t := Put16(s, k, v);
      Transport(t) && HeaderLength(t) == HeaderLength(s) && t[9] == s[9]
      && TransportSum(t) == TransportSum(s) - Swap(Raw16(s, k)) + Swap(v)
  {
    var t := Put16(s, k, v);
    assert t[HeaderLength(s)..] == s[HeaderLength(s)..];
    SwapRaw(s, k);
    SwapRaw(t, k);
  }

  /** What an endpoint adds to a sum in network order, and what it adds in raw order. */
  function NetSum(e: Endpoint): nat {
    Swap(e.ip % 0x1_0000) + Swap(e.ip / 0x1_0000) + Swap(e.port)
  }

  function RawSum(e: Endpoint): nat {
    e.ip % 0x1_0000 + e.ip / 0x1_0000 + e.port
  }

  lemma NetRaw(e: Endpoint)
    ensures Cong(NetSum(e), 256 * RawSum(e))
  {
    var lo, hi := e.ip % 0x1_0000, e.ip / 0x1_0000;
    SwapCong(lo);
    SwapCong(hi);
    SwapCong(e.port);
    CongSum(Swap(lo), 256 * lo, Swap(hi), 256 * hi);
    CongSum(Swap(lo) + Swap(hi), 256 * lo + 256 * hi, Swap(e.port), 256 * (e.port as int));
  }

  lemma RewriteSum(s: Bytes, e: End, to: Endpoint)
    requires Transport(s)
    ensures TransportSum(Rewrite(s, e, to)) == TransportSum(s) - NetSum(EndOf(s, e)) + NetSum(to)
  {
    hide TransportSum, Swap, Put16, Put32;
    var k := AddressAt(e);
    var s2 := Put32(s, k, to.ip);
    AddressRewriteSum(s, k, to.ip);
    SegmentPut(s2, PortAt(s, e), to.port);
    assert Raw16(s2, PortAt(s, e)) == Raw16(s, PortAt(s, e));
  }

  lemma AddressRewriteSum(s: Bytes, k: nat, ip: U32)
    requires Transport(s) && (k == 12 || k == 16)
    ensures var t := Put32(s, k, ip);
      Transport(t) && HeaderLength(t) == HeaderLength(s) && t[9] == s[9]
      && TransportSum(t) == TransportSum(s) - Swap(Raw32(s, k) % 0x1_0000) - Swap(Raw32(s, k) / 0x1_0000)
                            + Swap(ip % 0x1_0000) + Swap(ip / 0x1_0000)
  {
    hide TransportSum, Swap;
    var lo, hi := Raw16(s, k), Raw16(s, k + 2);
    AddressPut(s, k, ip % 0x1_0000);
    var s1 := Put16(s, k, ip % 0x1_0000);
    AddressPut(s1, k + 2, ip / 0x1_0000);
    assert Raw16(s1, k + 2) == hi;
    assert Raw32(s, k) % 0x1_0000 == lo && Raw32(s, k) / 0x1_0000 == hi;
  }

  // ---- the incremental update of set_diff_checksum ----

  /** The carry lost when the port is added into the 32-bit address and only two halfwords are used. */
  function Carry(e: Endpoint): int {
    if e.ip + e.port >= 0x1_0000_0000 then 1 else 0
  }

  lemma TwoHalves(x: nat)
    ensures HalfSum(x, 2) == x % 0x1_0000 + x / 0x1_0000 % 0x1_0000
  {
    assert HalfSum(x, 1) == HalfSum(x, 0) + Half(x, 0) && HalfSum(x, 2) == HalfSum(x, 1) + Half(x, 1);
    assert Half(x, 1) == Half(x / 0x1_0000, 0);
  }

  lemma HalvesOfSum(e: Endpoint)
    ensures Cong(HalfSum(e.ip + e.port, 2), RawSum(e) - Carry(e))
  {
    hide HalfSum, Cong;
    var x := e.ip + e.port;
    TwoHalves(x);
    SplitWord(x);
    SplitWord(e.ip);
    CarryOut(e.ip, e.port, e.ip / 0x1_0000, e.ip % 0x1_0000, x / 0x1_0000, x % 0x1_0000, Carry(e));
  }

  lemma SplitWord(x: nat)
    requires x < 0x2_0000_0000
    ensures x == x / 0x1_0000 * 0x1_0000 + x % 0x1_0000
    ensures x / 0x1_0000 % 0x1_0000 == x / 0x1_0000 - if x >= 0x1_0000_0000 then 0x1_0000 else 0
  {
    var h := x / 0x1_0000;
    Wrapped(h, if x >= 0x1_0000_0000 then 1 else 0);
  }

  lemma CarryOut(ip: nat, port: nat, i: nat, li: nat, h: nat, lx: nat, c: int)
    requires ip == i * 0x1_0000 + li && ip + port == h * 0x1_0000 + lx
    ensures Cong(lx + (h - 0x1_0000 * c), li + i + port - c)
  {
    CongBy(lx + (h - 0x1_0000 * c), li + i + port - c, i - h - c);
  }

  lemma Wrapped(h: nat, c: int)
    requires if c == 1 then 0x1_0000 <= h < 0x2_0000 else c == 0 && h < 0x1_0000
    ensures h % 0x1_0000 == h - 0x1_0000 * c
  {
  }

  /** set_diff_checksum, without the IP_CHECKSUM option. */
  function SetDiff(s: Bytes, orig: Endpoint, alias: Endpoint): Bytes
    requires Transport(s)
  {
    Put16(s, SumAt(s), Reduce(Accumulated(Raw16(s, SumAt(s)), orig, alias)))
  }

  /** What the two callers do: rewrite one end of the packet and update the checksum. */
  function Translate(s: Bytes, e: End, to: Endpoint): Bytes
    requires Transport(s)
  {
    SetDiff(Rewrite(s, e, to), EndOf(s, e), to)
  }

  /** A position that holds no address, port or checksum affected by rewriting the end e. */
  predicate Untouched(s: Bytes, e: End, i: nat)
    requires Transport(s)
  {
    && !(AddressAt(e) <= i < AddressAt(e) + 4) && !(PortAt(s, e) <= i < PortAt(s, e) + 2)
    && !(SumAt(s) <= i < SumAt(s) + 2)
  }

  /** Translation rewrites one end and the checksum, and nothing else. */
  lemma TranslateShape(s: Bytes, e: End, to: Endpoint)
    requires Transport(s)
    ensures forall i :: 0 <= i < |s| && Untouched(s, e, i) ==> Translate(s, e, to)[i] == s[i]
    ensures var t := Translate(s, e, to);
      Transport(t) && |t| == |s| && t[9] == s[9] && HeaderLength(t) == HeaderLength(s) && EndOf(t, e) == to
      && EndOf(t, if e.Src? then Dst else Src) == EndOf(s, if e.Src? then Dst else Src)
  {
    hide Put16, Reduce, Accumulated;
  }

  /** The halfword sum the update starts from. */
  function Accumulated(f: U16, o: Endpoint, to: Endpoint): int {
    f + HalfSum(o.ip + o.port, 2) - HalfSum(to.ip + to.port, 2)
  }

  /** What the update adds to the checksum field, in network order. */
  lemma FieldUpdate(f: U16, o: Endpoint, to: Endpoint)
    ensures var r := Reduce(Accumulated(f, o, to));
      Cong(Swap(r) - Swap(f), NetSum(o) - NetSum(to) + 256 * (Carry(to) - Carry(o)))
  {
    hide Swap, Reduce, Half, HalfSum, RawSum, NetSum, Carry, Cong;
    var acc := Accumulated(f, o, to);
    var r := Reduce(acc);
    ReduceCong(acc);
    HalvesOfSum(o);
    HalvesOfSum(to);
    NetRaw(o);
    NetRaw(to);
    SwapCong(f);
    SwapCong(r);
    Combine(f, r, HalfSum(o.ip + o.port, 2), RawSum(o), Carry(o), NetSum(o),
            HalfSum(to.ip + to.port, 2), RawSum(to), Carry(to), NetSum(to), Swap(f), Swap(r));
  }

  lemma Combine(f: int, r: int, ho: int, ro: int, co: int, no: int, ht: int, rt: int, ct: int, nt: int,
                sf: int, sr: int)
    requires Cong(r, f + ho - ht) && Cong(ho, ro - co) && Cong(ht, rt - ct)
    requires Cong(no, 256 * ro) && Cong(nt, 256 * rt) && Cong(sf, 256 * f) && Cong(sr, 256 * r)
    ensures Cong(sr - sf, no - nt + 256 * (ct - co))
  {
    var k0 := CongWitness(r, f + ho - ht);
    var k1 := CongWitness(ho, ro - co);
    var k2 := CongWitness(ht, rt - ct);
    var k3 := CongWitness(no, 256 * ro);
    var k4 := CongWitness(nt, 256 * rt);
    var k5 := CongWitness(sf, 256 * f);
    var k6 := CongWitness(sr, 256 * r);
    CongBy(sr - sf, no - nt + 256 * (ct - co), 256 * k0 + 256 * k1 - 256 * k2 - k3 + k4 - k5 + k6);
  }

  lemma Shift(t: int, u: int, d: int, n: int, c: int)
    requires t == u - n + d && Cong(d, n + 256 * c)
    ensures Cong(t, u + 256 * c)
  {
    var k := CongWitness(d, n + 256 * c);
    CongBy(t, u + 256 * c, k);
  }

  /** The error of the fast update is exactly the difference of the two lost carries. */
  lemma TranslateSum(s: Bytes, e: End, to: Endpoint)
    requires Transport(s)
    ensures Transport(Translate(s, e, to))
    ensures Cong(TransportSum(Translate(s, e, to)), TransportSum(s) + 256 * (Carry(to) - Carry(EndOf(s, e))))
  {
    hide TransportSum, Swap, NetSum, Carry, Reduce, Cong, Rewrite, Put16;
    var o := EndOf(s, e);
    var s1 := Rewrite(s, e, to);
    var f := Raw16(s1, SumAt(s1));
    var r := Reduce(Accumulated(f, o, to));
    RewriteSum(s, e, to);
    SegmentPut(s1, SumAt(s1), r);
    FieldUpdate(f, o, to);
    Shift(TransportSum(Translate(s, e, to)), TransportSum(s), Swap(r) - Swap(f), NetSum(o) - NetSum(to),
      Carry(to) - Carry(o));
  }

  lemma ErrorExact(a: int, b: int, d: int)
    requires Cong(a, b + 256 * d) && -2 <= d <= 2
    ensures Cong(a, b) <==> d == 0
  {
    var k := CongWitness(a, b + 256 * d);
    if Cong(a, b) {
      var l := CongWitness(a, b);
      assert 256 * d == (l - k) * 0xFFFF;
    } else if d == 0 {
      CongBy(a, b, k);
    }
  }

  /** The fast update keeps the sum modulo 65535 exactly when both additions carry out of 32 bits or neither does. */
  lemma FastUpdateExact(s: Bytes, e: End, to: Endpoint)
    requires Transport(s)
    ensures Transport(Translate(s, e, to))
    ensures Cong(TransportSum(Translate(s, e, to)), TransportSum(s)) <==> Carry(to) == Carry(EndOf(s, e))
  {
    hide TransportSum, Translate, Cong;
    TranslateSum(s, e, to);
    ErrorExact(TransportSum(Translate(s, e, to)), TransportSum(s), Carry(to) - Carry(EndOf(s, e)));
  }

  /** An address that does not end in .255.255 never carries. */
  lemma NoCarry(e: Endpoint)
    requires e.ip / 0x1_0000 != 0xFFFF
    ensures Carry(e) == 0
  {
  }

  /**
   * A UDP packet sent without a checksum keeps the zero in that field exactly when the addresses make the update
   * a zero or negative multiple of 65535; otherwise it leaves with a checksum that nobody computed.
   */
  lemma NoChecksumKept(s: Bytes, e: End, to: Endpoint)
    requires Transport(s) && s[9] == UDP && Raw16(s, SumAt(s)) == 0
    ensures var o := EndOf(s, e);
      var d := HalfSum(o.ip + o.port, 2) - HalfSum(to.ip + to.port, 2);
      Raw16(Translate(s, e, to), SumAt(s)) == 0 <==> d <= 0 && Cong(d, 0)
  {
    hide Cong, Half, HalfSum, Reduce;
    var o := EndOf(s, e);
    ReduceZero(HalfSum(o.ip + o.port, 2) - HalfSum(to.ip + to.port, 2));
  }

  // ---- the full recomputation of checksum_transport ----

  /** What a receiver tests: everything summed, checksum included, folds to all ones. */
  predicate Verifies(s: Bytes)
    requires Transport(s)
  {
    Fold(TransportSum(s)) == 0xFFFF
  }

  lemma VerifiesCong(s: Bytes)
    requires Transport(s)
    ensures Verifies(s) <==> Cong(TransportSum(s), 0)
  {
    assert TransportSum(s) > 0;
    AllOnes(TransportSum(s));
  }

  /** A packet that verified before translation verifies after it exactly when the two carries are equal. */
  lemma TranslateVerifies(s: Bytes, e: End, to: Endpoint)
    requires Transport(s) && Verifies(s)
    ensures Transport(Translate(s, e, to))
    ensures Verifies(Translate(s, e, to)) <==> Carry(to) == Carry(EndOf(s, e))
  {
    hide TransportSum, Verifies, Translate, Carry, Cong;
    FastUpdateExact(s, e, to);
    VerifiesCong(s);
    VerifiesCong(Translate(s, e, to));
    ToZero(TransportSum(Translate(s, e, to)), TransportSum(s));
  }

  /** Two translations in a row make up for each other's error or not. */
  lemma TwiceVerifies(s: Bytes, e: End, to: Endpoint, e2: End, to2: Endpoint)
    requires Transport(s) && Verifies(s)
    ensures Transport(Translate(s, e, to)) && Transport(Translate(Translate(s, e, to), e2, to2))
    ensures var w := Translate(s, e, to);
      Verifies(Translate(w, e2, to2)) <==> Carry(to) - Carry(EndOf(s, e)) + Carry(to2) - Carry(EndOf(w, e2)) == 0
  {
    hide TransportSum, Verifies, Translate, Cong;
    TranslateSum(s, e, to);
    var w := Translate(s, e, to);
    TranslateSum(w, e2, to2);
    var u := Translate(w, e2, to2);
    var d, d2 := Carry(to) - Carry(EndOf(s, e)), Carry(to2) - Carry(EndOf(w, e2));
    Further(TransportSum(u), TransportSum(w), TransportSum(s), 256 * d2, 256 * d);
    ErrorExact(TransportSum(u), TransportSum(s), d + d2);
    VerifiesCong(s);
    VerifiesCong(u);
    ToZero(TransportSum(u), TransportSum(s));
  }

  lemma Further(a: int, b: int, c: int, x: int, y: int)
    requires Cong(a, b + x) && Cong(b, c + y)
    ensures Cong(a, c + (x + y))
  {
    var k := CongWitness(a, b + x);
    var l := CongWitness(b, c + y);
    CongBy(a, c + (x + y), k + l);
  }

  /** With b zero modulo 65535, a is if it is congruent to b. */
  lemma ToZero(a: int, b: int)
    requires Cong(b, 0)
    ensures Cong(a, 0) <==> Cong(a, b)
  {
    var l := CongWitness(b, 0);
    if Cong(a, b) {
      CongTrans(a, b, 0);
    }
    if Cong(a, 0) {
      var k := CongWitness(a, 0);
      CongBy(a, b, k - l);
    }
  }

  /** checksum_transport: the field zeroed, the sum taken, and its complement stored in network order. */
  function Recompute(s: Bytes): Bytes
    requires Transport(s)
  {
    var z := Put16(s, SumAt(s), 0);
    Put16(z, SumAt(s), Swap(0xFFFF - Fold(TransportSum(z))))
  }

  lemma RecomputeVerifies(s: Bytes)
    requires Transport(s)
    ensures Transport(Recompute(s)) && Verifies(Recompute(s))
  {
    hide TransportSum, Swap, Fold, Cong, Verifies, Put16;
    var z := Put16(s, SumAt(s), 0);
    SegmentPut(s, SumAt(s), 0);
    var c: U16 := 0xFFFF - Fold(TransportSum(z));
    SegmentPut(z, SumAt(s), Swap(c));
    SwapCong(c);
    SwapZeros();
    ChecksumVerifies(TransportSum(z));
    VerifiesCong(Recompute(s));
  }

  /** The fast update and the full recomputation store the same field, up to the two forms of zero. */
  lemma FastIsSlow(s: Bytes, e: End, to: Endpoint)
    requires Transport(s) && Verifies(s) && Carry(to) == Carry(EndOf(s, e))
    ensures var fast, slow := Translate(s, e, to), Recompute(Rewrite(s, e, to));
      fast == slow || {Raw16(fast, SumAt(s)), Raw16(slow, SumAt(s))} == {0, 0xFFFF}
  {
    hide TransportSum, Swap, Fold, Reduce, Accumulated, Put16, Raw16, Verifies, Carry, Cong;
    var s1 := Rewrite(s, e, to);
    var fast, slow := Translate(s, e, to), Recompute(s1);
    TranslateVerifies(s, e, to);
    RecomputeVerifies(s1);
    VerifiesCong(fast);
    VerifiesCong(slow);
    var at := SumAt(s);
    SameButSum(s1, fast, slow);
    FieldsAgree(Raw16(fast, at), TransportSum(fast), Raw16(slow, at), TransportSum(slow));
  }

  lemma FieldsAgree(x: U16, sum: int, y: U16, sum': int)
    requires Cong(sum, 0) && Cong(sum', 0) && sum - Swap(x) == sum' - Swap(y)
    ensures x == y || {x, y} == {0, 0xFFFF}
  {
    hide Swap, Cong;
    var k := CongWitness(sum, 0);
    var l := CongWitness(sum', 0);
    CongBy(Swap(x), Swap(y), k - l);
    SmallCong(Swap(x), Swap(y));
    SwapCong(x);
    SwapCong(y);
    SwapZeros();
  }

  lemma SwapZeros()
    ensures Swap(0) == 0 && Swap(0xFFFF) == 0xFFFF
  {
  }

  /** Two packets made from s by storing a checksum differ in sum only by that checksum. */
  lemma SameButSum(s: Bytes, a: Bytes, b: Bytes)
    requires Transport(s)
    requires exists x :: a == Put16(s, SumAt(s), x)
    requires exists x, y :: b == Put16(Put16(s, SumAt(s), x), SumAt(s), y)
    ensures Transport(a) && Transport(b) && SumAt(a) == SumAt(s) && SumAt(b) == SumAt(s)
    ensures TransportSum(a) - Swap(Raw16(a, SumAt(s))) == TransportSum(b) - Swap(Raw16(b, SumAt(s)))
    ensures Raw16(a, SumAt(s)) == Raw16(b, SumAt(s)) ==> a == b
  {
    hide TransportSum, Swap;
    var k := SumAt(s);
    var x :| a == Put16(s, k, x);
    var y, z :| b == Put16(Put16(s, k, y), k, z);
    SegmentPut(s, k, x);
    SegmentPut(s, k, y);
    SegmentPut(Put16(s, k, y), k, z);
  }
}
