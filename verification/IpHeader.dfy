/** The checksum of the IPv4 header, which the build option IP_CHECKSUM keeps in software. */
module IpHeaders {
  import opened Sessions
  import opened Checksums
  import opened Packets

  function HeaderSum(s: Bytes): nat
    requires WellFormed(s) && HeaderLength(s) <= |s|
  {
    WordSum(s[..HeaderLength(s)])
  }

  /** diff_checksum on ip_sum, for the address alone. */
  function SetDiffIp(s: Bytes, orig: U32, alias: U32): Bytes
    requires WellFormed(s)
  {
    Put16(s, 10, Reduce(Raw16(s, 10) + HalfSum(orig, 2) - HalfSum(alias, 2)))
  }

  lemma HeaderPut(s: Bytes, k: nat, v: U16)
    requires Transport(s) && (k == 10 || k == 12 || k == 14 || k == 16 || k == 18)
    ensures var t := Put16(s, k, v);
      Transport(t) && HeaderLength(t) == HeaderLength(s) && HeaderSum(t) == HeaderSum(s) - Swap(Raw16(s, k)) + Swap(v)
  {
    hide Swap, WordSum;
    var h := HeaderLength(s);
    var t := Put16(s, k, v);
    assert t[..h] == Put16(s[..h], k, v);
    WordSumPut(s[..h], k, v);
    SwapRaw(s[..h], k);
    assert Raw16(s[..h], k) == Raw16(s, k);
  }

  lemma AddressHalves(ip: U32)
    ensures HalfSum(ip, 2) == ip % 0x1_0000 + ip / 0x1_0000
  {
    TwoHalves(ip);
  }

  /** Rewriting an address with this update never disturbs the header's sum, whatever the addresses. */
  lemma IpUpdateExact(s: Bytes, k: nat, ip: U32)
    requires Transport(s) && (k == 12 || k == 16)
    ensures var t := SetDiffIp(Put32(s, k, ip), Raw32(s, k), ip);
      Transport(t) && HeaderLength(t) == HeaderLength(s) && Cong(HeaderSum(t), HeaderSum(s))
  {
    hide Swap, HeaderSum, Reduce, Half, HalfSum, Cong;
    var lo, hi, lo', hi' := Raw16(s, k), Raw16(s, k + 2), ip % 0x1_0000, ip / 0x1_0000;
    var s1 := Put16(s, k, lo');
    var s2 := Put16(s1, k + 2, hi');
    HeaderPut(s, k, lo');
    HeaderPut(s1, k + 2, hi');
    assert s2 == Put32(s, k, ip) && Raw16(s1, k + 2) == hi;
    assert Raw32(s, k) % 0x1_0000 == lo && Raw32(s, k) / 0x1_0000 == hi;
    var f := Raw16(s2, 10);
    var r := Reduce(f + HalfSum(Raw32(s, k), 2) - HalfSum(ip, 2));
    AddressHalves(Raw32(s, k));
    AddressHalves(ip);
    ReduceCong(f + HalfSum(Raw32(s, k), 2) - HalfSum(ip, 2));
    HeaderPut(s2, 10, r);
    Swapped(r, f, lo, hi, lo', hi', HeaderSum(SetDiffIp(s2, Raw32(s, k), ip)), HeaderSum(s));
  }

  lemma Swapped(r: U16, f: U16, lo: U16, hi: U16, lo': U16, hi': U16, t: int, u: int)
    requires Cong(r, f + (lo + hi) - (lo' + hi'))
    requires t == u - Swap(lo) + Swap(lo') - Swap(hi) + Swap(hi') - Swap(f) + Swap(r)
    ensures Cong(t, u)
  {
    hide Swap;
    var k := CongWitness(r, f + (lo + hi) - (lo' + hi'));
    SwapCong(r);
    SwapCong(f);
    SwapCong(lo);
    SwapCong(hi);
    SwapCong(lo');
    SwapCong(hi');
    var k1 := CongWitness(Swap(r), 256 * (r as int));
    var k2 := CongWitness(Swap(f), 256 * (f as int));
    var k3 := CongWitness(Swap(lo), 256 * (lo as int));
    var k4 := CongWitness(Swap(hi), 256 * (hi as int));
    var k5 := CongWitness(Swap(lo'), 256 * (lo' as int));
    var k6 := CongWitness(Swap(hi'), 256 * (hi' as int));
    CongBy(t, u, 256 * k + k1 - k2 - k3 - k4 + k5 + k6);
  }

  lemma HeaderPositive(s: Bytes)
    requires Transport(s)
    ensures HeaderSum(s) > 0
  {
    assert s[..HeaderLength(s)][0] == s[0];
  }

  /** Only the address and ip_sum, at 10 and 11, are written. */
  lemma IpUpdateBytes(s: Bytes, k: nat, ip: U32)
    requires WellFormed(s) && (k == 12 || k == 16)
    ensures var t := SetDiffIp(Put32(s, k, ip), Raw32(s, k), ip);
      |t| == |s| && forall i :: 0 <= i < |s| && !(k <= i < k + 4) && i != 10 && i != 11 ==> t[i] == s[i]
  {
    hide Reduce, HalfSum;
  }

  /** A header that verified before its address was rewritten verifies after. */
  lemma IpUpdateVerifies(s: Bytes, k: nat, ip: U32)
    requires Transport(s) && (k == 12 || k == 16) && Fold(HeaderSum(s)) == 0xFFFF
    ensures var t := SetDiffIp(Put32(s, k, ip), Raw32(s, k), ip);
      Transport(t) && Fold(HeaderSum(t)) == 0xFFFF
  {
    hide HeaderSum, Fold, Cong, Reduce, Put16;
    IpUpdateExact(s, k, ip);
    var t := SetDiffIp(Put32(s, k, ip), Raw32(s, k), ip);
    HeaderPositive(s);
    HeaderPositive(t);
    AllOnes(HeaderSum(s));
    AllOnes(HeaderSum(t));
    CongTrans(HeaderSum(t), HeaderSum(s), 0);
  }
}
