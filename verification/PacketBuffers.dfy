/** Packets in the buffer they arrived in, rewritten in place. */
module PacketBuffers {
  import opened Sessions
  import opened Checksums
  import opened Packets

  method Store16(buf: array<U8>, k: nat, v: U16)
    requires k + 2 <= buf.Length
    modifies buf
    ensures buf[..] == Put16(old(buf[..]), k, v)
  {
    buf[k] := v % 0x100;
    buf[k + 1] := v / 0x100;
  }

  method Store32(buf: array<U8>, k: nat, v: U32)
    requires k + 4 <= buf.Length
    modifies buf
    ensures buf[..] == Put32(old(buf[..]), k, v)
  {
    Store16(buf, k, v % 0x1_0000);
    Store16(buf, k + 2, v / 0x1_0000);
  }

  method Load16(buf: array<U8>, k: nat) returns (v: U16)
    requires k + 2 <= buf.Length
    ensures v == Raw16(buf[..], k)
  {
    v := buf[k] + buf[k + 1] as nat * 0x100;
  }

  method Load32(buf: array<U8>, k: nat) returns (v: U32)
    requires k + 4 <= buf.Length
    ensures v == Raw32(buf[..], k)
  {
    var lo := Load16(buf, k);
    var hi := Load16(buf, k + 2);
    v := lo + hi as nat * 0x1_0000;
  }

  /** One checksum field brought up to date. */
  method UpdateSum(buf: array<U8>, at: nat, orig: Endpoint, alias: Endpoint)
    requires at + 2 <= buf.Length
    modifies buf
    ensures buf[..] == Put16(old(buf[..]), at, Reduce(Accumulated(Raw16(old(buf[..]), at), orig, alias)))
  {
    hide Reduce, HalfSum, Half, Put16;
    var f := Load16(buf, at);
    var sum := DiffChecksum(f, orig.ip + orig.port, alias.ip + alias.port, 2);
    Store16(buf, at, sum);
  }

  /** set_diff_checksum. */
  method SetDiffChecksum(buf: array<U8>, orig: Endpoint, alias: Endpoint)
    requires Transport(buf[..])
    modifies buf
    ensures buf[..] == SetDiff(old(buf[..]), orig, alias)
  {
    hide Reduce, Accumulated, Put16, Raw16;
    var h := buf[0] % 0x10 * 4;
    if buf[9] == TCP {
      UpdateSum(buf, h + 16, orig, alias);
    } else {
      UpdateSum(buf, h + 6, orig, alias);
    }
  }

  /** Rewriting one end of the packet and updating its checksum, as both directions do it. */
  method TranslateInPlace(buf: array<U8>, e: End, from: Endpoint, to: Endpoint)
    requires Transport(buf[..]) && EndOf(buf[..], e) == from
    modifies buf
    ensures Transport(old(buf[..])) && buf[..] == Translate(old(buf[..]), e, to)
  {
    var h := buf[0] % 0x10 * 4;
    Store32(buf, if e.Src? then 12 else 16, to.ip);
    Store16(buf, h + if e.Src? then 0 else 2, to.port);
    SetDiffChecksum(buf, from, to);
  }

  /** The sum over the pseudo header, in 32-bit arithmetic that does not wrap. */
  method PseudoSum(buf: array<U8>) returns (sum: U32)
    requires Transport(buf[..])
    ensures sum == PseudoHeader(buf[..]) && sum <= 0x10_0000
  {
    var h := buf[0] % 0x10 * 4;
    sum := 0;
    sum := sum + (buf[12] as nat * 0x100 + buf[13]);
    sum := sum + (buf[14] as nat * 0x100 + buf[15]);
    sum := sum + (buf[16] as nat * 0x100 + buf[17]);
    sum := sum + (buf[18] as nat * 0x100 + buf[19]);
    sum := sum + buf[9];
    sum := sum + (buf.Length - h);
  }

  /** checksum_transport. */
  method ChecksumTransport(buf: array<U8>)
    requires Transport(buf[..])
    modifies buf
    ensures Transport(old(buf[..])) && buf[..] == Recompute(old(buf[..]))
  {
    hide Swap, Fold, PseudoHeader, Put16, WordSum;
    ghost var s := buf[..];
    var h := buf[0] % 0x10 * 4;
    var at := h + if buf[9] == TCP then 16 else 6;
    assert at == SumAt(s) && h == HeaderLength(s);
    var pseudoSum := PseudoSum(buf);
    Store16(buf, at, 0);
    PseudoPut(s, at, 0);
    assert buf[..][h..] == buf[h..];
    var sum := Checksum(buf[h..], pseudoSum);
    Store16(buf, at, Swap(sum));
  }
}
