/** Internet checksums: the full sum over a packet and the incremental update when an endpoint is rewritten. */
module Checksums {
  import opened Sessions

  // ---- arithmetic modulo 65535 ----

  predicate Apart(a: int, b: int, k: int) {
    a - b == k * 0xFFFF
  }

  /** a and b differ by a multiple of 65535. */
  ghost predicate Cong(a: int, b: int) {
    exists k :: Apart(a, b, k)
  }

  lemma CongBy(a: int, b: int, k: int)
    requires a - b == k * 0xFFFF
    ensures Cong(a, b)
  {
    assert Apart(a, b, k);
  }

  lemma CongWitness(a: int, b: int) returns (k: int)
    requires Cong(a, b)
    ensures a - b == k * 0xFFFF
  {
    k :| Apart(a, b, k);
  }

  lemma CongSum(a: int, b: int, c: int, d: int)
    requires Cong(a, b) && Cong(c, d)
    ensures Cong(a + c, b + d) && Cong(a - c, b - d)
  {
    var k := CongWitness(a, b);
    var l := CongWitness(c, d);
    CongBy(a + c, b + d, k + l);
    CongBy(a - c, b - d, k - l);
  }

  lemma CongTrans(a: int, b: int, c: int)
    requires Cong(a, b) && Cong(b, c)
    ensures Cong(a, c) && Cong(b, a)
  {
    var k := CongWitness(a, b);
    var l := CongWitness(b, c);
    CongBy(a, c, k + l);
    CongBy(b, a, -k);
  }

  lemma SmallCong(a: int, b: int)
    requires Cong(a, b) && 0 <= a <= 0xFFFF && 0 <= b <= 0xFFFF
    ensures a == b || (a == 0 && b == 0xFFFF) || (a == 0xFFFF && b == 0)
  {
    var k := CongWitness(a, b);
  }

  // ---- the full sum ----

  /** Adding the high half to the low half until one half is left. */
  function Fold(sum: nat): (r: U16)
    ensures Cong(r, sum) && (r == 0 <==> sum == 0)
    decreases sum
  {
    if sum <= 0xFFFF then
      assert Cong(sum, sum) by { CongBy(sum, sum, 0); }
      sum
    else
      var next := sum / 0x1_0000 + sum % 0x1_0000;
      var r := Fold(next);
      assert Cong(r, sum) by {
        CongBy(next, sum, -(sum / 0x1_0000));
        CongTrans(r, next, sum);
      }
      r
  }

  /** The big-endian 16-bit words of s added up, a last odd byte padded with zero. */
  function WordSum(s: seq<U8>): nat {
    if s == [] then 0
    else if |s| == 1 then s[0] * 0x100
    else s[0] * 0x100 + s[1] + WordSum(s[2..])
  }

  lemma {:induction false} WordSumBound(s: seq<U8>)
    ensures WordSum(s) <= (|s| + 1) / 2 * 0xFFFF
  {
    if |s| > 1 {
      WordSumBound(s[2..]);
    }
  }

  /** Addition of 32-bit unsigned integers. */
  function Add32(a: U32, b: U32): U32 {
    if a + b < 0x1_0000_0000 then a + b else a + b - 0x1_0000_0000
  }

  /** The word that starts at position at. */
  function WordAt(s: seq<U8>, at: nat): U16
    requires at < |s|
  {
    (s[at] as nat) * 0x100 + if at + 1 < |s| then s[at + 1] else 0
  }

  lemma WordSumStep(s: seq<U8>, at: nat)
    requires at < |s|
    ensures WordSum(s[at..]) == WordAt(s, at) + WordSum(s[if at + 2 <= |s| then at + 2 else |s|..])
  {
    var rest := s[at..];
    if at + 1 < |s| {
      assert rest[2..] == s[at + 2..];
    } else {
      assert s[|s|..] == [];
    }
  }

  /** checksum in src/alias.h, in 32-bit arithmetic, for buffers no longer than a ring slot. */
  method Checksum(buf: seq<U8>, adjust: U32) returns (r: U16)
    requires |buf| <= 65535 && adjust <= 0x10_0000
    ensures r == 0xFFFF - Fold(WordSum(buf) + adjust)
  {
    var sum: U32 := 0;
    var at: nat := 0;
    WordSumBound(buf);
    assert buf[0..] == buf;
    while at < |buf|
      invariant at <= |buf|
      invariant sum + WordSum(buf[at..]) == WordSum(buf)
    {
      WordSumStep(buf, at);
      var element: U16 := (buf[at] as nat) * 0x100;
      at := at + 1;
      if at < |buf| {
        element := element + buf[at];
        at := at + 1;
      }
      sum := Add32(sum, element);
    }
    assert buf[at..] == [];
    sum := Add32(sum, adjust);
    var folded := FoldLoop(sum);
    r := 0xFFFF - folded;
  }

  method FoldLoop(total: nat) returns (sum: nat)
    ensures sum == Fold(total)
  {
    sum := total;
    while sum > 0xFFFF
      invariant Fold(sum) == Fold(total)
      decreases sum
    {
      sum := sum / 0x1_0000 + sum % 0x1_0000;
    }
  }

  /** Sent with the checksum of everything else in it, a buffer sums to zero: what a receiver checks. */
  lemma ChecksumVerifies(sum: nat)
    ensures Cong(sum + (0xFFFF - Fold(sum)), 0)
  {
    var k := CongWitness(Fold(sum), sum);
    CongBy(sum + (0xFFFF - Fold(sum)), 0, 1 - k);
  }

  /** A sum that is not zero folds to all ones exactly when it is a multiple of 65535. */
  lemma AllOnes(sum: nat)
    requires sum > 0
    ensures Fold(sum) == 0xFFFF <==> Cong(sum, 0)
  {
    var k := CongWitness(Fold(sum), sum);
    if Cong(sum, 0) {
      var l := CongWitness(sum, 0);
      CongBy(Fold(sum), 0, k + l);
      SmallCong(Fold(sum), 0);
    }
    if Fold(sum) == 0xFFFF {
      CongBy(sum, 0, 1 - k);
    }
  }

  // ---- the incremental update ----

  /** Halfword i of a 64-bit value in memory, lowest first. */
  function Half(x: nat, i: nat): U16 {
    if i == 0 then x % 0x1_0000 else Half(x / 0x1_0000, i - 1)
  }

  /** The first n halfwords of x added up. */
  function HalfSum(x: nat, n: nat): (r: nat)
    ensures r <= n * 0xFFFF
  {
    if n == 0 then 0 else HalfSum(x, n - 1) + Half(x, n - 1)
  }

  /** Two folds of a sum of at most five halfwords, cut to 16 bits. */
  function FoldTwice(a: nat): U16 {
    var b := a / 0x1_0000 + a % 0x1_0000;
    (b + b / 0x1_0000) % 0x1_0000
  }

  /** Two folds are enough: nothing is lost in the cut. */
  lemma TwoFoldsSuffice(a: nat)
    requires a <= 5 * 0xFFFF
    ensures Cong(FoldTwice(a), a)
  {
    var h := a / 0x1_0000;
    var b := h + a % 0x1_0000;
    assert h <= 4 && b < 2 * 0x1_0000;
    CongBy(b, a, -h);
    var c := if b < 0x1_0000 then b else b - 0xFFFF;
    assert c < 0x1_0000 && FoldTwice(a) == c;
    CongBy(c, b, if b < 0x1_0000 then 0 else -1);
    CongTrans(c, b, a);
  }

  /** The end of diff_checksum, for an accumulator of either sign. */
  function Reduce(accumulate: int): U16 {
    if accumulate < 0 then 0xFFFF - FoldTwice(-accumulate) else FoldTwice(accumulate)
  }

  lemma ReduceCong(accumulate: int)
    requires -5 * 0xFFFF <= accumulate <= 5 * 0xFFFF
    ensures Cong(Reduce(accumulate), accumulate)
  {
    if accumulate < 0 {
      TwoFoldsSuffice(-accumulate);
      var k := CongWitness(FoldTwice(-accumulate), -accumulate);
      CongBy(Reduce(accumulate), accumulate, 1 - k);
    } else {
      TwoFoldsSuffice(accumulate);
    }
  }

  lemma FoldTwiceZero(a: nat)
    requires a <= 5 * 0xFFFF
    ensures FoldTwice(a) == 0 <==> a == 0
  {
    var h := a / 0x1_0000;
    var b := h + a % 0x1_0000;
    assert h <= 4 && b < 2 * 0x1_0000 && a == h * 0x1_0000 + a % 0x1_0000;
    assert FoldTwice(a) == if b < 0x1_0000 then b else b - 0xFFFF;
  }

  /** The update gives the field zero exactly from an accumulator that is zero or a negative multiple of 65535. */
  lemma ReduceZero(accumulate: int)
    requires -4 * 0xFFFF <= accumulate <= 5 * 0xFFFF
    ensures Reduce(accumulate) == 0 <==> accumulate <= 0 && Cong(accumulate, 0)
  {
    hide FoldTwice;
    var m := if accumulate < 0 then -accumulate else accumulate;
    TwoFoldsSuffice(m);
    FoldTwiceZero(m);
    var k := CongWitness(FoldTwice(m), m);
    if accumulate < 0 && Cong(accumulate, 0) {
      var l := CongWitness(accumulate, 0);
      CongBy(FoldTwice(m), 0, k - l);
      SmallCong(FoldTwice(m), 0);
    }
    if accumulate < 0 && FoldTwice(m) == 0xFFFF {
      CongBy(accumulate, 0, k - 1);
    }
    if accumulate == 0 {
      CongBy(0, 0, 0);
    }
  }

  /** diff_checksum in src/alias.h; a 64-bit argument has four halfwords. */
  method DiffChecksum(baseSum: U16, orig: nat, alias: nat, word16Length: nat) returns (r: U16)
    requires word16Length <= 4
    ensures r == Reduce(baseSum + HalfSum(orig, word16Length) - HalfSum(alias, word16Length))
    ensures Cong(r, baseSum + HalfSum(orig, word16Length) - HalfSum(alias, word16Length))
  {
    hide Reduce, Half, Cong;
    var accumulate: int := baseSum;
    var i := 0;
    while i < word16Length
      invariant 0 <= i <= word16Length
      invariant accumulate == baseSum + HalfSum(orig, i) - HalfSum(alias, i)
    {
      accumulate := accumulate - Half(alias, i);
      accumulate := accumulate + Half(orig, i);
      i := i + 1;
    }
    ReduceCong(accumulate);
    r := FoldSigned(accumulate);
  }

  /** The end of diff_checksum: two folds, of the complement for a negative accumulator. */
  method FoldSigned(total: int) returns (r: U16)
    ensures r == Reduce(total)
  {
    var accumulate := total;
    if accumulate < 0 {
      accumulate := -accumulate;
      accumulate := accumulate / 0x1_0000 + accumulate % 0x1_0000;
      accumulate := accumulate + accumulate / 0x1_0000;
      r := 0xFFFF - accumulate % 0x1_0000;
    } else {
      accumulate := accumulate / 0x1_0000 + accumulate % 0x1_0000;
      accumulate := accumulate + accumulate / 0x1_0000;
      r := accumulate % 0x1_0000;
    }
  }

  // ---- byte order ----

  function Swap(w: U16): U16 {
    w % 0x100 * 0x100 + w / 0x100
  }

  lemma SwapCong(w: U16)
    ensures Cong(Swap(w), 256 * w) && Swap(Swap(w)) == w
  {
    var hi, lo := w / 0x100, w % 0x100;
    assert w == hi * 0x100 + lo && Swap(w) == lo * 0x100 + hi;
    CongBy(Swap(w), 256 * w, -hi);
    assert Swap(w) / 0x100 == lo && Swap(w) % 0x100 == hi;
  }

  function Total(ws: seq<U16>): nat {
    if ws == [] then 0 else ws[0] + Total(ws[1..])
  }

  function SwapAll(ws: seq<U16>): seq<U16> {
    seq(|ws|, i requires 0 <= i < |ws| => Swap(ws[i]))
  }

  lemma SwapAllHead(ws: seq<U16>)
    requires ws != []
    ensures SwapAll(ws) != [] && SwapAll(ws)[0] == Swap(ws[0]) && SwapAll(ws)[1..] == SwapAll(ws[1..])
  {
    hide Swap;
  }

  lemma {:induction false} SwapAllCong(ws: seq<U16>)
    ensures Cong(Total(SwapAll(ws)), 256 * Total(ws))
  {
    hide Swap, SwapAll, Cong;
    if ws == [] {
      assert SwapAll(ws) == [] by {
        SwapAllLength(ws);
      }
      CongBy(0, 0, 0);
    } else {
      SwapAllHead(ws);
      SwapAllCong(ws[1..]);
      SwapCong(ws[0]);
      CongSum(Swap(ws[0]), 256 * (ws[0] as int), Total(SwapAll(ws[1..])), 256 * Total(ws[1..]));
    }
  }

  lemma SwapAllLength(ws: seq<U16>)
    ensures |SwapAll(ws)| == |ws|
  {
  }

  /** The update of a checksum when the words orig become the words alias. */
  function Update(base: U16, orig: seq<U16>, alias: seq<U16>): U16 {
    Reduce(base + Total(orig) - Total(alias))
  }

  lemma {:induction false} TotalBound(ws: seq<U16>)
    ensures Total(ws) <= |ws| * 0xFFFF
  {
    if ws != [] {
      TotalBound(ws[1..]);
    }
  }

  /** Byte order does not matter: swapping all words and updating is updating and swapping, up to the two zeros. */
  lemma ByteOrderIndependent(base: U16, orig: seq<U16>, alias: seq<U16>)
    requires |orig| <= 4 && |alias| <= 4
    ensures Cong(Update(Swap(base), SwapAll(orig), SwapAll(alias)), Swap(Update(base, orig, alias)))
  {
    hide Swap, SwapAll, Total, Reduce, Cong;
    SwapAllLength(orig);
    SwapAllLength(alias);
    TotalBound(orig);
    TotalBound(alias);
    TotalBound(SwapAll(orig));
    TotalBound(SwapAll(alias));
    var a: int := base + Total(orig) - Total(alias);
    var b: int := Swap(base) + Total(SwapAll(orig)) - Total(SwapAll(alias));
    ReduceCong(a);
    ReduceCong(b);
    SwapCong(base);
    SwapAllCong(orig);
    SwapAllCong(alias);
    SwapCong(Reduce(a));
    UpdateCong(Reduce(b), Swap(Reduce(a)), Reduce(a), base, Swap(base), Total(orig), Total(SwapAll(orig)),
      Total(alias), Total(SwapAll(alias)));
  }

  lemma UpdateCong(rb: int, sa: int, ra: int, w: int, sw: int, o: int, so: int, t: int, st: int)
    requires Cong(rb, sw + so - st) && Cong(ra, w + o - t) && Cong(sa, 256 * ra)
    requires Cong(sw, 256 * w) && Cong(so, 256 * o) && Cong(st, 256 * t)
    ensures Cong(rb, sa)
  {
    var k0 := CongWitness(sw, 256 * w);
    var k1 := CongWitness(so, 256 * o);
    var k2 := CongWitness(st, 256 * t);
    var k3 := CongWitness(ra, w + o - t);
    var k4 := CongWitness(rb, sw + so - st);
    var k5 := CongWitness(sa, 256 * ra);
    CongBy(rb, sa, k4 + k0 + k1 - k2 - k5 - 256 * k3);
  }
}
