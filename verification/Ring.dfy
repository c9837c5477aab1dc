/** The bounded circular queue between the packet thread, the timer loop and the two pool threads. */
module Rings {
  const RING_OK: int := 0
  const RING_OVER: int := -2
  const RING_EMPTY: int := -3
  const RING_DEFAULT_RING_SIZE: nat := 10

  datatype Buffer<T> = Null | Data(value: T)

  /** One ring_buffer. */
  datatype Slot<T> = Slot(buffer: Buffer<T>, size: nat, tag: nat)

  /** Whether slot i is in use. */
  predicate InUse(i: nat, pop: nat, push: nat) {
    if pop <= push then pop <= i < push else i < push || pop <= i
  }

  /** The slots in use, oldest first. */
  function Window<T>(s: seq<Slot<T>>, pop: nat, push: nat): seq<Slot<T>>
    requires pop < |s| && push < |s|
  {
    if pop <= push then s[pop..push] else s[pop..] + s[..push]
  }

  function Next(at: nat, n: nat): nat
    requires at < n
  {
    if at + 1 == n then 0 else at + 1
  }

  lemma Wrap(at: nat, n: nat)
    requires at < n
    ensures (at + 1) % n == Next(at, n)
  {
  }

  lemma WindowPush<T>(s: seq<Slot<T>>, pop: nat, push: nat, x: Slot<T>)
    requires pop < |s| && push < |s|
    ensures |Window(s, pop, push)| == |s| - 1 <==> Next(push, |s|) == pop
    ensures Next(push, |s|) != pop ==> Window(s[push := x], pop, Next(push, |s|)) == Window(s, pop, push) + [x]
    ensures Next(push, |s|) != pop ==>
        forall i :: 0 <= i < |s| && !InUse(i, pop, Next(push, |s|)) ==> !InUse(i, pop, push) && s[push := x][i] == s[i]
  {
    var t := s[push := x];
    if pop <= push {
      assert t[pop..push] == s[pop..push];
    } else {
      assert t[pop..] == s[pop..] || push + 1 == pop;
      assert t[..push] == s[..push];
    }
  }

  lemma WindowPop<T>(s: seq<Slot<T>>, pop: nat, push: nat, x: Slot<T>)
    requires pop < |s| && push < |s| && pop != push
    ensures Window(s, pop, push) == [s[pop]] + Window(s[pop := x], Next(pop, |s|), push)
    ensures forall i :: 0 <= i < |s| && i != pop && !InUse(i, Next(pop, |s|), push) ==> !InUse(i, pop, push)
  {
    var t := s[pop := x];
    if pop < push {
      PopInside(s, pop, push, x);
    } else if pop + 1 < |s| {
      PopInside(s, pop, |s|, x);
      assert s[pop..|s|] == s[pop..] && t[pop + 1..|s|] == t[pop + 1..];
      assert t[..push] == s[..push];
      Lengthened(s[pop], t[pop + 1..], s[..push]);
    } else {
      assert s[pop..] == [s[pop]] && t[..push] == s[..push] && t[0..push] == t[..push];
    }
  }

  lemma PopInside<A>(s: seq<A>, i: nat, j: nat, x: A)
    requires i < j <= |s|
    ensures s[i..j] == [s[i]] + s[i := x][i + 1..j]
  {
  }

  lemma Lengthened<A>(x: A, a: seq<A>, b: seq<A>)
    ensures ([x] + a) + b == [x] + (a + b)
  {
  }

  /** The slot a push leaves behind: no data, or data of size zero, leaves its buffer empty. */
  function Filled<T>(buffer: Buffer<T>, size: nat, tag: nat): Slot<T> {
    if buffer.Data? && size != 0 then Slot(buffer, size, tag) else Slot(Null, 0, tag)
  }

  class Ring<T(0)> {
    const rbuf: array<Slot<T>>
    var popPoint: nat
    var pushPoint: nat

    /** Slots outside the live window hold no buffer. */
    ghost predicate Valid()
      reads this, rbuf
    {
      && popPoint < rbuf.Length && pushPoint < rbuf.Length
      && forall i :: 0 <= i < rbuf.Length && !InUse(i, popPoint, pushPoint) ==>
           rbuf[i].buffer.Null? && rbuf[i].size == 0
    }

    /** The queue, oldest element first. */
    ghost function Contents(): seq<Slot<T>>
      reads this, rbuf
      requires Valid()
    {
      Window(rbuf[..], popPoint, pushPoint)
    }

    ghost function Capacity(): nat
      requires rbuf.Length > 0
    {
      rbuf.Length - 1
    }

    lemma Bounded()
      requires Valid()
      ensures |Contents()| <= Capacity()
    {
    }

    /** ring_init; a size of zero asks for the default. */
    constructor (ringSize: nat)
      ensures Valid() && Contents() == [] && fresh(rbuf)
      ensures rbuf.Length == if ringSize == 0 then 10 else ringSize
    {
      var n := if ringSize == 0 then RING_DEFAULT_RING_SIZE else ringSize;
      popPoint, pushPoint := 0, 0;
      rbuf := new Slot<T>[n](_ => Slot(Null, 0, 0));
    }

    /** ring_push: the data is copied in; no data, or data of size zero, leaves the slot's buffer empty. */
    method Push(buffer: Buffer<T>, size: nat, tag: nat) returns (code: int)
      requires Valid()
      modifies this`pushPoint, rbuf
      ensures Valid()
      ensures code == if |old(Contents())| == Capacity() then RING_OVER else RING_OK
      ensures code == RING_OVER ==> Contents() == old(Contents())
      ensures code == RING_OK ==> Contents() == old(Contents()) + [Filled(buffer, size, tag)]
    {
      var next := (pushPoint + 1) % rbuf.Length;
      Wrap(pushPoint, rbuf.Length);
      WindowPush(rbuf[..], popPoint, pushPoint, Slot(Null, 0, 0));
      if next == popPoint {
        return RING_OVER;
      }
      WindowPush(rbuf[..], popPoint, pushPoint, Filled(buffer, size, tag));
      if buffer.Data? && size != 0 {
        rbuf[pushPoint] := rbuf[pushPoint].(buffer := buffer);
        rbuf[pushPoint] := rbuf[pushPoint].(size := size);
      }
      rbuf[pushPoint] := rbuf[pushPoint].(tag := tag);
      pushPoint := next;
      return RING_OK;
    }

    /** ring_s_push: the slot takes over the caller's buffer. */
    method SPush(r: Slot<T>) returns (code: int)
      requires Valid()
      modifies this`pushPoint, rbuf
      ensures Valid()
      ensures code == if |old(Contents())| == Capacity() then RING_OVER else RING_OK
      ensures Contents() == if code == RING_OK then old(Contents()) + [r] else old(Contents())
    {
      var next := (pushPoint + 1) % rbuf.Length;
      Wrap(pushPoint, rbuf.Length);
      WindowPush(rbuf[..], popPoint, pushPoint, Slot(Null, 0, 0));
      if next == popPoint {
        return RING_OVER;
      }
      WindowPush(rbuf[..], popPoint, pushPoint, r);
      rbuf[pushPoint] := r;
      pushPoint := next;
      return RING_OK;
    }

    /** ring_pop. */
    method Pop() returns (code: int, r: Slot<T>)
      requires Valid()
      modifies this`popPoint, rbuf
      ensures Valid()
      ensures code == if old(Contents()) == [] then RING_EMPTY else RING_OK
      ensures code == RING_EMPTY ==> r.buffer.Null? && r.size == 0 && Contents() == old(Contents())
      ensures code == RING_OK ==> old(Contents()) == [r] + Contents()
    {
      if pushPoint == popPoint {
        return RING_EMPTY, Slot(Null, 0, 0);
      }
      r := Take();
      code := RING_OK;
    }

    /** ring_pop_condblock, once its wait is over: the ring is not empty. */
    method Take() returns (r: Slot<T>)
      requires Valid() && Contents() != []
      modifies this`popPoint, rbuf
      ensures Valid() && old(Contents()) == [r] + Contents()
    {
      ghost var s := rbuf[..];
      WindowPop(s, popPoint, pushPoint, Slot(Null, 0, 0));
      r := rbuf[popPoint];
      rbuf[popPoint] := Slot(Null, 0, 0);
      assert rbuf[..] == s[popPoint := Slot(Null, 0, 0)];
      var next := (popPoint + 1) % rbuf.Length;
      Wrap(popPoint, rbuf.Length);
      popPoint := next;
    }
  }

  // ---- a ring over a whole run ----

  /** ring_push, ring_s_push and ring_pop, as any thread may call them under the lock. */
  datatype Op<T> = Copy(buffer: Buffer<T>, size: nat, tag: nat) | Hand(r: Slot<T>) | Get

  /** A bounded queue: what is in it, what was ever in it, what came out, and the codes the calls returned. */
  datatype Run<T> = Run(queue: seq<Slot<T>>, accepted: seq<Slot<T>>, popped: seq<Slot<T>>, codes: seq<int>)

  /** The slot a push adds. */
  function Stored<T>(op: Op<T>): Slot<T>
    requires !op.Get?
  {
    if op.Hand? then op.r else Filled(op.buffer, op.size, op.tag)
  }

  function Step<T>(cap: nat, s: Run<T>, op: Op<T>): Run<T> {
    if op.Get? then
      if s.queue == [] then s.(codes := s.codes + [RING_EMPTY])
      else Run(s.queue[1..], s.accepted, s.popped + [s.queue[0]], s.codes + [RING_OK])
    else if |s.queue| >= cap then s.(codes := s.codes + [RING_OVER])
    else Run(s.queue + [Stored(op)], s.accepted + [Stored(op)], s.popped, s.codes + [RING_OK])
  }

  function Steps<T>(cap: nat, s: Run<T>, ops: seq<Op<T>>): Run<T> {
    if ops == [] then s else Step(cap, Steps(cap, s, ops[..|ops| - 1]), ops[|ops| - 1])
  }

  /** What comes out: copied data as given, no buffer for no data or size zero, and a handed slot unchanged. */
  lemma ComesOut<T>(cap: nat, op: Op<T>)
    requires cap > 0 && !op.Get?
    ensures var x :=
        if op.Hand? then op.r
        else if op.buffer.Null? || op.size == 0 then Slot(Null, 0, op.tag)
        else Slot(Data(op.buffer.value), op.size, op.tag);
      Steps(cap, Run([], [], [], []), [op, Get]) == Run([], [x], [x], [0, 0])
  {
    var s := Run([], [], [], []);
    assert [op, Get][..1] == [op] && [op][..0] == [];
    assert Steps(cap, s, [op]) == Step(cap, s, op);
  }

  /** Each call returns its code, 0, -2 on a full queue or -3 on an empty one, in the order of the calls. */
  lemma {:induction false} CodesInOrder<T>(cap: nat, s: Run<T>, ops: seq<Op<T>>, i: nat)
    requires i < |ops|
    ensures var q, r := Steps(cap, s, ops[..i]).queue, Steps(cap, s, ops);
      && |r.codes| == |s.codes| + |ops|
      && r.codes[|s.codes| + i] == if ops[i].Get? then (if q == [] then -3 else 0) else if |q| >= cap then -2 else 0
  {
    var n := |ops| - 1;
    CodeCount(cap, s, ops[..n]);
    if i < n {
      CodesInOrder(cap, s, ops[..n], i);
      assert ops[..n][..i] == ops[..i];
    }
  }

  lemma {:induction false} CodeCount<T>(cap: nat, s: Run<T>, ops: seq<Op<T>>)
    ensures |Steps(cap, s, ops).codes| == |s.codes| + |ops|
  {
    if ops != [] {
      CodeCount(cap, s, ops[..|ops| - 1]);
    }
  }

  /** However pushes and pops interleave, what came out followed by what is inside is what went in, in order. */
  lemma {:induction false} FirstInFirstOut<T>(cap: nat, s: Run<T>, ops: seq<Op<T>>)
    requires s.popped + s.queue == s.accepted && |s.queue| <= cap
    ensures var r := Steps(cap, s, ops);
      r.popped + r.queue == r.accepted && |r.queue| <= cap && |r.codes| == |s.codes| + |ops|
  {
    if ops != [] {
      var n := |ops| - 1;
      FirstInFirstOut(cap, s, ops[..n]);
      var q := Steps(cap, s, ops[..n]);
      if !ops[n].Get? {
        assert q.popped + (q.queue + [Stored(ops[n])]) == (q.popped + q.queue) + [Stored(ops[n])];
      } else if q.queue != [] {
        assert (q.popped + [q.queue[0]]) + q.queue[1..] == q.popped + q.queue;
      }
    }
  }

  /** One call. */
  method Call<T(0)>(ring: Ring<T>, op: Op<T>) returns (code: int, out: seq<Slot<T>>)
    requires ring.Valid()
    modifies ring, ring.rbuf
    ensures ring.Valid()
    ensures forall a, p, k :: |old(ring.Contents())| <= ring.Capacity() ==>
      var r := Step(ring.Capacity(), Run(old(ring.Contents()), a, p, k), op);
      r.queue == ring.Contents() && r.popped == p + out && r.codes == k + [code]
  {
    out := [];
    match op
    case Copy(buffer, size, tag) => code := ring.Push(buffer, size, tag);
    case Hand(r) => code := ring.SPush(r);
    case Get =>
      var r;
      code, r := ring.Pop();
      if code == RING_OK {
        out := [r];
      }
  }

  /** A ring driven by any list of calls is that queue: contents, codes and what is popped. */
  method Drive<T(0)>(ring: Ring<T>, ops: seq<Op<T>>) returns (codes: seq<int>, popped: seq<Slot<T>>)
    requires ring.Valid()
    modifies ring, ring.rbuf
    ensures ring.Valid()
    ensures var c := old(ring.Contents());
      var r := Steps(ring.Capacity(), Run(c, c, [], []), ops);
      && codes == r.codes && popped == r.popped && ring.Contents() == r.queue && popped + ring.Contents() == r.accepted
  {
    hide Window, Step, Stored, InUse;
    codes, popped := [], [];
    ring.Bounded();
    ghost var c := ring.Contents();
    ghost var start := Run(c, c, [], []);
    var i := 0;
    while i < |ops|
      invariant 0 <= i <= |ops| && ring.Valid()
      invariant var r := Steps(ring.Capacity(), start, ops[..i]);
        codes == r.codes && popped == r.popped && ring.Contents() == r.queue
      decreases |ops| - i
    {
      assert ops[..i + 1][..i] == ops[..i];
      FirstInFirstOut(ring.Capacity(), start, ops[..i]);
      ghost var before := Steps(ring.Capacity(), start, ops[..i]);
      var code, out := Call(ring, ops[i]);
      assert before == Run(before.queue, before.accepted, before.popped, before.codes);
      popped := popped + out;
      codes := codes + [code];
      i := i + 1;
    }
    assert ops[..i] == ops;
    FirstInFirstOut(ring.Capacity(), start, ops);
  }
}
