/** The TCP session tracker, and the packet traces that drive a session to each of its states. */
module TcpTracker {
  datatype Side = Lan | Wan

  datatype Flags = Flags(fin: bool, syn: bool, rst: bool, ack: bool)

  datatype State =
    | Established | SynSent | SynAckReceived
    | FinWaitL2W | FinWaitW2L | FinAckWaitL2W | FinAckWaitW2L
    | ClosingL2W | ClosingW2L | Closed | Reset | Unknown

  datatype Packet = Packet(from: Side, flags: Flags)

  /** tcp_state_check. */
  function TcpStateCheck(t: State, f: Flags, from: Side): State {
    match from
    case Wan => (
      match t
      case Established => if f.rst then Reset else if f.fin then FinWaitL2W else Established
      case SynSent => if f.rst then Reset else if f.syn then SynAckReceived else Unknown
      case SynAckReceived =>
        if f.rst then Reset else if f.syn && f.ack then Established else if f.ack then SynAckReceived else Unknown
      case FinWaitW2L =>
        if f.rst then Reset else if f.ack && !f.fin then FinAckWaitW2L
        else if f.ack || f.fin then ClosingL2W else Unknown
      case FinAckWaitW2L =>
        if f.rst then Reset else if f.fin then ClosingL2W else if f.ack then FinAckWaitW2L else Unknown
      case ClosingW2L => if f.rst then Reset else if f.ack then Closed else Unknown
      case Closed => Unknown
      case Reset => Unknown
      case FinAckWaitL2W => if f.rst then Reset else FinAckWaitL2W
      case ClosingL2W => if f.rst then Reset else ClosingL2W
      case FinWaitL2W => if f.rst then Reset else FinWaitL2W
      case Unknown => if f.rst then Reset else Unknown
    )
    case Lan => (
      match t
      case Established => if f.rst then Reset else if f.fin then FinWaitW2L else Established
      case SynSent => if f.rst then Reset else if f.syn then SynAckReceived else Unknown
      case SynAckReceived =>
        if f.rst then Reset else if f.syn && f.ack then Established else if f.syn then SynAckReceived else Unknown
      case FinWaitL2W =>
        if f.rst then Reset else if f.ack && !f.fin then FinAckWaitL2W
        else if f.ack || f.fin then ClosingW2L else Unknown
      case FinAckWaitL2W =>
        if f.rst then Reset else if f.fin then ClosingW2L else if f.ack then FinAckWaitL2W else Unknown
      case ClosingL2W => if f.rst then Reset else if f.ack then Closed else Unknown
      case Closed => Unknown
      case Reset => Unknown
      case FinAckWaitW2L => if f.rst then Reset else FinAckWaitW2L
      case ClosingW2L => if f.rst then Reset else ClosingW2L
      case FinWaitW2L => if f.rst then Reset else FinWaitW2L
      case Unknown => if f.rst then Reset else Unknown
    )
  }

  /** What both callers do with the state of an entry: a closed or reset entry is left as it is. */
  function Track(t: State, p: Packet): State {
    if t == Closed || t == Reset then t else TcpStateCheck(t, p.flags, p.from)
  }

  /** The state of an entry after the packets of tr, from its creation. */
  function Run(tr: seq<Packet>): State {
    if tr == [] then SynSent else Track(Run(tr[..|tr| - 1]), tr[|tr| - 1])
  }

  // ---- the traces that close a session, told without the states ----

  function Other(s: Side): Side {
    if s == Lan then Wan else Lan
  }

  /** Before the SYN+ACK: only acknowledgements from outside and repeated SYNs from inside. */
  predicate Waiting(p: Packet) {
    !p.flags.rst && if p.from == Wan then p.flags.ack && !p.flags.syn else p.flags.syn && !p.flags.ack
  }

  predicate Transfer(p: Packet) {
    !p.flags.rst && !p.flags.fin
  }

  /** After a FIN from a: anything from a; from the other side only acknowledgements. */
  predicate HalfClosed(p: Packet, a: Side) {
    !p.flags.rst && (p.from == a || (p.flags.ack && !p.flags.fin))
  }

  predicate LastAck(p: Packet, a: Side) {
    !p.flags.rst && p.from != a
  }

  /** A first SYN and nothing but waiting since. */
  predicate Opened(tr: seq<Packet>) {
    |tr| > 0 && tr[0].flags.syn && !tr[0].flags.rst && forall k :: 0 < k < |tr| ==> Waiting(tr[k])
  }

  /** A SYN+ACK at i and nothing but data since. */
  predicate Open(tr: seq<Packet>, i: nat) {
    i < |tr| && Opened(tr[..i]) && tr[i].flags.syn && tr[i].flags.ack && !tr[i].flags.rst &&
    forall k :: i < k < |tr| ==> Transfer(tr[k])
  }

  /** A FIN from a at j, still unanswered by a FIN. */
  predicate Half(tr: seq<Packet>, a: Side, i: nat, j: nat) {
    j < |tr| && Open(tr[..j], i) && tr[j].from == a && tr[j].flags.fin && !tr[j].flags.rst &&
    forall k :: j < k < |tr| ==> HalfClosed(tr[k], a)
  }

  /** A FIN from the other side at k, not yet acknowledged by a. */
  predicate BothFin(tr: seq<Packet>, a: Side, i: nat, j: nat, k: nat) {
    k < |tr| && Half(tr[..k], a, i, j) && tr[k].from == Other(a) && tr[k].flags.fin && !tr[k].flags.rst &&
    forall m :: k < m < |tr| ==> LastAck(tr[m], a)
  }

  /** An acknowledgement from a at l ends it; what follows does not matter. */
  predicate Ended(tr: seq<Packet>, a: Side, i: nat, j: nat, k: nat, l: nat) {
    l < |tr| && BothFin(tr[..l], a, i, j, k) && tr[l].from == a && tr[l].flags.ack && !tr[l].flags.rst
  }

  /** The state after a FIN from a, acknowledged by the other side or not. */
  predicate IsHalf(s: State, a: Side) {
    if a == Lan then s == FinWaitW2L || s == FinAckWaitW2L else s == FinWaitL2W || s == FinAckWaitL2W
  }

  predicate IsClosing(s: State, a: Side) {
    s == if a == Lan then ClosingL2W else ClosingW2L
  }

  lemma {:induction false} OpenedRun(tr: seq<Packet>)
    ensures Run(tr) == SynAckReceived <==> Opened(tr)
  {
    if tr != [] {
      var n := |tr| - 1;
      OpenedRun(tr[..n]);
      assert Opened(tr) && n > 0 ==> Opened(tr[..n]);
      if n == 0 {
        assert Run(tr[..0]) == SynSent;
      }
      assert Run(tr[..n]) == SynSent ==> n == 0 by {
        NotSynSent(tr[..n]);
      }
    }
  }

  lemma {:induction false} NotSynSent(tr: seq<Packet>)
    ensures Run(tr) == SynSent <==> tr == []
  {
    if tr != [] {
      NotSynSent(tr[..|tr| - 1]);
    }
  }

  lemma {:induction false} OpenRun(tr: seq<Packet>)
    ensures Run(tr) == Established <==> exists i: nat :: Open(tr, i)
  {
    if tr != [] {
      var n := |tr| - 1;
      OpenRun(tr[..n]);
      OpenedRun(tr[..n]);
      if Run(tr) == Established {
        if Run(tr[..n]) == Established {
          var i: nat :| Open(tr[..n], i);
          assert tr[..n][..i] == tr[..i];
          assert Open(tr, i);
        } else {
          assert Open(tr, n);
        }
      }
      if i: nat :| Open(tr, i) {
        if i < n {
          assert tr[..n][..i] == tr[..i];
          assert Open(tr[..n], i);
        }
      }
    }
  }

  // ---- one packet more, for the states and for the traces ----

  lemma StepHalf(s: State, p: Packet, a: Side)
    ensures IsHalf(Track(s, p), a) <==>
            (IsHalf(s, a) && HalfClosed(p, a)) || (s == Established && p.from == a && p.flags.fin && !p.flags.rst)
  {
  }

  lemma StepClosing(s: State, p: Packet, a: Side)
    ensures IsClosing(Track(s, p), a) <==>
            (IsClosing(s, a) && LastAck(p, a)) || (IsHalf(s, a) && p.from == Other(a) && p.flags.fin && !p.flags.rst)
  {
  }

  lemma StepClosed(s: State, p: Packet)
    ensures Track(s, p) == Closed <==> s == Closed || (IsClosing(s, p.from) && p.flags.ack && !p.flags.rst)
  {
  }

  lemma HalfMore(tr: seq<Packet>, a: Side, i: nat, j: nat)
    requires tr != []
    ensures var n := |tr| - 1;
      Half(tr, a, i, j) <==>
      (Half(tr[..n], a, i, j) && HalfClosed(tr[n], a)) ||
      (j == n && Open(tr[..n], i) && tr[n].from == a && tr[n].flags.fin && !tr[n].flags.rst)
  {
    if j < |tr| - 1 {
      assert tr[..|tr| - 1][..j] == tr[..j];
    }
  }

  lemma BothFinMore(tr: seq<Packet>, a: Side, i: nat, j: nat, k: nat)
    requires tr != []
    ensures var n := |tr| - 1;
      BothFin(tr, a, i, j, k) <==>
      (BothFin(tr[..n], a, i, j, k) && LastAck(tr[n], a)) ||
      (k == n && Half(tr[..n], a, i, j) && tr[n].from == Other(a) && tr[n].flags.fin && !tr[n].flags.rst)
  {
    if k < |tr| - 1 {
      assert tr[..|tr| - 1][..k] == tr[..k];
    }
  }

  lemma EndedMore(tr: seq<Packet>, a: Side, i: nat, j: nat, k: nat, l: nat)
    requires tr != []
    ensures var n := |tr| - 1;
      Ended(tr, a, i, j, k, l) <==>
      Ended(tr[..n], a, i, j, k, l) ||
      (l == n && BothFin(tr[..n], a, i, j, k) && tr[n].from == a && tr[n].flags.ack && !tr[n].flags.rst)
  {
    if l < |tr| - 1 {
      assert tr[..|tr| - 1][..l] == tr[..l];
    }
  }

  lemma {:induction false} HalfRun(tr: seq<Packet>, a: Side)
    ensures IsHalf(Run(tr), a) <==> exists i: nat, j: nat :: Half(tr, a, i, j)
  {
    if tr != [] {
      var n := |tr| - 1;
      HalfRun(tr[..n], a);
      OpenRun(tr[..n]);
      StepHalf(Run(tr[..n]), tr[n], a);
      if IsHalf(Run(tr), a) {
        if IsHalf(Run(tr[..n]), a) && HalfClosed(tr[n], a) {
          var i: nat, j: nat :| Half(tr[..n], a, i, j);
          HalfMore(tr, a, i, j);
        } else {
          var i: nat :| Open(tr[..n], i);
          HalfMore(tr, a, i, n);
        }
      }
      if i: nat, j: nat :| Half(tr, a, i, j) {
        HalfMore(tr, a, i, j);
      }
    }
  }

  /** The state right after a FIN from a, with nothing from the other side since. */
  predicate IsUnanswered(s: State, a: Side) {
    s == if a == Lan then FinWaitW2L else FinWaitL2W
  }

  /** A FIN from a at j, and nothing but packets from a since. */
  predicate Alone(tr: seq<Packet>, a: Side, i: nat, j: nat) {
    Half(tr, a, i, j) && forall k :: j < k < |tr| ==> tr[k].from == a
  }

  lemma StepUnanswered(s: State, p: Packet, a: Side)
    ensures IsUnanswered(Track(s, p), a) <==>
            || (IsUnanswered(s, a) && HalfClosed(p, a) && p.from == a)
            || (s == Established && p.from == a && p.flags.fin && !p.flags.rst)
  {
  }

  lemma AloneMore(tr: seq<Packet>, a: Side, i: nat, j: nat)
    requires tr != []
    ensures var n := |tr| - 1;
      Alone(tr, a, i, j) <==>
      (Alone(tr[..n], a, i, j) && HalfClosed(tr[n], a) && tr[n].from == a) ||
      (j == n && Open(tr[..n], i) && tr[n].from == a && tr[n].flags.fin && !tr[n].flags.rst)
  {
    hide Half, Open, HalfClosed;
    HalfMore(tr, a, i, j);
    var n := |tr| - 1;
    if Alone(tr, a, i, j) && j < n {
      assert tr[n].from == a;
    }
    if Half(tr, a, i, j) {
      HalfInside(tr, a, i, j);
    }
    if Half(tr[..n], a, i, j) {
      HalfInside(tr[..n], a, i, j);
    }
  }

  lemma HalfInside(tr: seq<Packet>, a: Side, i: nat, j: nat)
    requires Half(tr, a, i, j)
    ensures i < j < |tr|
  {
  }

  /** The half-closed states are told apart: FIN_WAIT exactly while the other side has sent nothing since the FIN. */
  lemma {:induction false} UnansweredRun(tr: seq<Packet>, a: Side)
    ensures IsUnanswered(Run(tr), a) <==> exists i: nat, j: nat :: Alone(tr, a, i, j)
  {
    hide Alone, Track, TcpStateCheck, Open;
    if tr == [] {
      assert forall i: nat, j: nat :: !Alone(tr, a, i, j) by {
        NotAlone(a);
      }
    } else {
      var n := |tr| - 1;
      UnansweredRun(tr[..n], a);
      OpenRun(tr[..n]);
      StepUnanswered(Run(tr[..n]), tr[n], a);
      if IsUnanswered(Run(tr), a) {
        if IsUnanswered(Run(tr[..n]), a) && HalfClosed(tr[n], a) && tr[n].from == a {
          var i: nat, j: nat :| Alone(tr[..n], a, i, j);
          AloneMore(tr, a, i, j);
        } else {
          var i: nat :| Open(tr[..n], i);
          AloneMore(tr, a, i, n);
        }
      }
      if i: nat, j: nat :| Alone(tr, a, i, j) {
        AloneMore(tr, a, i, j);
      }
    }
  }

  lemma NotAlone(a: Side)
    ensures forall i: nat, j: nat :: !Alone([], a, i, j)
  {
  }

  lemma {:induction false} BothFinRun(tr: seq<Packet>, a: Side)
    ensures IsClosing(Run(tr), a) <==> exists i: nat, j: nat, k: nat :: BothFin(tr, a, i, j, k)
  {
    if tr != [] {
      var n := |tr| - 1;
      BothFinRun(tr[..n], a);
      HalfRun(tr[..n], a);
      StepClosing(Run(tr[..n]), tr[n], a);
      if IsClosing(Run(tr), a) {
        if IsClosing(Run(tr[..n]), a) && LastAck(tr[n], a) {
          var i: nat, j: nat, k: nat :| BothFin(tr[..n], a, i, j, k);
          BothFinMore(tr, a, i, j, k);
        } else {
          var i: nat, j: nat :| Half(tr[..n], a, i, j);
          BothFinMore(tr, a, i, j, n);
        }
      }
      if i: nat, j: nat, k: nat :| BothFin(tr, a, i, j, k) {
        BothFinMore(tr, a, i, j, k);
      }
    }
  }

  /**
   * A session is closed exactly by the traces that hold, in this order, a SYN, a SYN+ACK, a FIN from one side,
   * a FIN from the other and an acknowledgement from the first, with only the packets each phase allows between them.
   */
  lemma {:induction false} ClosedExactly(tr: seq<Packet>)
    ensures Run(tr) == Closed <==> exists a, i: nat, j: nat, k: nat, l: nat :: Ended(tr, a, i, j, k, l)
  {
    if tr != [] {
      var n := |tr| - 1;
      var b := tr[n].from;
      ClosedExactly(tr[..n]);
      BothFinRun(tr[..n], b);
      StepClosed(Run(tr[..n]), tr[n]);
      if Run(tr) == Closed {
        if Run(tr[..n]) == Closed {
          var a, i: nat, j: nat, k: nat, l: nat :| Ended(tr[..n], a, i, j, k, l);
          EndedMore(tr, a, i, j, k, l);
        } else {
          var i: nat, j: nat, k: nat :| BothFin(tr[..n], b, i, j, k);
          EndedMore(tr, b, i, j, k, n);
        }
      }
      if a, i: nat, j: nat, k: nat, l: nat :| Ended(tr, a, i, j, k, l) {
        EndedMore(tr, a, i, j, k, l);
      }
    }
  }

  /** The five packets of a closed session, in order, and no RST up to the last of them. */
  lemma ClosedNeeds(tr: seq<Packet>) returns (a: Side, i: nat, j: nat, k: nat, l: nat)
    requires Run(tr) == Closed
    ensures 0 < i < j < k < l < |tr|
    ensures tr[0].flags.syn && tr[i].flags.syn && tr[i].flags.ack
    ensures tr[j].from == a && tr[j].flags.fin && tr[k].from == Other(a) && tr[k].flags.fin
    ensures tr[l].from == a && tr[l].flags.ack
    ensures forall m :: 0 <= m <= l ==> !tr[m].flags.rst
  {
    ClosedExactly(tr);
    a, i, j, k, l :| Ended(tr, a, i, j, k, l);
    assert tr[..l][..k] == tr[..k] && tr[..k][..j] == tr[..j] && tr[..j][..i] == tr[..i];
    forall m | 0 <= m <= l
      ensures !tr[m].flags.rst
    {
      if m < i {
        assert tr[..i][m] == tr[m];
        assert m > 0 ==> Waiting(tr[..i][m]);
      } else if m < j {
        assert tr[..j][m] == tr[m];
        assert m > i ==> Transfer(tr[..j][m]);
      } else if m < k {
        assert tr[..k][m] == tr[m];
        assert m > j ==> HalfClosed(tr[..k][m], a);
      } else if m < l {
        assert tr[..l][m] == tr[m];
        assert m > k ==> LastAck(tr[..l][m], a);
      }
    }
  }

  /** A session is reset exactly when some RST reached it before it was closed. */
  lemma {:induction false} ResetExactly(tr: seq<Packet>)
    ensures Run(tr) == Reset <==> exists k :: 0 <= k < |tr| && tr[k].flags.rst && Run(tr[..k]) != Closed
  {
    if tr != [] {
      var n := |tr| - 1;
      ResetExactly(tr[..n]);
      if Run(tr) == Reset {
        if Run(tr[..n]) == Reset {
          var k :| 0 <= k < n && tr[..n][k].flags.rst && Run(tr[..n][..k]) != Closed;
          assert tr[..n][..k] == tr[..k];
          assert tr[k].flags.rst;
        } else {
          assert tr[n].flags.rst;
        }
      }
      if k :| 0 <= k < |tr| && tr[k].flags.rst && Run(tr[..k]) != Closed {
        if k < n {
          assert tr[..n][..k] == tr[..k];
          assert tr[..n][k].flags.rst;
        }
      }
    }
  }

  /** Closed and reset are for ever. */
  lemma {:induction false} FinalForEver(tr: seq<Packet>, more: seq<Packet>)
    requires Run(tr) == Closed || Run(tr) == Reset
    ensures Run(tr + more) == Run(tr)
    decreases |more|
  {
    if more == [] {
      assert tr + more == tr;
    } else {
      var n := |more| - 1;
      FinalForEver(tr, more[..n]);
      assert (tr + more)[..|tr| + n] == tr + more[..n];
    }
  }

  /** The check itself has no answer for a final session; that is why both callers ask first. */
  lemma FinalUnchecked(f: Flags, from: Side)
    ensures TcpStateCheck(Closed, f, from) == Unknown && TcpStateCheck(Reset, f, from) == Unknown
  {
  }
}
