/** Over every run of the protocol, replies meet the ring entries of their messages, and work gets done. */
module ProtocolFifo {
  import Arena
  import opened Lookups
  import opened Sessions
  import opened Pools
  import opened Protocol
  import opened Verdicts

  // ---- the invariant ----

  predicate RequestEntry(e: Entry, protocol: U8, lan: Endpoint) {
    e.tag == NoTag && e.item.Syn? && e.item.protocol == protocol && e.item.lan == lan
  }

  /** An entry pushed for a release: a held packet with the search that found its session, or an expired session. */
  predicate ReleaseKind(e: Entry) {
    match e.item
    case Syn(_, _, _) => false
    case Held(_, _, _) => e.tag == RelL2W || e.tag == RelW2L
    case Expired(_, _) => e.tag == Timeout
  }

  predicate MessagePaired(msg: Message) {
    match msg
    case Request(protocol, lan, e) => RequestEntry(e, protocol, lan)
    case Release(m, e) => ReleaseKind(e)
  }

  predicate ReplyPaired(r: Reply) {
    match r
    case RequestAck(m, e) => RequestEntry(e, m.protocol, m.lan)
    case RequestDiscard(protocol, lan, e) => RequestEntry(e, protocol, lan)
    case ReleaseAck(m, e) => ReleaseKind(e)
  }

  ghost predicate Paired(rs: seq<Reply>, ms: seq<Message>) {
    (forall i :: 0 <= i < |rs| ==> ReplyPaired(rs[i])) && forall i :: 0 <= i < |ms| ==> MessagePaired(ms[i])
  }

  /** Items are numbered in the order they came. */
  ghost predicate Ordered(q: seq<Item>, count: nat) {
    (forall i :: 0 <= i < |q| ==> q[i].id < count) && forall i, j :: 0 <= i < j < |q| ==> q[i].id < q[j].id
  }

  /** h_recv holds one entry per reply on the wire, then one per message on the wire, then the sender's, in order. */
  ghost predicate Aligned(s: State) {
    && s.hRecv == ReplyCauses(s.toClient) + MessageCauses(s.toServer) + Early(s)
    && (s.receiver.Holding? ==> s.receiver.reply.cause == s.receiver.entry)
  }

  ghost predicate Queued(c: Config, s: State) {
    && |s.hSend| <= c.sendCap && |s.hRecv| <= c.recvCap
    && Aligned(s) && Ordered(Items(s), s.count) && Paired(InFlight(s), Unanswered(s))
  }

  // ---- sequences ----

  lemma MessagesSnoc(ms: seq<Message>, msg: Message)
    ensures MessageItems(ms + [msg]) == MessageItems(ms) + [msg.cause.item]
    ensures MessageCauses(ms + [msg]) == MessageCauses(ms) + [msg.cause]
  {
  }

  lemma RepliesSnoc(rs: seq<Reply>, r: Reply)
    ensures ReplyItems(rs + [r]) == ReplyItems(rs) + [r.cause.item]
    ensures ReplyCauses(rs + [r]) == ReplyCauses(rs) + [r.cause]
  {
  }

  lemma MessagesHead(ms: seq<Message>)
    requires ms != []
    ensures MessageItems(ms) == [ms[0].cause.item] + MessageItems(ms[1..])
    ensures MessageCauses(ms) == [ms[0].cause] + MessageCauses(ms[1..])
  {
  }

  lemma RepliesHead(rs: seq<Reply>)
    requires rs != []
    ensures ReplyItems(rs) == [rs[0].cause.item] + ReplyItems(rs[1..])
    ensures ReplyCauses(rs) == [rs[0].cause] + ReplyCauses(rs[1..])
  {
  }

  lemma HeadMoves<A>(a: seq<A>, b: seq<A>, c: seq<A>)
    requires c != []
    ensures a + (b + [c[0]]) + c[1..] == a + b + c
  {
  }

  lemma BetweenMoves<A>(a: seq<A>, x: A, b: seq<A>, c: seq<A>)
    ensures (a + [x]) + b + c == a + ([x] + b) + c
  {
  }

  // ---- what each step does to the queues ----

  lemma ComposeCause(nodes: Live, x: Item)
    ensures var msg := Compose(nodes, x);
      msg.Some? ==> msg.value.cause.item == x && MessagePaired(msg.value)
  {
    hide FindLan, FindWan;
  }

  lemma AnswerCause(k: Limits, v: Server, msg: Message)
    ensures var r := Answer(k, v, msg).1;
      && (r.Some? ==> r.value.cause == msg.cause && (MessagePaired(msg) ==> ReplyPaired(r.value)))
      && (r.Some? ==> match msg
          case Request(protocol, lan, e) => !r.value.ReleaseAck?
          case Release(m, e) => r.value == ReleaseAck(m, e))
  {
    hide Pools.Release;
    if msg.Request? {
      AssignLan(k, v.tcp, msg.lan);
      AssignLan(k, v.udp, msg.lan);
      hide Assign;
    }
  }

  lemma AssignLan(k: Limits, s: Pool, lan: Endpoint)
    ensures Assign(k, s, lan).1.Some? ==> Assign(k, s, lan).1.value.lan == lan
  {
  }

  lemma PopShape(c: Config, s: State)
    requires Enabled(c, s, Pop) && Compose(s.nodes, s.hSend[0]).Some?
    ensures var s', msg := Next(c, s, Pop), Compose(s.nodes, s.hSend[0]).value;
      && !s'.failed && Items(s') == Items(s) && InFlight(s') == InFlight(s) && Unanswered(s') == Unanswered(s) + [msg]
      && (Aligned(s) ==> Aligned(s'))
  {
    hide Compose, MessageItems, ReplyItems, MessageCauses, ReplyCauses;
    var s', msg := Next(c, s, Pop), Compose(s.nodes, s.hSend[0]).value;
    ComposeCause(s.nodes, s.hSend[0]);
    assert Unanswered(s') == Unanswered(s) + [msg];
    MessagesSnoc(Unanswered(s), msg);
    HeadMoves(ReplyItems(InFlight(s)), MessageItems(Unanswered(s)), s.hSend);
  }

  lemma PushShape(c: Config, s: State)
    requires Enabled(c, s, Push)
    ensures var s' := Next(c, s, Push);
      && !s'.failed && Items(s') == Items(s) && InFlight(s') == InFlight(s) && Unanswered(s') == Unanswered(s)
      && (Aligned(s) ==> Aligned(s'))
  {
    hide MessageItems, ReplyItems, MessageCauses, ReplyCauses;
    var s' := Next(c, s, Push);
    assert Early(s) == [] && Early(s') == [s.sender.message.cause];
  }

  lemma SendShape(c: Config, s: State)
    requires Enabled(c, s, Send)
    ensures var s' := Next(c, s, Send);
      && !s'.failed && Items(s') == Items(s) && InFlight(s') == InFlight(s) && Unanswered(s') == Unanswered(s)
      && (Aligned(s) ==> Aligned(s'))
  {
    hide MessageItems, ReplyItems, MessageCauses, ReplyCauses;
    var s' := Next(c, s, Send);
    assert s'.toServer + [] == s'.toServer;
    assert Unanswered(s') == Unanswered(s);
    MessagesSnoc(s.toServer, s.sender.message);
  }

  lemma ServeShape(c: Config, s: State)
    requires Enabled(c, s, Serve) && Answer(c.limits, s.server, s.toServer[0]).1.Some?
    ensures var s', r := Next(c, s, Serve), Answer(c.limits, s.server, s.toServer[0]).1.value;
      && !s'.failed && Items(s') == Items(s) && InFlight(s') == InFlight(s) + [r]
      && Unanswered(s') == Unanswered(s)[1..]
      && Unanswered(s) != [] && Unanswered(s)[0] == s.toServer[0] && (Aligned(s) ==> Aligned(s'))
  {
    hide Answer, MessageItems, ReplyItems, MessageCauses, ReplyCauses;
    var s', r := Next(c, s, Serve), Answer(c.limits, s.server, s.toServer[0]).1.value;
    AnswerCause(c.limits, s.server, s.toServer[0]);
    assert InFlight(s') == InFlight(s) + [r];
    RepliesSnoc(InFlight(s), r);
    RepliesSnoc(s.toClient, r);
    assert Unanswered(s)[1..] == Unanswered(s') && Unanswered(s)[0] == s.toServer[0];
    MessagesHead(Unanswered(s));
    MessagesHead(s.toServer);
    BetweenMoves(ReplyItems(InFlight(s)), r.cause.item, MessageItems(Unanswered(s')), s.hSend);
    BetweenMoves(ReplyCauses(s.toClient), r.cause, MessageCauses(s'.toServer), Early(s));
  }

  /** The next reply on the wire and the next entry of h_recv belong together. */
  lemma HeadsMatch(s: State)
    requires Aligned(s) && s.toClient != []
    ensures s.hRecv != [] && s.toClient[0].cause == s.hRecv[0]
    ensures s.hRecv[1..] == ReplyCauses(s.toClient[1..]) + MessageCauses(s.toServer) + Early(s)
  {
    hide MessageCauses, ReplyCauses;
    RepliesHead(s.toClient);
    var a, b := ReplyCauses(s.toClient[1..]), MessageCauses(s.toServer);
    assert s.hRecv == [s.toClient[0].cause] + (a + b + Early(s));
  }

  lemma TakeShape(c: Config, s: State)
    requires Aligned(s) && Enabled(c, s, Take)
    ensures var s' := Next(c, s, Take);
      && !s'.failed && Items(s') == Items(s) && InFlight(s') == InFlight(s) && Unanswered(s') == Unanswered(s)
      && Aligned(s')
  {
    hide MessageItems, ReplyItems, MessageCauses, ReplyCauses;
    HeadsMatch(s);
    var s' := Next(c, s, Take);
    assert InFlight(s') == InFlight(s);
  }

  lemma ChangeShape(c: Config, s: State, spot: Ptr)
    requires Enabled(c, s, Change(spot)) && Apply(s.nodes, s.receiver.reply, s.receiver.entry, spot).Some?
    ensures var s' := Next(c, s, Change(spot));
      && !s'.failed && InFlight(s) == [s.receiver.reply] + InFlight(s') && Unanswered(s') == Unanswered(s)
      && Items(s) == [s.receiver.reply.cause.item] + Items(s') && (Aligned(s) ==> Aligned(s'))
  {
    hide Apply, MessageItems, ReplyItems, MessageCauses, ReplyCauses;
    var s' := Next(c, s, Change(spot));
    assert InFlight(s') == s.toClient && InFlight(s)[1..] == InFlight(s');
    RepliesHead(InFlight(s));
    HeadOff(s.receiver.reply.cause.item, ReplyItems(s.toClient), MessageItems(Unanswered(s)), s.hSend);
  }

  lemma HeadOff<A>(x: A, a: seq<A>, b: seq<A>, d: seq<A>)
    ensures ([x] + a) + b + d == [x] + (a + b + d)
  {
  }

  // ---- every step keeps it ----

  lemma OrderedSnoc(q: seq<Item>, x: Item)
    requires Ordered(q, x.id)
    ensures Ordered(q + [x], x.id + 1)
  {
    var q' := q + [x];
    assert forall i :: 0 <= i < |q'| ==> q'[i] == if i < |q| then q[i] else x;
  }

  lemma OutsideQueued(c: Config, s: State, a: Action)
    requires Queued(c, s) && Enabled(c, s, a) && !Internal(a)
    ensures Queued(c, Next(c, s, a))
  {
    hide Paired, MessageItems, ReplyItems, MessageCauses, ReplyCauses, Leaving, TcpVerdict, Ordered;
    var s' := Next(c, s, a);
    if !a.Traffic? {
      var x := s'.hSend[|s.hSend|];
      OrderedSnoc(Items(s), x);
      assert Items(s') == Items(s) + [x];
    }
  }

  lemma SenderQueued(c: Config, s: State, a: Action)
    requires Queued(c, s) && Enabled(c, s, a) && (a.Pop? || a.Push? || a.Send?)
    ensures Queued(c, Next(c, s, a))
  {
    hide Compose, Items, InFlight, Unanswered, Aligned, Ordered, MessagePaired, ReplyPaired;
    match a
    case Pop =>
      var msg := Compose(s.nodes, s.hSend[0]);
      if msg.Some? {
        PopShape(c, s);
        ComposeCause(s.nodes, s.hSend[0]);
      } else {
        HaltShape(s);
      }
    case Push => PushShape(c, s);
    case Send => SendShape(c, s);
  }

  lemma HaltShape(s: State)
    ensures var s' := s.(failed := true);
      && Items(s') == Items(s) && InFlight(s') == InFlight(s) && Unanswered(s') == Unanswered(s)
      && Aligned(s') == Aligned(s)
  {
  }

  lemma ServeQueued(c: Config, s: State)
    requires Queued(c, s) && Enabled(c, s, Serve)
    ensures Queued(c, Next(c, s, Serve))
  {
    hide Answer, Items, InFlight, Unanswered, Aligned, Ordered, MessagePaired, ReplyPaired;
    var r := Answer(c.limits, s.server, s.toServer[0]).1;
    if r.Some? {
      ServeShape(c, s);
      assert MessagePaired(Unanswered(s)[0]);
      AnswerCause(c.limits, s.server, s.toServer[0]);
    } else {
      HaltShape(s);
    }
  }

  lemma ReceiverQueued(c: Config, s: State, a: Action)
    requires Queued(c, s) && Enabled(c, s, a) && (a.Take? || a.Change?)
    ensures Queued(c, Next(c, s, a))
  {
    hide Apply, Items, InFlight, Unanswered, Aligned, MessagePaired, ReplyPaired;
    match a
    case Take => TakeShape(c, s);
    case Change(spot) =>
      if Apply(s.nodes, s.receiver.reply, s.receiver.entry, spot).Some? {
        ChangeShape(c, s, spot);
        var s' := Next(c, s, a);
        assert Items(s') == Items(s)[1..] && InFlight(s') == InFlight(s)[1..];
      } else {
        HaltShape(s);
      }
  }

  lemma NextQueued(c: Config, s: State, a: Action)
    requires Queued(c, s) && Enabled(c, s, a)
    ensures Queued(c, Next(c, s, a))
  {
    hide Queued, Enabled, Next;
    if !Internal(a) {
      OutsideQueued(c, s, a);
    } else if a.Serve? {
      ServeQueued(c, s);
    } else if a.Take? || a.Change? {
      ReceiverQueued(c, s, a);
    } else {
      SenderQueued(c, s, a);
    }
  }

  lemma StartQueued(c: Config, s: State)
    requires Start(c, s)
    ensures Queued(c, s)
  {
  }

  lemma {:induction false} RunQueued(c: Config, s: State, run: seq<Action>)
    requires Queued(c, s) && Legal(c, s, run)
    ensures Queued(c, After(c, s, run))
    decreases |run|
  {
    hide Queued, Enabled, Next;
    if run != [] {
      NextQueued(c, s, run[0]);
      RunQueued(c, Next(c, s, run[0]), run[1..]);
    }
  }

  /** The place of a line's item among all items. */
  lemma Earlier(s: State, i: nat)
    ensures i < |InFlight(s)| ==> i < |Items(s)| && Items(s)[i] == InFlight(s)[i].cause.item
    ensures i < |Unanswered(s)| ==>
        |InFlight(s)| + i < |Items(s)| && Items(s)[|InFlight(s)| + i] == Unanswered(s)[i].cause.item
  {
  }

  /** The entries of h_recv are numbered in the order they came to the sender, so no two are the same packet or node. */
  lemma Numbered(s: State)
    requires Aligned(s) && Ordered(Items(s), s.count)
    ensures forall i, j :: 0 <= i < j < |s.hRecv| ==> s.hRecv[i].item.id < s.hRecv[j].item.id
  {
    hide Items, MessageItems, ReplyItems, MessageCauses, ReplyCauses;
    var d := |InFlight(s)| - |s.toClient|;
    forall i | 0 <= i < |s.hRecv|
      ensures i + d < |Items(s)| && s.hRecv[i].item == Items(s)[i + d]
    {
      if i < |s.toClient| {
        Earlier(s, i + d);
      } else {
        var m := i - |s.toClient|;
        Earlier(s, m);
        assert s.hRecv[i] == Unanswered(s)[m].cause;
      }
    }
  }

  lemma TakesPair(c: Config, s: State)
    requires Queued(c, s)
    ensures |s.toClient| + |s.toServer| <= c.recvCap
    ensures s.toClient != [] ==> s.hRecv != [] && s.toClient[0].cause == s.hRecv[0] && ReplyPaired(s.toClient[0])
  {
    if s.toClient != [] {
      HeadsMatch(s);
      assert InFlight(s)[|InFlight(s)| - |s.toClient|] == s.toClient[0];
    }
  }

  /**
   * In every reachable state, whatever packets and timers did, the entries of h_recv are those of the replies on the
   * wire, then of the messages on the wire, then the sender's own. So each reply is given to the entry its message was
   * written for: an answered request to a packet from that LAN endpoint, an acknowledged release to what asked for it.
   */
  lemma FifoMatches(c: Config, s0: State, run: seq<Action>)
    requires Start(c, s0) && Legal(c, s0, run)
    ensures var s := After(c, s0, run);
      && s.hRecv == ReplyCauses(s.toClient) + MessageCauses(s.toServer) + Early(s)
      && (s.receiver.Holding? ==> s.receiver.reply.cause == s.receiver.entry)
      && (s.toClient != [] ==> s.hRecv != [] && s.toClient[0].cause == s.hRecv[0] && ReplyPaired(s.toClient[0]))
      && (forall i, j :: 0 <= i < j < |s.hRecv| ==> s.hRecv[i].item.id < s.hRecv[j].item.id)
      && |s.toClient| + |s.toServer| <= c.recvCap
  {
    hide Start, Legal, Items, InFlight, Unanswered, ReplyCauses, MessageCauses, Paired, Ordered, Next, ReplyPaired;
    StartQueued(c, s0);
    RunQueued(c, s0, run);
    var s := After(c, s0, run);
    Numbered(s);
    TakesPair(c, s);
  }

  // ---- nothing gets stuck ----

  /** Thread steps still to be made. */
  function Work(s: State): nat {
    6 * |s.hSend| + (match s.sender case Idle => 0 case Composed(_) => 5 case Pushed(_) => 4)
    + 3 * |s.toServer| + 2 * |s.toClient| + if s.receiver.Waiting? then 0 else 1
  }

  /** A thread step is one of the steps counted, unless it is the last because a thread exits. */
  lemma WorkDrops(c: Config, s: State, a: Action)
    requires Enabled(c, s, a) && Internal(a)
    ensures Work(s) > 0 && (Next(c, s, a).failed || Work(Next(c, s, a)) == Work(s) - 1)
  {
    hide Answer, Apply, Compose, Items;
  }

  /** However the threads are scheduled, they make no more steps than were to be made. */
  lemma {:induction false} ThreadsEnd(c: Config, s: State, run: seq<Action>)
    requires Legal(c, s, run) && forall i :: 0 <= i < |run| ==> Internal(run[i])
    ensures |run| <= Work(s) && (After(c, s, run).failed || Work(After(c, s, run)) == Work(s) - |run|)
    decreases |run|
  {
    hide Next, Work;
    if run != [] {
      assert Internal(run[0]);
      WorkDrops(c, s, run[0]);
      var s' := Next(c, s, run[0]);
      if s'.failed {
        assert run[1..] == [];
      } else {
        assert forall i :: 0 <= i < |run[1..]| ==> run[1..][i] == run[i + 1];
        ThreadsEnd(c, s', run[1..]);
      }
    }
  }

  lemma FreeSpot(nodes: Live) returns (spot: Ptr)
    ensures spot != Arena.NULL && spot !in nodes
  {
    spot := Above(nodes.Keys);
  }

  lemma {:induction false} Above(s: set<Ptr>) returns (n: Ptr)
    ensures n > 0 && forall p :: p in s ==> p < n
    decreases s
  {
    if s == {} {
      n := 1;
    } else {
      var p :| p in s;
      var l := Above(s - {p});
      n := if p < l then l else p + 1;
      assert forall q :: q in s ==> q == p || q in s - {p};
    }
  }

  /** A full h_recv only makes the sender wait: as long as anything is under way, some thread can make a step. */
  lemma SomeStep(c: Config, s: State) returns (a: Action)
    requires Queued(c, s) && !s.failed && c.recvCap > 0 && Work(s) > 0
    ensures Internal(a) && Enabled(c, s, a)
  {
    hide Ordered, Paired, Items, InFlight, Unanswered, MessageCauses, ReplyCauses;
    if s.receiver.Holding? {
      var spot := FreeSpot(s.nodes);
      a := Change(spot);
    } else if s.toClient != [] {
      HeadsMatch(s);
      a := Take;
    } else if s.toServer != [] {
      a := Serve;
    } else if s.sender.Pushed? {
      a := Send;
    } else if s.sender.Composed? {
      assert s.hRecv == [];
      a := Push;
    } else {
      a := Pop;
    }
  }

  /** From every state the threads can go on until there is nothing left to do or one of them stops. */
  lemma {:induction false} Finishes(c: Config, s: State) returns (run: seq<Action>)
    requires Queued(c, s) && !s.failed && c.recvCap > 0
    ensures Legal(c, s, run) && (After(c, s, run).failed || Work(After(c, s, run)) == 0)
    ensures forall i :: 0 <= i < |run| ==> Internal(run[i])
    decreases Work(s)
  {
    hide Queued, Next, Enabled, Work;
    run := [];
    if Work(s) > 0 {
      var a := SomeStep(c, s);
      WorkDrops(c, s, a);
      NextQueued(c, s, a);
      var s' := Next(c, s, a);
      if !s'.failed {
        run := Finishes(c, s');
      }
      run := [a] + run;
    }
  }
}
