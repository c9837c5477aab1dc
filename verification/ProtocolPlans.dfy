/** Two items on their way through an otherwise idle system, however the threads are scheduled. */
module ProtocolPlans {
  import opened Lookups
  import opened Pools
  import opened Sessions
  import opened Verdicts
  import opened Protocol
  import opened ProtocolFifo
  import opened ProtocolReplica

  // ---- two items in an otherwise idle system ----

  /** What the second item comes to once it is composed: its line, the server, the reply, and the table, if any. */
  datatype Tail = Tail(message: Message, server: Server, reply: Reply, nodes: Option<Live>)

  /**
   * Two items. Until the second comes the table is n0, or d0 once the first has run its course; from then on n1 or d1.
   * The second is composed early, from n1, or late, from d1. The plan is for a second item that comes before the first
   * has run its course, after it has, or either.
   */
  datatype Plan = Plan(
    before: bool, after: bool, x: Item, y: Item, arrival: Action, count: nat, n0: Live, d0: Live, n1: Live, d1: Live,
    message: Message, v0: Server, v1: Server, reply: Reply, early: Tail, late: Option<Tail>)

  /** The release t.message, answered by the server in state v and applied to nodes. */
  ghost predicate Answered(k: Limits, v: Server, nodes: Live, t: Tail) {
    var msg := t.message;
    && msg.Release? && t.reply == ReleaseAck(msg.m, msg.cause)
    && Answer(k, v, msg) == (t.server, Some(t.reply)) && t.nodes == Apply(nodes, t.reply, msg.cause, 1)
  }

  /** The plan is what sender, server and receiver make of the two items. */
  ghost predicate Correct(c: Config, p: Plan) {
    && Compose(p.n0, p.x) == Some(p.message) && (p.before ==> Compose(p.n1, p.x) == Some(p.message))
    && p.message.Release? && p.reply == ReleaseAck(p.message.m, p.message.cause)
    && Answer(c.limits, p.v0, p.message) == (p.v1, Some(p.reply))
    && Apply(p.n0, p.reply, p.message.cause, 1) == Some(p.d0)
    && (p.before ==>
          && Apply(p.n1, p.reply, p.message.cause, 1) == Some(p.d1)
          && Compose(p.n1, p.y) == Some(p.early.message)
          && Answered(c.limits, p.v1, p.d1, p.early))
    && Compose(p.d1, p.y) == (if p.late.Some? then Some(p.late.value.message) else None)
    && (p.late.Some? ==> Answered(c.limits, p.v1, p.d1, p.late.value))
  }

  // An item is in h_send (0), composed (1), pushed (2), sent (3), answered (4), taken (5) or done (6);
  // the second is at -1 before it comes.

  predicate Reached(p: Plan, i: int, j: int) {
    && 0 <= i <= 6 && -1 <= j <= i && (j == 1 || j == 2 ==> i >= 3) && (j >= 5 ==> i == 6)
    && (i < 6 && j >= 0 ==> p.before)
  }

  /** The system with the first item at i and the second at j. */
  function Stage(p: Plan, w: Tail, i: int, j: int): (s: State)
    requires Reached(p, i, j) && (j == 6 ==> w.nodes.Some?)
    ensures !s.failed
  {
    State(
      (if i == 0 then [p.x] else []) + (if j == 0 then [p.y] else []),
      if i == 1 then Composed(p.message) else if i == 2 then Pushed(p.message)
      else if j == 1 then Composed(w.message) else if j == 2 then Pushed(w.message) else Idle,
      (if 2 <= i <= 4 then [p.message.cause] else []) + (if 2 <= j <= 4 then [w.message.cause] else []),
      (if i == 3 then [p.message] else []) + (if j == 3 then [w.message] else []),
      if i <= 3 then p.v0 else if j <= 3 then p.v1 else w.server,
      (if i == 4 then [p.reply] else []) + (if j == 4 then [w.reply] else []),
      if i == 5 then Holding(p.reply, p.message.cause)
      else if j == 5 then Holding(w.reply, w.message.cause) else Waiting,
      if j == -1 then (if i < 6 then p.n0 else p.d0)
      else if i < 6 then p.n1 else if j < 6 then p.d1 else w.nodes.value,
      p.count + (if j == -1 then 1 else 2), false)
  }

  lemma StageWork(p: Plan, w: Tail, i: int, j: int)
    requires Reached(p, i, j) && (j == 6 ==> w.nodes.Some?)
    ensures Work(Stage(p, w, i, j)) == 12 - i - (if j == -1 then 6 else j)
  {
  }

  lemma AnySpot(nodes: Live, r: Reply, e: Entry, spot: Ptr)
    requires r.ReleaseAck?
    ensures Apply(nodes, r, e, spot) == Apply(nodes, r, e, 1)
  {
  }

  /** What the sender's Pop does. */
  lemma PopStage(c: Config, p: Plan, w: Tail, i: int, j: int)
    requires Correct(c, p) && Reached(p, i, j) && (j == 6 ==> w.nodes.Some?) && Enabled(c, Stage(p, w, i, j), Pop)
    ensures (i == 0 || (i >= 3 && j == 0))
    ensures var t := Next(c, Stage(p, w, i, j), Pop);
      if i == 0 then t == Stage(p, w, 1, j)
      else if i < 6 then t == Stage(p, p.early, i, 1)
      else if p.late.Some? then t == Stage(p, p.late.value, i, 1)
      else t.failed && t.hSend == [p.y]
  {
    hide Compose, Answer, Apply;
  }

  lemma PushSendStage(c: Config, p: Plan, w: Tail, i: int, j: int, a: Action)
    requires Reached(p, i, j) && (j == 6 ==> w.nodes.Some?)
    requires Enabled(c, Stage(p, w, i, j), a) && (a.Push? || a.Send?)
    ensures var k := if a.Push? then 1 else 2;
      && (i == k || j == k)
      && Next(c, Stage(p, w, i, j), a) == if i == k then Stage(p, w, i + 1, j) else Stage(p, w, i, j + 1)
  {
    hide Compose, Answer, Apply;
  }

  lemma ServeStage(c: Config, p: Plan, w: Tail, i: int, j: int)
    requires Correct(c, p) && Reached(p, i, j) && (j == 6 ==> w.nodes.Some?) && Enabled(c, Stage(p, w, i, j), Serve)
    requires j >= 1 ==> Answered(c.limits, p.v1, p.d1, w)
    ensures i == 3 || j == 3
    ensures Next(c, Stage(p, w, i, j), Serve) == if i == 3 then Stage(p, w, 4, j) else Stage(p, w, i, 4)
  {
    hide Compose, Answer, Apply;
  }

  lemma TakeStage(c: Config, p: Plan, w: Tail, i: int, j: int)
    requires Reached(p, i, j) && (j == 6 ==> w.nodes.Some?) && Enabled(c, Stage(p, w, i, j), Take)
    ensures i == 4 || (i == 6 && j == 4)
    ensures Next(c, Stage(p, w, i, j), Take) == if i == 4 then Stage(p, w, 5, j) else Stage(p, w, i, 5)
  {
  }

  lemma ChangeStage(c: Config, p: Plan, w: Tail, i: int, j: int, spot: Ptr)
    requires Correct(c, p) && Reached(p, i, j) && (j == 6 ==> w.nodes.Some?)
    requires Enabled(c, Stage(p, w, i, j), Change(spot))
    requires j >= 1 ==> Answered(c.limits, p.v1, p.d1, w)
    ensures i == 5 || j == 5
    ensures var t := Next(c, Stage(p, w, i, j), Change(spot));
      if i == 5 then t == Stage(p, w, 6, j)
      else if w.nodes.Some? then t == Stage(p, w, 6, 6)
      else t.failed && t.hSend == []
  {
    var s := Stage(p, w, i, j);
    AnySpot(s.nodes, s.receiver.reply, s.receiver.entry, spot);
    hide Compose, Answer, Apply;
  }

  // ---- every schedule ----

  predicate Popped(run: seq<Action>) {
    exists b :: 0 <= b < |run| && run[b].Pop?
  }

  /** The sender takes up something after the receiver first changed the table. */
  predicate Late(run: seq<Action>) {
    run != [] && if run[0].Change? then Popped(run) else Late(run[1..])
  }

  /** The system is done, or stopped. */
  ghost predicate Over(s: State) {
    s.failed || Work(s) == 0
  }

  /** What the second item comes to if run goes on from the stage i, j; None where the sender finds nothing. */
  function Outcome(p: Plan, w: Tail, i: int, j: int, run: seq<Action>): Option<Tail> {
    if j >= 1 then Some(w) else if i == 6 || Late(run) then p.late else Some(p.early)
  }

  /** From the stage i, j on everything goes as the plan says. */
  ghost predicate AsPlanned(c: Config, p: Plan, w: Tail, i: int, j: int, run: seq<Action>)
    requires Reached(p, i, j) && (j == 6 ==> w.nodes.Some?) && Legal(c, Stage(p, w, i, j), run)
  {
    var t, o := After(c, Stage(p, w, i, j), run), Outcome(p, w, i, j, run);
    && (Over(t) ==> (j < 1 <==> Popped(run)))
    && (Over(t) ==> (t.failed <==> o.None? || o.value.nodes.None?))
    && (t.failed ==> t.hSend == if o.None? then [p.y] else [])
    && (Over(t) && !t.failed ==> t == Stage(p, o.value, 6, 6))
  }

  /** The second item comes after the first has run its course only into the table the plan has for that. */
  ghost predicate Arrives(c: Config, p: Plan) {
    && !Internal(p.arrival)
    && forall i ::
         && 0 <= i <= 6 && (if i < 6 then p.before else p.after)
         && Enabled(c, Stage(p, p.early, i, -1), p.arrival) ==>
         Next(c, Stage(p, p.early, i, -1), p.arrival) == Stage(p, p.early, i, 0)
  }

  /** The receiver changes the table before position e. */
  predicate Changed(run: seq<Action>, e: int) {
    exists k :: 0 <= k < |run| && k < e && run[k].Change?
  }

  /** From the stage i on the second item comes when the plan says. */
  predicate Timely(p: Plan, i: int, run: seq<Action>, e: int) {
    e >= 0 ==> if i == 6 || Changed(run, e) then p.after else p.before
  }

  lemma TimelyTail(p: Plan, i: int, i': int, run: seq<Action>, e: int)
    requires Timely(p, i, run, e) && run != [] && e > 0 && (i' == 6 <==> i == 6 || run[0].Change?)
    ensures Timely(p, i', run[1..], e - 1)
  {
    if k :| 0 <= k < |run| && k < e && run[k].Change? {
      assert k > 0 ==> run[1..][k - 1].Change?;
    }
    if k :| 0 <= k < |run[1..]| && k < e - 1 && run[1..][k].Change? {
      assert run[k + 1].Change?;
    }
  }

  /** All steps are steps of the threads but the one at e, if any, at which the second item comes. */
  ghost predicate OneArrival(p: Plan, run: seq<Action>, e: int) {
    && -1 <= e < |run| && (e >= 0 ==> run[e] == p.arrival)
    && forall k :: 0 <= k < |run| && k != e ==> Internal(run[k])
  }

  lemma OneArrivalTail(p: Plan, run: seq<Action>, e: int)
    requires OneArrival(p, run, e) && run != []
    ensures OneArrival(p, run[1..], if e >= 0 then e - 1 else -1)
  {
    assert forall k :: 0 <= k < |run[1..]| ==> run[1..][k] == run[k + 1];
  }

  lemma PoppedTail(run: seq<Action>)
    requires run != []
    ensures Popped(run) <==> run[0].Pop? || Popped(run[1..])
  {
    if b :| 0 <= b < |run| && run[b].Pop? {
      assert b > 0 ==> run[1..][b - 1].Pop?;
    }
    if b :| 0 <= b < |run[1..]| && run[1..][b].Pop? {
      assert run[b + 1].Pop?;
    }
  }

  lemma {:induction false} LatePopped(run: seq<Action>)
    ensures Late(run) ==> Popped(run)
  {
    if run != [] {
      PoppedTail(run);
      LatePopped(run[1..]);
    }
  }

  /** From one stage to the next by the step a. */
  predicate Moves(p: Plan, w: Tail, i: int, j: int, a: Action, w': Tail, i': int, j': int) {
    && (j >= 1 ==> j' >= 1 && w' == w && !a.Pop?)
    && (j < 1 && j' >= 1 ==> j == 0 && a.Pop? && if i < 6 then w' == p.early else p.late == Some(w'))
    && (j < 1 && j' < 1 ==> j' == j && i < 6 && (i' == 6 <==> a.Change?))
  }

  lemma StageStep(c: Config, p: Plan, w: Tail, i: int, j: int, a: Action) returns (w': Tail, i': int, j': int)
    requires Correct(c, p) && Reached(p, i, j) && (j == 6 ==> w.nodes.Some?)
    requires j >= 1 ==> Answered(c.limits, p.v1, p.d1, w)
    requires Internal(a) && Enabled(c, Stage(p, w, i, j), a)
    ensures var t := Next(c, Stage(p, w, i, j), a);
      if t.failed then
        || (a.Pop? && i == 6 && j == 0 && p.late.None? && t.hSend == [p.y])
        || (a.Change? && j == 5 && w.nodes.None? && t.hSend == [])
      else
        && Reached(p, i', j') && (j' == 6 ==> w'.nodes.Some?) && t == Stage(p, w', i', j')
        && (j' >= 1 ==> Answered(c.limits, p.v1, p.d1, w')) && Moves(p, w, i, j, a, w', i', j')
  {
    hide Stage, Answered, Next, Enabled;
    w', i', j' := w, i, j;
    match a
    case Pop =>
      PopStage(c, p, w, i, j);
      SenderFree(c, p, w, i, j);
      if i == 0 {
        i' := 1;
      } else {
        j' := 1;
        w' := if i < 6 then p.early else if p.late.Some? then p.late.value else w;
      }
    case Push =>
      PushSendStage(c, p, w, i, j, a);
      if i == 1 { i' := 2; } else { j' := 2; }
    case Send =>
      PushSendStage(c, p, w, i, j, a);
      if i == 2 { i' := 3; } else { j' := 3; }
    case Serve =>
      ServeStage(c, p, w, i, j);
      if i == 3 { i' := 4; } else { j' := 4; }
    case Take =>
      TakeStage(c, p, w, i, j);
      if i == 4 { i' := 5; } else { j' := 5; }
    case Change(spot) =>
      ChangeStage(c, p, w, i, j, spot);
      if i == 5 { i' := 6; } else { j' := 6; }
  }

  lemma SenderFree(c: Config, p: Plan, w: Tail, i: int, j: int)
    requires Reached(p, i, j) && (j == 6 ==> w.nodes.Some?) && Enabled(c, Stage(p, w, i, j), Pop)
    ensures j < 1
  {
  }

  lemma OverAtEnd(c: Config, p: Plan, w: Tail, i: int, j: int)
    requires Reached(p, i, j) && (j == 6 ==> w.nodes.Some?) && j != -1
    ensures AsPlanned(c, p, w, i, j, [])
  {
    StageWork(p, w, i, j);
    hide Stage, Work;
    assert !Popped([]);
  }

  /** Before the second item is composed w does not matter. */
  lemma NotYet(p: Plan, w: Tail, i: int, j: int)
    requires Reached(p, i, j) && j < 1
    ensures Stage(p, w, i, j) == Stage(p, p.early, i, j)
  {
  }

  /** By induction over the run: the system stays on the stages of the plan. */
  lemma {:induction false} Runs(c: Config, p: Plan, w: Tail, i: int, j: int, run: seq<Action>, e: int)
    requires Correct(c, p) && Arrives(c, p) && Reached(p, i, j) && (j == 6 ==> w.nodes.Some?)
    requires j >= 1 ==> Answered(c.limits, p.v1, p.d1, w)
    requires Legal(c, Stage(p, w, i, j), run) && OneArrival(p, run, e) && (e >= 0 <==> j == -1) && Timely(p, i, run, e)
    ensures AsPlanned(c, p, w, i, j, run)
    decreases |run|
  {
    hide Stage, Answered, Next, Enabled, Work, Correct;
    if run == [] {
      OverAtEnd(c, p, w, i, j);
      return;
    }
    var a := run[0];
    OneArrivalTail(p, run, e);
    PoppedTail(run);
    LatePopped(run[1..]);
    if e == 0 {
      NotYet(p, w, i, j);
      NotYet(p, w, i, 0);
      Runs(c, p, w, i, 0, run[1..], -1);
    } else {
      var w', i', j' := StageStep(c, p, w, i, j, a);
      var t := Next(c, Stage(p, w, i, j), a);
      if t.failed {
        Halted(c, t, run[1..]);
      } else {
        if e > 0 {
          TimelyTail(p, i, i', run, e);
        }
        Runs(c, p, w', i', j', run[1..], if e > 0 then e - 1 else -1);
      }
    }
  }

  /** A single item ends in one state, whatever the schedule. */
  lemma {:induction false} SoleRuns(c: Config, p: Plan, w: Tail, i: int, run: seq<Action>)
    requires Correct(c, p) && Reached(p, i, -1) && Legal(c, Stage(p, w, i, -1), run)
    requires (forall k :: 0 <= k < |run| ==> Internal(run[k])) && Over(After(c, Stage(p, w, i, -1), run))
    ensures After(c, Stage(p, w, i, -1), run) == Stage(p, p.early, 6, -1)
    decreases |run|
  {
    hide Stage, Answered, Next, Enabled, Work, Correct;
    if run == [] {
      StageWork(p, w, i, -1);
      NotYet(p, w, i, -1);
    } else {
      var w', i', j' := StageStep(c, p, w, i, -1, run[0]);
      assert forall k :: 0 <= k < |run[1..]| ==> run[1..][k] == run[k + 1];
      SoleRuns(c, p, w', i', run[1..]);
    }
  }

  /** The same from the first stage, told without stages. */
  lemma RunsFrom(c: Config, p: Plan, s: State, run: seq<Action>, e: nat)
    requires Correct(c, p) && Arrives(c, p) && s == Stage(p, p.early, 0, -1) && Legal(c, s, run)
    requires e < |run| && run[e] == p.arrival && forall i :: 0 <= i < |run| && i != e ==> Internal(run[i])
    requires (if Changed(run, e) then p.after else p.before) && Over(After(c, s, run))
    ensures var t, o := After(c, s, run), if Late(run) then p.late else Some(p.early);
      && (t.failed <==> o.None? || o.value.nodes.None?)
      && (t.failed ==> t.hSend == if o.None? then [p.y] else [])
      && (!t.failed ==> o.value.nodes.Some? && t.nodes == o.value.nodes.value && t.server == o.value.server)
  {
    hide Correct, Arrives, Legal, After, Over, Late, Changed;
    Runs(c, p, p.early, 0, -1, run, e);
  }

  lemma Halted(c: Config, t: State, run: seq<Action>)
    requires t.failed && Legal(c, t, run)
    ensures run == [] && !Popped(run) && After(c, t, run) == t
  {
  }

  lemma TimerComes(c: Config, pl: Plan, p: Ptr)
    requires pl.arrival == Expire(p) && pl.y == Expired(pl.count + 1, p) && pl.n1 == pl.n0 && pl.d1 == pl.d0
    ensures Arrives(c, pl)
  {
    hide Compose, Answer, Apply;
  }

  lemma PacketComes(c: Config, pl: Plan, k: Segment, p: Ptr)
    requires pl.arrival == HoldBack(k, p) && pl.y == Held(pl.count + 1, k, p)
    requires pl.before && p in pl.n0 ==> pl.n1 == Moved(pl.n0, p, k.flags, k.from)
    requires pl.after && p in pl.d0 ==> pl.d1 == Moved(pl.d0, p, k.flags, k.from)
    ensures Arrives(c, pl)
  {
    hide Compose, Answer, Apply, TcpVerdict, Finds, Moved;
  }

  lemma IdleState(c: Config, s: State)
    requires Good(c, s) && Work(s) == 0
    ensures s == State([], Idle, [], [], s.server, [], Waiting, s.nodes, s.count, false)
  {
    GoodParts(c, s);
    Quiet(c, s);
    hide Good, Queued, Table, Mappings, Keyed, Inv, ItemsOk, LinesOk, Replica, Items, InFlight, Unanswered;
  }

  /** The first item comes into an idle system. */
  lemma FirstComes(c: Config, pl: Plan, s: State, nodes: Live)
    requires Good(c, s) && Work(s) == 0 && pl.count == s.count && pl.v0 == s.server && pl.n0 == nodes
    ensures s.(hSend := s.hSend + [pl.x], count := s.count + 1, nodes := nodes) == Stage(pl, pl.early, 0, -1)
  {
    hide Good, Queued, Work, Reached;
    IdleState(c, s);
    assert Reached(pl, 0, -1) by {
      AtFirst(pl);
    }
    assert [] + [pl.x] == [pl.x] + [];
  }

  lemma AtFirst(pl: Plan)
    ensures Reached(pl, 0, -1)
  {
  }
}
