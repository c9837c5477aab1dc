/** The NAT and the pool server as a step system: two rings, two streams, the table a late copy of the server's. */
module Protocol {
  import Arena
  import opened Lookups
  import opened Sessions
  import opened Pools
  import opened Verdicts
  import T = TcpTracker

  /** The sessions of the NAT, each with its flags field. */
  type Live = Nodes<T.State>

  /**
   * What the protocol needs to know of a TCP packet: the side it came from, its endpoints and flags, and whether
   * lan2wan_alias and wan2lan_alias get as far as their table lookup with it.
   */
  datatype Segment = Segment(from: T.Side, src: Endpoint, dst: Endpoint, flags: T.Flags, outward: bool, inward: bool)

  /**
   * What waits in the rings: a packet that wants a mapping, a packet held back because it made the session node
   * unusable, or an expired session. The number id tells packets with the same content apart.
   */
  datatype Item =
    | Syn(id: nat, protocol: U8, lan: Endpoint)
    | Held(id: nat, packet: Segment, node: Ptr)
    | Expired(id: nat, node: Ptr)

  datatype Tag = NoTag | RelL2W | RelW2L | Timeout

  /** A slot of h_recv: the buffer and its opaque field. */
  datatype Entry = Entry(item: Item, tag: Tag)

  // The lines on the two streams. The field cause records the entry a line was written for. It is not part of the
  // line: neither the server nor the receiver looks at it; the sender pushes the entry before it sends the line.

  datatype Message =
    | Request(protocol: U8, lan: Endpoint, cause: Entry)
    | Release(m: Mapping, cause: Entry)

  datatype Reply =
    | RequestAck(m: Mapping, cause: Entry)
    | RequestDiscard(protocol: U8, lan: Endpoint, cause: Entry)
    | ReleaseAck(m: Mapping, cause: Entry)

  /** The sender thread: waiting for h_send, with a message but its entry not yet pushed, or pushed and not yet sent. */
  datatype Sender = Idle | Composed(message: Message) | Pushed(message: Message)

  /** The receiver thread: waiting for a line, or between popping h_recv and changing the table. */
  datatype Receiver = Waiting | Holding(reply: Reply, entry: Entry)

  datatype Server = Server(tcp: Pool, udp: Pool)

  datatype State = State(
    hSend: seq<Item>, sender: Sender, hRecv: seq<Entry>, toServer: seq<Message>,
    server: Server, toClient: seq<Reply>, receiver: Receiver, nodes: Live, count: nat, failed: bool)

  /** The pool's limits and the capacities of the two rings. */
  datatype Config = Config(limits: Limits, sendCap: nat, recvCap: nat)

  // ---- the table ----

  ghost function Table(nodes: Live): set<Mapping> {
    set p | p in nodes :: nodes[p].m
  }

  /** s_delete_for_value; there being nothing to delete makes the receiver exit. */
  ghost function DeleteValue(nodes: Live, m: Mapping): Option<Live> {
    if m in Table(nodes) then Some(nodes - Holders(nodes, m)) else None
  }

  ghost function Holders(nodes: Live, m: Mapping): set<Ptr> {
    set p | p in nodes && nodes[p].m == m
  }

  // ---- what each thread does ----

  /** The message the sender writes for an item, and the tag it pushes the item with; no session makes it exit. */
  ghost function Compose(nodes: Live, x: Item): Option<Message> {
    match x
    case Syn(_, protocol, lan) => Some(Message.Request(protocol, lan, Entry(x, NoTag)))
    case Held(_, k, _) =>
      var a, b := FindLan(nodes, TCP, k.src), FindWan(nodes, TCP, k.dst);
      if a.Some? && a.value in nodes then Some(Message.Release(nodes[a.value].m, Entry(x, RelL2W)))
      else if b.Some? && b.value in nodes then Some(Message.Release(nodes[b.value].m, Entry(x, RelW2L)))
      else None
    case Expired(_, p) => if p in nodes then Some(Message.Release(nodes[p].m, Entry(x, Timeout))) else None
  }

  function ToConn(m: Mapping): Conn {
    Conn(m.lan, m.wan)
  }

  /** mk_message: the answer to one line; releaseConnection throwing leaves the line unanswered. */
  function Answer(k: Limits, v: Server, msg: Message): (Server, Option<Reply>) {
    match msg
    case Request(protocol, lan, cause) =>
      if protocol == TCP then
        var (tcp, r) := Assign(k, v.tcp, lan);
        (v.(tcp := tcp), Some(Acknowledge(protocol, lan, r, cause)))
      else if protocol == UDP then
        var (udp, r) := Assign(k, v.udp, lan);
        (v.(udp := udp), Some(Acknowledge(protocol, lan, r, cause)))
      else (v, Some(RequestDiscard(protocol, lan, cause)))
    case Release(m, cause) =>
      if m.protocol == TCP then
        var (tcp, r) := Pools.Release(v.tcp, ToConn(m));
        (v.(tcp := tcp), if r == Threw then None else Some(ReleaseAck(m, cause)))
      else if m.protocol == UDP then
        var (udp, r) := Pools.Release(v.udp, ToConn(m));
        (v.(udp := udp), if r == Threw then None else Some(ReleaseAck(m, cause)))
      else (v, Some(ReleaseAck(m, cause)))
  }

  function Acknowledge(protocol: U8, lan: Endpoint, r: Option<Conn>, cause: Entry): Reply {
    if r.None? then RequestDiscard(protocol, lan, cause)
    else RequestAck(Mapping(protocol, r.value.lan, r.value.wan), cause)
  }

  /** The flags of a new session; for UDP the zero that S_TF_ESTABLISHED is. */
  function Fresh(m: Mapping): Session<T.State> {
    Session(m, if m.protocol == TCP then T.SynSent else T.Established)
  }

  const SYN := T.Flags(false, true, false, false)

  /** The packet that waited for a mapping goes through lan2wan_alias, where a SYN moves the state of its session. */
  ghost function SentOn(nodes: Live, x: Item): Live {
    if x.Syn? && x.protocol == TCP then
      var q := FindLan(nodes, TCP, x.lan);
      if q.Some? && q.value in nodes then Moved(nodes, q.value, SYN, T.Lan) else nodes
    else nodes
  }

  /**
   * What a reply and the entry popped for it do to the table; None where the receiver exits.
   * spot is the address malloc gives.
   */
  ghost function Apply(nodes: Live, r: Reply, e: Entry, spot: Ptr): Option<Live> {
    match r
    case RequestAck(m, _) =>
      Some(if LanTaken(Table(nodes), m) || WanTaken(Table(nodes), m) then nodes
           else SentOn(nodes[spot := Fresh(m)], e.item))
    case RequestDiscard(_, _, _) => Some(nodes)
    case ReleaseAck(m, _) =>
      match e.tag
      case NoTag => DeleteValue(nodes, m)
      case Timeout =>
        if e.item.Expired? && e.item.node in nodes then Some(nodes - {e.item.node}) else None
      case RelL2W =>
        if !e.item.Held? then None
        else Forwarded(nodes, if e.item.packet.outward then FindLan(nodes, TCP, e.item.packet.src) else None,
                       e.item.packet.flags, T.Lan, m)
      case RelW2L =>
        if !e.item.Held? then None
        else Forwarded(nodes, if e.item.packet.inward then FindWan(nodes, TCP, e.item.packet.dst) else None,
                       e.item.packet.flags, T.Wan, m)
  }

  /** The packet goes through translation again, where it finds p; only if it is let through is the session deleted. */
  ghost function Forwarded(nodes: Live, p: Option<Ptr>, f: T.Flags, from: T.Side, m: Mapping): Option<Live> {
    if p.None? || p.value !in nodes then Some(nodes)
    else
      var (code, st) := TcpVerdict(nodes[p.value].state, f, from);
      var t := nodes[p.value := nodes[p.value].(state := st)];
      if code == ALIAS_DOALIAS then DeleteValue(t, m) else Some(t)
  }

  // ---- steps ----

  datatype Action =
    | Arrive(protocol: U8, lan: Endpoint)
    | Expire(node: Ptr)
    | HoldBack(packet: Segment, node: Ptr)
    | Traffic(from: T.Side, flags: T.Flags, node: Ptr)
    | Pop | Push | Send | Serve | Take | Change(spot: Ptr)

  /** Steps of the four threads, as against packets and timers. */
  predicate Internal(a: Action) {
    a.Pop? || a.Push? || a.Send? || a.Serve? || a.Take? || a.Change?
  }

  function ReplyItems(rs: seq<Reply>): (q: seq<Item>)
    ensures |q| == |rs| && forall i :: 0 <= i < |q| ==> q[i] == rs[i].cause.item
  {
    if rs == [] then [] else [rs[0].cause.item] + ReplyItems(rs[1..])
  }

  function MessageItems(ms: seq<Message>): (q: seq<Item>)
    ensures |q| == |ms| && forall i :: 0 <= i < |q| ==> q[i] == ms[i].cause.item
  {
    if ms == [] then [] else [ms[0].cause.item] + MessageItems(ms[1..])
  }

  function ReplyCauses(rs: seq<Reply>): (q: seq<Entry>)
    ensures |q| == |rs| && forall i :: 0 <= i < |q| ==> q[i] == rs[i].cause
  {
    if rs == [] then [] else [rs[0].cause] + ReplyCauses(rs[1..])
  }

  function MessageCauses(ms: seq<Message>): (q: seq<Entry>)
    ensures |q| == |ms| && forall i :: 0 <= i < |q| ==> q[i] == ms[i].cause
  {
    if ms == [] then [] else [ms[0].cause] + MessageCauses(ms[1..])
  }

  /** The replies not yet applied, oldest first. */
  function InFlight(s: State): seq<Reply> {
    (if s.receiver.Holding? then [s.receiver.reply] else []) + s.toClient
  }

  /** The messages not yet answered, oldest first; the last may still be with the sender. */
  function Unanswered(s: State): seq<Message> {
    s.toServer + if s.sender.Idle? then [] else [s.sender.message]
  }

  /** Everything that has not run its course, oldest first. */
  function Items(s: State): seq<Item> {
    ReplyItems(InFlight(s)) + MessageItems(Unanswered(s)) + s.hSend
  }

  predicate Names(x: Item, p: Ptr) {
    !x.Syn? && x.node == p
  }

  /** A release of the session is under way. */
  ghost predicate Leaving(s: State, p: Ptr) {
    exists i :: 0 <= i < |Items(s)| && Names(Items(s)[i], p)
  }

  /** The packet is looked up to the session of m. */
  predicate Finds(k: Segment, m: Mapping) {
    m.protocol == TCP && if k.from == T.Lan then k.outward && k.src == m.lan else k.inward && k.dst == m.wan
  }

  /** What can happen next. */
  ghost predicate Enabled(c: Config, s: State, a: Action) {
    !s.failed &&
    match a
    case Arrive(protocol, lan) => |s.hSend| < c.sendCap
    case Expire(p) => |s.hSend| < c.sendCap && p in s.nodes
    case HoldBack(k, p) =>
      |s.hSend| < c.sendCap && p in s.nodes && Finds(k, s.nodes[p].m) &&
      TcpVerdict(s.nodes[p].state, k.flags, k.from).0 == ALIAS_RESET_TABLE
    case Traffic(from, f, p) =>
      p in s.nodes && s.nodes[p].m.protocol == TCP && TcpVerdict(s.nodes[p].state, f, from).0 != ALIAS_RESET_TABLE
    case Pop => s.sender.Idle? && s.hSend != []
    case Push => s.sender.Composed? && |s.hRecv| < c.recvCap
    case Send => s.sender.Pushed?
    case Serve => s.toServer != []
    case Take => s.receiver.Waiting? && s.toClient != [] && s.hRecv != []
    case Change(spot) => s.receiver.Holding? && spot != Arena.NULL && spot !in s.nodes
  }

  /** The table after a packet moved the state of p. */
  function Moved(nodes: Live, p: Ptr, f: T.Flags, from: T.Side): Live
    requires p in nodes
  {
    nodes[p := nodes[p].(state := TcpVerdict(nodes[p].state, f, from).1)]
  }

  /** A thread that exits, and a server that closes the connection, stop the system where it is. */
  ghost function Next(c: Config, s: State, a: Action): State
    requires Enabled(c, s, a)
  {
    match a
    case Arrive(protocol, lan) => s.(hSend := s.hSend + [Syn(s.count, protocol, lan)], count := s.count + 1)
    case Expire(p) => s.(hSend := s.hSend + [Expired(s.count, p)], count := s.count + 1)
    case HoldBack(k, p) =>
      s.(hSend := s.hSend + [Held(s.count, k, p)], count := s.count + 1, nodes := Moved(s.nodes, p, k.flags, k.from))
    case Traffic(from, f, p) => s.(nodes := Moved(s.nodes, p, f, from))
    case Pop =>
      var msg := Compose(s.nodes, s.hSend[0]);
      if msg.None? then s.(failed := true) else s.(hSend := s.hSend[1..], sender := Composed(msg.value))
    case Push => s.(hRecv := s.hRecv + [s.sender.message.cause], sender := Pushed(s.sender.message))
    case Send => s.(toServer := s.toServer + [s.sender.message], sender := Idle)
    case Serve =>
      var (v, r) := Answer(c.limits, s.server, s.toServer[0]);
      if r.None? then s.(failed := true)
      else s.(toServer := s.toServer[1..], server := v, toClient := s.toClient + [r.value])
    case Take =>
      s.(toClient := s.toClient[1..], hRecv := s.hRecv[1..], receiver := Holding(s.toClient[0], s.hRecv[0]))
    case Change(spot) =>
      var t := Apply(s.nodes, s.receiver.reply, s.receiver.entry, spot);
      if t.None? then s.(failed := true) else s.(receiver := Waiting, nodes := t.value)
  }

  /** After the server took the addresses of the initialize message. */
  ghost predicate Start(c: Config, s: State) {
    && s.hSend == [] && s.sender.Idle? && s.hRecv == [] && s.toServer == [] && s.toClient == []
    && s.receiver.Waiting? && s.nodes == map[] && s.count == 0 && !s.failed
    && Inv(c.limits, s.server.tcp) && Inv(c.limits, s.server.udp)
    && s.server.tcp.db == map[] && s.server.udp.db == map[]
  }

  ghost predicate Legal(c: Config, s: State, run: seq<Action>)
    decreases |run|
  {
    run == [] || (Enabled(c, s, run[0]) && Legal(c, Next(c, s, run[0]), run[1..]))
  }

  ghost function After(c: Config, s: State, run: seq<Action>): State
    requires Legal(c, s, run)
    decreases |run|
  {
    if run == [] then s else After(c, Next(c, s, run[0]), run[1..])
  }

  /** The entry the sender has pushed before its message is sent. */
  function Early(s: State): seq<Entry> {
    if s.sender.Pushed? then [s.sender.message.cause] else []
  }

  // ---- what the wire and the server hold ----

  /** What one reply does to the table once it is applied. */
  ghost function Effect(t: set<Mapping>, r: Reply): set<Mapping> {
    match r
    case RequestAck(m, _) => Inserted(t, m)
    case RequestDiscard(_, _, _) => t
    case ReleaseAck(m, _) => t - {m}
  }

  ghost function Replay(t: set<Mapping>, rs: seq<Reply>): set<Mapping>
    decreases |rs|
  {
    if rs == [] then t else Replay(Effect(t, rs[0]), rs[1..])
  }

  ghost function Conns(s: Pool): set<Conn> {
    set h, c | h in s.db && c in s.db[h] :: c
  }

  ghost function Mapped(protocol: U8, cs: set<Conn>): set<Mapping> {
    set c | c in cs :: Mapping(protocol, c.lan, c.wan)
  }

  /** The mappings in tcpDB and udpDB. */
  ghost function Mappings(v: Server): set<Mapping> {
    Mapped(TCP, Conns(v.tcp)) + Mapped(UDP, Conns(v.udp))
  }

  // ---- when a held packet's release is its session's ----

  /**
   * What decides whether the release of a held packet takes its session out on both sides, seen when the sender pops
   * it: the session is reset, not in the unknown state; no other session has the packet's source as its LAN endpoint;
   * and if its own has, lan2wan_alias would not stop the packet before the lookup.
   */
  ghost predicate Sound(nodes: Live, x: Item) {
    x.Held? ==>
      && x.node in nodes && nodes[x.node].state == T.Reset
      && var q := FindLan(nodes, TCP, x.packet.src); q.None? || (q == Some(x.node) && x.packet.outward)
  }

  /** A held packet that is popped is sound, and no session gets a second release while one of it is under way. */
  ghost predicate Orderly(s: State, a: Action) {
    && (a.Pop? && s.hSend != [] ==> Sound(s.nodes, s.hSend[0]))
    && (a.Expire? || a.HoldBack? ==> !Leaving(s, a.node))
  }

  /** Every step of the run is orderly. */
  ghost predicate Directed(c: Config, s: State, run: seq<Action>)
    requires Legal(c, s, run)
    decreases |run|
  {
    run == [] || (Orderly(s, run[0]) && Directed(c, Next(c, s, run[0]), run[1..]))
  }
}
