/** The worker session as a transducer: each input changes the session and produces effects in order. */
module SessionModel {
  import opened Basics
  import opened LruModel
  import C = ConnModel
  import S = SyncModel

  datatype Event =
    | Started(conf: WorkerConfig) | Stopped | Online | Offline
    | Delivery(topic: Topic)
    | SyncDownloadOn | SyncDownloadOff
    | SyncRequest(conf: WorkerConfig) | SyncBegin(broker: Uuid) | SyncElement(topic: Topic)
    | SyncSuccess(broker: Uuid) | SyncError(broker: Uuid)

  /** What a session does to the outside: events for the client, messages to brokers, numbers into the mailbox. */
  datatype Effect =
    | Emit(event: Event)
    | Publish(topic: Topic)
    | Announce
    | AskSnapshot(seqn: nat, conf: WorkerConfig)
    | Notify(number: nat)
    | CloseConn | OpenConn(groups: set<Bytes>) | CloseSnap | OpenSnap

  datatype Session = Session(
    alive: bool, conf: WorkerConfig, conn: C.Conn, sync: S.Sync,
    online: bool, snapshot: bool, broker: Uuid, seqNum: nat, seen: seq<(Uuid, nat)>)

  /** `BadStart` has a configuration that cannot be decoded, `BadDispatch` a payload with no room for a number. */
  datatype Op =
    | Start(conf: WorkerConfig) | Stop | Dispatch(topic: Topic) | Sync | Unknown
    | BadStart | BadDispatch

  /** What can reach a session. An undecodable message is `None`; its exception ends the session. */
  datatype Input =
    | Oper(op: Op)
    | Snap(msg: Option<SnapMsg>) | UnknownSnap
    | Recv(group: Bytes, payload: Option<Topic>)
    | ConnRetry | ConnTimeout | SyncTimeout
    | RetryExpires | ConnExpires | SyncExpires

  const INDEX_MAX: nat := 0
  const RETRY_MAX: nat := 1

  const BLANK: WorkerConfig := WorkerConfig(NIL_UUID, 0, false, [], [], [], [])

  const FRESH: Session :=
    Session(true, BLANK, C.INITIAL, S.Initial(INDEX_MAX, RETRY_MAX), false, false, NIL_UUID, 0, [])

  /** A session and the effects of getting there. */
  datatype Out = Out(s: Session, fx: seq<Effect>)

  // ---------------------------------------------------------------- callbacks

  function NotifyConnection(s: Session, up: bool): Out {
    if up == s.online then Out(s, []) else Out(s.(online := up), [Emit(if up then Online else Offline)])
  }

  function NotifySnapshot(s: Session, on: bool): Out {
    if on == s.snapshot then Out(s, [])
    else Out(s.(snapshot := on), [Emit(if on then SyncDownloadOn else SyncDownloadOff)])
  }

  /** Subscribing by name to the reserved group makes opening the sockets throw. */
  predicate CannotOpen(conf: WorkerConfig) { !conf.topicsAll && UPDT in conf.topicsNames }

  /** The groups the delivery socket joins: keepalives, and either all topics or those of the subscribed names. */
  function Joined(conf: WorkerConfig): set<Bytes> {
    {HUGZ} + if conf.topicsAll then {UPDT} else NameGroups(conf.topicsNames)
  }

  function NameGroups(names: seq<Bytes>): set<Bytes> {
    if names == [] then {} else NameGroups(names[..|names| - 1]) + {CString(names[|names| - 1])}
  }

  function ConnAct(s: Session, a: C.Act): Out {
    if !s.alive then Out(s, [])
    else match a
      case Close => Out(s, [CloseConn])
      case Open => if CannotOpen(s.conf) then Out(s.(alive := false), []) else Out(s, [OpenConn(Joined(s.conf))])
      case Pong => Out(s, [Announce])
      case Changed(p) => NotifyConnection(s, p == C.Stable)
  }

  function OnSyncChanged(s: Session, p: S.Phase): Out {
    match p
    case Halted =>
      var r := NotifySnapshot(s.(broker := NIL_UUID), false);
      Out(r.s, (if s.snapshot then [Emit(SyncError(s.broker))] else []) + r.fx)
    case Synced =>
      var r := NotifySnapshot(s, false);
      Out(r.s, [Emit(SyncSuccess(s.broker))] + r.fx)
    case Failed =>
      var r := NotifySnapshot(s, false);
      Out(r.s, [Emit(SyncError(s.broker))] + r.fx)
    case Download => NotifySnapshot(s, true)
  }

  function SyncAct(s: Session, a: S.Act): Out {
    match a
    case Close(_) => Out(s, [CloseSnap])
    case Open(_) => Out(s, [OpenSnap])
    case Request(_, n) =>
      var conf := s.conf.(seqNum := s.seqNum);
      Out(s, [AskSnapshot(n, conf), Emit(SyncRequest(conf))])
    case Changed(p) => OnSyncChanged(s, p)
  }

  function ConnActs(s: Session, acts: seq<C.Act>): Out {
    if acts == [] then Out(s, [])
    else
      var p := ConnActs(s, acts[..|acts| - 1]);
      var q := ConnAct(p.s, acts[|acts| - 1]);
      Out(q.s, p.fx + q.fx)
  }

  function SyncActs(s: Session, acts: seq<S.Act>): Out {
    if acts == [] then Out(s, [])
    else
      var p := SyncActs(s, acts[..|acts| - 1]);
      var q := SyncAct(p.s, acts[|acts| - 1]);
      Out(q.s, p.fx + q.fx)
  }

  function ConnStep(s: Session, i: C.Input): Out {
    var n := C.Next(s.conn, i);
    ConnActs(s.(conn := n.0), n.1)
  }

  function SyncStep(s: Session, i: S.Input): Out {
    var n := S.Next(s.sync, i);
    SyncActs(s.(sync := n.0), n.1)
  }

  // ---------------------------------------------------------------- handlers

  predicate Accepts(s: Session, t: Topic) { t.seqn > LastNumber(s.seen, t.worker) }

  /** The duplicate filter; an accepted own topic with a higher number raises the session's number. */
  function AcceptTopic(s: Session, t: Topic): Out {
    if !Accepts(s, t) then Out(s, [])
    else
      var r := s.(seen := Put(0, s.seen, t.worker, t.seqn));
      if t.worker != s.conf.uuid || t.seqn <= s.seqNum then Out(r, [])
      else Out(r.(seqNum := t.seqn), [Notify(t.seqn)])
  }

  function OnOper(s: Session, op: Op): Out {
    match op
    case Start(conf) =>
      var r := ConnStep(s.(conf := conf, seqNum := conf.seqNum), C.Input.Start);
      Out(r.s, [Emit(Started(conf))] + r.fx)
    case Stop =>
      var p := ConnStep(s, C.Input.Stop);
      var q := SyncStep(p.s, S.Halt);
      Out(q.s.(alive := false), p.fx + q.fx + [Emit(Stopped)])
    case Dispatch(t) =>
      var n := (s.seqNum + 1) % SEQ_LIMIT;
      Out(s.(seqNum := n), [Notify(n), Publish(t.(seqn := n))])
    case Sync => SyncStep(s.(broker := NIL_UUID), S.Input.Start)
    case Unknown => Out(s, [])
    case BadStart => Out(s.(alive := false), [])
    case BadDispatch =>
      var n := (s.seqNum + 1) % SEQ_LIMIT;
      Out(s.(seqNum := n, alive := false), [Notify(n)])
  }

  function OnSnap(s: Session, msg: SnapMsg): Out {
    match msg
    case Begin(_, u) => Out(s.(broker := u), [Emit(SyncBegin(u))])
    case Elem(n, t) =>
      var p := AcceptTopic(s, t);
      var q := SyncStep(p.s, S.Reply(0, n, S.Snapshot));
      Out(q.s, p.fx + [Emit(SyncElement(t))] + q.fx)
    case Compl(n, u) => SyncStep(s.(broker := u), S.Reply(0, n, S.Complete))
  }

  /** Groups whose payload is a topic: the common one and the subscribed names. */
  predicate TopicGroup(s: Session, group: Bytes) { group != HUGZ && (group == UPDT || group in s.conf.topicsNames) }

  function OnRecv(s: Session, group: Bytes, payload: Option<Topic>): Out {
    if group == HUGZ then ConnStep(s, C.Ping)
    else if !TopicGroup(s, group) then Out(s, [])
    else if payload.None? then Out(s.(alive := false), [])
    else
      var r := AcceptTopic(s, payload.value);
      Out(r.s, r.fx + if Accepts(s, payload.value) then [Emit(Delivery(payload.value))] else [])
  }

  function Step(s: Session, i: Input): Out {
    if !s.alive then Out(s, [])
    else match i
      case Oper(op) => OnOper(s, op)
      case Snap(msg) => if msg.None? then Out(s.(alive := false), []) else OnSnap(s, msg.value)
      case UnknownSnap => Out(s, [])
      case Recv(group, payload) => OnRecv(s, group, payload)
      case ConnRetry => ConnStep(s, C.RetryFired)
      case ConnTimeout => ConnStep(s, C.TimeoutFired)
      case SyncTimeout => SyncStep(s, S.Timeout)
      case RetryExpires => ConnStep(s, C.RetryExpires)
      case ConnExpires => ConnStep(s, C.TimeoutExpires)
      case SyncExpires => SyncStep(s, S.Expire)
  }

  /** A session after some inputs, and all its effects. */
  function Run(s: Session, ins: seq<Input>): Out {
    if ins == [] then Out(s, [])
    else
      var p := Run(s, ins[..|ins| - 1]);
      var q := Step(p.s, ins[|ins| - 1]);
      Out(q.s, p.fx + q.fx)
  }

  /** A life: the runner sends Start first and never again. */
  ghost predicate IsLife(ins: seq<Input>) {
    && ins != [] && ins[0].Oper? && ins[0].op.Start?
    && forall k :: 1 <= k < |ins| ==> !(ins[k].Oper? && ins[k].op.Start?)
  }

  /** The events the client sees. */
  function Trace(es: seq<Effect>): seq<Event> {
    if es == [] then []
    else if es[|es| - 1].Emit? then Trace(es[..|es| - 1]) + [es[|es| - 1].event]
    else Trace(es[..|es| - 1])
  }

  lemma {:induction false} TraceJoin(a: seq<Effect>, b: seq<Effect>)
    ensures Trace(a + b) == Trace(a) + Trace(b)
  {
    if b == [] {
      assert a + b == a;
    } else {
      assert (a + b)[..|a + b| - 1] == a + b[..|b| - 1];
      TraceJoin(a, b[..|b| - 1]);
    }
  }
}
