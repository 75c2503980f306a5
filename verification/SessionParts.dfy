/** One step of a session split into what it does with each of its two machines, its sockets and its life. */
module SessionParts {
  import opened Basics
  import opened SessionModel
  import opened SessionFacts
  import C = ConnModel
  import S = SyncModel
  import N = Snapshot

  /** What goes through the connection's sockets and the snapshot socket. */
  datatype Wire = Shut | Opened | Announced | Asked(seqn: nat)

  function ConnWire(e: Effect): seq<Wire> {
    match e
    case CloseConn => [Shut]
    case OpenConn(_) => [Opened]
    case Announce => [Announced]
    case _ => []
  }

  function SnapWire(e: Effect): seq<Wire> {
    match e
    case CloseSnap => [Shut]
    case OpenSnap => [Opened]
    case AskSnapshot(n, _) => [Asked(n)]
    case _ => []
  }

  function ConnWires(fx: seq<Effect>): seq<Wire> {
    if fx == [] then [] else ConnWires(fx[..|fx| - 1]) + ConnWire(fx[|fx| - 1])
  }

  function SnapWires(fx: seq<Effect>): seq<Wire> {
    if fx == [] then [] else SnapWires(fx[..|fx| - 1]) + SnapWire(fx[|fx| - 1])
  }

  function ConnActWire(a: C.Act): seq<Wire> {
    match a
    case Close => [Shut]
    case Open => [Opened]
    case Pong => [Announced]
    case Changed(_) => []
  }

  function SnapActWire(a: S.Act): seq<Wire> {
    match a
    case Close(_) => [Shut]
    case Open(_) => [Opened]
    case Request(_, n) => [Asked(n)]
    case Changed(_) => []
  }

  function ConnImage(acts: seq<C.Act>): seq<Wire> {
    if acts == [] then [] else ConnImage(acts[..|acts| - 1]) + ConnActWire(acts[|acts| - 1])
  }

  function SnapImage(acts: seq<S.Act>): seq<Wire> {
    if acts == [] then [] else SnapImage(acts[..|acts| - 1]) + SnapActWire(acts[|acts| - 1])
  }

  lemma {:induction false} ConnWiresJoin(a: seq<Effect>, b: seq<Effect>)
    ensures ConnWires(a + b) == ConnWires(a) + ConnWires(b)
  {
    hide ConnWire;
    if b == [] {
      assert a + b == a;
    } else {
      assert (a + b)[..|a + b| - 1] == a + b[..|b| - 1];
      ConnWiresJoin(a, b[..|b| - 1]);
    }
  }

  lemma {:induction false} SnapWiresJoin(a: seq<Effect>, b: seq<Effect>)
    ensures SnapWires(a + b) == SnapWires(a) + SnapWires(b)
  {
    hide SnapWire;
    if b == [] {
      assert a + b == a;
    } else {
      assert (a + b)[..|a + b| - 1] == a + b[..|b| - 1];
      SnapWiresJoin(a, b[..|b| - 1]);
    }
  }

  lemma WiresJoin(a: seq<Effect>, b: seq<Effect>)
    ensures ConnWires(a + b) == ConnWires(a) + ConnWires(b) && SnapWires(a + b) == SnapWires(a) + SnapWires(b)
  {
    ConnWiresJoin(a, b);
    SnapWiresJoin(a, b);
  }

  lemma {:induction false} ConnImageJoin(a: seq<C.Act>, b: seq<C.Act>)
    ensures ConnImage(a + b) == ConnImage(a) + ConnImage(b)
  {
    hide ConnActWire;
    if b == [] {
      assert a + b == a;
    } else {
      assert (a + b)[..|a + b| - 1] == a + b[..|b| - 1];
      ConnImageJoin(a, b[..|b| - 1]);
    }
  }

  lemma {:induction false} SnapImageJoin(a: seq<S.Act>, b: seq<S.Act>)
    ensures SnapImage(a + b) == SnapImage(a) + SnapImage(b)
  {
    hide SnapActWire;
    if b == [] {
      assert a + b == a;
    } else {
      assert (a + b)[..|a + b| - 1] == a + b[..|b| - 1];
      SnapImageJoin(a, b[..|b| - 1]);
    }
  }

  lemma WiresOne(e: Effect)
    ensures ConnWires([e]) == ConnWire(e) && SnapWires([e]) == SnapWire(e)
    ensures ConnWires([]) == [] && SnapWires([]) == []
  {
    assert [e][..0] == [];
  }

  /** Two effects that touch no socket. */
  lemma WiresTwo(e: Effect, f: Effect)
    requires ConnWire(e) == [] && ConnWire(f) == [] && SnapWire(e) == [] && SnapWire(f) == []
    ensures ConnWires([e, f]) == [] && SnapWires([e, f]) == []
  {
    assert [e, f] == [e] + [f];
    WiresJoin([e], [f]);
    WiresOne(e);
    WiresOne(f);
  }

  // ---------------------------------------------------------------- calls of the machines

  /** While the sockets can be opened, the callbacks of the connection machine become its wires, and nothing else. */
  lemma {:induction false} ConnActsParts(s: Session, acts: seq<C.Act>)
    requires s.alive && !CannotOpen(s.conf)
    ensures var r := ConnActs(s, acts);
            r.s == s.(online := r.s.online) && ConnWires(r.fx) == ConnImage(acts) && SnapWires(r.fx) == []
  {
    WiresOne(Announce);
    if acts != [] {
      var before, last := acts[..|acts| - 1], acts[|acts| - 1];
      var p := ConnActs(s, before);
      ConnActsParts(s, before);
      hide ConnActs; hide ConnWires; hide SnapWires;
      ConnActPart(p.s, last);
      WiresJoin(p.fx, ConnAct(p.s, last).fx);
    }
  }

  lemma ConnActPart(s: Session, a: C.Act)
    requires s.alive && !CannotOpen(s.conf)
    ensures var r := ConnAct(s, a);
            && r.s == s.(online := r.s.online) && SnapWires(r.fx) == []
            && ConnWires(r.fx) == ConnActWire(a)
  {
    WiresOne(CloseConn);
    WiresOne(OpenConn(Joined(s.conf)));
    WiresOne(Announce);
    WiresOne(Emit(Online));
    WiresOne(Emit(Offline));
  }

  /** The callbacks of the download machine become its wires; they leave connection, configuration and life alone. */
  lemma {:induction false} SyncActsParts(s: Session, acts: seq<S.Act>)
    ensures var r := SyncActs(s, acts);
            && r.s == s.(snapshot := r.s.snapshot, broker := r.s.broker)
            && ConnWires(r.fx) == [] && SnapWires(r.fx) == SnapImage(acts)
  {
    WiresOne(Announce);
    if acts != [] {
      var before, last := acts[..|acts| - 1], acts[|acts| - 1];
      var p := SyncActs(s, before);
      SyncActsParts(s, before);
      hide SyncActs; hide ConnWires; hide SnapWires;
      SyncActPart(p.s, last);
      WiresJoin(p.fx, SyncAct(p.s, last).fx);
    }
  }

  lemma SyncActPart(s: Session, a: S.Act)
    ensures var r := SyncAct(s, a);
            && r.s == s.(snapshot := r.s.snapshot, broker := r.s.broker)
            && ConnWires(r.fx) == [] && SnapWires(r.fx) == SnapActWire(a)
  {
    hide ConnWires; hide SnapWires;
    WiresOne(CloseSnap);
    WiresOne(OpenSnap);
    match a
    case Close(_) =>
    case Open(_) =>
    case Request(_, n) => AskingPart(n, s.conf.(seqNum := s.seqNum));
    case Changed(p) => ChangingPart(s, p);
  }

  lemma AskingPart(n: nat, conf: WorkerConfig)
    ensures ConnWires([AskSnapshot(n, conf), Emit(SyncRequest(conf))]) == []
    ensures SnapWires([AskSnapshot(n, conf), Emit(SyncRequest(conf))]) == [Asked(n)]
  {
    hide ConnWires; hide SnapWires;
    assert [AskSnapshot(n, conf), Emit(SyncRequest(conf))] == [AskSnapshot(n, conf)] + [Emit(SyncRequest(conf))];
    WiresJoin([AskSnapshot(n, conf)], [Emit(SyncRequest(conf))]);
    WiresOne(AskSnapshot(n, conf));
    WiresOne(Emit(SyncRequest(conf)));
  }

  lemma ChangingPart(s: Session, p: S.Phase)
    ensures var r := OnSyncChanged(s, p);
            && r.s == s.(snapshot := r.s.snapshot, broker := r.s.broker)
            && ConnWires(r.fx) == [] && SnapWires(r.fx) == []
  {
    hide ConnWires; hide SnapWires;
    OnlyEvents(OnSyncChanged(s, p).fx);
  }

  lemma {:induction false} OnlyEvents(fx: seq<Effect>)
    requires forall k :: 0 <= k < |fx| ==> fx[k].Emit?
    ensures ConnWires(fx) == [] && SnapWires(fx) == []
  {
    if fx != [] { OnlyEvents(fx[..|fx| - 1]); }
  }

  // ---------------------------------------------------------------- one step

  /** What a session step means to the connection machine. */
  function ConnInput(i: Input): Option<C.Input> {
    match i
    case Oper(op) => if op.Start? then Some(C.Input.Start) else if op.Stop? then Some(C.Input.Stop) else None
    case Recv(group, _) => if group == HUGZ then Some(C.Ping) else None
    case ConnRetry => Some(C.RetryFired)
    case ConnTimeout => Some(C.TimeoutFired)
    case RetryExpires => Some(C.RetryExpires)
    case ConnExpires => Some(C.TimeoutExpires)
    case _ => None
  }

  /** Groups whose payload a configuration makes a session read as a topic. */
  predicate Subscribed(conf: WorkerConfig, group: Bytes) {
    group != HUGZ && (group == UPDT || group in conf.topicsNames)
  }

  /** Inputs that end a session: a stop, and what cannot be decoded. */
  predicate Ends(conf: WorkerConfig, i: Input) {
    match i
    case Oper(op) => op.Stop? || op.BadStart? || op.BadDispatch?
    case Snap(msg) => msg.None?
    case Recv(group, payload) => Subscribed(conf, group) && payload.None?
    case _ => false
  }

  function ConnNext(c: C.Conn, i: Input): (C.Conn, seq<C.Act>) {
    if ConnInput(i).Some? then C.Next(c, ConnInput(i).value) else (c, [])
  }

  function SyncNext(m: S.Sync, i: Input): (S.Sync, seq<S.Act>) {
    if N.SyncInput(i).Some? then S.Next(m, N.SyncInput(i).value) else (m, [])
  }

  /** Each machine takes its part of the input, its wires go out in order, and the session ends on the inputs that
      end it. */
  ghost predicate Parts(s: Session, i: Input, r: Out) {
    && r.s.conn == ConnNext(s.conn, i).0 && ConnWires(r.fx) == ConnImage(ConnNext(s.conn, i).1)
    && r.s.sync == SyncNext(s.sync, i).0 && SnapWires(r.fx) == SnapImage(SyncNext(s.sync, i).1)
    && (r.s.alive <==> !Ends(r.s.conf, i))
    && r.s.conf == if i.Oper? && i.op.Start? then i.op.conf else s.conf
  }

  lemma ConnStepParts(s: Session, i: C.Input)
    requires s.alive && !CannotOpen(s.conf)
    ensures var r := ConnStep(s, i);
            && r.s == s.(conn := C.Next(s.conn, i).0, online := r.s.online)
            && ConnWires(r.fx) == ConnImage(C.Next(s.conn, i).1) && SnapWires(r.fx) == []
  {
    hide ConnActs; hide ConnWires; hide SnapWires; hide ConnImage; hide C.Next;
    ConnActsParts(s.(conn := C.Next(s.conn, i).0), C.Next(s.conn, i).1);
  }

  lemma SyncStepParts(s: Session, i: S.Input)
    ensures var r := SyncStep(s, i);
            && r.s == s.(sync := S.Next(s.sync, i).0, snapshot := r.s.snapshot, broker := r.s.broker)
            && ConnWires(r.fx) == [] && SnapWires(r.fx) == SnapImage(S.Next(s.sync, i).1)
  {
    hide SyncActs; hide ConnWires; hide SnapWires; hide SnapImage; hide S.Next;
    SyncActsParts(s.(sync := S.Next(s.sync, i).0), S.Next(s.sync, i).1);
  }

  lemma NoImage()
    ensures ConnImage([]) == [] && SnapImage([]) == []
  {
  }

  lemma AcceptParts(s: Session, t: Topic)
    ensures var r := AcceptTopic(s, t);
            && r.s == s.(seen := r.s.seen, seqNum := r.s.seqNum)
            && ConnWires(r.fx) == [] && SnapWires(r.fx) == []
  {
    WiresOne(Notify(t.seqn));
  }

  lemma StopParts(s: Session)
    requires s.alive && !CannotOpen(s.conf)
    ensures Parts(s, Oper(Stop), OnOper(s, Stop))
  {
    hide ConnStep; hide SyncStep; hide ConnWires; hide SnapWires; hide ConnImage; hide SnapImage;
    hide C.Next; hide S.Next;
    var p := ConnStep(s, C.Input.Stop);
    var q := SyncStep(p.s, S.Halt);
    ConnStepParts(s, C.Input.Stop);
    SyncStepParts(p.s, S.Halt);
    WiresJoin(p.fx + q.fx, [Emit(Stopped)]);
    WiresJoin(p.fx, q.fx);
    WiresOne(Emit(Stopped));
  }

  lemma OperParts(s: Session, op: Op)
    requires s.alive && !CannotOpen(if op.Start? then op.conf else s.conf)
    ensures Parts(s, Oper(op), OnOper(s, op))
  {
    hide ConnStep; hide SyncStep; hide ConnWires; hide SnapWires; hide ConnImage; hide SnapImage;
    hide C.Next; hide S.Next;
    NoImage();
    WiresOne(Announce);
    match op
    case Start(conf) =>
      var t := s.(conf := conf, seqNum := conf.seqNum);
      ConnStepParts(t, C.Input.Start);
      WiresJoin([Emit(Started(conf))], ConnStep(t, C.Input.Start).fx);
      WiresOne(Emit(Started(conf)));
    case Stop => StopParts(s);
    case Dispatch(t) =>
      var n := (s.seqNum + 1) % SEQ_LIMIT;
      WiresTwo(Notify(n), Publish(t.(seqn := n)));
    case Sync => SyncStepParts(s.(broker := NIL_UUID), S.Input.Start);
    case Unknown =>
    case BadStart =>
    case BadDispatch => WiresOne(Notify((s.seqNum + 1) % SEQ_LIMIT));
  }

  lemma SnapParts(s: Session, msg: SnapMsg)
    requires s.alive
    ensures Parts(s, Snap(Some(msg)), OnSnap(s, msg))
  {
    hide SyncStep; hide AcceptTopic; hide ConnWires; hide SnapWires; hide ConnImage; hide SnapImage; hide S.Next;
    NoImage();
    match msg
    case Begin(_, u) => WiresOne(Emit(SyncBegin(u)));
    case Elem(n, t) =>
      var p := AcceptTopic(s, t);
      var q := SyncStep(p.s, S.Reply(0, n, S.Snapshot));
      AcceptParts(s, t);
      SyncStepParts(p.s, S.Reply(0, n, S.Snapshot));
      WiresJoin(p.fx + [Emit(SyncElement(t))], q.fx);
      WiresJoin(p.fx, [Emit(SyncElement(t))]);
      WiresOne(Emit(SyncElement(t)));
    case Compl(n, u) => SyncStepParts(s.(broker := u), S.Reply(0, n, S.Complete));
  }

  lemma RecvParts(s: Session, group: Bytes, payload: Option<Topic>)
    requires s.alive && !CannotOpen(s.conf)
    ensures Parts(s, Recv(group, payload), OnRecv(s, group, payload))
  {
    hide ConnStep; hide AcceptTopic; hide ConnWires; hide SnapWires; hide ConnImage; hide SnapImage; hide C.Next;
    NoImage();
    WiresOne(Announce);
    if group == HUGZ {
      ConnStepParts(s, C.Ping);
    } else if TopicGroup(s, group) && payload.Some? {
      var t := payload.value;
      AcceptParts(s, t);
      WiresOne(Emit(Delivery(t)));
      WiresJoin(AcceptTopic(s, t).fx, [Emit(Delivery(t))]);
      WiresJoin(AcceptTopic(s, t).fx, []);
    }
  }

  lemma StepParts(s: Session, i: Input)
    requires s.alive && !CannotOpen(if i.Oper? && i.op.Start? then i.op.conf else s.conf)
    ensures Parts(s, i, Step(s, i))
  {
    hide ConnStep; hide SyncStep; hide OnOper; hide OnSnap; hide OnRecv; hide ConnWires; hide SnapWires;
    hide ConnImage; hide SnapImage; hide C.Next; hide S.Next;
    NoImage();
    WiresOne(Announce);
    match i
    case Oper(op) => OperParts(s, op);
    case Snap(msg) => if msg.Some? { SnapParts(s, msg.value); }
    case UnknownSnap =>
    case Recv(group, payload) => RecvParts(s, group, payload);
    case ConnRetry => ConnStepParts(s, C.RetryFired);
    case ConnTimeout => ConnStepParts(s, C.TimeoutFired);
    case SyncTimeout => SyncStepParts(s, S.Timeout);
    case RetryExpires => ConnStepParts(s, C.RetryExpires);
    case ConnExpires => ConnStepParts(s, C.TimeoutExpires);
    case SyncExpires => SyncStepParts(s, S.Expire);
  }

  // ---------------------------------------------------------------- the groups joined

  /** Whatever opens the connection joins these groups. */
  predicate Joins(fx: seq<Effect>, groups: set<Bytes>) {
    forall k :: 0 <= k < |fx| && fx[k].OpenConn? ==> fx[k].groups == groups
  }

  lemma {:induction false} ConnActsJoin(s: Session, acts: seq<C.Act>)
    ensures ConnActs(s, acts).s.conf == s.conf && Joins(ConnActs(s, acts).fx, Joined(s.conf))
  {
    hide Joined;
    if acts != [] { ConnActsJoin(s, acts[..|acts| - 1]); }
  }

  lemma {:induction false} SyncActsJoin(s: Session, acts: seq<S.Act>, groups: set<Bytes>)
    ensures Joins(SyncActs(s, acts).fx, groups)
  {
    if acts != [] { SyncActsJoin(s, acts[..|acts| - 1], groups); }
  }

  /** Every opening of the connection joins the keepalive group and, by configuration, the common group or the groups
      of the subscribed names. */
  lemma StepJoins(s: Session, i: Input)
    requires !(i.Oper? && i.op.Start?)
    ensures Joins(Step(s, i).fx, Joined(s.conf))
  {
    hide Joined; hide ConnActs; hide SyncActs; hide C.Next; hide S.Next;
    forall x: C.Input ensures Joins(ConnStep(s, x).fx, Joined(s.conf)) {
      ConnActsJoin(s.(conn := C.Next(s.conn, x).0), C.Next(s.conn, x).1);
    }
    forall t: Session, x: S.Input ensures Joins(SyncStep(t, x).fx, Joined(s.conf)) {
      SyncActsJoin(t.(sync := S.Next(t.sync, x).0), S.Next(t.sync, x).1, Joined(s.conf));
    }
    hide ConnStep; hide SyncStep;
  }

  lemma StartJoins(s: Session, conf: WorkerConfig)
    ensures Joins(Step(s, Oper(Start(conf))).fx, Joined(conf))
  {
    hide Joined; hide ConnActs; hide C.Next;
    var n := C.Next(s.conn, C.Input.Start);
    ConnActsJoin(s.(conf := conf, seqNum := conf.seqNum, conn := n.0), n.1);
  }
}
