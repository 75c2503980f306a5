/** What one session step does to the sequence numbers: dispatching, filtering and delivering topics. */
module SessionNumbers {
  import opened Basics
  import opened LruModel
  import opened SessionModel
  import opened SessionFacts
  import opened TraceGrammar
  import C = ConnModel
  import S = SyncModel

  /** The topics delivered to the client among some events. */
  function DeliveredIn(es: seq<Event>): seq<Topic> {
    if es == [] then []
    else if es[|es| - 1].Delivery? then DeliveredIn(es[..|es| - 1]) + [es[|es| - 1].topic]
    else DeliveredIn(es[..|es| - 1])
  }

  /** The topics published, and the numbers put into the mailbox, among some messages. */
  function PublishedIn(ms: seq<Effect>): seq<Topic> {
    if ms == [] then []
    else if ms[|ms| - 1].Publish? then PublishedIn(ms[..|ms| - 1]) + [ms[|ms| - 1].topic]
    else PublishedIn(ms[..|ms| - 1])
  }

  function NotifiedIn(ms: seq<Effect>): seq<nat> {
    if ms == [] then []
    else if ms[|ms| - 1].Notify? then NotifiedIn(ms[..|ms| - 1]) + [ms[|ms| - 1].number]
    else NotifiedIn(ms[..|ms| - 1])
  }

  /** The topic a step passes through the duplicate filter. */
  function Processed(s: Session, i: Input): Option<Topic> {
    if i.Snap? && i.msg.Some? && i.msg.value.Elem? then Some(i.msg.value.topic)
    else if i.Recv? && TopicGroup(s, i.group) then i.payload
    else None
  }

  ghost predicate StepSummary(s: Session, i: Input, r: Out) {
    var sent, told, got := PublishedIn(Messages(r.fx)), NotifiedIn(Messages(r.fx)), DeliveredIn(Trace(r.fx));
    && r.s.conf == s.conf
    && if i.Oper? && i.op.Dispatch? then
         var n := (s.seqNum + 1) % SEQ_LIMIT;
         r.s.seqNum == n && r.s.seen == s.seen && sent == [i.op.topic.(seqn := n)] && told == [n] && got == []
       else if i.Oper? && i.op.BadDispatch? then
         var n := (s.seqNum + 1) % SEQ_LIMIT;
         r.s.seqNum == n && r.s.seen == s.seen && sent == [] && told == [n] && got == []
       else if Processed(s, i).Some? then
         var t := Processed(s, i).value;
         var raised := Accepts(s, t) && t.worker == s.conf.uuid && t.seqn > s.seqNum;
         && r.s.seen == (if Accepts(s, t) then Put(0, s.seen, t.worker, t.seqn) else s.seen)
         && r.s.seqNum == (if raised then t.seqn else s.seqNum)
         && sent == [] && told == (if raised then [t.seqn] else [])
         && got == (if i.Recv? && Accepts(s, t) then [t] else [])
       else
         r.s.seqNum == s.seqNum && r.s.seen == s.seen && sent == [] && told == [] && got == []
  }

  lemma Singles(e: Event, m: Effect)
    ensures DeliveredIn([e]) == if e.Delivery? then [e.topic] else []
    ensures PublishedIn([m]) == if m.Publish? then [m.topic] else []
    ensures NotifiedIn([m]) == if m.Notify? then [m.number] else []
    ensures DeliveredIn([]) == [] && PublishedIn([]) == [] && NotifiedIn([]) == []
  {
    assert [e][..0] == [] && [m][..0] == [];
  }

  lemma {:induction false} NoDelivery(es: seq<Event>)
    requires forall k :: 0 <= k < |es| ==> !es[k].Delivery?
    ensures DeliveredIn(es) == []
  {
    if es != [] { NoDelivery(es[..|es| - 1]); }
  }

  lemma ConnSummary(s: Session, i: C.Input)
    requires s.alive && Coherent(s)
    ensures var r := ConnStep(s, i);
            && r.s.conf == s.conf && r.s.seqNum == s.seqNum && r.s.seen == s.seen
            && Messages(r.fx) == [] && DeliveredIn(Trace(r.fx)) == []
  {
    hide ConnStep; hide Trace; hide Messages;
    ConnStepFacts(s, i);
    QuietMessages(ConnStep(s, i).fx);
    NoDelivery(Trace(ConnStep(s, i).fx));
  }

  lemma SyncSummary(s: Session, i: S.Input)
    requires Coherent(s)
    ensures var r := SyncStep(s, i);
            && r.s.conf == s.conf && r.s.seqNum == s.seqNum && r.s.seen == s.seen
            && PublishedIn(Messages(r.fx)) == [] && NotifiedIn(Messages(r.fx)) == []
            && (i.Reply? ==> Messages(r.fx) == [])
            && (forall k :: 0 <= k < |Trace(r.fx)| ==> !Trace(r.fx)[k].Delivery?)
  {
    hide SyncStep; hide Trace; hide Messages;
    SyncStepFacts(s, i);
    var n := S.Next(s.sync, i);
    S.RequestsOf(n.1);
    hide S.Next;
    if S.Requests(n.1) != [] {
      Singles(Stopped, AskSnapshot(S.Requests(n.1)[0].seqn, s.conf.(seqNum := s.seqNum)));
    } else {
      Singles(Stopped, Announce);
    }
  }

  lemma AcceptSummary(s: Session, t: Topic)
    ensures var r := AcceptTopic(s, t);
            var raised := Accepts(s, t) && t.worker == s.conf.uuid && t.seqn > s.seqNum;
            && Messages(r.fx) == (if raised then [Notify(t.seqn)] else [])
            && PublishedIn(Messages(r.fx)) == [] && NotifiedIn(Messages(r.fx)) == (if raised then [t.seqn] else [])
  {
    MessagesOne(Notify(t.seqn));
    Singles(Stopped, Notify(t.seqn));
  }

  lemma StopSummary(s: Session)
    requires s.alive && Coherent(s)
    ensures StepSummary(s, Oper(Stop), OnOper(s, Stop))
  {
    hide ConnStep; hide SyncStep; hide Trace; hide Messages; hide DeliveredIn; hide PublishedIn; hide NotifiedIn;
    var p := ConnStep(s, C.Input.Stop);
    var q := SyncStep(p.s, S.Halt);
    ConnSummary(s, C.Input.Stop);
    ReadConnStep(s, C.Input.Stop);
    ConnStepFacts(s, C.Input.Stop);
    SyncSummary(p.s, S.Halt);
    hide Coherent;
    TraceJoin(p.fx + q.fx, [Emit(Stopped)]);
    TraceJoin(p.fx, q.fx);
    TraceOne(Emit(Stopped));
    NoDelivery(Trace(p.fx) + Trace(q.fx) + [Stopped]);
    MessagesJoin(p.fx + q.fx, [Emit(Stopped)]);
    MessagesJoin(p.fx, q.fx);
    MessagesOne(Emit(Stopped));
    assert [] + Messages(q.fx) + [] == Messages(q.fx);
  }

  lemma DispatchSummary(s: Session, t: Topic)
    ensures StepSummary(s, Oper(Dispatch(t)), OnOper(s, Dispatch(t)))
  {
    hide Trace; hide Messages;
    var n := (s.seqNum + 1) % SEQ_LIMIT;
    var pub := Publish(t.(seqn := n));
    Two(Notify(n), pub);
    TraceOne(Notify(n));
    TraceOne(pub);
    MessagesOne(Notify(n));
    MessagesOne(pub);
    assert [Notify(n), pub][..1] == [Notify(n)];
    Singles(Stopped, Notify(n));
  }

  lemma OperSummary(s: Session, op: Op)
    requires s.alive && Coherent(s) && !op.Start?
    ensures StepSummary(s, Oper(op), OnOper(s, op))
  {
    hide ConnStep; hide SyncStep; hide Trace; hide Messages;
    match op
    case Stop => StopSummary(s);
    case Dispatch(t) => DispatchSummary(s, t);
    case Sync =>
      SyncSummary(s.(broker := NIL_UUID), S.Input.Start);
      NoDelivery(Trace(OnOper(s, op).fx));
    case Unknown =>
      Singles(Stopped, Announce);
      MessagesNone();
      TraceNone();
    case BadStart =>
      Singles(Stopped, Announce);
      MessagesNone();
      TraceNone();
    case BadDispatch => BadDispatchSummary(s);
  }

  /** A dispatch without room for its number takes the number and publishes nothing. */
  lemma BadDispatchSummary(s: Session)
    ensures StepSummary(s, Oper(BadDispatch), OnOper(s, BadDispatch))
  {
    hide Trace; hide Messages;
    var n := (s.seqNum + 1) % SEQ_LIMIT;
    TraceOne(Notify(n));
    MessagesOne(Notify(n));
    Singles(Stopped, Notify(n));
  }

  lemma MessagesNone()
    ensures Messages([]) == []
  {
  }

  lemma ElemSummary(s: Session, n: nat, t: Topic)
    requires s.alive && Coherent(s)
    ensures StepSummary(s, Snap(Some(Elem(n, t))), OnSnap(s, Elem(n, t)))
  {
    hide SyncStep; hide Trace; hide Messages; hide DeliveredIn; hide PublishedIn; hide NotifiedIn;
    var p := AcceptTopic(s, t);
    var q := SyncStep(p.s, S.Reply(0, n, S.Snapshot));
    AcceptTopicFacts(s, t);
    AcceptSummary(s, t);
    SyncSummary(p.s, S.Reply(0, n, S.Snapshot));
    hide Put; hide LastNumber;
    TraceJoin(p.fx + [Emit(SyncElement(t))], q.fx);
    TraceJoin(p.fx, [Emit(SyncElement(t))]);
    TraceOne(Emit(SyncElement(t)));
    NoDelivery(Trace(p.fx) + [SyncElement(t)] + Trace(q.fx));
    MessagesJoin(p.fx + [Emit(SyncElement(t))], q.fx);
    MessagesJoin(p.fx, [Emit(SyncElement(t))]);
    MessagesOne(Emit(SyncElement(t)));
    assert Messages(p.fx) + [] + [] == Messages(p.fx);
  }

  lemma SnapSummary(s: Session, msg: SnapMsg)
    requires s.alive && Coherent(s)
    ensures StepSummary(s, Snap(Some(msg)), OnSnap(s, msg))
  {
    hide SyncStep; hide Trace; hide Messages;
    match msg
    case Begin(_, u) =>
      TraceOne(Emit(SyncBegin(u)));
      MessagesOne(Emit(SyncBegin(u)));
      Singles(SyncBegin(u), Announce);
    case Elem(n, t) => ElemSummary(s, n, t);
    case Compl(n, u) =>
      Singles(Stopped, Announce);
      SyncSummary(s.(broker := u), S.Reply(0, n, S.Complete));
      NoDelivery(Trace(OnSnap(s, msg).fx));
  }

  lemma TopicSummary(s: Session, group: Bytes, t: Topic)
    requires TopicGroup(s, group)
    ensures StepSummary(s, Recv(group, Some(t)), OnRecv(s, group, Some(t)))
  {
    hide Trace; hide Messages; hide DeliveredIn; hide PublishedIn; hide NotifiedIn;
    var r := AcceptTopic(s, t);
    AcceptTopicFacts(s, t);
    AcceptSummary(s, t);
    hide Put; hide LastNumber;
    Singles(Delivery(t), Announce);
    if Accepts(s, t) {
      TraceJoin(r.fx, [Emit(Delivery(t))]);
      TraceOne(Emit(Delivery(t)));
      MessagesJoin(r.fx, [Emit(Delivery(t))]);
      MessagesOne(Emit(Delivery(t)));
      assert [] + [Delivery(t)] == [Delivery(t)] && Messages(r.fx) + [] == Messages(r.fx);
    } else {
      assert r.fx + [] == r.fx;
    }
  }

  lemma RecvSummary(s: Session, group: Bytes, payload: Option<Topic>)
    requires s.alive && Coherent(s)
    ensures StepSummary(s, Recv(group, payload), OnRecv(s, group, payload))
  {
    if TopicGroup(s, group) && payload.Some? {
      TopicSummary(s, group, payload.value);
    } else {
      hide ConnStep; hide Trace; hide Messages; hide AcceptTopic;
      Singles(Stopped, Announce);
      MessagesNone();
      TraceNone();
      if group == HUGZ { ConnSummary(s, C.Ping); }
    }
  }

  /** Each step dispatches under the next number, filters one topic, or leaves the numbers alone. */
  lemma StepNumbers(s: Session, i: Input)
    requires s.alive && Coherent(s) && !(i.Oper? && i.op.Start?)
    ensures StepSummary(s, i, Step(s, i))
  {
    hide ConnStep; hide SyncStep; hide Trace; hide Messages; hide OnOper; hide OnSnap; hide OnRecv;
    Singles(Stopped, Announce);
    TraceNone();
    MessagesNone();
    match i
    case Oper(op) => OperSummary(s, op);
    case Snap(msg) => if msg.Some? { SnapSummary(s, msg.value); }
    case UnknownSnap =>
    case Recv(group, payload) => RecvSummary(s, group, payload);
    case ConnRetry => ConnSummary(s, C.RetryFired);
    case ConnTimeout => ConnSummary(s, C.TimeoutFired);
    case SyncTimeout => SyncSummary(s, S.Timeout); NoDelivery(Trace(SyncStep(s, S.Timeout).fx));
    case RetryExpires => ConnSummary(s, C.RetryExpires);
    case ConnExpires => ConnSummary(s, C.TimeoutExpires);
    case SyncExpires => SyncSummary(s, S.Expire); NoDelivery(Trace(SyncStep(s, S.Expire).fx));
  }

  /** A session starts with the configured number, nothing seen, and no topic sent or delivered. */
  lemma StartNumbers(conf: WorkerConfig)
    ensures var r := Step(FRESH, Oper(Start(conf)));
            && r.s.conf == conf && r.s.seqNum == conf.seqNum && r.s.seen == [] && (r.s.alive ==> Coherent(r.s))
            && Messages(r.fx) == [] && DeliveredIn(Trace(r.fx)) == []
  {
    var s := FRESH.(conf := conf, seqNum := conf.seqNum);
    assert Coherent(s);
    hide ConnStep; hide Trace; hide Messages;
    var p := ConnStep(s, C.Input.Start);
    ConnSummary(s, C.Input.Start);
    ConnStepFacts(s, C.Input.Start);
    ReadStart(conf);
    TraceJoin([Emit(Started(conf))], p.fx);
    TraceOne(Emit(Started(conf)));
    MessagesJoin([Emit(Started(conf))], p.fx);
    MessagesOne(Emit(Started(conf)));
    NoDelivery([Started(conf)] + Trace(p.fx));
  }
}
