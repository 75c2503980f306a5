/** Snapshot downloads from end to end: what a SyncSuccess tells the client about the broker's store. */
module Snapshot {
  import opened Basics
  import opened LruModel
  import opened SessionModel
  import opened SessionFacts
  import opened SessionNumbers
  import opened TraceGrammar
  import B = BrokerModel
  import C = ConnModel
  import S = SyncModel

  // ---------------------------------------------------------------- the synchronisation side of one step

  /** What a session step means to the synchronisation machine. */
  function SyncInput(i: Input): Option<S.Input> {
    match i
    case Oper(op) => if op.Stop? then Some(S.Halt) else if op.Sync? then Some(S.Input.Start) else None
    case Snap(msg) =>
      if msg.None? || msg.value.Begin? then None
      else Some(S.Reply(0, msg.value.seqn, if msg.value.Elem? then S.Snapshot else S.Complete))
    case SyncTimeout => Some(S.Timeout)
    case SyncExpires => Some(S.Expire)
    case _ => None
  }

  /** The snapshot requests among some messages. */
  function AskedIn(ms: seq<Effect>): (r: seq<Effect>)
    ensures forall k :: 0 <= k < |r| ==> r[k].AskSnapshot?
  {
    if ms == [] then []
    else if ms[|ms| - 1].AskSnapshot? then AskedIn(ms[..|ms| - 1]) + [ms[|ms| - 1]]
    else AskedIn(ms[..|ms| - 1])
  }

  /** Whether some events announce a successful download. */
  predicate Succeeds(es: seq<Event>) { exists k :: 0 <= k < |es| && es[k].SyncSuccess? }

  ghost predicate SyncSide(s: Session, i: Input, r: Out) {
    var x := SyncInput(i);
    var n := if x.Some? then S.Next(s.sync, x.value) else (s.sync, []);
    && r.s.sync == n.0
    && AskedIn(Messages(r.fx)) == Asks(s, S.Requests(n.1))
    && (Succeeds(Trace(r.fx)) <==> s.sync.phase == S.Download && n.0.phase == S.Synced)
    && (i.Snap? && i.msg.Some? && i.msg.value.Elem? ==> SyncElement(i.msg.value.topic) in Trace(r.fx))
  }

  lemma AskedFacts(e: Effect)
    ensures AskedIn([e]) == if e.AskSnapshot? then [e] else []
    ensures AskedIn([]) == [] && !Succeeds([]) && S.Requests([]) == []
  {
    assert [e][..0] == [];
  }

  lemma AskedAsks(s: Session, r: seq<S.Req>)
    ensures AskedIn(Asks(s, r)) == Asks(s, r)
  {
    AskedFacts(Announce);
    if r != [] { AskedFacts(AskSnapshot(r[0].seqn, s.conf.(seqNum := s.seqNum))); }
  }

  lemma ConnSide(s: Session, i: C.Input)
    requires s.alive && Coherent(s)
    ensures var r := ConnStep(s, i);
            r.s.sync == s.sync && AskedIn(Messages(r.fx)) == [] && !Succeeds(Trace(r.fx))
  {
    hide ConnStep; hide Trace; hide Messages;
    ConnStepFacts(s, i);
    QuietMessages(ConnStep(s, i).fx);
    AskedFacts(Announce);
  }

  lemma EventsSide(s: Session, before: S.Phase, after: S.Phase, request: bool)
    ensures Succeeds(SyncEvents(s, before, after, request)) <==> before == S.Download && after == S.Synced
  {
    var es := SyncEvents(s, before, after, request);
    if before == S.Download && after == S.Synced {
      assert es[0].SyncSuccess?;
    }
  }

  lemma StepSide(s: Session, x: S.Input)
    requires Coherent(s)
    ensures var r := SyncStep(s, x);
            var n := S.Next(s.sync, x);
            && r.s.sync == n.0 && AskedIn(Messages(r.fx)) == Asks(s, S.Requests(n.1))
            && (Succeeds(Trace(r.fx)) <==> s.sync.phase == S.Download && n.0.phase == S.Synced)
  {
    hide SyncStep; hide Trace; hide Messages; hide S.Next; hide Asks;
    SyncStepFacts(s, x);
    AskedAsks(s, S.Requests(S.Next(s.sync, x).1));
    EventsSide(s, s.sync.phase, S.Next(s.sync, x).0.phase, S.Requests(S.Next(s.sync, x).1) != []);
  }

  lemma SucceedsJoin(a: seq<Event>, b: seq<Event>)
    ensures Succeeds(a + b) <==> Succeeds(a) || Succeeds(b)
  {
    if Succeeds(a) {
      var k :| 0 <= k < |a| && a[k].SyncSuccess?;
      assert (a + b)[k] == a[k];
    }
    if Succeeds(b) {
      var k :| 0 <= k < |b| && b[k].SyncSuccess?;
      assert (a + b)[|a| + k] == b[k];
    }
  }

  lemma StopSide(s: Session)
    requires s.alive && Coherent(s)
    ensures SyncSide(s, Oper(Stop), OnOper(s, Stop))
  {
    hide ConnStep; hide SyncStep; hide Trace; hide Messages; hide Succeeds;
    var p := ConnStep(s, C.Input.Stop);
    var q := SyncStep(p.s, S.Halt);
    ConnSide(s, C.Input.Stop);
    ReadConnStep(s, C.Input.Stop);
    ConnStepFacts(s, C.Input.Stop);
    QuietMessages(p.fx);
    StepSide(p.s, S.Halt);
    TraceJoin(p.fx + q.fx, [Emit(Stopped)]);
    TraceJoin(p.fx, q.fx);
    TraceOne(Emit(Stopped));
    SucceedsJoin(Trace(p.fx) + Trace(q.fx), [Stopped]);
    SucceedsJoin(Trace(p.fx), Trace(q.fx));
    assert !Succeeds([Stopped]) by { NoSuccessAlone(Stopped); }
    MessagesJoin(p.fx + q.fx, [Emit(Stopped)]);
    MessagesJoin(p.fx, q.fx);
    MessagesOne(Emit(Stopped));
    assert [] + Messages(q.fx) + [] == Messages(q.fx);
  }

  lemma NoSuccessAlone(e: Event)
    requires !e.SyncSuccess?
    ensures !Succeeds([e])
  {
  }

  lemma DispatchSide(s: Session, t: Topic)
    ensures SyncSide(s, Oper(Dispatch(t)), OnOper(s, Dispatch(t)))
  {
    hide Trace; hide Messages; hide Succeeds;
    var n := (s.seqNum + 1) % SEQ_LIMIT;
    var pub := Publish(t.(seqn := n));
    Two(Notify(n), pub);
    TraceOne(Notify(n));
    TraceOne(pub);
    MessagesOne(Notify(n));
    MessagesOne(pub);
    assert [Notify(n), pub][..1] == [Notify(n)];
    AskedFacts(Notify(n));
  }

  lemma OperSide(s: Session, op: Op)
    requires s.alive && Coherent(s) && !op.Start?
    ensures SyncSide(s, Oper(op), OnOper(s, op))
  {
    hide ConnStep; hide SyncStep; hide Trace; hide Messages;
    AskedFacts(Announce);
    TraceNone();
    MessagesNone();
    match op
    case Stop => StopSide(s);
    case Dispatch(t) => DispatchSide(s, t);
    case Sync => StepSide(s.(broker := NIL_UUID), S.Input.Start);
    case Unknown =>
    case BadStart =>
    case BadDispatch =>
      var told := Notify((s.seqNum + 1) % SEQ_LIMIT);
      AskedFacts(told);
      TraceOne(told);
      MessagesOne(told);
  }

  lemma SnapSide(s: Session, msg: SnapMsg)
    requires s.alive && Coherent(s)
    ensures SyncSide(s, Snap(Some(msg)), OnSnap(s, msg))
  {
    hide SyncStep; hide Trace; hide Messages; hide Succeeds;
    AskedFacts(Announce);
    match msg
    case Begin(_, u) =>
      TraceOne(Emit(SyncBegin(u)));
      MessagesOne(Emit(SyncBegin(u)));
      NoSuccessAlone(SyncBegin(u));
    case Elem(n, t) => ElemSide(s, n, t);
    case Compl(n, u) => StepSide(s.(broker := u), S.Reply(0, n, S.Complete));
  }

  lemma ElemSide(s: Session, n: nat, t: Topic)
    requires s.alive && Coherent(s)
    ensures SyncSide(s, Snap(Some(Elem(n, t))), OnSnap(s, Elem(n, t)))
  {
    hide SyncStep; hide Trace; hide Messages; hide Succeeds;
    var x := S.Reply(0, n, S.Snapshot);
    var p := AcceptTopic(s, t);
    var q := SyncStep(p.s, x);
    AcceptTopicFacts(s, t);
    AcceptSummary(s, t);
    SyncSummary(p.s, x);
    StepSide(p.s, x);
    S.RequestsOf(S.Next(s.sync, x).1);
    hide AcceptTopic; hide Put; hide LastNumber;
    TraceJoin(p.fx + [Emit(SyncElement(t))], q.fx);
    TraceJoin(p.fx, [Emit(SyncElement(t))]);
    TraceOne(Emit(SyncElement(t)));
    assert Trace(p.fx) + [SyncElement(t)] == [SyncElement(t)];
    SucceedsJoin([SyncElement(t)], Trace(q.fx));
    NoSuccessAlone(SyncElement(t));
    assert ([SyncElement(t)] + Trace(q.fx))[0] == SyncElement(t);
    MessagesJoin(p.fx + [Emit(SyncElement(t))], q.fx);
    MessagesJoin(p.fx, [Emit(SyncElement(t))]);
    MessagesOne(Emit(SyncElement(t)));
    assert Messages(p.fx) + [] + [] == Messages(p.fx);
    AskedFacts(Notify(t.seqn));
  }

  lemma TopicSide(s: Session, group: Bytes, t: Topic)
    requires TopicGroup(s, group)
    ensures SyncSide(s, Recv(group, Some(t)), OnRecv(s, group, Some(t)))
  {
    hide Trace; hide Messages; hide Succeeds; hide AskedIn;
    var r := AcceptTopic(s, t);
    AcceptTopicFacts(s, t);
    AcceptSummary(s, t);
    hide AcceptTopic; hide Put; hide LastNumber;
    AskedFacts(Notify(t.seqn));
    if Accepts(s, t) {
      TraceJoin(r.fx, [Emit(Delivery(t))]);
      TraceOne(Emit(Delivery(t)));
      assert [] + [Delivery(t)] == [Delivery(t)];
      NoSuccessAlone(Delivery(t));
      MessagesJoin(r.fx, [Emit(Delivery(t))]);
      MessagesOne(Emit(Delivery(t)));
      assert Messages(r.fx) + [] == Messages(r.fx);
    } else {
      assert r.fx + [] == r.fx;
    }
  }

  lemma RecvSide(s: Session, group: Bytes, payload: Option<Topic>)
    requires s.alive && Coherent(s)
    ensures SyncSide(s, Recv(group, payload), OnRecv(s, group, payload))
  {
    if TopicGroup(s, group) && payload.Some? {
      TopicSide(s, group, payload.value);
    } else {
      hide ConnStep; hide Trace; hide Messages; hide Succeeds; hide AcceptTopic;
      AskedFacts(Announce);
      TraceNone();
      MessagesNone();
      if group == HUGZ { ConnSide(s, C.Ping); }
    }
  }

  /** Seen from the synchronisation machine, a session step is one of its inputs or nothing. */
  lemma SideOfStep(s: Session, i: Input)
    requires s.alive && Coherent(s) && !(i.Oper? && i.op.Start?)
    ensures SyncSide(s, i, Step(s, i))
  {
    hide ConnStep; hide SyncStep; hide Trace; hide Messages; hide OnOper; hide OnSnap; hide OnRecv; hide Succeeds;
    AskedFacts(Announce);
    TraceNone();
    MessagesNone();
    match i
    case Oper(op) => OperSide(s, op);
    case Snap(msg) => if msg.Some? { SnapSide(s, msg.value); }
    case UnknownSnap =>
    case Recv(group, payload) => RecvSide(s, group, payload);
    case ConnRetry => ConnSide(s, C.RetryFired);
    case ConnTimeout => ConnSide(s, C.TimeoutFired);
    case SyncTimeout => StepSide(s, S.Timeout);
    case RetryExpires => ConnSide(s, C.RetryExpires);
    case ConnExpires => ConnSide(s, C.TimeoutExpires);
    case SyncExpires => StepSide(s, S.Expire);
  }

  // ---------------------------------------------------------------- a life with its downloads

  /** The broker that served a request, and its store at that moment. */
  datatype Served = Served(broker: Uuid, store: B.Store)

  /** A request made: its number, its parameters, and how many events the client had seen when it was out. */
  datatype Ask = Ask(seqn: nat, conf: WorkerConfig, at: nat)

  /** Any input, except that snapshot messages come as answers to a request of this life, counted from 1. */
  datatype Stimulus = Plain(input: Input) | Answer(request: nat, msg: SnapMsg)

  datatype View = View(s: Session, asked: seq<Ask>, trace: seq<Event>, got: seq<(nat, SnapMsg)>)

  function InputOf(x: Stimulus): Input {
    match x
    case Plain(i) => i
    case Answer(_, msg) => Snap(Some(msg))
  }

  function Begun(conf: WorkerConfig): View {
    var r := Step(FRESH, Oper(Start(conf)));
    View(r.s, [], Trace(r.fx), [])
  }

  function Advanced(v: View, x: Stimulus): View {
    var r := Step(v.s, InputOf(x));
    var trace := v.trace + Trace(r.fx);
    var a := AskedIn(Messages(r.fx));
    View(r.s,
         v.asked + (if a == [] then [] else [Ask(a[0].seqn, a[0].conf, |trace|)]),
         trace,
         v.got + if x.Answer? then [(x.request, x.msg)] else [])
  }

  /** The messages received in answer to request q. */
  function GotFor(got: seq<(nat, SnapMsg)>, q: nat): seq<SnapMsg> {
    if got == [] then []
    else if got[|got| - 1].0 == q then GotFor(got[..|got| - 1], q) + [got[|got| - 1].1]
    else GotFor(got[..|got| - 1], q)
  }

  /** The channel: answers follow their request, come in order and lose only a tail of the full reply, and no
      answer arrives whose number is the current one modulo 256 unless it answers the current request. */
  ghost predicate Channel(served: map<nat, Served>, v: View, x: Stimulus) {
    v.s.alive && match x
    case Plain(i) => !(i.Snap? && i.msg.Some?) && !(i.Oper? && i.op.Start?)
    case Answer(q, msg) =>
      && 1 <= q <= |v.asked| && q in served
      && GotFor(v.got, q) + [msg] <=
         B.FullReply(served[q].store, served[q].broker, v.asked[q - 1].seqn, v.asked[q - 1].conf)
      && (q % S.NUMBERS == |v.asked| % S.NUMBERS ==> q == |v.asked|)
  }

  ghost predicate IsLifeOf(conf: WorkerConfig, served: map<nat, Served>, views: seq<View>, xs: seq<Stimulus>) {
    && |views| == |xs| + 1 && views[0] == Begun(conf)
    && forall k :: 0 <= k < |xs| ==> Channel(served, views[k], xs[k]) && views[k + 1] == Advanced(views[k], xs[k])
  }

  // ---------------------------------------------------------------- invariant

  ghost predicate Numbered(asked: seq<Ask>, events: nat) {
    forall j :: 0 <= j < |asked| ==> asked[j].seqn == (j + 1) % S.NUMBERS && asked[j].at <= events
  }

  /** Every element received was reported to the client, after the request it answers. */
  ghost predicate Reported(v: View) {
    forall k :: 0 <= k < |v.got| ==>
      && 1 <= v.got[k].0 <= |v.asked|
      && (v.got[k].1.Elem? ==> ReportedAfter(v, v.got[k].0, v.got[k].1.topic))
  }

  ghost predicate ReportedAfter(v: View, q: nat, t: Topic)
    requires 1 <= q <= |v.asked|
  {
    exists i :: v.asked[q - 1].at <= i < |v.trace| && v.trace[i] == SyncElement(t)
  }

  ghost predicate ViewValid(v: View) {
    && Numbered(v.asked, |v.trace|) && Reported(v)
    && (v.s.alive ==> Coherent(v.s) && v.s.sync.indexMax == 0 && v.s.sync.seqNum == |v.asked| % S.NUMBERS)
  }

  lemma BegunIsValid(conf: WorkerConfig)
    ensures ViewValid(Begun(conf))
  {
    hide Step; hide Trace;
    StartNumbers(conf);
    StartSync(conf);
  }

  lemma StartSync(conf: WorkerConfig)
    ensures Step(FRESH, Oper(Start(conf))).s.sync == FRESH.sync
  {
    var s := FRESH.(conf := conf, seqNum := conf.seqNum);
    assert Coherent(s);
    hide ConnStep;
    ConnStepFacts(s, C.Input.Start);
  }

  /** A step of a living session makes no request and keeps the number, makes one with the next number, or stops. */
  lemma AskStep(s: Session, i: Input)
    requires s.alive && Coherent(s) && !(i.Oper? && i.op.Start?)
    ensures var r := Step(s, i);
            var a := AskedIn(Messages(r.fx));
            && r.s.sync.indexMax == s.sync.indexMax
            && (|a| == 0 ==> r.s.sync.seqNum == s.sync.seqNum || !r.s.alive)
            && (|a| > 0 ==> |a| == 1 && a[0].seqn == r.s.sync.seqNum == (s.sync.seqNum + 1) % S.NUMBERS)
  {
    hide Step; hide Trace; hide Messages; hide AskedIn; hide Coherent; hide Succeeds; hide S.Next;
    SideOfStep(s, i);
    var y := SyncInput(i);
    S.RequestsOf([]);
    if y.Some? {
      S.RequestStep(s.sync, y.value);
      FixedIndexMax(s.sync, y.value);
      if y == Some(S.Halt) { HaltMeansStop(s, i); }
    }
  }

  /** A living step keeps the numbering of requests. */
  lemma AdvanceSession(v: View, x: Stimulus)
    requires ViewValid(v) && v.s.alive && !(InputOf(x).Oper? && InputOf(x).op.Start?)
    ensures var w := Advanced(v, x);
            && Numbered(w.asked, |w.trace|) && |v.asked| <= |w.asked| && v.asked == w.asked[..|v.asked|]
            && (w.s.alive ==> Coherent(w.s) && w.s.sync.indexMax == 0 && w.s.sync.seqNum == |w.asked| % S.NUMBERS)
  {
    hide Step; hide Trace; hide Messages; hide AskedIn; hide Reported; hide Coherent; hide Numbered;
    var r := Step(v.s, InputOf(x));
    var a := AskedIn(Messages(r.fx));
    AskStep(v.s, InputOf(x));
    assert r.s.alive ==> Coherent(r.s) by { ReadStep(v.s, InputOf(x)); }
    var w := Advanced(v, x);
    NumberedMore(v.asked, |v.trace|, |w.trace|);
    NextNumber(|v.asked|);
    if a != [] {
      NumberedSnoc(v.asked, w.asked[|v.asked|], |w.trace|);
      assert w.asked == v.asked + [w.asked[|v.asked|]];
    } else {
      assert w.asked == v.asked;
    }
  }

  lemma NextNumber(k: nat)
    ensures (k % S.NUMBERS + 1) % S.NUMBERS == (k + 1) % S.NUMBERS
  {
  }

  lemma NumberedMore(asked: seq<Ask>, events: nat, more: nat)
    requires Numbered(asked, events) && events <= more
    ensures Numbered(asked, more)
  {
  }

  lemma NumberedSnoc(asked: seq<Ask>, a: Ask, events: nat)
    requires Numbered(asked, events) && a.seqn == (|asked| + 1) % S.NUMBERS && a.at <= events
    ensures Numbered(asked + [a], events)
  {
  }

  lemma FixedIndexMax(m: S.Sync, i: S.Input)
    ensures S.Next(m, i).0.indexMax == m.indexMax
  {
  }

  lemma HaltMeansStop(s: Session, i: Input)
    requires s.alive && SyncInput(i) == Some(S.Halt)
    ensures !Step(s, i).s.alive
  {
    hide ConnStep; hide SyncStep;
  }

  /** A reported element stays reported, and a new one is reported after its request. */
  lemma AdvanceReports(served: map<nat, Served>, v: View, x: Stimulus)
    requires ViewValid(v) && Channel(served, v, x)
    ensures Reported(Advanced(v, x))
  {
    hide Step; hide Trace; hide Messages; hide AskedIn; hide Coherent; hide Succeeds; hide S.Next;
    hide B.FullReply; hide Numbered;
    AdvanceSession(v, x);
    SideOfStep(v.s, InputOf(x));
    var w := Advanced(v, x);
    var new_ := Trace(Step(v.s, InputOf(x)).fx);
    forall k | 0 <= k < |w.got|
      ensures 1 <= w.got[k].0 <= |w.asked| && (w.got[k].1.Elem? ==> ReportedAfter(w, w.got[k].0, w.got[k].1.topic))
    {
      var q := w.got[k].0;
      if k < |v.got| {
        assert w.got[k] == v.got[k];
        assert w.asked[q - 1] == v.asked[q - 1];
        if w.got[k].1.Elem? {
          var i :| v.asked[q - 1].at <= i < |v.trace| && v.trace[i] == SyncElement(w.got[k].1.topic);
          assert w.trace[i] == v.trace[i];
        }
      } else {
        assert w.asked[q - 1] == v.asked[q - 1];
        assert v.asked[q - 1].at <= |v.trace| by { NumberedAt(v.asked, |v.trace|, q - 1); }
        if x.msg.Elem? {
          var j :| 0 <= j < |new_| && new_[j] == SyncElement(x.msg.topic);
          assert w.trace[|v.trace| + j] == new_[j];
        }
      }
    }
  }

  lemma NumberedAt(asked: seq<Ask>, events: nat, j: nat)
    requires Numbered(asked, events) && j < |asked|
    ensures asked[j].at <= events && asked[j].seqn == (j + 1) % S.NUMBERS
  {
  }

  lemma AdvanceKeepsValid(served: map<nat, Served>, v: View, x: Stimulus)
    requires ViewValid(v) && Channel(served, v, x)
    ensures ViewValid(Advanced(v, x))
  {
    hide Step; hide Trace; hide Messages; hide AskedIn; hide Coherent; hide B.FullReply;
    hide Reported; hide Numbered;
    AdvanceSession(v, x);
    AdvanceReports(served, v, x);
  }

  lemma {:induction false} LifeIsValid(
    conf: WorkerConfig, served: map<nat, Served>, views: seq<View>, xs: seq<Stimulus>, k: nat)
    requires IsLifeOf(conf, served, views, xs) && k < |views|
    ensures ViewValid(views[k])
  {
    hide ViewValid; hide Channel; hide Advanced; hide Begun;
    if k == 0 {
      BegunIsValid(conf);
    } else {
      LifeIsValid(conf, served, views, xs, k - 1);
      assert Channel(served, views[k - 1], xs[k - 1]) && views[k - 1 + 1] == Advanced(views[k - 1], xs[k - 1]);
      AdvanceKeepsValid(served, views[k - 1], xs[k - 1]);
    }
  }

  // ---------------------------------------------------------------- what a success means

  /** A success comes from a completion carrying the number of the last request. */
  lemma SuccessFromCompletion(v: View, x: Stimulus)
    requires ViewValid(v) && v.s.alive && !(InputOf(x).Oper? && InputOf(x).op.Start?)
    requires Succeeds(Trace(Step(v.s, InputOf(x)).fx))
    ensures InputOf(x).Snap? && InputOf(x).msg.Some? && InputOf(x).msg.value.Compl?
    ensures InputOf(x).msg.value.seqn == |v.asked| % S.NUMBERS
  {
    hide Step; hide Trace; hide Messages; hide AskedIn; hide Succeeds; hide S.Next; hide Reported; hide Numbered;
    SideOfStep(v.s, InputOf(x));
    var y := SyncInput(InputOf(x));
    S.SyncedOnlyByCurrentComplete(v.s.sync, if y.Some? then y.value else S.Expire);
  }

  /** The completion ends the full reply, and every message of a reply carries the request's number. */
  lemma CompletionIsLast(st: B.Store, broker: Uuid, seqn: nat, conf: WorkerConfig, got: seq<SnapMsg>, msg: SnapMsg)
    requires got + [msg] <= B.FullReply(st, broker, seqn, conf)
    ensures msg.seqn == seqn
    ensures msg.Compl? ==> B.NoEmptyEntry(st.topics) && got == [Begin(seqn, broker)] + B.Elements(st.topics, seqn, conf)
  {
    hide B.Elements; hide B.NoEmptyEntry;
    var es := B.Elements(st.topics, seqn, conf);
    var full := B.FullReply(st, broker, seqn, conf);
    assert full[|got|] == (got + [msg])[|got|] == msg;
    if 1 <= |got| < 1 + |es| {
      assert msg == es[|got| - 1];
      B.ElementsAreStored(st.topics, seqn, conf, msg);
    } else if |got| > 0 {
      assert got == full[..|got|];
    }
  }

  lemma {:induction false} GotWasReceived(got: seq<(nat, SnapMsg)>, q: nat, m: SnapMsg)
    requires m in GotFor(got, q)
    ensures (q, m) in got
  {
    if !(got[|got| - 1] == (q, m)) { GotWasReceived(got[..|got| - 1], q, m); }
  }

  lemma {:induction false} WantedIsSent(topics: seq<(Bytes, B.Inner)>, seqn: nat, conf: WorkerConfig, name: Bytes)
    requires Distinct(topics) && B.NoEmptyEntry(topics) && Has(topics, name)
    ensures var last := B.Back(Lookup(topics, name).value);
            last.Some? && (B.Wanted(conf, last.value) ==> Elem(seqn, last.value) in B.Elements(topics, seqn, conf))
  {
    if topics[0].0 != name { WantedIsSent(topics[1..], seqn, conf, name); }
  }

  // ---------------------------------------------------------------- every request carries the configuration

  ghost predicate SameConf(conf: WorkerConfig, v: View) {
    && (v.s.alive ==> v.s.conf == conf)
    && forall j :: 0 <= j < |v.asked| ==> v.asked[j].conf.(seqNum := conf.seqNum) == conf
  }

  lemma AdvanceConf(conf: WorkerConfig, v: View, x: Stimulus)
    requires ViewValid(v) && v.s.alive && SameConf(conf, v) && !(InputOf(x).Oper? && InputOf(x).op.Start?)
    ensures SameConf(conf, Advanced(v, x))
  {
    hide Step; hide Trace; hide Messages; hide AskedIn; hide Reported; hide Numbered; hide Coherent; hide S.Next;
    hide Succeeds;
    SideOfStep(v.s, InputOf(x));
    StepNumbers(v.s, InputOf(x));
  }

  lemma {:induction false} LifeConf(
      conf: WorkerConfig, served: map<nat, Served>, views: seq<View>, xs: seq<Stimulus>, k: nat)
    requires IsLifeOf(conf, served, views, xs) && k < |views|
    ensures SameConf(conf, views[k])
  {
    hide ViewValid; hide Channel; hide Advanced; hide SameConf;
    if k == 0 {
      BegunConf(conf);
    } else {
      LifeConf(conf, served, views, xs, k - 1);
      LifeIsValid(conf, served, views, xs, k - 1);
      assert Channel(served, views[k - 1], xs[k - 1]) && views[k - 1 + 1] == Advanced(views[k - 1], xs[k - 1]);
      ChannelMeans(served, views[k - 1], xs[k - 1]);
      AdvanceConf(conf, views[k - 1], xs[k - 1]);
    }
  }

  lemma ChannelMeans(served: map<nat, Served>, v: View, x: Stimulus)
    requires Channel(served, v, x)
    ensures v.s.alive && !(InputOf(x).Oper? && InputOf(x).op.Start?)
  {
  }

  lemma BegunConf(conf: WorkerConfig)
    ensures SameConf(conf, Begun(conf))
  {
    hide Step; hide Trace;
    StartNumbers(conf);
  }

  /** When a step of a life announces SyncSuccess, it does so for the last request, whose whole reply has arrived:
      the client has already been given, after that request, a SyncElement for the last topic of every stored name
      that is of State kind and that its configuration subscribes to, as the store was when the broker served that
      request. */
  lemma SuccessMeansComplete(
    conf: WorkerConfig, served: map<nat, Served>, views: seq<View>, xs: seq<Stimulus>, k: nat, name: Bytes)
    requires IsLifeOf(conf, served, views, xs) && k < |xs|
    requires Succeeds(Trace(Step(views[k].s, InputOf(xs[k])).fx))
    ensures var v := views[k];
            var q := |v.asked|;
            && q >= 1 && q in served && B.NoEmptyEntry(served[q].store.topics)
            && (Distinct(served[q].store.topics) && Has(served[q].store.topics, name) ==>
                  var last := B.Back(Lookup(served[q].store.topics, name).value);
                  && last.Some?
                  && (last.value.kind.State? && (conf.topicsAll || last.value.name in conf.topicsNames) ==>
                        ReportedAfter(v, q, last.value)))
  {
    hide Step; hide Trace; hide Succeeds; hide Advanced; hide Begun; hide B.FullReply; hide B.Elements;
    hide B.NoEmptyEntry; hide Lookup; hide Has;
    var v, x := views[k], xs[k];
    LifeIsValid(conf, served, views, xs, k);
    assert Channel(served, v, x);
    SuccessFromCompletion(v, x);
    var q := x.request;
    var sv := served[q];
    CompletionIsLast(sv.store, sv.broker, v.asked[q - 1].seqn, v.asked[q - 1].conf, GotFor(v.got, q), x.msg);
    NumberedAt(v.asked, |v.trace|, q - 1);
    LifeConf(conf, served, views, xs, k);
    if Distinct(sv.store.topics) && Has(sv.store.topics, name) {
      WantedIsSent(sv.store.topics, v.asked[q - 1].seqn, v.asked[q - 1].conf, name);
      var last := B.Back(Lookup(sv.store.topics, name).value).value;
      if B.Wanted(v.asked[q - 1].conf, last) {
        GotWasReceived(v.got, q, Elem(v.asked[q - 1].seqn, last));
      }
    }
  }

  /** The same against the log of the broker that served the request: while at most 1024 names had reached it,
      the client holds the last accepted topic of every subscribed State name. */
  lemma SnapshotCompleteness(
    conf: WorkerConfig, served: map<nat, Served>, views: seq<View>, xs: seq<Stimulus>, k: nat,
    ts: seq<Topic>, n: nat, name: Bytes)
    requires IsLifeOf(conf, served, views, xs) && k < |xs|
    requires Succeeds(Trace(Step(views[k].s, InputOf(xs[k])).fx))
    requires n <= |ts| && |B.NamesOf(ts, n)| <= 1024
    requires |views[k].asked| in served ==> served[|views[k].asked|].store == B.After(ts, n)
    ensures var v := views[k];
            var last := B.LastAccepted(ts, n, name);
            && v.asked != []
            && (last.Some? && last.value.kind.State? && (conf.topicsAll || last.value.name in conf.topicsNames) ==>
                  ReportedAfter(v, |v.asked|, last.value))
  {
    hide Step; hide Trace; hide Succeeds; hide IsLifeOf; hide ReportedAfter; hide B.NoEmptyEntry; hide Lookup;
    hide Has;
    SuccessMeansComplete(conf, served, views, xs, k, name);
    B.StoreRefinesLog(ts, n);
    B.TopicsInvariant(ts, n);
    if B.LastAccepted(ts, n, name).Some? {
      B.LastAcceptedArrived(ts, n, name);
      B.KeysFacts(B.After(ts, n).topics, (name, []), name);
    }
  }
}
