/** The whole event trace of a session, written down from its inputs alone. */
module SessionScript {
  import opened Basics
  import opened LruModel
  import opened SessionModel
  import opened SessionFacts
  import opened SessionNumbers
  import opened TraceGrammar
  import opened SessionParts
  import C = ConnModel
  import S = SyncModel
  import N = Snapshot

  // ---------------------------------------------------------------- what the inputs say

  /** The inputs meant for the connection machine, and those for the download machine. */
  function ConnIns(ins: seq<Input>): seq<C.Input> {
    if ins == [] then []
    else
      var c := ConnInput(ins[|ins| - 1]);
      ConnIns(ins[..|ins| - 1]) + if c.Some? then [c.value] else []
  }

  function SyncIns(ins: seq<Input>): seq<S.Input> {
    if ins == [] then []
    else
      var c := N.SyncInput(ins[|ins| - 1]);
      SyncIns(ins[..|ins| - 1]) + if c.Some? then [c.value] else []
  }

  function ConnAfter(ins: seq<Input>): (C.Conn, seq<C.Act>) { C.Run(C.INITIAL, ConnIns(ins)) }

  function SyncAfter(ins: seq<Input>): (S.Sync, seq<S.Act>) { S.Run(S.Initial(INDEX_MAX, RETRY_MAX), SyncIns(ins)) }

  /** The topic an input brings to the duplicate filter: one of a subscribed group, or a snapshot element. */
  function Brought(conf: WorkerConfig, i: Input): Option<Topic> {
    if i.Snap? && i.msg.Some? && i.msg.value.Elem? then Some(i.msg.value.topic)
    else if i.Recv? && Subscribed(conf, i.group) then i.payload
    else None
  }

  /** All topics brought so far, in order. */
  function Heard(conf: WorkerConfig, ins: seq<Input>): seq<Topic> {
    if ins == [] then []
    else
      var t := Brought(conf, ins[|ins| - 1]);
      Heard(conf, ins[..|ins| - 1]) + if t.Some? then [t.value] else []
  }

  /** A number above 0 and above every number of that worker among some topics. */
  predicate Above(x: nat, w: Uuid, heard: seq<Topic>) {
    x > 0 && forall j :: 0 <= j < |heard| && heard[j].worker == w ==> heard[j].seqn < x
  }

  /** The broker named last since the last request for a download; nil if there was none. */
  function LastBroker(ins: seq<Input>): Uuid {
    if ins == [] then NIL_UUID
    else
      var i := ins[|ins| - 1];
      if i == Oper(Sync) then NIL_UUID
      else if i.Snap? && i.msg.Some? && !i.msg.value.Elem? then i.msg.value.broker
      else LastBroker(ins[..|ins| - 1])
  }

  /** The worker's number: from the configuration on, one more with each dispatch, and up to own topics that come
      back with a higher one. */
  function NumberAfter(conf: WorkerConfig, ins: seq<Input>): nat {
    if ins == [] then conf.seqNum
    else
      var before, i := ins[..|ins| - 1], ins[|ins| - 1];
      var n, t := NumberAfter(conf, before), Brought(conf, i);
      if i.Oper? && (i.op.Dispatch? || i.op.BadDispatch?) then (n + 1) % SEQ_LIMIT
      else if && t.Some? && t.value.worker == conf.uuid && t.value.seqn > n
              && Above(t.value.seqn, conf.uuid, Heard(conf, before))
      then t.value.seqn
      else n
  }

  // ---------------------------------------------------------------- the script

  function DownloadEvents(conf: WorkerConfig, broker: Uuid, before: S.Phase, after: S.Phase, asked: bool): seq<Event> {
    (if before != S.Download && after == S.Download then [SyncDownloadOn] else []) +
    (if asked then [SyncRequest(conf)] else []) +
    (if before == S.Download && after == S.Synced then [SyncSuccess(broker), SyncDownloadOff]
     else if before == S.Download && after != S.Download then [SyncError(broker), SyncDownloadOff]
     else [])
  }

  /** What an input reports by itself. */
  function Reports(conf: WorkerConfig, h: seq<Input>, i: Input): seq<Event> {
    if i.Snap? && i.msg.Some? && i.msg.value.Begin? then [SyncBegin(i.msg.value.broker)]
    else if i.Snap? && i.msg.Some? && i.msg.value.Elem? then [SyncElement(i.msg.value.topic)]
    else if i.Recv? && Brought(conf, i).Some? && Above(i.payload.value.seqn, i.payload.value.worker, Heard(conf, h))
    then [Delivery(i.payload.value)]
    else []
  }

  /** The events of one input after the inputs h of a life. */
  function Scene(conf: WorkerConfig, h: seq<Input>, i: Input): seq<Event> {
    var c, d := ConnAfter(h).0.phase, ConnAfter(h + [i]).0.phase;
    var m, n := SyncAfter(h).0, SyncAfter(h + [i]).0;
    Reports(conf, h, i)
    + OnlineChange(c == C.Stable, d == C.Stable)
    + DownloadEvents(conf.(seqNum := NumberAfter(conf, h)), LastBroker(h + [i]), m.phase, n.phase,
                     S.Requests(SyncNext(m, i).1) != [])
    + if i == Oper(Stop) then [Stopped] else []
  }

  function Script(conf: WorkerConfig, ins: seq<Input>): seq<Event> {
    if ins == [] then []
    else if |ins| == 1 then [Started(conf)]
    else Script(conf, ins[..|ins| - 1]) + Scene(conf, ins[..|ins| - 1], ins[|ins| - 1])
  }

  /** Whether one of the inputs after the Start ended the session. */
  predicate Over(conf: WorkerConfig, ins: seq<Input>) {
    |ins| > 1 && (Over(conf, ins[..|ins| - 1]) || Ends(conf, ins[|ins| - 1]))
  }

  /** The inputs up to the one that ends the session. */
  function Living(conf: WorkerConfig, ins: seq<Input>): seq<Input> {
    if |ins| <= 1 || !Over(conf, ins[..|ins| - 1]) then ins else Living(conf, ins[..|ins| - 1])
  }

  /** The reserved group as a subscribed name makes opening the sockets throw. */
  predicate Refused(conf: WorkerConfig) { !conf.topicsAll && UPDT in conf.topicsNames }

  // ---------------------------------------------------------------- the session knows what its inputs say

  ghost predicate Remembers(seen: seq<(Uuid, nat)>, heard: seq<Topic>) {
    forall x: nat, w :: x > LastNumber(seen, w) <==> Above(x, w, heard)
  }

  ghost predicate Matches(s: Session, conf: WorkerConfig, ins: seq<Input>) {
    && s.conf == conf && s.conn == ConnAfter(ins).0 && s.sync == SyncAfter(ins).0
    && s.broker == LastBroker(ins) && s.seqNum == NumberAfter(conf, ins)
    && Distinct(s.seen) && Remembers(s.seen, Heard(conf, ins))
  }

  lemma AboveSnoc(x: nat, w: Uuid, heard: seq<Topic>, t: Topic)
    ensures Above(x, w, heard + [t]) <==> Above(x, w, heard) && (t.worker == w ==> t.seqn < x)
  {
    assert (heard + [t])[|heard|] == t;
    assert forall j :: 0 <= j < |heard| ==> (heard + [t])[j] == heard[j];
  }

  /** The duplicate filter keeps exactly what it needs to know of the topics it saw. */
  lemma FilterRemembers(s: Session, heard: seq<Topic>, t: Topic)
    requires Distinct(s.seen) && Remembers(s.seen, heard)
    ensures var r := AcceptTopic(s, t).s; Distinct(r.seen) && Remembers(r.seen, heard + [t])
    ensures Accepts(s, t) <==> Above(t.seqn, t.worker, heard)
  {
    hide Above;
    var r := AcceptTopic(s, t).s;
    PutUnbounded(s.seen, t.worker, t.seqn, t.worker);
    hide Put; hide Lookup;
    forall x: nat, w ensures x > LastNumber(r.seen, w) <==> Above(x, w, heard + [t]) {
      AboveSnoc(x, w, heard, t);
      PutUnbounded(s.seen, t.worker, t.seqn, w);
      assert x > LastNumber(s.seen, w) <==> Above(x, w, heard);
    }
  }

  // ---------------------------------------------------------------- one step, from the state

  function StateBroker(s: Session, i: Input): Uuid {
    if i == Oper(Sync) then NIL_UUID
    else if i.Snap? && i.msg.Some? && !i.msg.value.Elem? then i.msg.value.broker
    else s.broker
  }

  function StateReports(s: Session, i: Input): seq<Event> {
    if i.Snap? && i.msg.Some? && i.msg.value.Begin? then [SyncBegin(i.msg.value.broker)]
    else if i.Snap? && i.msg.Some? && i.msg.value.Elem? then [SyncElement(i.msg.value.topic)]
    else if i.Recv? && TopicGroup(s, i.group) && i.payload.Some? && Accepts(s, i.payload.value)
    then [Delivery(i.payload.value)]
    else []
  }

  function StateScene(s: Session, i: Input): seq<Event> {
    StateReports(s, i)
    + OnlineChange(s.conn.phase == C.Stable, ConnNext(s.conn, i).0.phase == C.Stable)
    + DownloadEvents(s.conf.(seqNum := s.seqNum), StateBroker(s, i), s.sync.phase, SyncNext(s.sync, i).0.phase,
                     S.Requests(SyncNext(s.sync, i).1) != [])
    + if i == Oper(Stop) then [Stopped] else []
  }

  ghost predicate Played(s: Session, i: Input, r: Out) {
    Trace(r.fx) == StateScene(s, i) && (r.s.alive ==> r.s.broker == StateBroker(s, i))
  }

  lemma NoDownloadEvents(conf: WorkerConfig, broker: Uuid, p: S.Phase)
    ensures DownloadEvents(conf, broker, p, p, false) == []
  {
  }

  lemma NoRequests()
    ensures S.Requests([]) == []
  {
  }

  /** A call of the connection machine. */
  lemma PlayConn(s: Session, i: Input, c: C.Input)
    requires s.alive && Coherent(s) && ConnInput(i) == Some(c) && i.Oper? == false
    ensures Played(s, i, ConnStep(s, c))
  {
    hide ConnStep; hide Trace; hide C.Next; hide DownloadEvents; hide Accepts;
    ConnStepFacts(s, c);
    NoRequests();
    NoDownloadEvents(s.conf.(seqNum := s.seqNum), s.broker, s.sync.phase);
  }

  /** The events of a call of the download machine, written without the session's state. */
  lemma DownloadScene(s: Session, x: S.Input)
    requires s.snapshot == (s.sync.phase == S.Download)
    ensures var n := S.Next(s.sync, x);
            && Trace(SyncStep(s, x).fx) ==
               DownloadEvents(s.conf.(seqNum := s.seqNum), s.broker, s.sync.phase, n.0.phase, S.Requests(n.1) != [])
            && (x != S.Halt ==> SyncStep(s, x).s.broker == s.broker)
  {
    hide SyncStep; hide Trace;
    SyncStepFacts(s, x);
    S.RequestStep(s.sync, x);
    if x != S.Halt { S.PhaseStep(s.sync, x); }
  }

  lemma PlaySync(s: Session, i: Input, x: S.Input)
    requires Coherent(s) && ((i == SyncTimeout && x == S.Timeout) || (i == SyncExpires && x == S.Expire))
    ensures Played(s, i, SyncStep(s, x))
  {
    hide SyncStep; hide Trace; hide S.Next; hide DownloadEvents;
    hide Accepts; hide TopicGroup;
    DownloadScene(s, x);
  }

  lemma PlayStop(s: Session)
    requires s.alive && Coherent(s)
    ensures Played(s, Oper(Stop), OnOper(s, Stop))
  {
    hide ConnStep; hide SyncStep; hide Trace; hide C.Next; hide S.Next; hide DownloadEvents;
    hide Accepts; hide TopicGroup;
    var p := ConnStep(s, C.Input.Stop);
    var q := SyncStep(p.s, S.Halt);
    ConnStepFacts(s, C.Input.Stop);
    DownloadScene(p.s, S.Halt);
    TraceJoin(p.fx + q.fx, [Emit(Stopped)]);
    TraceJoin(p.fx, q.fx);
    TraceOne(Emit(Stopped));
  }

  /** An input that moves neither machine reports what it reports by itself. */
  lemma QuietScene(s: Session, i: Input)
    requires ConnNext(s.conn, i).0.phase == s.conn.phase && SyncNext(s.sync, i).0.phase == s.sync.phase
    requires S.Requests(SyncNext(s.sync, i).1) == [] && i != Oper(Stop)
    ensures StateScene(s, i) == StateReports(s, i)
  {
    hide ConnNext; hide SyncNext; hide StateReports; hide DownloadEvents;
    NoDownloadEvents(s.conf.(seqNum := s.seqNum), StateBroker(s, i), s.sync.phase);
    var e := StateReports(s, i);
    assert e + [] + [] + [] == e;
  }

  lemma PlayOper(s: Session, op: Op)
    requires s.alive && Coherent(s) && !op.Start?
    ensures Played(s, Oper(op), OnOper(s, op))
  {
    hide ConnStep; hide SyncStep; hide Trace; hide C.Next; hide S.Next; hide DownloadEvents;
    hide Accepts; hide TopicGroup;
    match op
    case Stop => PlayStop(s);
    case Sync =>
      DownloadScene(s.(broker := NIL_UUID), S.Input.Start);
    case _ => PlayOther(s, op);
  }

  lemma PlayOther(s: Session, op: Op)
    requires !op.Start? && !op.Stop? && !op.Sync?
    ensures Played(s, Oper(op), OnOper(s, op))
  {
    hide Trace; hide StateScene;
    NoRequests();
    QuietScene(s, Oper(op));
    TraceNone();
    var n := (s.seqNum + 1) % SEQ_LIMIT;
    TraceOne(Notify(n));
    if op.Dispatch? {
      var out := Publish(op.topic.(seqn := n));
      Two(Notify(n), out);
      TraceOne(out);
    }
  }

  lemma PlaySnap(s: Session, msg: SnapMsg)
    requires s.alive && Coherent(s)
    ensures Played(s, Snap(Some(msg)), OnSnap(s, msg))
  {
    hide SyncStep; hide AcceptTopic; hide Trace; hide S.Next; hide Accepts; hide TopicGroup; hide DownloadEvents;
    match msg
    case Begin(_, u) =>
      NoRequests();
      TraceOne(Emit(SyncBegin(u)));
      QuietScene(s, Snap(Some(msg)));
    case Elem(n, t) => PlayElem(s, n, t);
    case Compl(n, u) => DownloadScene(s.(broker := u), S.Reply(0, n, S.Complete));
  }

  /** An element never moves the download machine to another phase. */
  lemma ElementMovesNothing(m: S.Sync, n: nat)
    ensures var q := S.Next(m, S.Reply(0, n, S.Snapshot)); q.0.phase == m.phase && q.1 == [] && S.Requests(q.1) == []
  {
  }

  lemma PlayElem(s: Session, n: nat, t: Topic)
    requires s.alive && Coherent(s)
    ensures Played(s, Snap(Some(Elem(n, t))), OnSnap(s, Elem(n, t)))
  {
    hide SyncStep; hide AcceptTopic; hide Trace; hide S.Next; hide Accepts; hide TopicGroup; hide DownloadEvents;
    hide StateScene;
    var x := S.Reply(0, n, S.Snapshot);
    ElementMovesNothing(s.sync, n);
    QuietScene(s, Snap(Some(Elem(n, t))));
    AcceptTopicFacts(s, t);
    var p := AcceptTopic(s, t);
    var q := SyncStep(p.s, x);
    DownloadScene(p.s, x);
    NoDownloadEvents(p.s.conf.(seqNum := p.s.seqNum), s.broker, s.sync.phase);
    TraceJoin(p.fx + [Emit(SyncElement(t))], q.fx);
    TraceJoin(p.fx, [Emit(SyncElement(t))]);
    TraceOne(Emit(SyncElement(t)));
    assert [] + [SyncElement(t)] + [] == [SyncElement(t)];
  }

  lemma PlayRecv(s: Session, group: Bytes, payload: Option<Topic>)
    requires s.alive && Coherent(s)
    ensures Played(s, Recv(group, payload), OnRecv(s, group, payload))
  {
    hide ConnStep; hide AcceptTopic; hide Trace; hide C.Next; hide Accepts; hide StateScene;
    if group == HUGZ {
      PlayConn(s, Recv(group, payload), C.Ping);
    } else {
      NoRequests();
      TraceNone();
      QuietScene(s, Recv(group, payload));
      if TopicGroup(s, group) && payload.Some? {
        var t := payload.value;
        AcceptTopicFacts(s, t);
        TraceJoin(AcceptTopic(s, t).fx, [Emit(Delivery(t))]);
        TraceJoin(AcceptTopic(s, t).fx, []);
        TraceOne(Emit(Delivery(t)));
      }
    }
  }

  lemma PlayStep(s: Session, i: Input)
    requires s.alive && Coherent(s) && !(i.Oper? && i.op.Start?)
    ensures Played(s, i, Step(s, i))
  {
    hide ConnStep; hide SyncStep; hide OnOper; hide OnSnap; hide OnRecv; hide Trace; hide C.Next; hide S.Next;
    hide StateScene; hide Accepts;
    NoRequests();
    TraceNone();
    match i
    case Oper(op) => PlayOper(s, op);
    case Snap(msg) => if msg.Some? { PlaySnap(s, msg.value); } else { QuietScene(s, i); }
    case UnknownSnap => QuietScene(s, i);
    case Recv(group, payload) => PlayRecv(s, group, payload);
    case ConnRetry => PlayConn(s, i, C.RetryFired);
    case ConnTimeout => PlayConn(s, i, C.TimeoutFired);
    case SyncTimeout => PlaySync(s, i, S.Timeout);
    case RetryExpires => PlayConn(s, i, C.RetryExpires);
    case ConnExpires => PlayConn(s, i, C.TimeoutExpires);
    case SyncExpires => PlaySync(s, i, S.Expire);
  }

  // ---------------------------------------------------------------- whole lives

  lemma {:induction false} AfterSnoc(h: seq<Input>, i: Input)
    ensures ConnAfter(h + [i]).0 == ConnNext(ConnAfter(h).0, i).0
    ensures ConnAfter(h + [i]).1 == ConnAfter(h).1 + ConnNext(ConnAfter(h).0, i).1
    ensures SyncAfter(h + [i]).0 == SyncNext(SyncAfter(h).0, i).0
    ensures SyncAfter(h + [i]).1 == SyncAfter(h).1 + SyncNext(SyncAfter(h).0, i).1
  {
    hide C.Next; hide S.Next;
    assert (h + [i])[..|h|] == h;
    var c, x := ConnInput(i), N.SyncInput(i);
    if c.Some? { ConnRunSnoc(ConnIns(h), c.value); } else { assert ConnIns(h) + [] == ConnIns(h); }
    if x.Some? { SyncRunSnoc(SyncIns(h), x.value); } else { assert SyncIns(h) + [] == SyncIns(h); }
  }

  lemma ConnRunSnoc(cs: seq<C.Input>, c: C.Input)
    ensures var p := C.Run(C.INITIAL, cs);
            var q := C.Next(p.0, c);
            C.Run(C.INITIAL, cs + [c]) == (q.0, p.1 + q.1)
  {
    assert (cs + [c])[..|cs|] == cs;
  }

  lemma SyncRunSnoc(xs: seq<S.Input>, x: S.Input)
    ensures var p := S.Run(S.Initial(INDEX_MAX, RETRY_MAX), xs);
            var q := S.Next(p.0, x);
            S.Run(S.Initial(INDEX_MAX, RETRY_MAX), xs + [x]) == (q.0, p.1 + q.1)
  {
    assert (xs + [x])[..|xs|] == xs;
  }

  lemma HistorySnoc(conf: WorkerConfig, h: seq<Input>, i: Input)
    ensures Heard(conf, h + [i]) == Heard(conf, h) + if Brought(conf, i).Some? then [Brought(conf, i).value] else []
    ensures LastBroker(h + [i]) ==
            if i == Oper(Sync) then NIL_UUID
            else if i.Snap? && i.msg.Some? && !i.msg.value.Elem? then i.msg.value.broker
            else LastBroker(h)
    ensures NumberAfter(conf, h + [i]) ==
            var n, t := NumberAfter(conf, h), Brought(conf, i);
            if i.Oper? && (i.op.Dispatch? || i.op.BadDispatch?) then (n + 1) % SEQ_LIMIT
            else if && t.Some? && t.value.worker == conf.uuid && t.value.seqn > n
                    && Above(t.value.seqn, conf.uuid, Heard(conf, h))
            then t.value.seqn
            else n
  {
    assert (h + [i])[..|h|] == h;
  }

  /** What a session knows after an input is what the inputs say. */
  lemma StepMatches(s: Session, conf: WorkerConfig, h: seq<Input>, i: Input)
    requires s.alive && Coherent(s) && Matches(s, conf, h) && !Refused(conf) && !(i.Oper? && i.op.Start?)
    ensures Step(s, i).s.alive ==> Matches(Step(s, i).s, conf, h + [i])
    ensures Trace(Step(s, i).fx) == Scene(conf, h, i)
  {
    hide Step; hide Trace; hide C.Next; hide S.Next; hide Messages; hide Above; hide Put; hide LastNumber;
    hide ConnAfter; hide SyncAfter; hide Heard; hide LastBroker; hide NumberAfter; hide Distinct; hide DownloadEvents;
    hide ConnWires; hide SnapWires;
    var r := Step(s, i);
    StepNumbers(s, i);
    StepParts(s, i);
    PlayStep(s, i);
    AfterSnoc(h, i);
    HistorySnoc(conf, h, i);
    FilterStep(s, conf, h, i);
  }

  lemma FilterStep(s: Session, conf: WorkerConfig, h: seq<Input>, i: Input)
    requires s.alive && Coherent(s) && Matches(s, conf, h) && !(i.Oper? && i.op.Start?)
    ensures Processed(s, i) == Brought(conf, i)
    ensures var r := Step(s, i).s; Distinct(r.seen) && Remembers(r.seen, Heard(conf, h + [i]))
    ensures Processed(s, i).Some? ==>
              (Accepts(s, Processed(s, i).value) <==>
               Above(Processed(s, i).value.seqn, Processed(s, i).value.worker, Heard(conf, h)))
  {
    StepNumbers(s, i);
    HistorySnoc(conf, h, i);
    if Processed(s, i).Some? { FilterRemembers(s, Heard(conf, h), Processed(s, i).value); }
    hide Step; hide Remembers; hide Put; hide Above; hide LastNumber; hide Distinct; hide Heard;
    hide ConnAfter; hide SyncAfter;
    hide LastBroker; hide NumberAfter;
    var heard := Heard(conf, h);
    assert heard + [] == heard;
  }

  /** The machines' wires over some inputs. */
  ghost predicate Wired(fx: seq<Effect>, ins: seq<Input>) {
    ConnWires(fx) == ConnImage(ConnAfter(ins).1) && SnapWires(fx) == SnapImage(SyncAfter(ins).1)
  }

  lemma StartTrace(conf: WorkerConfig)
    ensures var r := Step(FRESH, Oper(Start(conf)));
            Trace(r.fx) == [Started(conf)] && r.s.broker == NIL_UUID && r.s.seen == []
  {
    var t := FRESH.(conf := conf, seqNum := conf.seqNum);
    assert C.Next(C.INITIAL, C.Input.Start).0.phase == C.Trying;
    ConnStepFacts(t, C.Input.Start);
    hide ConnStep; hide C.Next; hide Trace;
    TraceJoin([Emit(Started(conf))], ConnStep(t, C.Input.Start).fx);
    TraceOne(Emit(Started(conf)));
  }

  lemma StartMatches(conf: WorkerConfig)
    requires !Refused(conf)
    ensures var i := Oper(Start(conf));
            var r := Step(FRESH, i);
            && r.s.alive && Coherent(r.s) && Matches(r.s, conf, [i])
            && Trace(r.fx) == [Started(conf)] && Wired(r.fx, [i])
  {
    hide Step; hide C.Next; hide ConnAfter; hide SyncAfter; hide Heard; hide ConnWires; hide SnapWires;
    hide ConnImage; hide SnapImage; hide Trace; hide Remembers; hide Distinct; hide LastBroker; hide NumberAfter;
    hide Messages; hide Coherent;
    var i := Oper(Start(conf));
    NothingYet(conf, i);
    AfterSnoc([], i);
    assert [] + [i] == [i];
    NoImage();
    StartNumbers(conf);
    StartTrace(conf);
    StepParts(FRESH, i);
    FreshMachines();
    var acts := ConnNext(C.INITIAL, i).1;
    assert [] + acts == acts;
  }

  lemma FreshMachines()
    ensures FRESH.alive && FRESH.conn == C.INITIAL && FRESH.sync == S.Initial(INDEX_MAX, RETRY_MAX)
  {
  }

  lemma NothingYet(conf: WorkerConfig, i: Input)
    requires i.Oper? && i.op.Start?
    ensures ConnAfter([]) == (C.INITIAL, []) && SyncAfter([]) == (S.Initial(INDEX_MAX, RETRY_MAX), [])
    ensures Heard(conf, [i]) == [] && LastBroker([i]) == NIL_UUID && NumberAfter(conf, [i]) == conf.seqNum
    ensures Distinct<Uuid, nat>([]) && Remembers([], [])
  {
    assert [i][..0] == [];
  }

  lemma StepWired(s: Session, conf: WorkerConfig, fx: seq<Effect>, h: seq<Input>, i: Input)
    requires s.alive && Matches(s, conf, h) && !Refused(conf) && Wired(fx, h) && !(i.Oper? && i.op.Start?)
    ensures Wired(fx + Step(s, i).fx, h + [i])
    ensures Step(s, i).s.alive <==> !Ends(conf, i)
  {
    hide Step; hide ConnAfter; hide SyncAfter; hide ConnWires; hide SnapWires; hide ConnImage; hide SnapImage;
    hide ConnNext; hide SyncNext; hide Remembers;
    StepParts(s, i);
    AfterSnoc(h, i);
    WiresJoin(fx, Step(s, i).fx);
    ConnImageJoin(ConnAfter(h).1, ConnNext(s.conn, i).1);
    SnapImageJoin(SyncAfter(h).1, SyncNext(s.sync, i).1);
  }

  /** The whole life of a session, written down from its inputs: it lives until an input ends it, its events are the
      script of the inputs until then, and its sockets are used as its two machines say. */
  ghost predicate AsScripted(conf: WorkerConfig, ins: seq<Input>, r: Out) {
    && (r.s.alive <==> !Over(conf, ins))
    && Trace(r.fx) == Script(conf, Living(conf, ins))
    && Wired(r.fx, Living(conf, ins))
  }

  lemma {:induction false} EveryLifeIsScripted(ins: seq<Input>)
    requires IsLife(ins) && !Refused(ins[0].op.conf)
    ensures AsScripted(ins[0].op.conf, ins, Run(FRESH, ins))
    ensures var s := Run(FRESH, ins).s; s.alive ==> Coherent(s) && Matches(s, ins[0].op.conf, ins)
  {
    hide Run; hide Step; hide Trace; hide Wired; hide Matches; hide Coherent; hide Scene; hide Script; hide Refused;
    hide Living;
    var conf, last, h := ins[0].op.conf, ins[|ins| - 1], ins[..|ins| - 1];
    var p := Run(FRESH, h);
    RunSnoc(ins);
    if |ins| == 1 {
      assert ins == [last];
      JustStarted(conf, last);
    } else {
      EveryLifeIsScripted(h);
      assert ins == h + [last];
      if p.s.alive {
        LivingOn(conf, ins);
        StepMatches(p.s, conf, h, last);
        StepWired(p.s, conf, p.fx, h, last);
        assert Step(p.s, last).s.alive ==> Coherent(Step(p.s, last).s) by { ReadStep(p.s, last); }
        TraceJoin(p.fx, Step(p.s, last).fx);
      } else {
        DeadStays(p.s, last);
        NotLivingOn(conf, ins);
        assert p.fx + [] == p.fx;
      }
    }
  }

  lemma JustStarted(conf: WorkerConfig, i: Input)
    requires !Refused(conf) && i == Oper(Start(conf))
    ensures var r := Run(FRESH, [i]); AsScripted(conf, [i], r) && r.s.alive && Coherent(r.s) && Matches(r.s, conf, [i])
  {
    hide Step; hide Trace; hide Wired; hide Matches; hide Coherent; hide Scene;
    StartMatches(conf);
    assert [i][..0] == [] && [] + Step(FRESH, i).fx == Step(FRESH, i).fx;
  }

  lemma NotLivingOn(conf: WorkerConfig, ins: seq<Input>)
    requires |ins| > 1 && Over(conf, ins[..|ins| - 1])
    ensures Living(conf, ins) == Living(conf, ins[..|ins| - 1])
  {
  }

  lemma RunSnoc(ins: seq<Input>)
    requires ins != []
    ensures var p := Run(FRESH, ins[..|ins| - 1]);
            var q := Step(p.s, ins[|ins| - 1]);
            Run(FRESH, ins) == Out(q.s, p.fx + q.fx)
  {
    hide Step;
  }

  lemma LivingOn(conf: WorkerConfig, ins: seq<Input>)
    requires |ins| > 1 && !Over(conf, ins[..|ins| - 1])
    ensures Living(conf, ins) == ins && Living(conf, ins[..|ins| - 1]) == ins[..|ins| - 1]
    ensures Script(conf, ins) == Script(conf, ins[..|ins| - 1]) + Scene(conf, ins[..|ins| - 1], ins[|ins| - 1])
  {
    hide Scene;
  }
}
