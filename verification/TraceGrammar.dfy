/** The grammar of a worker session's event trace, and the proof that every life of a session obeys it. */
module TraceGrammar {
  import opened Basics
  import opened SessionModel
  import opened SessionFacts
  import C = ConnModel
  import S = SyncModel

  /** Outside a download; in one with some requests made; or just after its result. */
  datatype Window = Outside | Inside(requests: nat) | Closing

  datatype Reader = Reader(started: bool, stopped: bool, online: bool, window: Window)

  const NOTHING_READ: Reader := Reader(false, false, false, Outside)

  /** Reads one event, or refuses it. Started comes first and once, Stopped last with everything closed; Online and
      Offline alternate; a download window holds at most retryMax + 1 requests, at least one before its single
      result, and closes right after that result; requests and results occur only inside a window. */
  function Read(g: Reader, e: Event, retryMax: nat): Option<Reader> {
    if g.stopped then None
    else if !g.started then (if e.Started? then Some(g.(started := true)) else None)
    else if g.window == Closing then (if e == SyncDownloadOff then Some(g.(window := Outside)) else None)
    else match e
      case Started(_) => None
      case Stopped => if !g.online && g.window == Outside then Some(g.(stopped := true)) else None
      case Online => if g.online then None else Some(g.(online := true))
      case Offline => if g.online then Some(g.(online := false)) else None
      case Delivery(_) => Some(g)
      case SyncBegin(_) => Some(g)
      case SyncElement(_) => Some(g)
      case SyncDownloadOn => if g.window == Outside then Some(g.(window := Inside(0))) else None
      case SyncDownloadOff => None
      case SyncRequest(_) =>
        if g.window.Inside? && g.window.requests <= retryMax
        then Some(g.(window := Inside(g.window.requests + 1))) else None
      case SyncSuccess(_) => if g.window.Inside? && g.window.requests >= 1 then Some(g.(window := Closing)) else None
      case SyncError(_) => if g.window.Inside? && g.window.requests >= 1 then Some(g.(window := Closing)) else None
  }

  function ReadAll(g: Reader, es: seq<Event>, retryMax: nat): Option<Reader> {
    if es == [] then Some(g)
    else
      var r := ReadAll(g, es[..|es| - 1], retryMax);
      if r.None? then None else Read(r.value, es[|es| - 1], retryMax)
  }

  lemma {:induction false} ReadJoin(g: Reader, a: seq<Event>, b: seq<Event>, retryMax: nat)
    ensures ReadAll(g, a, retryMax).Some? ==>
              ReadAll(g, a + b, retryMax) == ReadAll(ReadAll(g, a, retryMax).value, b, retryMax)
  {
    hide Read;
    if b == [] {
      assert a + b == a;
    } else {
      assert (a + b)[..|a + b| - 1] == a + b[..|b| - 1];
      ReadJoin(g, a, b[..|b| - 1], retryMax);
    }
  }

  lemma ReadOne(g: Reader, e: Event, retryMax: nat)
    ensures ReadAll(g, [e], retryMax) == Read(g, e, retryMax)
    ensures ReadAll(g, [], retryMax) == Some(g)
  {
    hide Read;
    assert [e][..0] == [];
  }

  lemma ReadTwo(g: Reader, e: Event, f: Event, retryMax: nat)
    requires Read(g, e, retryMax).Some?
    ensures ReadAll(g, [e, f], retryMax) == Read(Read(g, e, retryMax).value, f, retryMax)
  {
    hide Read;
    assert [e, f] == [e] + [f];
    ReadOne(g, e, retryMax);
    ReadJoin(g, [e], [f], retryMax);
    ReadOne(Read(g, e, retryMax).value, f, retryMax);
  }

  // ---------------------------------------------------------------- sessions

  /** What a living session always keeps. */
  ghost predicate Coherent(s: Session) {
    && s.online == (s.conn.phase == C.Stable)
    && s.snapshot == (s.sync.phase == S.Download)
    && S.Invariant(s.sync)
  }

  /** Where the reader of the trace stands while the session lives. */
  function Expected(s: Session): Reader {
    Reader(true, false, s.online, if s.snapshot then Inside(s.sync.retryCurr + 1) else Outside)
  }

  /** How requests and the retry count move together. */
  lemma RetryStep(m: S.Sync, i: S.Input)
    requires S.Invariant(m)
    ensures var n := S.Next(m, i);
            n.0.phase == S.Download ==>
              if m.phase == S.Download then n.0.retryCurr == m.retryCurr + (if S.Requests(n.1) == [] then 0 else 1)
              else S.Requests(n.1) != [] && n.0.retryCurr == 0
    ensures S.Next(m, i).0.phase != S.Download ==> S.Requests(S.Next(m, i).1) == []
  {
    var n := S.Next(m, i);
    S.RequestsOf(n.1);
    if n.1 != [] { var last := n.1[|n.1| - 1]; }
  }

  /** The events of a synchronisation step move the reader along with the machine. */
  lemma ReadSyncEvents(s: Session, i: S.Input)
    requires Coherent(s)
    ensures var n := S.Next(s.sync, i);
            var t := s.(sync := n.0, snapshot := n.0.phase == S.Download);
            && Coherent(t)
            && ReadAll(Expected(s), SyncEvents(s, s.sync.phase, n.0.phase, S.Requests(n.1) != []), s.sync.retryMax)
                 == Some(Expected(t))
  {
    var g := Expected(s);
    var n := S.Next(s.sync, i);
    var req := SyncRequest(s.conf.(seqNum := s.seqNum));
    S.InvariantKept(s.sync, i);
    RetryStep(s.sync, i);
    hide S.Next; hide ReadAll;
    var k := s.sync.retryMax;
    ReadOne(g, req, k);
    if s.sync.phase != S.Download && n.0.phase == S.Download {
      assert [SyncDownloadOn] + [req] == [SyncDownloadOn, req];
      ReadTwo(g, SyncDownloadOn, req, k);
    } else if s.sync.phase == S.Download && n.0.phase != S.Download {
      ReadTwo(g, SyncSuccess(s.broker), SyncDownloadOff, k);
      ReadTwo(g, SyncError(s.broker), SyncDownloadOff, k);
    }
  }

  /** One step of a session: its events are readable where the reader stands, which then stands where expected. */
  ghost predicate StepReads(s: Session, r: Out) {
    var g := ReadAll(Expected(s), Trace(r.fx), s.sync.retryMax);
    && g.Some?
    && r.s.sync.retryMax == s.sync.retryMax
    && (r.s.alive ==> Coherent(r.s) && g == Some(Expected(r.s)))
  }

  lemma ReadConnStep(s: Session, i: C.Input)
    requires s.alive && Coherent(s)
    ensures StepReads(s, ConnStep(s, i)) && Coherent(ConnStep(s, i).s)
    ensures ReadAll(Expected(s), Trace(ConnStep(s, i).fx), s.sync.retryMax) == Some(Expected(ConnStep(s, i).s))
  {
    hide ReadAll; hide ConnStep; hide Trace;
    ConnStepFacts(s, i);
    ReadOne(Expected(s), Online, s.sync.retryMax);
    ReadOne(Expected(s), Offline, s.sync.retryMax);
  }

  lemma ReadSyncStep(s: Session, i: S.Input)
    requires Coherent(s)
    ensures StepReads(s, SyncStep(s, i)) && Coherent(SyncStep(s, i).s) && SyncStep(s, i).s.alive == s.alive
    ensures ReadAll(Expected(s), Trace(SyncStep(s, i).fx), s.sync.retryMax) == Some(Expected(SyncStep(s, i).s))
  {
    hide ReadAll; hide SyncStep; hide Trace; hide S.Next; hide SyncEvents;
    SyncStepFacts(s, i);
    ReadSyncEvents(s, i);
    S.InvariantKept(s.sync, i);
  }

  lemma AcceptTopicFacts(s: Session, t: Topic)
    ensures var r := AcceptTopic(s, t);
            && r.s == s.(seen := r.s.seen, seqNum := r.s.seqNum)
            && Trace(r.fx) == []
  {
    TraceOne(Notify(t.seqn));
  }

  lemma ReadOper(s: Session, op: Op)
    requires s.alive && Coherent(s) && !op.Start?
    ensures StepReads(s, OnOper(s, op))
    ensures op.Stop? ==> ReadAll(Expected(s), Trace(OnOper(s, op).fx), s.sync.retryMax)
                           == Some(Reader(true, true, false, Outside))
  {
    hide ReadAll; hide ConnStep; hide SyncStep; hide Trace;
    var k := s.sync.retryMax;
    match op
    case Stop =>
      var p := ConnStep(s, C.Input.Stop);
      var q := SyncStep(p.s, S.Halt);
      ConnStepFacts(s, C.Input.Stop);
      ReadConnStep(s, C.Input.Stop);
      SyncStepFacts(p.s, S.Halt);
      ReadSyncStep(p.s, S.Halt);
      TraceJoin(p.fx + q.fx, [Emit(Stopped)]);
      TraceJoin(p.fx, q.fx);
      TraceOne(Emit(Stopped));
      ReadJoin(Expected(s), Trace(p.fx), Trace(q.fx), k);
      ReadJoin(Expected(s), Trace(p.fx) + Trace(q.fx), [Stopped], k);
      ReadOne(Expected(q.s), Stopped, k);
    case Dispatch(t) =>
      var n := (s.seqNum + 1) % SEQ_LIMIT;
      Two(Notify(n), Publish(t.(seqn := n)));
      TraceOne(Notify(n));
      TraceOne(Publish(t.(seqn := n)));
      ReadOne(Expected(s), Stopped, k);
    case Sync =>
      var t := s.(broker := NIL_UUID);
      ReadSyncStep(t, S.Input.Start);
    case Unknown =>
      ReadOne(Expected(s), Stopped, k);
      TraceNone();
    case BadStart =>
      ReadOne(Expected(s), Stopped, k);
      TraceNone();
    case BadDispatch =>
      ReadOne(Expected(s), Stopped, k);
      TraceOne(Notify((s.seqNum + 1) % SEQ_LIMIT));
  }

  lemma TraceNone()
    ensures Trace([]) == []
  {
  }

  lemma ReadSnap(s: Session, msg: SnapMsg)
    requires s.alive && Coherent(s)
    ensures StepReads(s, OnSnap(s, msg))
  {
    hide ReadAll; hide SyncStep; hide Trace; hide AcceptTopic;
    var k := s.sync.retryMax;
    match msg
    case Begin(_, u) =>
      TraceOne(Emit(SyncBegin(u)));
      ReadOne(Expected(s), SyncBegin(u), k);
    case Elem(n, t) =>
      var p := AcceptTopic(s, t);
      AcceptTopicFacts(s, t);
      var q := SyncStep(p.s, S.Reply(0, n, S.Snapshot));
      ReadSyncStep(p.s, S.Reply(0, n, S.Snapshot));
      TraceJoin(p.fx + [Emit(SyncElement(t))], q.fx);
      TraceJoin(p.fx, [Emit(SyncElement(t))]);
      TraceOne(Emit(SyncElement(t)));
      assert Trace(p.fx) + [SyncElement(t)] == [SyncElement(t)];
      ReadJoin(Expected(s), [SyncElement(t)], Trace(q.fx), k);
      ReadOne(Expected(s), SyncElement(t), k);
    case Compl(n, u) =>
      ReadSyncStep(s.(broker := u), S.Reply(0, n, S.Complete));
  }

  lemma ReadRecv(s: Session, group: Bytes, payload: Option<Topic>)
    requires s.alive && Coherent(s)
    ensures StepReads(s, OnRecv(s, group, payload))
  {
    hide ReadAll; hide ConnStep; hide Trace; hide AcceptTopic;
    var k := s.sync.retryMax;
    TraceNone();
    ReadOne(Expected(s), Stopped, k);
    if group == HUGZ {
      ReadConnStep(s, C.Ping);
    } else if TopicGroup(s, group) && payload.Some? {
      var t := payload.value;
      var r := AcceptTopic(s, t);
      AcceptTopicFacts(s, t);
      assert r.fx + [] == r.fx;
      TraceJoin(r.fx, [Emit(Delivery(t))]);
      TraceOne(Emit(Delivery(t)));
      assert Trace(r.fx) + [Delivery(t)] == [Delivery(t)];
      ReadOne(Expected(s), Delivery(t), k);
    }
  }

  lemma ReadStep(s: Session, i: Input)
    requires s.alive && Coherent(s) && !(i.Oper? && i.op.Start?)
    ensures StepReads(s, Step(s, i))
    ensures i == Oper(Stop) ==> ReadAll(Expected(s), Trace(Step(s, i).fx), s.sync.retryMax)
                                  == Some(Reader(true, true, false, Outside))
  {
    hide ReadAll; hide ConnStep; hide SyncStep; hide Trace; hide OnOper; hide OnSnap; hide OnRecv;
    TraceNone();
    ReadOne(Expected(s), Stopped, s.sync.retryMax);
    match i
    case Oper(op) => ReadOper(s, op);
    case Snap(msg) => if msg.Some? { ReadSnap(s, msg.value); }
    case UnknownSnap =>
    case Recv(group, payload) => ReadRecv(s, group, payload);
    case ConnRetry => ReadConnStep(s, C.RetryFired);
    case ConnTimeout => ReadConnStep(s, C.TimeoutFired);
    case SyncTimeout => ReadSyncStep(s, S.Timeout);
    case RetryExpires => ReadConnStep(s, C.RetryExpires);
    case ConnExpires => ReadConnStep(s, C.TimeoutExpires);
    case SyncExpires => ReadSyncStep(s, S.Expire);
  }

  lemma ReadStart(conf: WorkerConfig)
    ensures var r := Step(FRESH, Oper(Start(conf)));
            var g := ReadAll(NOTHING_READ, Trace(r.fx), RETRY_MAX);
            g.Some? && r.s.sync.retryMax == RETRY_MAX && (r.s.alive ==> Coherent(r.s) && g == Some(Expected(r.s)))
  {
    var s := FRESH.(conf := conf, seqNum := conf.seqNum);
    assert Coherent(s);
    hide ReadAll; hide ConnStep; hide Trace;
    var p := ConnStep(s, C.Input.Start);
    ReadConnStep(s, C.Input.Start);
    TraceJoin([Emit(Started(conf))], p.fx);
    TraceOne(Emit(Started(conf)));
    ReadOne(NOTHING_READ, Started(conf), RETRY_MAX);
    ReadJoin(NOTHING_READ, [Started(conf)], Trace(p.fx), RETRY_MAX);
  }

  /** The trace of every life of a session, whatever reaches it, is a prefix of the grammar; while the session
      lives the reader stands where the session's state says, and a Stop ends a complete sentence. */
  lemma {:induction false} EveryLifeObeysGrammar(ins: seq<Input>)
    requires IsLife(ins)
    ensures var r := Run(FRESH, ins);
            var g := ReadAll(NOTHING_READ, Trace(r.fx), 1);
            && g.Some? && r.s.sync.retryMax == 1
            && (r.s.alive ==> Coherent(r.s) && g == Some(Expected(r.s)))
            && (ins[|ins| - 1] == Oper(Stop) && Run(FRESH, ins[..|ins| - 1]).s.alive ==>
                  g == Some(Reader(true, true, false, Outside)))
  {
    hide ReadAll; hide Step; hide Trace;
    var before := ins[..|ins| - 1];
    var last := ins[|ins| - 1];
    var p := Run(FRESH, before);
    if |ins| == 1 {
      assert p == Out(FRESH, []);
      assert Run(FRESH, ins).fx == [] + Step(FRESH, last).fx == Step(FRESH, last).fx;
      ReadStart(last.op.conf);
    } else {
      EveryLifeObeysGrammar(before);
      TraceJoin(p.fx, Step(p.s, last).fx);
      ReadJoin(NOTHING_READ, Trace(p.fx), Trace(Step(p.s, last).fx), RETRY_MAX);
      if p.s.alive {
        ReadStep(p.s, last);
      } else {
        DeadStays(p.s, last);
        TraceNone();
        ReadOne(ReadAll(NOTHING_READ, Trace(p.fx), RETRY_MAX).value, Stopped, RETRY_MAX);
      }
    }
  }

  lemma DeadStays(s: Session, i: Input)
    requires !s.alive
    ensures Step(s, i) == Out(s, [])
  {
  }

  // ---------------------------------------------------------------- what a completed window looks like

  predicate IsResult(e: Event) { e.SyncSuccess? || e.SyncError? }

  function CountRequests(es: seq<Event>): nat {
    if es == [] then 0 else CountRequests(es[..|es| - 1]) + if es[|es| - 1].SyncRequest? then 1 else 0
  }

  ghost predicate NoResult(es: seq<Event>) { forall k :: 0 <= k < |es| ==> !IsResult(es[k]) }

  lemma {:induction false} InsideWindow(g: Reader, w: seq<Event>, retryMax: nat)
    requires g.started && !g.stopped && g.window == Inside(0) && SyncDownloadOff !in w
    requires ReadAll(g, w, retryMax).Some?
    ensures var r := ReadAll(g, w, retryMax).value;
            && r.started && !r.stopped && CountRequests(w) <= retryMax + 1
            && (match r.window
               case Outside => false
               case Inside(n) => n == CountRequests(w) && NoResult(w)
               case Closing => CountRequests(w) >= 1 && w != [] && IsResult(w[|w| - 1]) && NoResult(w[..|w| - 1]))
  {
    if w != [] {
      InsideWindow(g, w[..|w| - 1], retryMax);
    }
  }

  /** In a readable trace, what lies between a SyncDownloadOn and the next SyncDownloadOff ends in its only
      SyncSuccess or SyncError and holds 1 to retryMax + 1 requests. */
  lemma CompletedWindow(a: seq<Event>, w: seq<Event>, retryMax: nat)
    requires SyncDownloadOff !in w
    requires ReadAll(NOTHING_READ, a + [SyncDownloadOn] + w + [SyncDownloadOff], retryMax).Some?
    ensures w != [] && IsResult(w[|w| - 1]) && NoResult(w[..|w| - 1]) && 1 <= CountRequests(w) <= retryMax + 1
  {
    var pre := a + [SyncDownloadOn];
    var all := pre + w + [SyncDownloadOff];
    ReadPrefix(NOTHING_READ, pre + w, [SyncDownloadOff], retryMax);
    ReadPrefix(NOTHING_READ, pre, w, retryMax);
    ReadPrefix(NOTHING_READ, a, [SyncDownloadOn], retryMax);
    var g := ReadAll(NOTHING_READ, a, retryMax).value;
    ReadJoin(NOTHING_READ, a, [SyncDownloadOn], retryMax);
    ReadOne(g, SyncDownloadOn, retryMax);
    var h := ReadAll(NOTHING_READ, pre, retryMax).value;
    ReadJoin(NOTHING_READ, pre, w, retryMax);
    InsideWindow(h, w, retryMax);
    ReadJoin(NOTHING_READ, pre + w, [SyncDownloadOff], retryMax);
    ReadOne(ReadAll(NOTHING_READ, pre + w, retryMax).value, SyncDownloadOff, retryMax);
  }

  lemma {:induction false} ReadPrefix(g: Reader, a: seq<Event>, b: seq<Event>, retryMax: nat)
    requires ReadAll(g, a + b, retryMax).Some?
    ensures ReadAll(g, a, retryMax).Some?
  {
    hide Read;
    if b == [] {
      assert a + b == a;
    } else {
      assert (a + b)[..|a + b| - 1] == a + b[..|b| - 1];
      ReadPrefix(g, a, b[..|b| - 1], retryMax);
    }
  }
}
