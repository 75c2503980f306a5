/** What the script of a session says about its deliveries, downloads, announcements, sockets and end. */
module SessionHistory {
  import opened Basics
  import opened LruModel
  import opened SessionModel
  import opened SessionFacts
  import opened SessionNumbers
  import opened TraceGrammar
  import opened SessionParts
  import opened SessionScript
  import C = ConnModel
  import S = SyncModel
  import N = Snapshot

  // ---------------------------------------------------------------- the end

  lemma {:induction false} OverExactly(conf: WorkerConfig, ins: seq<Input>)
    ensures Over(conf, ins) <==> exists k :: 1 <= k < |ins| && Ends(conf, ins[k])
  {
    hide Ends;
    if |ins| > 1 {
      OverExactly(conf, ins[..|ins| - 1]);
      if Over(conf, ins[..|ins| - 1]) {
        var k :| 1 <= k < |ins| - 1 && Ends(conf, ins[..|ins| - 1][k]);
        assert ins[k] == ins[..|ins| - 1][k];
      }
    }
  }

  /** The reserved group as a subscribed name ends a session at its Start, after the sockets were closed. */
  lemma RefusedAtStart(conf: WorkerConfig)
    requires Refused(conf)
    ensures var r := Step(FRESH, Oper(Start(conf))); !r.s.alive && Trace(r.fx) == [Started(conf)]
  {
    StartTrace(conf);
    hide Trace;
    var t := FRESH.(conf := conf, seqNum := conf.seqNum, conn := C.Next(C.INITIAL, C.Input.Start).0);
    var acts := C.Next(C.INITIAL, C.Input.Start).1;
    assert acts == [C.Changed(C.Trying)] + [C.Close, C.Open, C.Pong];
    assert acts == [C.Changed(C.Trying), C.Close] + [C.Open] + [C.Pong];
    ConnSnoc(t, [C.Changed(C.Trying), C.Close], C.Open);
    ConnSnoc(t, [C.Changed(C.Trying), C.Close] + [C.Open], C.Pong);
    ConnActsKeepConf(t, [C.Changed(C.Trying), C.Close]);
  }

  lemma {:induction false} ConnActsKeepConf(s: Session, acts: seq<C.Act>)
    ensures ConnActs(s, acts).s.conf == s.conf && (ConnActs(s, acts).s.alive ==> s.alive)
  {
    if acts != [] { ConnActsKeepConf(s, acts[..|acts| - 1]); }
  }

  lemma {:induction false} DeadForGood(ins: seq<Input>)
    requires IsLife(ins) && Refused(ins[0].op.conf)
    ensures !Run(FRESH, ins).s.alive && Trace(Run(FRESH, ins).fx) == [Started(ins[0].op.conf)]
  {
    hide Step; hide Trace; hide Refused;
    RunSnoc(ins);
    var h, last := ins[..|ins| - 1], ins[|ins| - 1];
    var p := Run(FRESH, h);
    if |ins| == 1 {
      RefusedAtStart(last.op.conf);
      assert h == [] && [] + Step(FRESH, last).fx == Step(FRESH, last).fx;
    } else {
      DeadForGood(h);
      DeadStays(p.s, last);
      assert p.fx + [] == p.fx;
    }
  }

  /** A session lives exactly while its configuration lets it open its sockets and no later input ended it: a stop, or
      something that cannot be decoded. */
  lemma LivesExactly(ins: seq<Input>)
    requires IsLife(ins)
    ensures var conf := ins[0].op.conf;
            Run(FRESH, ins).s.alive <==>
            !(!conf.topicsAll && UPDT in conf.topicsNames) && !(exists k :: 1 <= k < |ins| && Ends(conf, ins[k]))
  {
    hide Run; hide Ends; hide Trace; hide Wired; hide Script; hide Living;
    var conf := ins[0].op.conf;
    OverExactly(conf, ins);
    if Refused(conf) { DeadForGood(ins); } else { EveryLifeIsScripted(ins); }
  }

  // ---------------------------------------------------------------- one input of a living session

  /** The session after the inputs before the k-th. */
  function Before(ins: seq<Input>, k: nat): Session
    requires k <= |ins|
  {
    Run(FRESH, ins[..k]).s
  }

  lemma KnowsBefore(ins: seq<Input>, k: nat)
    requires IsLife(ins) && 1 <= k < |ins| && Before(ins, k).alive
    ensures var conf, s := ins[0].op.conf, Before(ins, k);
            !Refused(conf) && Coherent(s) && Matches(s, conf, ins[..k]) && !(ins[k].Oper? && ins[k].op.Start?)
  {
    hide Run; hide Trace; hide Wired; hide Script; hide Living; hide Matches; hide Coherent; hide Refused;
    var h := ins[..k];
    assert h[0] == ins[0] && IsLife(h);
    if Refused(ins[0].op.conf) { DeadForGood(h); } else { EveryLifeIsScripted(h); }
  }

  /** A topic received under the common group or a subscribed name is delivered if and only if its number exceeds 0
      and every number of its worker among the topics received and the snapshot elements before it in this life;
      nothing else is ever delivered. */
  lemma DeliveredExactly(ins: seq<Input>, k: nat)
    requires IsLife(ins) && 1 <= k < |ins| && Before(ins, k).alive
    ensures var conf, i := ins[0].op.conf, ins[k];
            DeliveredIn(Trace(Step(Before(ins, k), i).fx)) ==
            if && i.Recv? && i.group != HUGZ && (i.group == UPDT || i.group in conf.topicsNames) && i.payload.Some?
               && Above(i.payload.value.seqn, i.payload.value.worker, Heard(conf, ins[..k]))
            then [i.payload.value] else []
  {
    hide Step; hide Trace; hide Above; hide Messages; hide Run; hide Heard; hide Remembers;
    var conf, s, i := ins[0].op.conf, Before(ins, k), ins[k];
    KnowsBefore(ins, k);
    StepNumbers(s, i);
    FilterStep(s, conf, ins[..k], i);
  }

  /** What an event of a download must carry: SyncBegin the broker of the message it reports, SyncElement the topic of
      the element, SyncSuccess the broker of the completion that caused it, SyncError the broker named last since the
      last request for a download, and SyncRequest the configuration with the worker's number. */
  ghost predicate Carries(conf: WorkerConfig, h: seq<Input>, i: Input, es: seq<Event>, e: Event) {
    match e
    case SyncBegin(u) => e in es <==> i.Snap? && i.msg.Some? && i.msg.value.Begin? && i.msg.value.broker == u
    case SyncElement(t) => e in es <==> i.Snap? && i.msg.Some? && i.msg.value.Elem? && i.msg.value.topic == t
    case SyncSuccess(u) => e in es ==> i.Snap? && i.msg.Some? && i.msg.value.Compl? && i.msg.value.broker == u
    case SyncError(u) => e in es ==> u == LastBroker(h)
    case SyncRequest(c) => e in es ==> c == conf.(seqNum := NumberAfter(conf, h))
    case _ => true
  }

  lemma DownloadsExactly(ins: seq<Input>, k: nat, e: Event)
    requires IsLife(ins) && 1 <= k < |ins| && Before(ins, k).alive
    ensures Carries(ins[0].op.conf, ins[..k], ins[k], Trace(Step(Before(ins, k), ins[k]).fx), e)
  {
    hide Step; hide Trace; hide Run; hide Matches; hide Coherent; hide Refused; hide Scene; hide Carries;
    var conf := ins[0].op.conf;
    KnowsBefore(ins, k);
    StepMatches(Before(ins, k), conf, ins[..k], ins[k]);
    SceneCarries(conf, ins[..k], ins[k], e);
  }

  lemma SceneCarries(conf: WorkerConfig, h: seq<Input>, i: Input, e: Event)
    ensures Carries(conf, h, i, Scene(conf, h, i), e)
  {
    hide ConnAfter; hide SyncAfter; hide NumberAfter; hide LastBroker; hide Reports; hide SyncNext; hide Scene;
    hide DownloadEvents;
    if e.SyncBegin? || e.SyncElement? || e.SyncSuccess? || e.SyncError? || e.SyncRequest? {
      var m := SyncAfter(h).0;
      AfterSnoc(h, i);
      HistorySnoc(conf, h, i);
      SuccessByCompletion(m, i);
      SceneHas(conf, h, i, e);
      ReportsHave(conf, h, i, e);
      DownloadHas(conf.(seqNum := NumberAfter(conf, h)), LastBroker(h + [i]), m.phase, SyncNext(m, i).0.phase,
                  S.Requests(SyncNext(m, i).1) != [], e);
    }
  }

  lemma ReportsHave(conf: WorkerConfig, h: seq<Input>, i: Input, e: Event)
    ensures e.SyncBegin? ==>
              (e in Reports(conf, h, i) <==>
               i.Snap? && i.msg.Some? && i.msg.value.Begin? && i.msg.value.broker == e.broker)
    ensures e.SyncElement? ==>
              (e in Reports(conf, h, i) <==>
               i.Snap? && i.msg.Some? && i.msg.value.Elem? && i.msg.value.topic == e.topic)
    ensures e.SyncSuccess? || e.SyncError? || e.SyncRequest? ==> e !in Reports(conf, h, i)
  {
  }

  lemma DownloadHas(conf: WorkerConfig, broker: Uuid, before: S.Phase, after: S.Phase, asked: bool, e: Event)
    ensures var es := DownloadEvents(conf, broker, before, after, asked);
            && (e.SyncBegin? || e.SyncElement? ==> e !in es)
            && (e.SyncRequest? && e in es ==> e.conf == conf)
            && (e.SyncSuccess? && e in es ==> e.broker == broker && before == S.Download && after == S.Synced)
            && (e.SyncError? && e in es ==>
                  e.broker == broker && before == S.Download && after != S.Download && after != S.Synced)
  {
  }

  lemma SuccessByCompletion(m: S.Sync, i: Input)
    ensures m.phase == S.Download && SyncNext(m, i).0.phase == S.Synced ==> i.Snap? && i.msg.Some? && i.msg.value.Compl?
    ensures m.phase == S.Download && SyncNext(m, i).0.phase != S.Download && SyncNext(m, i).0.phase != S.Synced ==>
              i == Oper(Stop) || i == SyncTimeout
  {
  }

  /** Where in a scene an event of a download can stand. */
  lemma SceneHas(conf: WorkerConfig, h: seq<Input>, i: Input, e: Event)
    requires !e.Delivery? && !e.Online? && !e.Offline? && !e.Stopped?
    ensures var m, n := SyncAfter(h).0, SyncAfter(h + [i]).0;
            e in Scene(conf, h, i) <==>
            || e in Reports(conf, h, i)
            || e in DownloadEvents(conf.(seqNum := NumberAfter(conf, h)), LastBroker(h + [i]), m.phase, n.phase,
                                   S.Requests(SyncNext(m, i).1) != [])
  {
    hide ConnAfter; hide SyncAfter; hide NumberAfter; hide LastBroker; hide Reports; hide DownloadEvents; hide SyncNext;
  }

  /** A living session asks for a snapshot exactly when its download starts or is retried, once, under the next
      number of its counter and with its configuration and the worker's number of that moment. */
  lemma AskedExactly(ins: seq<Input>, k: nat)
    requires IsLife(ins) && 1 <= k < |ins| && Before(ins, k).alive
    ensures var conf, m, i := ins[0].op.conf, SyncAfter(ins[..k]).0, ins[k];
            N.AskedIn(Messages(Step(Before(ins, k), i).fx)) ==
            if || (i == Oper(Sync) && m.phase != S.Download)
               || (i == SyncTimeout && m.phase == S.Download && m.retryCurr < m.retryMax)
            then [AskSnapshot((m.seqNum + 1) % S.NUMBERS, conf.(seqNum := NumberAfter(conf, ins[..k])))] else []
  {
    hide Step; hide Trace; hide Run; hide Messages; hide N.AskedIn; hide NumberAfter; hide SyncAfter; hide ConnAfter;
    hide S.Next; hide S.Requests; hide LastBroker; hide Remembers; hide Heard;
    KnowsBefore(ins, k);
    var s, i := Before(ins, k), ins[k];
    N.SideOfStep(s, i);
    NoRequests();
    if N.SyncInput(i).Some? { S.RequestsExactly(s.sync, N.SyncInput(i).value); }
  }

  lemma NoRequests()
    ensures S.Requests([]) == []
  {
  }

  // ---------------------------------------------------------------- announcements

  function CountAnnounced(ws: seq<Wire>): nat {
    if ws == [] then 0 else CountAnnounced(ws[..|ws| - 1]) + if ws[|ws| - 1] == Announced then 1 else 0
  }

  lemma {:induction false} CountAnnouncedJoin(a: seq<Wire>, b: seq<Wire>)
    ensures CountAnnounced(a + b) == CountAnnounced(a) + CountAnnounced(b)
  {
    if b == [] {
      assert a + b == a;
    } else {
      assert (a + b)[..|a + b| - 1] == a + b[..|b| - 1];
      CountAnnouncedJoin(a, b[..|b| - 1]);
    }
  }

  lemma {:induction false} PongsAreAnnounced(acts: seq<C.Act>)
    ensures CountAnnounced(ConnImage(acts)) == C.CountPongs(acts)
  {
    if acts != [] {
      PongsAreAnnounced(acts[..|acts| - 1]);
      CountAnnouncedJoin(ConnImage(acts[..|acts| - 1]), ConnActWire(acts[|acts| - 1]));
      CountAnnouncedOne(acts[|acts| - 1]);
    }
  }

  lemma CountAnnouncedOne(a: C.Act)
    ensures CountAnnounced(ConnActWire(a)) == if a == C.Pong then 1 else 0
  {
    assert forall w: Wire :: [w][..0] == [];
  }

  /** The phase of the connection after some inputs of a session. */
  function ConnPhase(ins: seq<Input>): C.Phase { ConnAfter(ins).0.phase }

  /** A living session announces itself once on a keepalive and on a connection timeout while it is connected or
      trying, and on a retry while it is trying, and on no other input after its Start. */
  lemma AnnouncedExactly(ins: seq<Input>, k: nat)
    requires IsLife(ins) && 1 <= k < |ins| && Before(ins, k).alive
    ensures var p, i := ConnPhase(ins[..k]), ins[k];
            CountAnnounced(ConnWires(Step(Before(ins, k), i).fx)) ==
            if || (i.Recv? && i.group == HUGZ && p != C.Halted)
               || (i == ConnTimeout && p != C.Halted)
               || (i == ConnRetry && p == C.Trying)
            then 1 else 0
  {
    hide Step; hide Run; hide ConnAfter; hide SyncAfter; hide ConnWires; hide SnapWires; hide ConnImage; hide SnapImage;
    hide C.Next; hide S.Next; hide Remembers; hide Coherent;
    KnowsBefore(ins, k);
    var s, i := Before(ins, k), ins[k];
    StepParts(s, i);
    PongsAreAnnounced(ConnNext(s.conn, i).1);
    NoPongs();
    if ConnInput(i).Some? { C.PongsExactly(s.conn, ConnInput(i).value); }
  }

  lemma NoPongs()
    ensures C.CountPongs([]) == 0
  {
  }

  /** It announces itself once when it starts. */
  lemma AnnouncedAtStart(conf: WorkerConfig)
    requires !Refused(conf)
    ensures CountAnnounced(ConnWires(Step(FRESH, Oper(Start(conf))).fx)) == 1
  {
    hide Step; hide ConnWires; hide SnapWires; hide ConnImage; hide SnapImage; hide C.Next; hide S.Next;
    FreshMachines();
    StepParts(FRESH, Oper(Start(conf)));
    PongsAreAnnounced(C.Next(C.INITIAL, C.Input.Start).1);
    C.PongsExactly(C.INITIAL, C.Input.Start);
  }

  // ---------------------------------------------------------------- sockets

  /** The connection's sockets: opening needs a close before it, announcing needs them open. */
  function ReplayConn(s: C.Sockets, ws: seq<Wire>): Option<C.Sockets> {
    if ws == [] then Some(s)
    else
      var r := ReplayConn(s, ws[..|ws| - 1]);
      if r.None? then None
      else match ws[|ws| - 1]
        case Shut => Some(C.Sockets(false, true))
        case Opened => if r.value.closedBefore then Some(C.Sockets(true, false)) else None
        case Announced => if r.value.open then r else None
        case Asked(_) => None
  }

  /** The snapshot socket: it is never opened twice, and asking needs it open. */
  function ReplaySnap(open: bool, ws: seq<Wire>): Option<bool> {
    if ws == [] then Some(open)
    else
      var r := ReplaySnap(open, ws[..|ws| - 1]);
      if r.None? then None
      else match ws[|ws| - 1]
        case Shut => Some(false)
        case Opened => if r.value then None else Some(true)
        case Announced => None
        case Asked(_) => if r.value then r else None
  }

  lemma ReplayConnSnoc(s: C.Sockets, ws: seq<Wire>, a: C.Act)
    ensures var r := ReplayConn(s, ws);
            ReplayConn(s, ws + ConnActWire(a)) == if r.None? then None else C.ReplayAct(r.value, a)
  {
    if a.Changed? {
      assert ws + [] == ws;
    } else {
      assert (ws + ConnActWire(a))[..|ws|] == ws;
    }
  }

  lemma {:induction false} ReplayConnImage(s: C.Sockets, acts: seq<C.Act>)
    ensures ReplayConn(s, ConnImage(acts)) == C.Replay(s, acts)
  {
    hide C.ReplayAct; hide ConnActWire;
    if acts != [] {
      ReplayConnImage(s, acts[..|acts| - 1]);
      ReplayConnSnoc(s, ConnImage(acts[..|acts| - 1]), acts[|acts| - 1]);
    }
  }

  predicate AtZero(a: S.Act) { a.Changed? || a.index == 0 }

  /** With a single endpoint every action is about index 0. */
  lemma {:induction false} ActsAtZero(xs: seq<S.Input>)
    ensures var r := S.Run(S.Initial(INDEX_MAX, RETRY_MAX), xs);
            forall k :: 0 <= k < |r.1| ==> AtZero(r.1[k])
  {
    if xs != [] {
      ActsAtZero(xs[..|xs| - 1]);
      S.InvariantAlways(S.Initial(INDEX_MAX, RETRY_MAX), xs[..|xs| - 1]);
      NextAtZero(S.Run(S.Initial(INDEX_MAX, RETRY_MAX), xs[..|xs| - 1]).0, xs[|xs| - 1]);
      hide S.Next; hide AtZero;
    }
  }

  lemma NextAtZero(m: S.Sync, x: S.Input)
    requires S.Invariant(m) && m.indexMax == 0
    ensures forall k :: 0 <= k < |S.Next(m, x).1| ==> AtZero(S.Next(m, x).1[k])
  {
  }

  lemma ReplaySnapSnoc(ws: seq<Wire>, a: S.Act, open: set<nat>)
    requires AtZero(a) && ReplaySnap(false, ws) == Some(0 in open) && open <= {0}
    ensures var r := S.ReplayAct(open, a);
            r.Some? ==> r.value <= {0} && ReplaySnap(false, ws + SnapActWire(a)) == Some(0 in r.value)
  {
    if a.Changed? {
      assert ws + [] == ws;
    } else {
      assert (ws + SnapActWire(a))[..|ws|] == ws;
    }
  }

  lemma {:induction false} ReplaySnapImage(acts: seq<S.Act>)
    requires (forall k :: 0 <= k < |acts| ==> AtZero(acts[k])) && S.Replay({}, acts).Some?
    ensures var open := S.Replay({}, acts).value;
            open <= {0} && ReplaySnap(false, SnapImage(acts)) == Some(0 in open)
  {
    hide S.ReplayAct; hide AtZero; hide SnapActWire;
    if acts != [] {
      var before, a := acts[..|acts| - 1], acts[|acts| - 1];
      assert acts == before + [a];
      ReplayPrefix({}, before, [a]);
      S.ReplayJoin({}, before, [a]);
      S.ReplayOne(S.Replay({}, before).value, a);
      ReplaySnapImage(before);
      ReplaySnapSnoc(SnapImage(before), a, S.Replay({}, before).value);
    }
  }

  lemma {:induction false} ReplayPrefix(open: set<nat>, a: seq<S.Act>, b: seq<S.Act>)
    requires S.Replay(open, a + b).Some?
    ensures S.Replay(open, a).Some?
    decreases a
  {
    hide S.ReplayAct;
    if a != [] {
      assert (a + b)[0] == a[0] && (a + b)[1..] == a[1..] + b;
      ReplayPrefix(S.ReplayAct(open, a[0]).value, a[1..], b);
    }
  }

  /** Over a whole life, every opening of the connection joins the groups of the session's configuration. */
  lemma {:induction false} LifeJoins(ins: seq<Input>)
    requires IsLife(ins)
    ensures Joins(Run(FRESH, ins).fx, Joined(ins[0].op.conf))
  {
    hide Step; hide Joined; hide Coherent; hide Refused;
    RunSnoc(ins);
    if |ins| == 1 {
      StartJoins(FRESH, ins[0].op.conf);
    } else {
      LifeJoins(ins[..|ins| - 1]);
      LastJoins(ins);
    }
  }

  lemma LastJoins(ins: seq<Input>)
    requires IsLife(ins) && |ins| > 1
    ensures Joins(Step(Run(FRESH, ins[..|ins| - 1]).s, ins[|ins| - 1]).fx, Joined(ins[0].op.conf))
  {
    hide Joined; hide Run; hide Coherent; hide Refused;
    var s, last := Run(FRESH, ins[..|ins| - 1]).s, ins[|ins| - 1];
    if s.alive {
      KnowsBefore(ins, |ins| - 1);
      hide Step;
      StepJoins(s, last);
    }
  }

  /** Over a whole life, from the closes of the constructor on: the connection's sockets are open exactly outside
      Halted and the snapshot socket exactly in Download and Synced; nothing is opened twice, and announcements and
      requests go out through open sockets only. */
  lemma SocketsOwned(ins: seq<Input>)
    requires IsLife(ins) && !Refused(ins[0].op.conf)
    ensures var fx, living := Run(FRESH, ins).fx, Living(ins[0].op.conf, ins);
            var up, m := ConnPhase(living) != C.Halted, SyncAfter(living).0.phase;
            && ReplayConn(C.Sockets(false, false), [Shut] + ConnWires(fx)) == Some(C.Sockets(up, !up))
            && ReplaySnap(false, [Shut] + SnapWires(fx)) == Some(m == S.Download || m == S.Synced)
  {
    hide Run; hide Trace; hide Script; hide Matches; hide Coherent; hide Refused; hide ConnWires; hide SnapWires;
    hide ReplayConn; hide ReplaySnap; hide C.Replay; hide S.Replay; hide Living; hide C.Run; hide S.Run;
    EveryLifeIsScripted(ins);
    var living := Living(ins[0].op.conf, ins);
    ConnOwned(ConnIns(living));
    SnapOwned(SyncIns(living));
  }

  lemma ConnOwned(cs: seq<C.Input>)
    ensures var r := C.Run(C.INITIAL, cs);
            var up := r.0.phase != C.Halted;
            ReplayConn(C.Sockets(false, false), [Shut] + ConnImage(r.1)) == Some(C.Sockets(up, !up))
  {
    hide C.Run; hide C.Replay; hide ReplayConn;
    C.ConnectionDiscipline(cs);
    var acts := C.Run(C.INITIAL, cs).1;
    ReplayConnImage(C.Sockets(false, false), [C.Close] + acts);
    ConnImageJoin([C.Close], acts);
    assert ConnImage([C.Close]) == [Shut] by { assert [C.Close][..0] == []; }
  }

  lemma SnapOwned(xs: seq<S.Input>)
    ensures var r := S.Run(S.Initial(INDEX_MAX, RETRY_MAX), xs);
            var m := r.0.phase;
            ReplaySnap(false, [Shut] + SnapImage(r.1)) == Some(m == S.Download || m == S.Synced)
  {
    hide S.Run; hide S.Replay; hide S.ReplayAct; hide ReplaySnap; hide SnapImage;
    S.SocketOwnership(INDEX_MAX, RETRY_MAX, xs);
    S.InvariantAlways(S.Initial(INDEX_MAX, RETRY_MAX), xs);
    ActsAtZero(xs);
    var r := S.Run(S.Initial(INDEX_MAX, RETRY_MAX), xs);
    FirstClose(r.1);
    ReplaySnapImage([S.Close(0)] + r.1);
    SnapImageJoin([S.Close(0)], r.1);
  }

  lemma FirstClose(acts: seq<S.Act>)
    requires forall k :: 0 <= k < |acts| ==> AtZero(acts[k])
    ensures S.InitialActs(1) == [S.Close(0)] && SnapImage([S.Close(0)]) == [Shut]
    ensures forall k :: 0 <= k < |acts| + 1 ==> AtZero(([S.Close(0)] + acts)[k])
  {
    assert S.InitialActs(0) == [] && [S.Close(0)][..0] == [];
  }
}
