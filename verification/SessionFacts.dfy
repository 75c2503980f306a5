/** What one reaction of the connection or synchronisation machine does to the session around it. */
module SessionFacts {
  import opened Basics
  import opened SessionModel
  import C = ConnModel
  import S = SyncModel

  lemma TraceOne(e: Effect)
    ensures Trace([e]) == if e.Emit? then [e.event] else []
  {
    assert [e][..0] == [];
  }

  lemma ConnSnoc(s: Session, acts: seq<C.Act>, a: C.Act)
    ensures var p := ConnActs(s, acts);
            var q := ConnAct(p.s, a);
            ConnActs(s, acts + [a]) == Out(q.s, p.fx + q.fx)
  {
    assert (acts + [a])[..|acts|] == acts;
  }

  lemma SyncSnoc(s: Session, acts: seq<S.Act>, a: S.Act)
    ensures var p := SyncActs(s, acts);
            var q := SyncAct(p.s, a);
            SyncActs(s, acts + [a]) == Out(q.s, p.fx + q.fx)
  {
    assert (acts + [a])[..|acts|] == acts;
  }

  // ---------------------------------------------------------------- connection

  /** A change of the online flag, as the client sees it. */
  function OnlineChange(before: bool, after: bool): seq<Event> {
    if before == after then [] else [if after then Online else Offline]
  }

  /** Neither topics, nor snapshot requests, nor numbers: only keepalives, sockets and events. */
  ghost predicate Quiet(fx: seq<Effect>) {
    forall k :: 0 <= k < |fx| ==> !fx[k].Publish? && !fx[k].AskSnapshot? && !fx[k].Notify?
  }

  lemma ConnActFacts(s: Session, a: C.Act)
    ensures var r := ConnAct(s, a);
            && r.s == s.(online := r.s.online, alive := r.s.alive)
            && Quiet(r.fx)
            && Trace(r.fx) == OnlineChange(s.online, r.s.online)
            && r.s.online == (if s.alive && a.Changed? then a.phase == C.Stable else s.online)
            && (r.s.alive ==> s.alive)
  {
    TraceOne(CloseConn);
    TraceOne(OpenConn(Joined(s.conf)));
    TraceOne(Announce);
    TraceOne(Emit(Online));
    TraceOne(Emit(Offline));
  }

  /** The last announced phase in a list of actions decides whether the session is online. */
  lemma {:induction false} ConnActsFacts(s: Session, acts: seq<C.Act>)
    requires s.alive && (forall k :: 1 <= k < |acts| ==> !acts[k].Changed?)
    ensures var r := ConnActs(s, acts);
            && r.s == s.(online := r.s.online, alive := r.s.alive)
            && Quiet(r.fx)
            && Trace(r.fx) == OnlineChange(s.online, r.s.online)
            && r.s.online == (if acts != [] && acts[0].Changed? then acts[0].phase == C.Stable else s.online)
  {
    hide ConnAct;
    if acts != [] {
      var before, last := acts[..|acts| - 1], acts[|acts| - 1];
      var p := ConnActs(s, before);
      ConnActsFacts(s, before);
      ConnActFacts(p.s, last);
      TraceJoin(p.fx, ConnAct(p.s, last).fx);
    }
  }

  /** A reaction of the connection machine: its new state, and Online or Offline exactly when that changes. */
  lemma ConnStepFacts(s: Session, i: C.Input)
    requires s.alive && s.online == (s.conn.phase == C.Stable)
    ensures var r := ConnStep(s, i);
            && r.s == s.(conn := C.Next(s.conn, i).0, online := r.s.online, alive := r.s.alive)
            && Quiet(r.fx)
            && r.s.online == (r.s.conn.phase == C.Stable)
            && Trace(r.fx) == OnlineChange(s.online, r.s.online)
  {
    hide ConnAct;
    var (c, acts) := C.Next(s.conn, i);
    var t := s.(conn := c);
    if i == C.Input.Stop && s.conn.phase != C.Halted {
      ConnActsFacts(t, [C.Close]);
      var p := ConnActs(t, [C.Close]).s;
      assert [C.Close] + [C.Changed(C.Halted)] == acts;
      ConnSnoc(t, [C.Close], C.Changed(C.Halted));
      ConnActFacts(p, C.Changed(C.Halted));
      CloseKeepsAlive(t);
      TraceJoin(ConnActs(t, [C.Close]).fx, ConnAct(p, C.Changed(C.Halted)).fx);
    } else {
      ConnActsFacts(t, acts);
    }
  }

  lemma CloseKeepsAlive(s: Session)
    requires s.alive
    ensures ConnActs(s, [C.Close]).s == s
  {
    assert [C.Close][..0] == [];
  }

  // ---------------------------------------------------------------- synchronisation

  /** What the client sees of one synchronisation step. */
  function SyncEvents(s: Session, before: S.Phase, after: S.Phase, request: bool): seq<Event> {
    var req := if request then [SyncRequest(s.conf.(seqNum := s.seqNum))] else [];
    if before != S.Download && after == S.Download then [SyncDownloadOn] + req
    else if before == S.Download && after == S.Synced then [SyncSuccess(s.broker), SyncDownloadOff]
    else if before == S.Download && after != S.Download then [SyncError(s.broker), SyncDownloadOff]
    else req
  }

  /** The snapshot requests a step sends. */
  function Asks(s: Session, r: seq<S.Req>): seq<Effect> {
    if r == [] then [] else [AskSnapshot(r[0].seqn, s.conf.(seqNum := s.seqNum))]
  }

  /** The effects other than events and sockets. */
  function Messages(fx: seq<Effect>): seq<Effect> {
    if fx == [] then []
    else
      var e := fx[|fx| - 1];
      if e.Publish? || e.AskSnapshot? || e.Notify? then Messages(fx[..|fx| - 1]) + [e] else Messages(fx[..|fx| - 1])
  }

  lemma {:induction false} MessagesJoin(a: seq<Effect>, b: seq<Effect>)
    ensures Messages(a + b) == Messages(a) + Messages(b)
  {
    if b == [] {
      assert a + b == a;
    } else {
      assert (a + b)[..|a + b| - 1] == a + b[..|b| - 1];
      MessagesJoin(a, b[..|b| - 1]);
    }
  }

  lemma MessagesOne(e: Effect)
    ensures Messages([e]) == if e.Publish? || e.AskSnapshot? || e.Notify? then [e] else []
  {
    assert [e][..0] == [];
  }

  lemma {:induction false} QuietMessages(fx: seq<Effect>)
    requires Quiet(fx)
    ensures Messages(fx) == []
  {
    if fx != [] { QuietMessages(fx[..|fx| - 1]); }
  }

  lemma Two(a: Effect, b: Effect)
    ensures Trace([a, b]) == Trace([a]) + Trace([b]) && Messages([a, b]) == Messages([a]) + Messages([b])
  {
    assert [a, b] == [a] + [b];
    TraceJoin([a], [b]);
    MessagesJoin([a], [b]);
  }

  lemma SyncChangeFacts(s: Session, p: S.Phase)
    requires s.snapshot || p == S.Download || p == S.Halted
    ensures var r := OnSyncChanged(s, p);
            && r.s == s.(snapshot := p == S.Download, broker := if p == S.Halted then NIL_UUID else s.broker)
            && Messages(r.fx) == []
            && Trace(r.fx) ==
               (if p == S.Download then (if s.snapshot then [] else [SyncDownloadOn])
                else if !s.snapshot then []
                else [if p == S.Synced then SyncSuccess(s.broker) else SyncError(s.broker), SyncDownloadOff])
  {
    var result := if p == S.Synced then SyncSuccess(s.broker) else SyncError(s.broker);
    Two(Emit(result), Emit(SyncDownloadOff));
    TraceOne(Emit(result));
    TraceOne(Emit(SyncDownloadOff));
    TraceOne(Emit(SyncDownloadOn));
    MessagesOne(Emit(result));
    MessagesOne(Emit(SyncDownloadOff));
    MessagesOne(Emit(SyncDownloadOn));
    assert [Emit(result)] + [Emit(SyncDownloadOff)] == [Emit(result), Emit(SyncDownloadOff)];
  }

  lemma SyncSocketFacts(s: Session, a: S.Act)
    requires a.Close? || a.Open?
    ensures SyncAct(s, a).s == s && Trace(SyncAct(s, a).fx) == [] && Messages(SyncAct(s, a).fx) == []
  {
    TraceOne(CloseSnap);
    TraceOne(OpenSnap);
    MessagesOne(CloseSnap);
    MessagesOne(OpenSnap);
  }

  lemma SyncRequestFacts(s: Session, i: nat, n: nat)
    ensures var conf := s.conf.(seqNum := s.seqNum);
            var r := SyncAct(s, S.Request(i, n));
            r.s == s && Trace(r.fx) == [SyncRequest(conf)] && Messages(r.fx) == [AskSnapshot(n, conf)]
  {
    var conf := s.conf.(seqNum := s.seqNum);
    Two(AskSnapshot(n, conf), Emit(SyncRequest(conf)));
    TraceOne(AskSnapshot(n, conf));
    TraceOne(Emit(SyncRequest(conf)));
    MessagesOne(AskSnapshot(n, conf));
    MessagesOne(Emit(SyncRequest(conf)));
  }

  /** Closing and opening sockets in front of other actions changes nothing the client sees. */
  lemma {:induction false} SyncSocketsFacts(s: Session, acts: seq<S.Act>)
    requires forall k :: 0 <= k < |acts| ==> acts[k].Close? || acts[k].Open?
    ensures SyncActs(s, acts).s == s && Trace(SyncActs(s, acts).fx) == [] && Messages(SyncActs(s, acts).fx) == []
  {
    hide SyncAct;
    if acts != [] {
      var before := acts[..|acts| - 1];
      SyncSocketsFacts(s, before);
      SyncSocketFacts(s, acts[|acts| - 1]);
      TraceJoin(SyncActs(s, before).fx, SyncAct(s, acts[|acts| - 1]).fx);
      MessagesJoin(SyncActs(s, before).fx, SyncAct(s, acts[|acts| - 1]).fx);
    }
  }

  lemma {:induction false} SyncJoin(s: Session, a: seq<S.Act>, b: seq<S.Act>)
    ensures var p := SyncActs(s, a);
            var q := SyncActs(p.s, b);
            SyncActs(s, a + b) == Out(q.s, p.fx + q.fx)
  {
    hide SyncAct;
    var p := SyncActs(s, a);
    if b == [] {
      assert a + b == a && p.fx + [] == p.fx;
    } else {
      var b', x := b[..|b| - 1], b[|b| - 1];
      SyncJoin(s, a, b');
      assert a + b == (a + b') + [x];
      SyncSnoc(s, a + b', x);
      var m := SyncActs(p.s, b');
      var f := SyncAct(m.s, x).fx;
      assert (p.fx + m.fx) + f == p.fx + (m.fx + f);
    }
  }

  lemma SyncOne(s: Session, a: S.Act)
    ensures SyncActs(s, [a]) == SyncAct(s, a)
  {
    SyncSnoc(s, [], a);
    assert [] + [a] == [a];
  }

  lemma RequestTail(s: Session, sockets: seq<S.Act>, i: nat, n: nat)
    requires forall k :: 0 <= k < |sockets| ==> sockets[k].Close? || sockets[k].Open?
    ensures var conf := s.conf.(seqNum := s.seqNum);
            var r := SyncActs(s, sockets + [S.Request(i, n)]);
            r.s == s && Trace(r.fx) == [SyncRequest(conf)] && Messages(r.fx) == [AskSnapshot(n, conf)]
  {
    hide SyncAct; hide SyncActs; hide Trace; hide Messages;
    SyncSnoc(s, sockets, S.Request(i, n));
    SyncSocketsFacts(s, sockets);
    SyncRequestFacts(s, i, n);
    TraceJoin(SyncActs(s, sockets).fx, SyncAct(s, S.Request(i, n)).fx);
    MessagesJoin(SyncActs(s, sockets).fx, SyncAct(s, S.Request(i, n)).fx);
  }

  /** A request: the download window opens if it was closed, sockets are prepared, the request goes out. */
  lemma RequestingFacts(s: Session, m: S.Sync, was: S.Phase, sockets: seq<S.Act>)
    requires s.snapshot == (was == S.Download)
    requires forall k :: 0 <= k < |sockets| ==> sockets[k].Close? || sockets[k].Open?
    ensures var n := (m.seqNum + 1) % S.NUMBERS;
            var r := SyncActs(s, S.Requesting(m, was, sockets).1);
            && r.s == s.(snapshot := true)
            && Trace(r.fx) == SyncEvents(s, was, S.Download, true)
            && Messages(r.fx) == [AskSnapshot(n, s.conf.(seqNum := s.seqNum))]
  {
    hide SyncAct; hide SyncActs; hide Trace; hide Messages; hide OnSyncChanged;
    var n := (m.seqNum + 1) % S.NUMBERS;
    var rest := sockets + [S.Request(m.indexCurr, n)];
    if was == S.Download {
      assert S.Requesting(m, was, sockets).1 == rest;
      RequestTail(s, sockets, m.indexCurr, n);
    } else {
      var first := [S.Changed(S.Download)];
      assert S.Requesting(m, was, sockets).1 == first + rest;
      SyncJoin(s, first, rest);
      SyncOne(s, S.Changed(S.Download));
      ChangedIs(s, S.Download);
      SyncChangeFacts(s, S.Download);
      var t := s.(snapshot := true);
      RequestTail(t, sockets, m.indexCurr, n);
      TraceJoin(OnSyncChanged(s, S.Download).fx, SyncActs(t, rest).fx);
      MessagesJoin(OnSyncChanged(s, S.Download).fx, SyncActs(t, rest).fx);
    }
  }

  lemma ChangedIs(s: Session, p: S.Phase)
    ensures SyncAct(s, S.Changed(p)) == OnSyncChanged(s, p)
  {
  }

  /** Leaving the download, or leaving a finished one for Halted. */
  lemma LeavingFacts(s: Session, before: S.Phase, after: S.Phase, sockets: seq<S.Act>)
    requires s.snapshot == (before == S.Download) && after != S.Download
    requires s.snapshot || after == S.Halted
    requires forall k :: 0 <= k < |sockets| ==> sockets[k].Close? || sockets[k].Open?
    ensures var r := SyncActs(s, sockets + [S.Changed(after)]);
            && r.s == s.(snapshot := false, broker := if after == S.Halted then NIL_UUID else s.broker)
            && Trace(r.fx) == SyncEvents(s, before, after, false)
            && Messages(r.fx) == []
  {
    hide SyncAct; hide SyncActs; hide Trace; hide Messages; hide OnSyncChanged;
    SyncSnoc(s, sockets, S.Changed(after));
    SyncSocketsFacts(s, sockets);
    ChangedIs(s, after);
    SyncChangeFacts(s, after);
    TraceJoin(SyncActs(s, sockets).fx, OnSyncChanged(s, after).fx);
    MessagesJoin(SyncActs(s, sockets).fx, OnSyncChanged(s, after).fx);
  }

  ghost predicate SyncStepSummary(s: Session, i: S.Input, r: Out) {
    var n := S.Next(s.sync, i);
    && r.s == s.(sync := n.0, snapshot := n.0.phase == S.Download,
                 broker := if s.sync.phase != S.Halted && n.0.phase == S.Halted then NIL_UUID else s.broker)
    && Trace(r.fx) == SyncEvents(s, s.sync.phase, n.0.phase, S.Requests(n.1) != [])
    && Messages(r.fx) == Asks(s, S.Requests(n.1))
  }

  lemma NothingHappens(s: Session, m: S.Sync)
    requires s.snapshot == (s.sync.phase == S.Download) && m.phase == s.sync.phase
    ensures SyncActs(s.(sync := m), []) == Out(s.(sync := m), [])
    ensures Trace([]) == [] && Messages([]) == [] && S.Requests([]) == []
    ensures SyncEvents(s, s.sync.phase, m.phase, false) == []
  {
  }

  lemma StepHalt(s: Session)
    requires s.snapshot == (s.sync.phase == S.Download)
    ensures SyncStepSummary(s, S.Halt, SyncStep(s, S.Halt))
  {
    hide SyncActs; hide Trace; hide Messages;
    var m := S.Next(s.sync, S.Halt);
    if s.sync.phase == S.Halted {
      NothingHappens(s, m.0);
    } else {
      var sockets := if s.sync.phase == S.Failed then [] else [S.Close(s.sync.indexCurr)];
      S.RequestsOf(m.1);
      LeavingFacts(s.(sync := m.0), s.sync.phase, S.Halted, sockets);
    }
  }

  lemma StepStart(s: Session)
    requires s.snapshot == (s.sync.phase == S.Download)
    ensures SyncStepSummary(s, S.Input.Start, SyncStep(s, S.Input.Start))
  {
    hide SyncActs; hide Trace; hide Messages;
    var n := S.Next(s.sync, S.Input.Start);
    var anew := s.sync.(retryCurr := 0);
    var t := s.(sync := n.0);
    S.RequestsOf(n.1);
    match s.sync.phase
    case Download => NothingHappens(s, n.0);
    case Halted => RequestingFacts(t, anew, S.Halted, [S.Open(s.sync.indexCurr)]);
    case Failed => RequestingFacts(t, S.Rotated(anew), S.Failed, [S.Open(s.sync.indexNext)]);
    case Synced => RequestingFacts(t, anew, S.Synced, []);
  }

  lemma StepReply(s: Session, index: int, seqn: nat, kind: S.ReplyType)
    requires s.snapshot == (s.sync.phase == S.Download)
    ensures SyncStepSummary(s, S.Reply(index, seqn, kind), SyncStep(s, S.Reply(index, seqn, kind)))
  {
    hide SyncActs; hide Trace; hide Messages;
    var n := S.Next(s.sync, S.Reply(index, seqn, kind));
    if n.0.phase == s.sync.phase {
      NothingHappens(s, n.0);
    } else {
      assert [] + [S.Changed(S.Synced)] == n.1;
      S.RequestsOf(n.1);
      LeavingFacts(s.(sync := n.0), S.Download, S.Synced, []);
    }
  }

  lemma StepTimeout(s: Session)
    requires s.snapshot == (s.sync.phase == S.Download)
    ensures SyncStepSummary(s, S.Timeout, SyncStep(s, S.Timeout))
  {
    hide SyncActs; hide Trace; hide Messages;
    var m := s.sync;
    var n := S.Next(m, S.Timeout);
    var t := s.(sync := n.0);
    S.RequestsOf(n.1);
    if m.phase != S.Download {
      NothingHappens(s, n.0);
    } else if m.retryCurr + 1 > m.retryMax {
      assert n.1 == [S.Close(m.indexCurr)] + [S.Changed(S.Failed)];
      LeavingFacts(t, S.Download, S.Failed, [S.Close(m.indexCurr)]);
    } else {
      var r := S.Rotated(m.(timer := m.timer.Consume(), retryCurr := m.retryCurr + 1));
      RequestingFacts(t, r, S.Download, [S.Close(m.indexCurr), S.Open(m.indexNext)]);
    }
  }

  /** A reaction of the synchronisation machine, as the client and the brokers see it. */
  lemma SyncStepFacts(s: Session, i: S.Input)
    requires s.snapshot == (s.sync.phase == S.Download)
    ensures SyncStepSummary(s, i, SyncStep(s, i))
  {
    match i
    case Halt => StepHalt(s);
    case Start => StepStart(s);
    case Reply(index, seqn, kind) => StepReply(s, index, seqn, kind);
    case Timeout => StepTimeout(s);
    case SetNext(_) => NothingHappens(s, S.Next(s.sync, i).0);
    case Expire => NothingHappens(s, S.Next(s.sync, i).0);
  }
}
