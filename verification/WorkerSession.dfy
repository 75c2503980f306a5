/** The worker session as an object that owns its two state machines; effects are recorded in `fx`. */
module WorkerSession {
  import opened Basics
  import opened LruModel
  import opened SessionModel
  import opened SessionFacts
  import CM = ConnMachine
  import SM = SyncMachine

  class WorkerSession {
    const conn: CM.ConnMachine
    const sync: SM.SyncMachine
    var alive: bool
    var conf: WorkerConfig
    var isOnline: bool
    var isSnapshot: bool
    var brokerUuid: Uuid
    var seqNum: nat
    var workerSeqNum: seq<(Uuid, nat)>
    var fx: seq<Effect>

    function View(): Session
      reads this, conn, sync
    {
      Session(alive, conf, conn.View(), sync.View(), isOnline, isSnapshot, brokerUuid, seqNum, workerSeqNum)
    }

    /** The session is what an outcome says, and has added its effects to those before. */
    ghost predicate Did(before: seq<Effect>, out: Out)
      reads this, conn, sync
    {
      View() == out.s && fx == before + out.fx
    }

    constructor ()
      ensures fresh(conn) && fresh(sync) && View() == FRESH && fx == [CloseConn, CloseSnap]
    {
      conn := new CM.ConnMachine();
      sync := new SM.SyncMachine(INDEX_MAX, RETRY_MAX);
      alive, conf, isOnline, isSnapshot := true, BLANK, false, false;
      brokerUuid, seqNum, workerSeqNum := NIL_UUID, 0, [];
      fx := [CloseConn, CloseSnap];
    }

    // -------------------------------------------------------------- callbacks of the machines

    method SendEvent(e: Event)
      modifies this`fx
      ensures fx == old(fx) + [Emit(e)]
    {
      fx := fx + [Emit(e)];
    }

    method NotifyConnectionUpdate(isUp: bool)
      modifies this`fx, this`isOnline
      ensures Did(old(fx), NotifyConnection(old(View()), isUp))
    {
      if isUp == isOnline {
        return;
      }
      isOnline := isUp;
      SendEvent(if isUp then Online else Offline);
    }

    method NotifySnapshotDownload(isSync: bool)
      modifies this`fx, this`isSnapshot
      ensures Did(old(fx), NotifySnapshot(old(View()), isSync))
    {
      if isSync == isSnapshot {
        return;
      }
      isSnapshot := isSync;
      SendEvent(if isSync then SyncDownloadOn else SyncDownloadOff);
    }

    /** Opening joins the groups of the configuration; it fails, and ends the session, when a subscribed name is the
        reserved group. */
    method ConnOpen()
      modifies this`fx, this`alive
      ensures Did(old(fx),
                  if CannotOpen(conf) then Out(old(View()).(alive := false), [])
                  else Out(old(View()), [OpenConn(Joined(conf))]))
    {
      var groups := {HUGZ};
      if !conf.topicsAll {
        var i := 0;
        while i < |conf.topicsNames|
          invariant 0 <= i <= |conf.topicsNames| && UPDT !in conf.topicsNames[..i]
          invariant groups == {HUGZ} + NameGroups(conf.topicsNames[..i])
        {
          if conf.topicsNames[i] == UPDT {
            alive := false;
            return;
          }
          assert conf.topicsNames[..i + 1][..i] == conf.topicsNames[..i];
          groups := groups + {CString(conf.topicsNames[i])};
          i := i + 1;
        }
        assert conf.topicsNames[..i] == conf.topicsNames;
      } else {
        groups := groups + {UPDT};
      }
      fx := fx + [OpenConn(groups)];
    }

    method OnConn(a: C.Act)
      requires alive
      modifies this
      ensures Did(old(fx), ConnAct(old(View()), a))
    {
      match a {
        case Close => fx := fx + [CloseConn];
        case Open => ConnOpen();
        case Pong => fx := fx + [Announce];
        case Changed(p) => NotifyConnectionUpdate(p == C.Stable);
      }
    }

    method OnSyncChanged(p: S.Phase)
      modifies this
      ensures Did(old(fx), SessionModel.OnSyncChanged(old(View()), p))
    {
      match p {
        case Halted =>
          if isSnapshot {
            SendEvent(SyncError(brokerUuid));
          }
          brokerUuid := NIL_UUID;
          NotifySnapshotDownload(false);
        case Synced =>
          SendEvent(SyncSuccess(brokerUuid));
          NotifySnapshotDownload(false);
        case Failed =>
          SendEvent(SyncError(brokerUuid));
          NotifySnapshotDownload(false);
        case Download =>
          NotifySnapshotDownload(true);
      }
    }

    method SendSync(syncseq: nat)
      modifies this`fx
      ensures var c := conf.(seqNum := seqNum); fx == old(fx) + [AskSnapshot(syncseq, c), Emit(SyncRequest(c))]
    {
      var c := conf.(seqNum := seqNum);
      fx := fx + [AskSnapshot(syncseq, c)];
      SendEvent(SyncRequest(c));
    }

    method OnSync(a: S.Act)
      modifies this
      ensures Did(old(fx), SyncAct(old(View()), a))
    {
      match a {
        case Close(_) => fx := fx + [CloseSnap];
        case Open(_) => fx := fx + [OpenSnap];
        case Request(_, n) => SendSync(n);
        case Changed(p) => OnSyncChanged(p);
      }
    }

    /** The callbacks of one call of the connection machine; an exception leaves the rest out. */
    method RunConn(first: nat)
      requires first <= |conn.acts|
      modifies this
      ensures Did(old(fx), ConnActs(old(View()), conn.acts[first..]))
    {
      hide ConnActs;
      ghost var s, before, acts := View(), fx, conn.acts[first..];
      NoConnActs(s);
      assert acts[..0] == [] && before + [] == before;
      var i := first;
      while i < |conn.acts|
        invariant first <= i <= |conn.acts| && acts == conn.acts[first..]
        invariant Did(before, ConnActs(s, acts[..i - first]))
      {
        ghost var done := acts[..i - first];
        ConnSnoc(s, done, conn.acts[i]);
        assert acts[..i + 1 - first] == done + [conn.acts[i]];
        ghost var p := ConnActs(s, done);
        assert before + p.fx + ConnAct(p.s, conn.acts[i]).fx == before + (p.fx + ConnAct(p.s, conn.acts[i]).fx);
        if alive {
          OnConn(conn.acts[i]);
        } else {
          assert fx + [] == fx;
        }
        i := i + 1;
      }
      assert acts[..i - first] == acts;
    }

    /** The callbacks of one call of the synchronisation machine. */
    method RunSync(first: nat)
      requires first <= |sync.acts|
      modifies this
      ensures Did(old(fx), SyncActs(old(View()), sync.acts[first..]))
    {
      hide SyncActs;
      ghost var s, before, acts := View(), fx, sync.acts[first..];
      NoSyncActs(s);
      assert acts[..0] == [] && before + [] == before;
      var i := first;
      while i < |sync.acts|
        invariant first <= i <= |sync.acts| && acts == sync.acts[first..]
        invariant Did(before, SyncActs(s, acts[..i - first]))
      {
        ghost var done := acts[..i - first];
        SyncSnoc(s, done, sync.acts[i]);
        assert acts[..i + 1 - first] == done + [sync.acts[i]];
        ghost var p := SyncActs(s, done);
        assert before + p.fx + SyncAct(p.s, sync.acts[i]).fx == before + (p.fx + SyncAct(p.s, sync.acts[i]).fx);
        OnSync(sync.acts[i]);
        i := i + 1;
      }
      assert acts[..i - first] == acts;
    }

    // -------------------------------------------------------------- calls into the machines

    /** One call of the connection machine, with its callbacks. */
    method CallConn(i: C.Input)
      requires !i.RetryExpires? && !i.TimeoutExpires?
      modifies this, conn
      ensures Did(old(fx), ConnStep(old(View()), i))
    {
      hide ConnActs; hide C.Next;
      var first := |conn.acts|;
      match i {
        case Start => conn.OnStart();
        case Stop => conn.OnStop();
        case Ping => conn.OnPing();
        case RetryFired => conn.OnTimerRetryFired();
        case TimeoutFired => conn.OnTimerTimeoutFired();
      }
      assert conn.acts[first..] == C.Next(old(conn.View()), i).1;
      RunConn(first);
    }

    /** One call of the synchronisation machine, with its callbacks. */
    method CallSync(i: S.Input)
      requires !i.SetNext? && !i.Expire?
      modifies this, sync
      ensures Did(old(fx), SyncStep(old(View()), i))
    {
      hide SyncActs; hide S.OnHalt; hide S.OnSync; hide S.OnReply; hide S.OnTimeout;
      var first := |sync.acts|;
      match i {
        case Halt => sync.OnHalt();
        case Start => sync.OnSync();
        case Reply(index, seqn, kind) => var r := sync.OnReply(index, seqn, kind);
        case Timeout => sync.OnTimerTimeoutFired();
      }
      assert sync.acts[first..] == S.Next(old(sync.View()), i).1;
      RunSync(first);
    }

    // -------------------------------------------------------------- handlers

    method NotifySequenceNumber()
      modifies this`fx
      ensures fx == old(fx) + [Notify(seqNum)]
    {
      fx := fx + [Notify(seqNum)];
    }

    /** The duplicate filter of topics, per worker. */
    method AcceptNumber(worker: Uuid, value: nat) returns (ok: bool)
      modifies this`workerSeqNum
      ensures ok == (value > LastNumber(old(workerSeqNum), worker))
      ensures workerSeqNum == if ok then Put(0, old(workerSeqNum), worker, value) else old(workerSeqNum)
    {
      var last := 0;
      var it := Lookup(workerSeqNum, worker);
      if it.Some? {
        last := it.value;
      }
      if value <= last {
        return false;
      }
      workerSeqNum := Put(0, workerSeqNum, worker, value);
      return true;
    }

    method AcceptTopic(t: Topic) returns (ok: bool)
      modifies this
      ensures ok == Accepts(old(View()), t) && Did(old(fx), SessionModel.AcceptTopic(old(View()), t))
    {
      ok := AcceptNumber(t.worker, t.seqn);
      if !ok {
        return;
      }
      if t.worker != conf.uuid || t.seqn <= seqNum {
        return;
      }
      seqNum := t.seqn;
      NotifySequenceNumber();
    }

    method HandleStop()
      requires alive
      modifies this, conn, sync
      ensures Did(old(fx), OnOper(old(View()), Stop))
    {
      hide ConnStep; hide SyncStep;
      ghost var p := ConnStep(View(), C.Input.Stop);
      ghost var q := SyncStep(p.s, S.Halt);
      CallConn(C.Input.Stop);
      CallSync(S.Halt);
      SendEvent(Stopped);
      assert old(fx) + p.fx + q.fx + [Emit(Stopped)] == old(fx) + (p.fx + q.fx + [Emit(Stopped)]);
      alive := false;
    }

    method OperationReady(op: Op)
      requires alive
      modifies this, conn, sync
      ensures Did(old(fx), OnOper(old(View()), op))
    {
      hide ConnStep; hide SyncStep;
      match op {
        case Start(c) =>
          conf, seqNum := c, c.seqNum;
          SendEvent(Started(c));
          CallConn(C.Input.Start);
        case Stop => HandleStop();
        case Dispatch(t) =>
          seqNum := (seqNum + 1) % SEQ_LIMIT;
          NotifySequenceNumber();
          fx := fx + [Publish(t.(seqn := seqNum))];
        case Sync =>
          brokerUuid := NIL_UUID;
          CallSync(S.Input.Start);
        case Unknown =>
        case BadStart => alive := false;
        case BadDispatch =>
          seqNum := (seqNum + 1) % SEQ_LIMIT;
          NotifySequenceNumber();
          alive := false;
      }
    }

    method RecvBrokerSnapshot(msg: Option<SnapMsg>)
      requires alive
      modifies this, conn, sync
      ensures Did(old(fx), Step(old(View()), Snap(msg)))
    {
      hide SyncStep; hide SessionModel.AcceptTopic;
      if msg.None? {
        alive := false;
        return;
      }
      match msg.value {
        case Begin(_, u) =>
          brokerUuid := u;
          SendEvent(SyncBegin(u));
        case Elem(n, t) =>
          var ok := AcceptTopic(t);
          SendEvent(SyncElement(t));
          CallSync(S.Reply(0, n, S.Snapshot));
        case Compl(n, u) =>
          if u != brokerUuid {
            brokerUuid := u;
          }
          CallSync(S.Reply(0, n, S.Complete));
      }
    }

    method CollectBrokerMessage(group: Bytes, payload: Option<Topic>)
      requires alive
      modifies this, conn, sync
      ensures Did(old(fx), OnRecv(old(View()), group, payload))
    {
      hide ConnStep; hide SessionModel.AcceptTopic;
      if group == HUGZ {
        CallConn(C.Ping);
      } else if group == UPDT || group in conf.topicsNames {
        if payload.None? {
          alive := false;
          return;
        }
        var ok := AcceptTopic(payload.value);
        if ok {
          SendEvent(Delivery(payload.value));
        }
      }
    }

    method SocketReady(i: Input)
      requires alive && (i.Snap? || i.UnknownSnap? || i.Recv? || i.ConnRetry? || i.ConnTimeout? || i.SyncTimeout?)
      modifies this, conn, sync
      ensures Did(old(fx), Step(old(View()), i))
    {
      hide ConnStep; hide SyncStep; hide OnRecv; hide OnSnap;
      match i {
        case Snap(msg) => RecvBrokerSnapshot(msg);
        case UnknownSnap =>
        case Recv(group, payload) => CollectBrokerMessage(group, payload);
        case ConnRetry => CallConn(C.RetryFired);
        case ConnTimeout => CallConn(C.TimeoutFired);
        case SyncTimeout => CallSync(S.Timeout);
      }
    }
  }

  lemma NoConnActs(s: Session)
    ensures ConnActs(s, []) == Out(s, [])
  {
  }

  lemma NoSyncActs(s: Session)
    ensures SyncActs(s, []) == Out(s, [])
  {
  }
}
