/** Every session a runner starts lives as the session model assumes, so the event grammar holds for all of them. */
module SessionLives {
  import S = SessionModel
  import T = TraceGrammar
  import opened RunnerModel
  import opened RunnerSafety

  /** The operations among the inputs of a session. */
  function Operations(ins: seq<S.Input>): seq<S.Op> {
    if ins == [] then []
    else Operations(ins[..|ins| - 1]) + if ins[|ins| - 1].Oper? then [ins[|ins| - 1].op] else []
  }

  /** An operation stands where it stands among the operations, at the latest. */
  lemma {:induction false} OperationAt(ins: seq<S.Input>, k: nat) returns (j: nat)
    requires k < |ins| && ins[k].Oper?
    ensures j <= k && j < |Operations(ins)| && Operations(ins)[j] == ins[k].op
    ensures k == 0 ==> j == 0
    ensures k > 0 && ins[0].Oper? ==> j > 0
  {
    if k == |ins| - 1 {
      j := |Operations(ins)| - 1;
      OperationsBound(ins);
      if k > 0 && ins[0].Oper? { var first := OperationAt(ins[..k], 0); }
    } else {
      j := OperationAt(ins[..|ins| - 1], k);
    }
  }

  lemma {:induction false} OperationsBound(ins: seq<S.Input>)
    ensures |Operations(ins)| <= |ins|
  {
    if ins != [] { OperationsBound(ins[..|ins| - 1]); }
  }

  lemma {:induction false} UpToStopIsPrefix(ops: seq<S.Op>)
    ensures UpToStop(ops) <= ops
  {
    if ops != [] && !ops[0].Stop? {
      UpToStopIsPrefix(ops[1..]);
      assert ops == [ops[0]] + ops[1..];
    }
  }

  /** What a session executed starts like what it was told. */
  lemma ServedStartsOnce(h: Hand, k: nat)
    requires Served(h, k)
    ensures StartsOnce(DoneBy(h.done, k))
  {
    hide DoneBy; hide SentTo; hide Waiting; hide HasStop; hide UpToStop;
    UpToStopIsPrefix(SentTo(h.sent, k));
  }

  /** The operations alone make a life of any inputs they are interleaved with. */
  lemma OperationsMakeLife(ins: seq<S.Input>)
    requires ins != [] && ins[0].Oper? && StartsOnce(Operations(ins))
    ensures S.IsLife(ins)
  {
    var first := OperationAt(ins, 0);
    forall k | 1 <= k < |ins| && ins[k].Oper? ensures !ins[k].op.Start? {
      var j := OperationAt(ins, k);
    }
  }

  /** Messages come through sockets that are open, handlers of timers run on a pending expiry, and only an armed timer
      expires. Operations always come through. */
  predicate CanReach(s: S.Session, i: S.Input) {
    match i
    case Oper(_) => true
    case Snap(_) => s.sync.phase == S.S.Download || s.sync.phase == S.S.Synced
    case UnknownSnap => s.sync.phase == S.S.Download || s.sync.phase == S.S.Synced
    case Recv(_, _) => s.conn.phase != S.C.Halted
    case ConnRetry => s.conn.retry.pending
    case ConnTimeout => s.conn.timeout.pending
    case SyncTimeout => s.sync.timer.pending
    case RetryExpires => s.conn.retry.armed
    case ConnExpires => s.conn.timeout.armed
    case SyncExpires => s.sync.timer.armed
  }

  /** Before its Start nothing but an operation reaches a session. */
  lemma OperationFirst(i: S.Input)
    requires CanReach(S.FRESH, i)
    ensures i.Oper?
  {
  }

  /** In every run of a runner without 255 silent sessions in a row, whatever reaches session k between its
      operations, its inputs are a life and its events obey the grammar. */
  lemma EverySessionObeysGrammar(hs: seq<Hand>, turns: seq<Turn>, n: nat, k: nat, ins: seq<S.Input>)
    requires IsRun(hs, turns) && NeverSilent(hs, PATIENCE) && n < |hs| && 1 <= k <= hs[n].launched
    requires Operations(ins) == DoneBy(hs[n].done, k) && ins != [] && CanReach(S.FRESH, ins[0])
    ensures S.IsLife(ins)
    ensures T.ReadAll(T.NOTHING_READ, S.Trace(S.Run(S.FRESH, ins).fx), S.RETRY_MAX).Some?
  {
    hide IsRun; hide NeverSilent; hide Served; hide OwnOnly; hide Operations; hide DoneBy; hide T.ReadAll;
    hide S.Run; hide S.Trace;
    HandOff(hs, turns, n, k);
    ServedStartsOnce(hs[n], k);
    OperationFirst(ins[0]);
    OperationsMakeLife(ins);
    T.EveryLifeObeysGrammar(ins);
  }
}
