/** The synchronisation state machine as an object; callbacks are recorded in `acts`. */
module SyncMachine {
  import opened Basics
  import opened SyncModel

  class SyncMachine {
    const indexMax: nat
    const retryMax: nat
    var timerTmo: Timer
    var phase: Phase
    var indexCurr: nat
    var indexNext: nat
    var retryCurr: nat
    var seqNum: nat
    var acts: seq<Act>

    function View(): Sync
      reads this
    {
      Sync(indexMax, retryMax, phase, indexCurr, indexNext, retryCurr, seqNum, timerTmo)
    }

    constructor (maxIndex: nat, maxRetry: nat)
      ensures View() == Initial(maxIndex, maxRetry) && acts == InitialActs(maxIndex + 1)
    {
      indexMax, retryMax := maxIndex, maxRetry;
      timerTmo := Timer(false, false);
      phase, indexCurr, indexNext, retryCurr, seqNum := Halted, 0, 0, 0, 0;
      acts := [];
      new;
      var idx := 0;
      while idx <= indexMax
        invariant 0 <= idx <= indexMax + 1 && acts == InitialActs(idx)
        invariant View() == Sync(maxIndex, maxRetry, Halted, 0, 0, 0, 0, Timer(false, false))
      {
        acts := acts + [Close(idx)];
        idx := idx + 1;
      }
      DoHalt(-1);
    }

    method SetNextIndex(index: int)
      modifies this`indexNext
      ensures View() == Next(old(View()), Input.SetNext(index)).0
    {
      var i := if index < 0 then 0 else index;
      indexNext := Wrap(indexMax, i);
    }

    method OnHalt()
      modifies this
      ensures View() == SyncModel.OnHalt(old(View())).0
      ensures acts == old(acts) + SyncModel.OnHalt(old(View())).1
    {
      if phase == Halted {
        return;
      }
      if phase == Failed {
        DoHalt(-1);
      } else {
        DoHalt(indexCurr);
      }
    }

    method OnSync()
      modifies this
      ensures View() == SyncModel.OnSync(old(View())).0
      ensures acts == old(acts) + SyncModel.OnSync(old(View())).1
    {
      if phase == Download {
        return;
      }
      retryCurr := 0;
      if phase == Failed {
        indexCurr := indexNext;
        SetNextIndex(indexCurr + 1);
      }
      if phase == Synced {
        DoSync(-1, -1);
      } else {
        DoSync(-1, indexCurr);
      }
    }

    method OnReply(index: int, seqn: nat, reply: ReplyType) returns (r: ReplyResult)
      modifies this
      ensures View() == SyncModel.OnReply(old(View()), index, seqn, reply).0
      ensures acts == old(acts) + SyncModel.OnReply(old(View()), index, seqn, reply).1
      ensures r == ReplyVerdict(old(View()), index, seqn)
    {
      if phase != Download {
        return Unexpected;
      }
      if index != indexCurr || seqn != seqNum {
        return Discarded;
      }
      match reply {
        case Snapshot =>
          timerTmo := timerTmo.Start();
        case Complete =>
          timerTmo := timerTmo.Stop();
          Change(Synced);
      }
      return Accepted;
    }

    method OnTimerTimeoutFired()
      modifies this
      ensures View() == OnTimeout(old(View())).0
      ensures acts == old(acts) + OnTimeout(old(View())).1
    {
      if timerTmo.pending {
        timerTmo := timerTmo.Consume();
      }
      if phase != Download {
        return;
      }
      if retryCurr + 1 > retryMax {
        DoFail(indexCurr);
        return;
      }
      retryCurr := retryCurr + 1;
      var indexPrev := indexCurr;
      indexCurr := indexNext;
      SetNextIndex(indexCurr + 1);
      DoSync(indexPrev, indexCurr);
    }

    /** The interval of the timer runs out. */
    method Expire()
      modifies this`timerTmo
      ensures View() == Next(old(View()), Input.Expire).0
    {
      timerTmo := timerTmo.Expire(true);
    }

    method DoHalt(indexClose: int)
      modifies this
      ensures View() == old(View()).(phase := Halted, indexCurr := 0, indexNext := Wrap(indexMax, 1), retryCurr := 0,
                                     seqNum := 0, timer := old(timerTmo).Stop())
      ensures acts == old(acts) + (if indexClose < 0 then [] else [Close(indexClose)])
                                + (if old(phase) == Halted then [] else [Changed(Halted)])
    {
      timerTmo := timerTmo.Stop();
      seqNum := 0;
      retryCurr := 0;
      indexCurr := 0;
      SetNextIndex(1);
      DoClose(indexClose);
      Change(Halted);
    }

    method DoFail(indexClose: int)
      requires indexClose >= 0 && phase != Failed
      modifies this
      ensures View() == old(View()).(phase := Failed, timer := old(timerTmo).Stop())
      ensures acts == old(acts) + [Close(indexClose), Changed(Failed)]
    {
      timerTmo := timerTmo.Stop();
      DoClose(indexClose);
      Change(Failed);
    }

    method DoSync(indexClose: int, indexOpen: int)
      modifies this
      ensures var sockets := (if indexClose < 0 then [] else [Close(indexClose)])
                             + (if indexOpen < 0 then [] else [Open(indexOpen)]);
              && View() == Requesting(old(View()), old(phase), sockets).0
              && acts == old(acts) + Requesting(old(View()), old(phase), sockets).1
    {
      timerTmo := timerTmo.Start();
      seqNum := (seqNum + 1) % NUMBERS;
      Change(Download);
      DoClose(indexClose);
      DoOpen(indexOpen);
      acts := acts + [Request(indexCurr, seqNum)];
    }

    method DoClose(index: int)
      modifies this`acts
      ensures acts == old(acts) + if index < 0 then [] else [Close(index)]
    {
      if index < 0 {
        return;
      }
      acts := acts + [Close(index)];
    }

    method DoOpen(index: int)
      modifies this`acts
      ensures acts == old(acts) + if index < 0 then [] else [Open(index)]
    {
      if index < 0 {
        return;
      }
      acts := acts + [Open(index)];
    }

    method Change(to: Phase)
      modifies this`phase, this`acts
      ensures phase == to && acts == old(acts) + if old(phase) == to then [] else [Changed(to)]
    {
      if phase == to {
        return;
      }
      phase := to;
      acts := acts + [Changed(to)];
    }
  }
}
