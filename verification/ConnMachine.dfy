/** The connection state machine as an object; callbacks are recorded in `acts`. */
module ConnMachine {
  import opened Basics
  import opened ConnModel

  class ConnMachine {
    var timerTry: Timer
    var timerTmo: Timer
    var phase: Phase
    var acts: seq<Act>

    function View(): Conn
      reads this
    {
      Conn(phase, timerTry, timerTmo)
    }

    constructor ()
      ensures View() == INITIAL && acts == [Close]
    {
      timerTry, timerTmo, phase, acts := Timer(false, false), Timer(false, false), Halted, [];
      new;
      Halt();
    }

    method OnStart()
      modifies this
      ensures View() == Next(old(View()), Input.Start).0 && acts == old(acts) + Next(old(View()), Input.Start).1
    {
      if phase != Halted {
        return;
      }
      Trigger();
    }

    method OnStop()
      modifies this
      ensures View() == Next(old(View()), Input.Stop).0 && acts == old(acts) + Next(old(View()), Input.Stop).1
    {
      if phase == Halted {
        return;
      }
      Halt();
    }

    method OnPing()
      modifies this
      ensures View() == Next(old(View()), Ping).0 && acts == old(acts) + Next(old(View()), Ping).1
    {
      if phase == Halted {
        return;
      }
      timerTry := timerTry.Stop();
      timerTmo := timerTmo.Start();
      Change(Stable);
      acts := acts + [Pong];
    }

    method OnTimerRetryFired()
      modifies this
      ensures View() == Next(old(View()), RetryFired).0 && acts == old(acts) + Next(old(View()), RetryFired).1
    {
      if timerTry.pending {
        timerTry := timerTry.Consume();
      }
      if phase == Halted {
        return;
      }
      if phase == Stable {
        return;
      }
      acts := acts + [Pong];
    }

    method OnTimerTimeoutFired()
      modifies this
      ensures View() == Next(old(View()), TimeoutFired).0 && acts == old(acts) + Next(old(View()), TimeoutFired).1
    {
      if timerTmo.pending {
        timerTmo := timerTmo.Consume();
      }
      if phase == Halted {
        return;
      }
      Trigger();
    }

    method Trigger()
      modifies this
      ensures View() == Triggered(old(View())).0 && acts == old(acts) + Triggered(old(View())).1
    {
      timerTry := timerTry.Start();
      timerTmo := timerTmo.Start();
      Change(Trying);
      acts := acts + [Close];
      acts := acts + [Open];
      acts := acts + [Pong];
    }

    method Halt()
      modifies this
      ensures View() == Conn(Halted, old(timerTry).Stop(), old(timerTmo).Stop())
      ensures acts == old(acts) + [Close] + Notice(old(phase), Halted)
    {
      timerTry := timerTry.Stop();
      timerTmo := timerTmo.Stop();
      acts := acts + [Close];
      Change(Halted);
    }

    method Change(to: Phase)
      modifies this`phase, this`acts
      ensures phase == to && acts == old(acts) + Notice(old(phase), to)
    {
      if phase == to {
        return;
      }
      phase := to;
      acts := acts + [Changed(to)];
    }
  }
}
