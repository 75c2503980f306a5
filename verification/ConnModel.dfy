/** Connection supervision as a state machine over one pair of sockets: every reaction, and what all runs keep. */
module ConnModel {
  import opened Basics

  datatype Phase = Halted | Trying | Stable

  /** What the machine asks of its owner, in order. */
  datatype Act = Close | Open | Pong | Changed(phase: Phase)

  /** `retry` is periodic, `timeout` is single-shot. */
  datatype Conn = Conn(phase: Phase, retry: Timer, timeout: Timer)

  datatype Input = Start | Stop | Ping | RetryFired | TimeoutFired | RetryExpires | TimeoutExpires

  const INITIAL: Conn := Conn(Halted, Timer(false, false), Timer(false, false))

  function Notice(from: Phase, to: Phase): seq<Act> {
    if from == to then [] else [Changed(to)]
  }

  function Triggered(c: Conn): (Conn, seq<Act>) {
    (Conn(Trying, c.retry.Start(), c.timeout.Start()), Notice(c.phase, Trying) + [Close, Open, Pong])
  }

  function Next(c: Conn, i: Input): (Conn, seq<Act>) {
    match i
    case Start => if c.phase != Halted then (c, []) else Triggered(c)
    case Stop =>
      if c.phase == Halted then (c, [])
      else (Conn(Halted, c.retry.Stop(), c.timeout.Stop()), [Close, Changed(Halted)])
    case Ping =>
      if c.phase == Halted then (c, [])
      else (Conn(Stable, c.retry.Stop(), c.timeout.Start()), Notice(c.phase, Stable) + [Pong])
    case RetryFired => (c.(retry := c.retry.Consume()), if c.phase == Trying then [Pong] else [])
    case TimeoutFired =>
      var d := c.(timeout := c.timeout.Consume());
      if c.phase == Halted then (d, []) else Triggered(d)
    case RetryExpires => (c.(retry := c.retry.Expire(false)), [])
    case TimeoutExpires => (c.(timeout := c.timeout.Expire(true)), [])
  }

  function Run(c: Conn, ins: seq<Input>): (Conn, seq<Act>) {
    if ins == [] then (c, [])
    else
      var (p, acts) := Run(c, ins[..|ins| - 1]);
      var (q, more) := Next(p, ins[|ins| - 1]);
      (q, acts + more)
  }

  /** The retry timer is armed exactly in Trying; outside Halted the timeout is armed or waits to be handled;
      in Halted it is not armed. */
  ghost predicate Invariant(c: Conn) {
    && (c.retry.armed <==> c.phase == Trying)
    && (c.phase != Halted ==> c.timeout.armed || c.timeout.pending)
    && (c.phase == Halted ==> !c.timeout.armed)
  }

  /** Whether the sockets are open and whether they were closed since they were last open. */
  datatype Sockets = Sockets(open: bool, closedBefore: bool)

  /** A pong needs open sockets; an open needs a close just before it. */
  function ReplayAct(s: Sockets, a: Act): Option<Sockets> {
    match a
    case Close => Some(Sockets(false, true))
    case Open => if s.closedBefore then Some(Sockets(true, false)) else None
    case Pong => if s.open then Some(s) else None
    case Changed(_) => Some(s)
  }

  function Replay(s: Sockets, acts: seq<Act>): Option<Sockets> {
    if acts == [] then Some(s)
    else
      var r := Replay(s, acts[..|acts| - 1]);
      if r.None? then None else ReplayAct(r.value, acts[|acts| - 1])
  }

  function Owned(c: Conn): Sockets {
    if c.phase == Halted then Sockets(false, true) else Sockets(true, false)
  }

  lemma {:induction false} ReplayJoin(s: Sockets, a: seq<Act>, b: seq<Act>)
    ensures Replay(s, a).Some? ==> Replay(s, a + b) == Replay(Replay(s, a).value, b)
  {
    if b == [] {
      assert a + b == a;
    } else {
      assert (a + b)[..|a + b| - 1] == a + b[..|b| - 1];
      ReplayJoin(s, a, b[..|b| - 1]);
    }
  }

  lemma Step(c: Conn, i: Input)
    requires Invariant(c)
    ensures Invariant(Next(c, i).0)
    ensures Replay(Owned(c), Next(c, i).1) == Some(Owned(Next(c, i).0))
  {
    var s := Owned(c);
    assert Replay(s, []) == Some(s);
    hide Replay;
    ReplayOne(s, Changed(Trying));
    ReplayOne(s, Changed(Stable));
    ReplayOne(s, Pong);
    ReplayJoin(s, [Changed(Trying)], [Close, Open, Pong]);
    ReplayJoin(s, [Changed(Stable)], [Pong]);
    ReplayReopen(s);
    ReplayHalt(s);
    assert [] + [Close, Open, Pong] == [Close, Open, Pong];
    assert [] + [Pong] == [Pong];
  }

  lemma ReplayOne(s: Sockets, a: Act)
    ensures Replay(s, [a]) == ReplayAct(s, a)
  {
    assert [a][..0] == [];
  }

  lemma ReplayReopen(s: Sockets)
    ensures Replay(s, [Close, Open, Pong]) == Some(Sockets(true, false))
  {
    ReplayOne(s, Close);
    ReplayJoin(s, [Close], [Open]);
    ReplayOne(Sockets(false, true), Open);
    ReplayJoin(s, [Close, Open], [Pong]);
    ReplayOne(Sockets(true, false), Pong);
    assert [Close] + [Open] == [Close, Open] && [Close, Open] + [Pong] == [Close, Open, Pong];
  }

  lemma ReplayHalt(s: Sockets)
    ensures Replay(s, [Close, Changed(Halted)]) == Some(Sockets(false, true))
  {
    ReplayOne(s, Close);
    ReplayJoin(s, [Close], [Changed(Halted)]);
    ReplayOne(Sockets(false, true), Changed(Halted));
    assert [Close] + [Changed(Halted)] == [Close, Changed(Halted)];
  }

  /** In every run, from the constructor's close on: the sockets are open exactly outside Halted, every open comes
      after a close, pongs go only to open sockets, and the timers follow the phase. */
  lemma {:induction false} ConnectionDiscipline(ins: seq<Input>)
    ensures var (c, acts) := Run(INITIAL, ins);
            && Invariant(c)
            && Replay(Sockets(false, false), [Close] + acts) == Some(Sockets(c.phase != Halted, c.phase == Halted))
  {
    hide Next; hide Invariant;
    var zero := Sockets(false, false);
    if ins == [] {
      assert [Close] + [] == [Close];
      ReplayOne(zero, Close);
      InitiallyValid();
    } else {
      var before := ins[..|ins| - 1];
      var (p, acts) := Run(INITIAL, before);
      var more := Next(p, ins[|ins| - 1]).1;
      ConnectionDiscipline(before);
      Step(p, ins[|ins| - 1]);
      ReplayJoin(zero, [Close] + acts, more);
      assert [Close] + (acts + more) == [Close] + acts + more;
    }
  }

  lemma InitiallyValid()
    ensures Invariant(INITIAL)
  {
  }

  // ---------------------------------------------------------------- exactly when

  function CountPongs(acts: seq<Act>): nat {
    if acts == [] then 0 else CountPongs(acts[..|acts| - 1]) + if acts[|acts| - 1] == Pong then 1 else 0
  }

  lemma {:induction false} CountPongsJoin(a: seq<Act>, b: seq<Act>)
    ensures CountPongs(a + b) == CountPongs(a) + CountPongs(b)
  {
    if b == [] {
      assert a + b == a;
    } else {
      assert (a + b)[..|a + b| - 1] == a + b[..|b| - 1];
      CountPongsJoin(a, b[..|b| - 1]);
    }
  }

  /** Whether an input makes the machine announce itself: on starting, on a ping or a timeout while it runs, and on a
      retry while it tries. */
  predicate Announces(p: Phase, i: Input) {
    match i
    case Start => p == Halted
    case Ping => p != Halted
    case TimeoutFired => p != Halted
    case RetryFired => p == Trying
    case _ => false
  }

  /** One announcement on exactly those inputs, and none on any other. */
  lemma PongsExactly(c: Conn, i: Input)
    ensures CountPongs(Next(c, i).1) == if Announces(c.phase, i) then 1 else 0
  {
    CountOne(Pong);
    CountOne(Close);
    CountOne(Open);
    CountOne(Changed(Halted));
    CountOne(Changed(Trying));
    CountOne(Changed(Stable));
    assert [Close, Open, Pong] == [Close] + [Open] + [Pong] && [Close, Changed(Halted)] == [Close] + [Changed(Halted)];
    CountPongsJoin([Close] + [Open], [Pong]);
    CountPongsJoin([Close], [Open]);
    CountPongsJoin([Close], [Changed(Halted)]);
    CountPongsJoin(Notice(c.phase, Trying), [Close, Open, Pong]);
    CountPongsJoin(Notice(c.phase, Stable), [Pong]);
  }

  lemma CountOne(a: Act)
    ensures CountPongs([a]) == (if a == Pong then 1 else 0) && CountPongs([]) == 0
  {
    assert [a][..0] == [];
  }

  /** A start after the last stop. */
  ghost predicate Begun(ins: seq<Input>) {
    exists k :: 0 <= k < |ins| && ins[k] == Start && forall j :: k < j < |ins| ==> ins[j] != Stop
  }

  /** A ping while begun, with neither a stop nor a timeout after it. */
  ghost predicate Answered(ins: seq<Input>) {
    exists k :: 0 <= k < |ins| && ins[k] == Ping && Begun(ins[..k])
                && forall j :: k < j < |ins| ==> ins[j] != Stop && ins[j] != TimeoutFired
  }

  lemma BegunSnoc(ins: seq<Input>, i: Input)
    ensures Begun(ins + [i]) <==> i == Start || (i != Stop && Begun(ins))
  {
    var all := ins + [i];
    if Begun(all) && i != Start {
      var k :| 0 <= k < |all| && all[k] == Start && forall j :: k < j < |all| ==> all[j] != Stop;
      assert all[|ins|] == i && ins[k] == Start;
      assert forall j :: k < j < |ins| ==> ins[j] == all[j];
    }
    if i == Start { assert all[|ins|] == Start; }
    if i != Stop && Begun(ins) {
      var k :| 0 <= k < |ins| && ins[k] == Start && forall j :: k < j < |ins| ==> ins[j] != Stop;
      assert all[k] == Start;
    }
  }

  lemma AnsweredSnoc(ins: seq<Input>, i: Input)
    ensures Answered(ins + [i]) <==> (i == Ping && Begun(ins)) || (i != Stop && i != TimeoutFired && Answered(ins))
  {
    hide Begun;
    var all := ins + [i];
    assert all[..|ins|] == ins && all[|ins|] == i;
    assert forall k :: 0 <= k < |ins| ==> all[k] == ins[k] && all[..k] == ins[..k];
    if Answered(all) {
      var k :| 0 <= k < |all| && all[k] == Ping && Begun(all[..k])
               && forall j :: k < j < |all| ==> all[j] != Stop && all[j] != TimeoutFired;
      if k < |ins| { assert ins[k] == Ping && Begun(ins[..k]); }
    }
    if i == Ping && Begun(ins) { assert all[|ins|] == Ping && Begun(all[..|ins|]); }
    if i != Stop && i != TimeoutFired && Answered(ins) {
      var k :| 0 <= k < |ins| && ins[k] == Ping && Begun(ins[..k])
               && forall j :: k < j < |ins| ==> ins[j] != Stop && ins[j] != TimeoutFired;
      assert all[k] == Ping && Begun(all[..k]);
    }
  }

  /** The phase in terms of the inputs alone: halted unless started after the last stop, and then stable exactly when
      a ping came after the last start and the last timeout. */
  lemma {:induction false} PhaseExactly(ins: seq<Input>)
    ensures Run(INITIAL, ins).0.phase == if !Begun(ins) then Halted else if Answered(ins) then Stable else Trying
    ensures Answered(ins) ==> Begun(ins)
  {
    hide Begun; hide Answered;
    if ins == [] {
      NoneBegun();
    } else {
      var before, i := ins[..|ins| - 1], ins[|ins| - 1];
      PhaseExactly(before);
      assert ins == before + [i];
      BegunSnoc(before, i);
      AnsweredSnoc(before, i);
    }
  }

  lemma NoneBegun()
    ensures !Begun([]) && !Answered([])
  {
  }

  /** Only an armed timer gets an expiry pending, only its own handler takes it away, the single-shot timeout is then
      no longer armed, and a ping or a trigger arms it again. */
  lemma TimersExactly(c: Conn, i: Input)
    ensures var d := Next(c, i).0;
            && (d.retry.pending <==> if i == RetryExpires then c.retry.armed || c.retry.pending
                                     else c.retry.pending && i != RetryFired)
            && (d.timeout.pending <==> if i == TimeoutExpires then c.timeout.armed || c.timeout.pending
                                       else c.timeout.pending && i != TimeoutFired)
            && (i == TimeoutExpires ==> !d.timeout.armed) && (i == RetryExpires ==> d.retry.armed == c.retry.armed)
            && (i != RetryFired && Announces(c.phase, i) ==> d.timeout.armed)
  {
  }
}
