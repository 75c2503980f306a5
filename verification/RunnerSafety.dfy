/** Every session executes exactly what was sent to it, although tokens wrap around, as long as no 255 sessions in a
    row end without executing anything. */
module RunnerSafety {
  import opened Basics
  import opened SessionModel
  import opened RunnerModel

  // ---------------------------------------------------------------- invariant

  /** Tokens come back after 256 sessions. This many in a row may end without executing anything, less one. */
  const PATIENCE: nat := TOKENS - 1

  /** Packets wait in the order of their sessions, and no session after the one a waiting packet is meant for has
      executed anything: to execute something, it would have read that packet first. */
  ghost predicate QueueOk(h: Hand) {
    && |h.meant| == |h.front.queue|
    && (forall j :: 0 <= j < |h.meant| ==>
          h.meant[j] <= h.launched && h.front.queue[j].token == h.meant[j] % TOKENS)
    && (forall i, j :: 0 <= i < j < |h.meant| ==> h.meant[i] <= h.meant[j])
    && (forall j, s: nat :: 0 <= j < |h.meant| && h.meant[j] < s <= h.launched ==> DoneBy(h.done, s) == [])
  }

  ghost predicate NoneMeant(meant: seq<nat>, k: nat) {
    forall j :: 0 <= j < |meant| ==> meant[j] != k
  }

  ghost predicate FrontOk(h: Hand) {
    && h.front.token == h.launched % TOKENS
    && (h.phase != Absent ==> h.own == h.front.token && h.front.fin == None && h.front.running && h.launched >= 1)
    && (h.phase == Absent && h.front.fin.Some? ==> h.front.fin.value == h.front.token)
    && (h.phase == Absent && h.front.running ==> h.front.fin.Some?)
    && (h.starting ==> h.launched >= 1 && DoneBy(h.done, h.launched) == [] && NoneMeant(h.meant, h.launched))
  }

  /** Session k: unborn, listening, or ended. */
  ghost predicate Faithful(h: Hand, k: nat)
    requires |h.meant| == |h.front.queue|
  {
    var did, told := DoneBy(h.done, k), SentTo(h.sent, k);
    && StartsOnce(told) && (k == h.launched ==> (h.starting <==> told == []))
    && if k > h.launched then did == [] && told == [] && k !in h.died
    else if k == h.launched && h.phase == Listening then
      !HasStop(did) && did + Waiting(h.front.queue, h.meant, k) == told && k !in h.died
    else Ended(did, told, k in h.died)
  }

  /** No session executed an operation meant for another one. */
  ghost predicate OwnOnly(h: Hand) {
    forall j :: 0 <= j < |h.done| ==> h.done[j].who == h.done[j].meant && h.done[j].who <= h.launched
  }

  ghost predicate HandOk(h: Hand) { QueueOk(h) && FrontOk(h) && OwnOnly(h) }

  lemma NextToken(k: nat)
    ensures (k % TOKENS + 1) % TOKENS == (k + 1) % TOKENS
  {
  }

  /** Two sessions share a token only when at least 255 others lie between them. */
  lemma SharedToken(m: nat, k: nat)
    requires m < k && m % TOKENS == k % TOKENS
    ensures m + PATIENCE < k
  {
  }

  /** A session finds its own token on another's packet only after 255 sessions in a row executed nothing. */
  lemma ForeignMeansSilence(h: Hand)
    requires HandOk(h) && h.phase == Listening && h.meant != [] && h.front.queue[0].token == h.own
    requires h.meant[0] < h.launched
    ensures SilentFrom(h, h.meant[0] + 1, PATIENCE)
  {
    hide DoneBy;
    SharedToken(h.meant[0], h.launched);
    forall j: nat | h.meant[0] + 1 <= j < h.meant[0] + 1 + PATIENCE ensures Silent(h, j) {
      assert h.meant[0] < j <= h.launched;
    }
  }

  /** Otherwise what it finds is its own, and so is everything behind it. */
  lemma HeadIsOwn(h: Hand)
    requires HandOk(h) && h.phase == Listening && h.meant != [] && h.front.queue[0].token == h.own
    requires !SilentFrom(h, h.meant[0] + 1, PATIENCE)
    ensures forall j :: 0 <= j < |h.meant| ==> h.meant[j] == h.launched
  {
    hide DoneBy; hide SilentFrom;
    if h.meant[0] < h.launched { ForeignMeansSilence(h); }
  }

  lemma {:induction false} NothingDone(done: seq<Done>, k: nat)
    requires forall j :: 0 <= j < |done| ==> done[j].who < k
    ensures DoneBy(done, k) == []
  {
    if done != [] { NothingDone(done[..|done| - 1], k); }
  }

  // ---------------------------------------------------------------- the steps

  lemma LaunchOk(h: Hand)
    requires HandOk(h) && Possible(h, Launch)
    ensures HandOk(Next(h, Launch))
  {
    hide DoneBy;
    NextToken(h.launched);
    NothingDone(h.done, h.launched + 1);
  }

  lemma LaunchFaithful(h: Hand, k: nat)
    requires HandOk(h) && Possible(h, Launch) && k >= 1 && Faithful(h, k)
    ensures Faithful(Next(h, Launch), k)
  {
    assert !HasStop([]);
    hide Waiting; hide UpToStop; hide HasStop; hide SentTo; hide DoneBy;
    NothingWaits(h.front.queue, h.meant, h.launched + 1);
    var none: seq<Op> := [];
    assert none + none == none;
  }

  lemma PollKeeps(h: Hand, k: nat)
    requires HandOk(h) && Possible(h, Poll) && k >= 1 && Faithful(h, k)
    ensures var r := Next(h, Poll); HandOk(r) && Faithful(r, k)
  {
  }

  ghost predicate Ended(did: seq<Op>, told: seq<Op>, died: bool) {
    if died then did <= UpToStop(told) else did == UpToStop(told) && HasStop(told)
  }

  lemma EndedMore(did: seq<Op>, told: seq<Op>, op: Op, died: bool)
    requires Ended(did, told, died)
    ensures Ended(did, told + [op], died)
  {
    assert UpToStop([]) == [];
    hide UpToStop; hide HasStop;
    UpToStopJoin(told, [op]);
    UpToStopJoin(told, []);
    assert told + [] == told;
  }

  lemma SendFaithful(h: Hand, op: Op, k: nat)
    requires HandOk(h) && k >= 1 && Faithful(h, k) && (op.Start? <==> h.starting)
    ensures var r := Send(h, op).(starting := false); |r.meant| == |r.front.queue| && Faithful(r, k)
  {
    hide Waiting; hide UpToStop; hide HasStop; hide SentTo; hide DoneBy; hide QueueOk; hide FrontOk;
    hide OwnOnly; hide Ended;
    QueueMeans(h);
    SentToSnoc(h.sent, (h.launched, op), k);
    WaitingSnoc(h.front.queue, h.meant, Packet(h.front.token, op), h.launched, k);
    var did, told, w := DoneBy(h.done, k), SentTo(h.sent, k), Waiting(h.front.queue, h.meant, k);
    assert told + [] == told;
    if k == h.launched {
      if h.phase == Listening {
        assert did + (w + [op]) == did + w + [op];
      } else {
        EndedMore(did, told, op, k in h.died);
      }
    }
  }

  lemma SendKeeps(h: Hand, op: Op)
    requires HandOk(h) && !h.starting
    ensures HandOk(Send(h, op))
  {
    hide DoneBy;
  }

  lemma GreetKeeps(h: Hand, conf: WorkerConfig, k: nat)
    requires HandOk(h) && Possible(h, Greet(conf)) && k >= 1 && Faithful(h, k)
    ensures var r := Next(h, Greet(conf)); HandOk(r) && Faithful(r, k)
  {
    hide DoneBy; hide Waiting; hide UpToStop; hide HasStop; hide SentTo;
    SendFaithful(h, Start(conf), k);
    SendKeeps(h.(starting := false), Start(conf));
  }

  lemma AskKeeps(h: Hand, op: Op, k: nat)
    requires HandOk(h) && Possible(h, Ask(op)) && k >= 1 && Faithful(h, k)
    ensures var r := Next(h, Ask(op)); HandOk(r) && Faithful(r, k)
  {
    hide DoneBy; hide Waiting; hide UpToStop; hide HasStop; hide SentTo;
    PollKeeps(h, k);
    var g := Next(h, Poll);
    if g.front.running {
      SendFaithful(g, op, k);
      SendKeeps(g, op);
    }
  }

  lemma ReadKeeps(h: Hand)
    requires HandOk(h) && Possible(h, Read) && h.meant != [] && !SilentFrom(h, h.meant[0] + 1, PATIENCE)
    ensures HandOk(Taken(h))
  {
    hide DoneBy; hide SilentFrom;
    if h.front.queue[0].token == h.own { HeadIsOwn(h); }
  }

  lemma ReadFaithful(h: Hand, k: nat)
    requires HandOk(h) && Possible(h, Read) && k >= 1 && Faithful(h, k)
    requires h.meant != [] && !SilentFrom(h, h.meant[0] + 1, PATIENCE)
    ensures Faithful(Taken(h), k)
  {
    hide DoneBy; hide UpToStop; hide HasStop; hide SentTo; hide SilentFrom;
    var p, did := h.front.queue[0], DoneBy(h.done, k);
    if p.token == h.own { HeadIsOwn(h); }
    DoneBySnoc(h.done, Done(h.launched, h.meant[0], p.op), k);
    if k == h.launched && p.token == h.own {
      var rest := Waiting(h.front.queue[1..], h.meant[1..], k);
      assert SentTo(h.sent, k) == did + ([p.op] + rest) == (did + [p.op]) + rest;
      UpToStopJoin(did, [p.op]);
      UpToStopJoin(did + [p.op], rest);
      StopAlone(p.op);
    }
  }

  lemma StopAlone(op: Op)
    ensures HasStop([op]) == op.Stop? && UpToStop([op]) == [op]
  {
  }

  lemma EndKeeps(h: Hand, i: Turn, k: nat)
    requires HandOk(h) && Possible(h, i) && (i.Die? || i.Finish?) && k >= 1 && Faithful(h, k)
    ensures var r := Next(h, i); HandOk(r) && Faithful(r, k)
  {
    hide DoneBy; hide UpToStop; hide HasStop; hide SentTo; hide Waiting;
    var did := DoneBy(h.done, k);
    UpToStopJoin(did, Waiting(h.front.queue, h.meant, k));
  }

  lemma ReadStep(h: Hand, k: nat)
    requires HandOk(h) && Possible(h, Read) && k >= 1 && Faithful(h, k)
    requires forall j: nat :: !SilentFrom(h, j, PATIENCE)
    ensures HandOk(Next(h, Read)) && Faithful(Next(h, Read), k)
  {
    hide SilentFrom;
    if h.front.queue != [] {
      ReadKeeps(h);
      ReadFaithful(h, k);
    }
  }

  lemma StepKeeps(h: Hand, i: Turn, k: nat)
    requires HandOk(h) && Possible(h, i) && k >= 1 && Faithful(h, k)
    requires forall j: nat :: !SilentFrom(h, j, PATIENCE)
    ensures var r := Next(h, i); HandOk(r) && Faithful(r, k)
  {
    match i
    case Poll => PollKeeps(h, k);
    case Launch =>
      LaunchOk(h);
      LaunchFaithful(h, k);
    case Greet(conf) => GreetKeeps(h, conf, k);
    case Ask(op) => AskKeeps(h, op, k);
    case Read => ReadStep(h, k);
    case Die => EndKeeps(h, i, k);
    case Finish => EndKeeps(h, i, k);
  }

  lemma {:induction false} RunKeeps(hs: seq<Hand>, ins: seq<Turn>, n: nat, k: nat)
    requires IsRun(hs, ins) && NeverSilent(hs, PATIENCE) && n < |hs| && k >= 1
    ensures HandOk(hs[n]) && Faithful(hs[n], k)
  {
    hide HandOk; hide Faithful; hide Next; hide SilentFrom;
    if n == 0 {
      IdleOk(k);
    } else {
      RunKeeps(hs, ins, n - 1, k);
      var h, i := hs[n - 1], ins[n - 1];
      assert QueueOk(h) by { OkQueue(h); }
      assert Possible(h, i) && hs[n - 1 + 1] == Next(h, i);
      assert forall j: nat :: !SilentFrom(h, j, PATIENCE);
      StepKeeps(h, i, k);
    }
  }

  lemma OkQueue(h: Hand)
    requires HandOk(h)
    ensures QueueOk(h)
  {
  }

  lemma IdleOk(k: nat)
    requires k >= 1
    ensures HandOk(IDLE) && Faithful(IDLE, k)
  {
  }

  /** Session k executed the operations sent to it, in order, as far as its first Stop; while it listens, what it has
      not executed yet is in the queue; and once it ended without an exception it executed exactly up to that Stop. */
  ghost predicate Served(h: Hand, k: nat) {
    var did, told := DoneBy(h.done, k), SentTo(h.sent, k);
    var listening := k == h.launched && h.phase == Listening;
    && |h.meant| == |h.front.queue|
    && StartsOnce(told) && did <= UpToStop(told)
    && (listening ==> did + Waiting(h.front.queue, h.meant, k) == told && !HasStop(did))
    && (!listening && k !in h.died ==> did == UpToStop(told) && HasStop(told))
  }

  /** In every run in which no 255 sessions in a row end without executing anything, nobody executes an operation
      meant for another session, and every session executes exactly its own up to its first Stop. */
  lemma HandOff(hs: seq<Hand>, ins: seq<Turn>, n: nat, k: nat)
    requires IsRun(hs, ins) && NeverSilent(hs, PATIENCE) && n < |hs| && 1 <= k <= hs[n].launched
    ensures OwnOnly(hs[n]) && Served(hs[n], k)
  {
    hide QueueOk; hide FrontOk; hide DoneBy; hide UpToStop; hide HasStop; hide SentTo; hide Waiting; hide Next;
    hide IsRun; hide NeverSilent;
    RunKeeps(hs, ins, n, k);
    assert QueueOk(hs[n]);
    QueueMeans(hs[n]);
    var h := hs[n];
    UpToStopJoin(DoneBy(h.done, k), Waiting(h.front.queue, h.meant, k));
  }

  lemma QueueMeans(h: Hand)
    requires QueueOk(h)
    ensures |h.meant| == |h.front.queue|
  {
  }

  // ---------------------------------------------------------------- what the runner's own turns do

  /** Whatever is asked of a runner is sent to the session that has not finished yet; without one nothing is sent. */
  lemma AskExactly(h: Hand, op: Op)
    requires HandOk(h) && Possible(h, Ask(op))
    ensures var r := Next(h, Ask(op));
            if h.phase != Absent then
              && r.sent == h.sent + [(h.launched, op)] && r.meant == h.meant + [h.launched]
              && r.front.queue == h.front.queue + [Packet(h.launched % TOKENS, op)]
            else r.sent == h.sent && r.front.queue == h.front.queue && !r.front.running
  {
    hide DoneBy;
  }

  /** A start creates a session with the next token exactly when the one before has finished, and sends it its Start. */
  lemma LaunchExactly(h: Hand, conf: WorkerConfig)
    requires HandOk(h) && Possible(h, Launch)
    ensures var r := Next(h, Launch);
            if h.phase != Absent then r.launched == h.launched && !r.starting && r.phase == h.phase
            else
              && r.launched == h.launched + 1 && r.starting && r.phase == Listening && r.front.running
              && r.own == r.front.token == (h.launched + 1) % TOKENS
              && Next(r, Greet(conf)).sent == h.sent + [(h.launched + 1, Start(conf))]
              && Next(r, Greet(conf)).front.queue == h.front.queue + [Packet((h.launched + 1) % TOKENS, Start(conf))]
  {
    hide DoneBy;
    NextToken(h.launched);
  }
}
