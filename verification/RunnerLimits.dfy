/** How many sessions in a row may end without executing anything before the hand-off goes wrong: the bound is exact. */
module RunnerLimits {
  import opened Basics
  import opened SessionModel
  import opened RunnerModel
  import opened RunnerSafety

  /** What is left behind by a first session that executed its Start and not the operation sent after it, and by
      sessions 2 to n that executed nothing. */
  ghost predicate Abandoned(h: Hand, n: nat, conf: WorkerConfig, op: Op) {
    && |h.meant| == |h.front.queue| && h.launched == n
    && h.phase == Absent && !h.starting && !h.front.running && h.front.fin == None && h.front.token == n % TOKENS
    && h.meant != [] && h.meant[0] == 1 && h.front.queue[0] == Packet(1, op)
    && h.done == [Done(1, 1, Start(conf))]
  }

  /** No 256 sessions in a row are silent yet: the first executed something, and of the others at most 256 ended. */
  ghost predicate Mild(h: Hand) {
    && |h.meant| == |h.front.queue|
    && h.launched <= TOKENS + 1 && (h.launched == TOKENS + 1 ==> h.phase == Listening)
    && (h.launched >= 2 ==> DoneBy(h.done, 1) != [])
  }

  ghost predicate MildRun(hs: seq<Hand>, ins: seq<Turn>) {
    IsRun(hs, ins) && forall k :: 0 <= k < |hs| ==> Mild(hs[k])
  }

  lemma Prolong(hs: seq<Hand>, ins: seq<Turn>, i: Turn) returns (more: seq<Hand>, turns: seq<Turn>)
    requires MildRun(hs, ins) && Possible(hs[|ins|], i) && Mild(Next(hs[|ins|], i))
    ensures MildRun(more, turns) && more[|turns|] == Next(hs[|ins|], i)
  {
    assert Mild(hs[|ins|]) && |hs[|ins|].meant| == |hs[|ins|].front.queue|;
    hide Mild; hide Next; hide Possible;
    more, turns := hs + [Next(hs[|ins|], i)], ins + [i];
  }

  lemma FirstIsDone(conf: WorkerConfig)
    ensures DoneBy([Done(1, 1, Start(conf))], 1) == [Start(conf)]
  {
    DoneBySnoc([], Done(1, 1, Start(conf)), 1);
    assert [] + [Done(1, 1, Start(conf))] == [Done(1, 1, Start(conf))];
  }

  /** The first session listens, having executed its Start, and nothing waits. */
  ghost predicate Started(h: Hand, conf: WorkerConfig) {
    && h.front == Front(true, 1, [], None) && h.meant == [] && h.launched == 1 && h.own == 1
    && h.phase == Listening && !h.starting && h.done == [Done(1, 1, Start(conf))]
  }

  lemma FirstStarts(conf: WorkerConfig) returns (hs: seq<Hand>, ins: seq<Turn>)
    ensures MildRun(hs, ins) && Started(hs[|ins|], conf)
  {
    hs, ins := [IDLE], [];
    assert MildRun(hs, ins);
    hide MildRun; hide DoneBy;
    hs, ins := Prolong(hs, ins, Launch);
    hs, ins := Prolong(hs, ins, Greet(conf));
    hs, ins := Prolong(hs, ins, Read);
  }

  /** It is sent an operation, and dies before reading it. */
  lemma FirstSession(conf: WorkerConfig, op: Op) returns (hs: seq<Hand>, ins: seq<Turn>)
    requires !op.Start? && !op.Stop?
    ensures MildRun(hs, ins) && Abandoned(hs[|ins|], 1, conf, op)
  {
    hs, ins := FirstStarts(conf);
    hide MildRun; hide DoneBy;
    hs, ins := Prolong(hs, ins, Ask(op));
    hs, ins := Prolong(hs, ins, Die);
    hs, ins := Prolong(hs, ins, Finish);
    hs, ins := Prolong(hs, ins, Poll);
  }

  /** A session that is launched, greeted, and dies before reading anything: every turn is possible. */
  lemma Waste(hs: seq<Hand>, ins: seq<Turn>, n: nat, conf: WorkerConfig, op: Op)
    returns (more: seq<Hand>, turns: seq<Turn>)
    requires MildRun(hs, ins) && Abandoned(hs[|ins|], n, conf, op) && 1 <= n < TOKENS
    ensures MildRun(more, turns) && Abandoned(more[|turns|], n + 1, conf, op)
  {
    NextToken(n);
    FirstIsDone(conf);
    hide MildRun; hide DoneBy;
    more, turns := Prolong(hs, ins, Launch);
    more, turns := Prolong(more, turns, Greet(conf));
    more, turns := Prolong(more, turns, Die);
    more, turns := Prolong(more, turns, Finish);
    more, turns := Prolong(more, turns, Poll);
  }

  lemma {:induction false} WasteMany(n: nat, conf: WorkerConfig, op: Op) returns (hs: seq<Hand>, ins: seq<Turn>)
    requires !op.Start? && !op.Stop? && 1 <= n <= TOKENS
    ensures MildRun(hs, ins) && Abandoned(hs[|ins|], n, conf, op)
  {
    hide MildRun; hide Abandoned;
    if n == 1 {
      hs, ins := FirstSession(conf, op);
    } else {
      hs, ins := WasteMany(n - 1, conf, op);
      hs, ins := Waste(hs, ins, n - 1, conf, op);
    }
  }

  /** A run in which no 256 sessions in a row are silent, and session 257 executes the operation sent to session 1:
      the token has come back after 255 sessions that executed nothing. */
  lemma StaleAfterWrap(conf: WorkerConfig, op: Op) returns (hs: seq<Hand>, ins: seq<Turn>)
    requires !op.Start? && !op.Stop?
    ensures IsRun(hs, ins) && NeverSilent(hs, TOKENS)
    ensures hs[|ins|].done == [Done(1, 1, Start(conf)), Done(TOKENS + 1, 1, op)]
  {
    hs, ins := WasteMany(TOKENS, conf, op);
    FirstIsDone(conf);
    DoneBySnoc([Done(1, 1, Start(conf))], Done(TOKENS + 1, 1, op), 1);
    hide DoneBy; hide MildRun;
    hs, ins := Prolong(hs, ins, Launch);
    hs, ins := Prolong(hs, ins, Greet(conf));
    hs, ins := Prolong(hs, ins, Read);
    MildMeans(hs, ins);
    forall i, k: nat | 0 <= i < |hs| ensures !SilentFrom(hs[i], k, TOKENS) {
      MildIsNotSilent(hs[i], k);
    }
  }

  lemma MildMeans(hs: seq<Hand>, ins: seq<Turn>)
    requires MildRun(hs, ins)
    ensures IsRun(hs, ins) && forall k :: 0 <= k < |hs| ==> Mild(hs[k])
  {
  }

  lemma MildIsNotSilent(h: Hand, k: nat)
    requires Mild(h)
    ensures !SilentFrom(h, k, TOKENS)
  {
    hide DoneBy; hide SilentFrom;
    if SilentFrom(h, k, TOKENS) {
      SilentAt(h, k, TOKENS, k + TOKENS - 1);
      SilentAt(h, k, TOKENS, k);
    }
  }

  lemma SilentAt(h: Hand, k: nat, n: nat, j: nat)
    requires SilentFrom(h, k, n) && k <= j < k + n
    ensures Silent(h, j)
  {
  }

  lemma SilentPart(h: Hand, k: nat, m: nat, n: nat)
    requires SilentFrom(h, k, n) && m <= n
    ensures SilentFrom(h, k, m)
  {
  }

  /** Nobody executed an operation meant for another session, and each session executed exactly its own. */
  ghost predicate AllServed(h: Hand) {
    OwnOnly(h) && forall k :: 1 <= k <= h.launched ==> Served(h, k)
  }

  lemma ShorterSilence(hs: seq<Hand>, m: nat, n: nat)
    requires m <= n && NeverSilent(hs, m)
    ensures NeverSilent(hs, n)
  {
    hide SilentFrom;
    forall i, k: nat | 0 <= i < |hs| ensures !SilentFrom(hs[i], k, n) {
      if SilentFrom(hs[i], k, n) { SilentPart(hs[i], k, m, n); }
    }
  }

  lemma AllServedInRun(hs: seq<Hand>, ins: seq<Turn>, n: nat, i: nat)
    requires IsRun(hs, ins) && NeverSilent(hs, n) && n <= PATIENCE && i < |hs|
    ensures AllServed(hs[i])
  {
    ShorterSilence(hs, n, PATIENCE);
    hide IsRun; hide NeverSilent; hide Served; hide Faithful; hide QueueOk; hide FrontOk; hide OwnOnly;
    RunKeeps(hs, ins, i, 1);
    forall k | 1 <= k <= hs[i].launched ensures Served(hs[i], k) {
      HandOff(hs, ins, i, k);
    }
  }

  /** The hand-off is exact in every run without n silent sessions in a row, if and only if n is at most 255. */
  lemma HandOffExactly(n: nat)
    ensures (forall hs, ins, i :: IsRun(hs, ins) && NeverSilent(hs, n) && 0 <= i < |hs| ==> AllServed(hs[i]))
            <==> n <= PATIENCE
  {
    hide IsRun; hide NeverSilent; hide Served;
    if n <= PATIENCE {
      forall hs, ins, i | IsRun(hs, ins) && NeverSilent(hs, n) && 0 <= i < |hs| ensures AllServed(hs[i]) {
        AllServedInRun(hs, ins, n, i);
      }
    } else {
      var hs, ins := StaleAfterWrap(BLANK, Sync);
      ShorterSilence(hs, TOKENS, n);
      RunLength(hs, ins);
      assert hs[|ins|].done[1].who != hs[|ins|].done[1].meant;
      assert !AllServed(hs[|ins|]);
    }
  }

  lemma RunLength(hs: seq<Hand>, ins: seq<Turn>)
    requires IsRun(hs, ins)
    ensures |hs| == |ins| + 1
  {
  }
}
