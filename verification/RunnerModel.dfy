/** The hand-off between a runner and its sessions: 8-bit tokens, one shared operation queue, and a one-slot
    mailbox in which an ended session leaves its token. */
module RunnerModel {
  import opened Basics
  import opened SessionModel

  const TOKENS: nat := 256

  /** An operation as it travels, stamped with the token of the runner that sent it. */
  datatype Packet = Packet(token: nat, op: Op)

  /** What the runner's thread holds or shares with the session's thread. */
  datatype Front = Front(running: bool, token: nat, queue: seq<Packet>, fin: Option<nat>)

  datatype Phase = Absent | Listening | Ending

  /** One operation executed: the session that executed it, and the session it was sent to. */
  datatype Done = Done(who: nat, meant: nat, op: Op)

  /** Both threads. Sessions are counted from 1. `starting` is the time between creating a session and sending it
      Start. The rest records the past: which session each queued packet was meant for, everything sent to each
      session, everything executed, and the sessions that ended by an exception. */
  datatype Hand = Hand(
    front: Front, starting: bool, phase: Phase, own: nat,
    launched: nat, meant: seq<nat>, sent: seq<(nat, Op)>, done: seq<Done>, died: set<nat>)

  datatype Turn = Poll | Launch | Greet(conf: WorkerConfig) | Ask(op: Op) | Read | Die | Finish

  const IDLE: Hand := Hand(Front(false, 0, [], None), false, Absent, 0, 0, [], [], [], {})

  /** `isRunning` empties the mailbox; only the current token ends the run. */
  function Polled(f: Front): Front {
    if f.fin.Some? then f.(fin := None, running := f.running && f.fin.value != f.token) else f
  }

  function Sent(f: Front, op: Op): Front {
    f.(queue := f.queue + [Packet(f.token, op)])
  }

  function Renewed(f: Front): Front {
    f.(token := (f.token + 1) % TOKENS, running := true)
  }

  function Send(h: Hand, op: Op): Hand {
    h.(front := Sent(h.front, op), meant := h.meant + [h.launched], sent := h.sent + [(h.launched, op)])
  }

  /** A session takes the head of the queue, and drops it when the token is not its own. */
  function Taken(h: Hand): Hand
    requires h.front.queue != [] && |h.meant| == |h.front.queue|
  {
    var p := h.front.queue[0];
    var r := h.(front := h.front.(queue := h.front.queue[1..]), meant := h.meant[1..]);
    if p.token != h.own then r
    else r.(done := r.done + [Done(h.launched, h.meant[0], p.op)], phase := if p.op.Stop? then Ending else Listening)
  }

  function Next(h: Hand, i: Turn): Hand
    requires |h.meant| == |h.front.queue|
  {
    match i
    case Poll => h.(front := Polled(h.front))
    case Launch =>
      var f := Polled(h.front);
      if f.running then h.(front := f)
      else
        var g := Renewed(f);
        h.(front := g, starting := true, phase := Listening, own := g.token, launched := h.launched + 1)
    case Greet(conf) => Send(h.(starting := false), Start(conf))
    case Ask(op) =>
      var f := Polled(h.front);
      if f.running then Send(h.(front := f), op) else h.(front := f)
    case Read => if h.front.queue == [] then h else Taken(h)
    case Die => h.(phase := Ending, died := h.died + {h.launched})
    case Finish => h.(phase := Absent, front := h.front.(fin := Some(h.own)))
  }

  /** Which thread can move. The runner does nothing else until it has sent Start. */
  predicate Possible(h: Hand, i: Turn) {
    match i
    case Poll | Launch => !h.starting
    case Greet(_) => h.starting
    case Ask(op) => !h.starting && !op.Start?
    case Read | Die => h.phase == Listening
    case Finish => h.phase == Ending
  }

  ghost predicate IsRun(hs: seq<Hand>, ins: seq<Turn>) {
    && |hs| == |ins| + 1 && hs[0] == IDLE
    && forall k :: 0 <= k < |ins| && |hs[k].meant| == |hs[k].front.queue| ==>
         Possible(hs[k], ins[k]) && hs[k + 1] == Next(hs[k], ins[k])
  }

  /** Session k has ended without executing anything: an exception stopped it before it read its own Start. */
  predicate Silent(h: Hand, k: nat) {
    && 1 <= k && (k < h.launched || (k == h.launched && h.phase != Listening))
    && DoneBy(h.done, k) == []
  }

  /** The n sessions from k on have all ended without executing anything. */
  ghost predicate SilentFrom(h: Hand, k: nat, n: nat) {
    forall j: nat :: k <= j < k + n ==> Silent(h, j)
  }

  /** In no state have n sessions in a row ended without executing anything. */
  ghost predicate NeverSilent(hs: seq<Hand>, n: nat) {
    forall i, k: nat :: 0 <= i < |hs| ==> !SilentFrom(hs[i], k, n)
  }

  // ---------------------------------------------------------------- projections

  function DoneBy(done: seq<Done>, k: nat): seq<Op> {
    if done == [] then []
    else
      var d := done[|done| - 1];
      DoneBy(done[..|done| - 1], k) + if d.who == k then [d.op] else []
  }

  function SentTo(sent: seq<(nat, Op)>, k: nat): seq<Op> {
    if sent == [] then []
    else
      var m := sent[|sent| - 1];
      SentTo(sent[..|sent| - 1], k) + if m.0 == k then [m.1] else []
  }

  /** The queued operations meant for session k. */
  function Waiting(queue: seq<Packet>, meant: seq<nat>, k: nat): seq<Op>
    requires |meant| == |queue|
  {
    if queue == [] then []
    else (if meant[0] == k then [queue[0].op] else []) + Waiting(queue[1..], meant[1..], k)
  }

  function UpToStop(ops: seq<Op>): seq<Op> {
    if ops == [] then []
    else if ops[0].Stop? then [ops[0]]
    else [ops[0]] + UpToStop(ops[1..])
  }

  predicate HasStop(ops: seq<Op>) { ops != [] && (ops[0].Stop? || HasStop(ops[1..])) }

  /** Start first, and never again. */
  ghost predicate StartsOnce(ops: seq<Op>) {
    ops == [] || (ops[0].Start? && forall j :: 1 <= j < |ops| ==> !ops[j].Start?)
  }

  lemma DoneBySnoc(done: seq<Done>, d: Done, k: nat)
    ensures DoneBy(done + [d], k) == DoneBy(done, k) + if d.who == k then [d.op] else []
  {
    assert (done + [d])[..|done|] == done;
  }

  lemma SentToSnoc(sent: seq<(nat, Op)>, m: (nat, Op), k: nat)
    ensures SentTo(sent + [m], k) == SentTo(sent, k) + if m.0 == k then [m.1] else []
  {
    assert (sent + [m])[..|sent|] == sent;
  }

  lemma {:induction false} WaitingSnoc(queue: seq<Packet>, meant: seq<nat>, p: Packet, m: nat, k: nat)
    requires |meant| == |queue|
    ensures Waiting(queue + [p], meant + [m], k) == Waiting(queue, meant, k) + if m == k then [p.op] else []
  {
    if queue != [] {
      WaitingSnoc(queue[1..], meant[1..], p, m, k);
      assert (queue + [p])[1..] == queue[1..] + [p];
      assert (meant + [m])[1..] == meant[1..] + [m];
    } else {
      assert (queue + [p])[1..] == [] && (meant + [m])[1..] == [];
    }
  }

  lemma {:induction false} NothingWaits(queue: seq<Packet>, meant: seq<nat>, k: nat)
    requires |meant| == |queue| && forall j :: 0 <= j < |meant| ==> meant[j] != k
    ensures Waiting(queue, meant, k) == []
  {
    if queue != [] { NothingWaits(queue[1..], meant[1..], k); }
  }

  /** Without a Stop nothing is cut; once there is one, what follows it does not matter. */
  lemma {:induction false} UpToStopJoin(a: seq<Op>, b: seq<Op>)
    ensures HasStop(a) ==> UpToStop(a + b) == UpToStop(a) && HasStop(a + b)
    ensures !HasStop(a) ==> UpToStop(a + b) == a + UpToStop(b) && HasStop(a + b) == HasStop(b)
  {
    if a == [] {
      assert a + b == b;
    } else {
      assert (a + b)[1..] == a[1..] + b;
      UpToStopJoin(a[1..], b);
      if !HasStop(a) { assert a == [a[0]] + a[1..]; }
    }
  }
}
