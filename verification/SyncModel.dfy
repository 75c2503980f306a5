/** Snapshot synchronisation as a state machine over numbered sockets: every reaction, and what all runs keep. */
module SyncModel {
  import opened Basics
  import Integers

  datatype Phase = Halted | Download | Failed | Synced
  datatype ReplyType = Snapshot | Complete
  datatype ReplyResult = Unexpected | Discarded | Accepted

  /** What the machine asks of its owner, in order. */
  datatype Act = Close(index: nat) | Open(index: nat) | Request(index: nat, seqn: nat) | Changed(phase: Phase)

  datatype Sync = Sync(
    indexMax: nat, retryMax: nat, phase: Phase,
    indexCurr: nat, indexNext: nat, retryCurr: nat, seqNum: nat, timer: Timer)

  /** `Expire` is the interval running out; `Timeout` is the handler being called. */
  datatype Input = Halt | Start | Reply(index: int, seqn: nat, kind: ReplyType) | Timeout | SetNext(index: int) | Expire

  const NUMBERS: nat := 256

  function Wrap(indexMax: nat, index: int): (r: nat)
    ensures r <= indexMax
    ensures 0 <= index <= indexMax ==> r == index
    ensures index == indexMax + 1 ==> r == 0
    ensures index < 0 ==> r == 0
  {
    if index < 0 then 0 else index % (indexMax + 1)
  }

  /** Endpoint numbers go around: a whole turn further on stands the same endpoint. */
  lemma WrapTurns(indexMax: nat, index: nat)
    ensures Wrap(indexMax, index + indexMax + 1) == Wrap(indexMax, index)
  {
    var d := indexMax + 1;
    var q, r := index / d, index % d;
    assert index == d * q + r && index + d == d * (q + 1) + r;
    Integers.RemainderExact(index + d, d, q + 1, r);
  }

  function Initial(indexMax: nat, retryMax: nat): Sync {
    Sync(indexMax, retryMax, Halted, 0, Wrap(indexMax, 1), 0, 0, Timer(false, false))
  }

  /** The constructor closes every socket. */
  function InitialActs(count: nat): seq<Act> {
    if count == 0 then [] else InitialActs(count - 1) + [Close(count - 1)]
  }

  function Rotated(m: Sync): Sync {
    m.(indexCurr := m.indexNext, indexNext := Wrap(m.indexMax, m.indexNext + 1))
  }

  /** A new request on the current index, after closing and opening what it takes. */
  function Requesting(m: Sync, was: Phase, sockets: seq<Act>): (Sync, seq<Act>) {
    var n := (m.seqNum + 1) % NUMBERS;
    (m.(phase := Download, seqNum := n, timer := m.timer.Start()),
     (if was == Download then [] else [Changed(Download)]) + sockets + [Request(m.indexCurr, n)])
  }

  function OnHalt(m: Sync): (Sync, seq<Act>) {
    if m.phase == Halted then (m, [])
    else (m.(phase := Halted, indexCurr := 0, indexNext := Wrap(m.indexMax, 1), retryCurr := 0, seqNum := 0,
             timer := m.timer.Stop()),
          (if m.phase == Failed then [] else [Close(m.indexCurr)]) + [Changed(Halted)])
  }

  function OnSync(m: Sync): (Sync, seq<Act>) {
    var anew := m.(retryCurr := 0);
    match m.phase
    case Download => (m, [])
    case Halted => Requesting(anew, Halted, [Open(m.indexCurr)])
    case Failed => Requesting(Rotated(anew), Failed, [Open(m.indexNext)])
    case Synced => Requesting(anew, Synced, [])
  }

  function ReplyVerdict(m: Sync, index: int, seqn: nat): ReplyResult {
    if m.phase != Download then Unexpected
    else if index != m.indexCurr || seqn != m.seqNum then Discarded
    else Accepted
  }

  function OnReply(m: Sync, index: int, seqn: nat, kind: ReplyType): (Sync, seq<Act>) {
    if ReplyVerdict(m, index, seqn) != Accepted then (m, [])
    else if kind == Snapshot then (m.(timer := m.timer.Start()), [])
    else (m.(phase := Synced, timer := m.timer.Stop()), [Changed(Synced)])
  }

  function OnTimeout(m: Sync): (Sync, seq<Act>) {
    var c := m.(timer := m.timer.Consume());
    if m.phase != Download then (c, [])
    else if m.retryCurr + 1 > m.retryMax then
      (c.(phase := Failed, timer := c.timer.Stop()), [Close(m.indexCurr), Changed(Failed)])
    else Requesting(Rotated(c.(retryCurr := m.retryCurr + 1)), Download, [Close(m.indexCurr), Open(m.indexNext)])
  }

  function Next(m: Sync, i: Input): (Sync, seq<Act>) {
    match i
    case Halt => OnHalt(m)
    case Start => OnSync(m)
    case Reply(index, seqn, kind) => OnReply(m, index, seqn, kind)
    case Timeout => OnTimeout(m)
    case SetNext(index) => (m.(indexNext := Wrap(m.indexMax, index)), [])
    case Expire => (m.(timer := m.timer.Expire(true)), [])
  }

  /** The machine and everything it asked for after a sequence of inputs. */
  function Run(m: Sync, ins: seq<Input>): (Sync, seq<Act>) {
    if ins == [] then (m, [])
    else
      var (p, acts) := Run(m, ins[..|ins| - 1]);
      var (q, more) := Next(p, ins[|ins| - 1]);
      (q, acts + more)
  }

  // ---------------------------------------------------------------- states

  /** Indices and the retry count stay in range, an armed timer means Download, and Download means
      the timer is armed or its expiry is still to be handled. */
  ghost predicate Invariant(m: Sync) {
    && m.indexCurr <= m.indexMax && m.indexNext <= m.indexMax && m.retryCurr <= m.retryMax && m.seqNum < NUMBERS
    && (m.timer.armed ==> m.phase == Download)
    && (m.phase == Download ==> m.timer.armed || m.timer.pending)
    && (m.phase == Halted ==> m.indexCurr == 0 && m.retryCurr == 0 && m.seqNum == 0)
  }

  lemma InvariantKept(m: Sync, i: Input)
    requires Invariant(m)
    ensures Invariant(Next(m, i).0)
    ensures Next(m, i).0.indexMax == m.indexMax && Next(m, i).0.retryMax == m.retryMax
  {
  }

  lemma {:induction false} InvariantAlways(m: Sync, ins: seq<Input>)
    requires Invariant(m)
    ensures Invariant(Run(m, ins).0)
    ensures Run(m, ins).0.indexMax == m.indexMax && Run(m, ins).0.retryMax == m.retryMax
  {
    hide Next; hide Invariant;
    if ins != [] {
      InvariantAlways(m, ins[..|ins| - 1]);
      InvariantKept(Run(m, ins[..|ins| - 1]).0, ins[|ins| - 1]);
    }
  }

  // ---------------------------------------------------------------- socket ownership

  /** One action on the open sockets; opening an open socket or using a closed one is an error. */
  function ReplayAct(open: set<nat>, a: Act): Option<set<nat>> {
    match a
    case Close(i) => Some(open - {i})
    case Open(i) => if i in open then None else Some(open + {i})
    case Request(i, _) => if i in open then Some(open) else None
    case Changed(_) => Some(open)
  }

  /** The open sockets after some actions, or nothing if one of them was an error. */
  function Replay(open: set<nat>, acts: seq<Act>): Option<set<nat>>
    decreases acts
  {
    if acts == [] then Some(open)
    else
      var r := ReplayAct(open, acts[0]);
      if r.None? then None else Replay(r.value, acts[1..])
  }

  function Owned(m: Sync): set<nat> {
    if m.phase == Download || m.phase == Synced then {m.indexCurr} else {}
  }

  lemma {:induction false} ReplayJoin(open: set<nat>, a: seq<Act>, b: seq<Act>)
    ensures Replay(open, a).None? ==> Replay(open, a + b).None?
    ensures Replay(open, a).Some? ==> Replay(open, a + b) == Replay(Replay(open, a).value, b)
    decreases a
  {
    if a == [] {
      assert a + b == b;
    } else {
      assert (a + b)[1..] == a[1..] + b;
      var r := ReplayAct(open, a[0]);
      if r.Some? { ReplayJoin(r.value, a[1..], b); }
    }
  }

  lemma ReplayOne(open: set<nat>, a: Act)
    ensures Replay(open, [a]) == ReplayAct(open, a)
  {
    assert [a][1..] == [];
  }

  lemma ReplayRequesting(open: set<nat>, m: Sync, was: Phase, sockets: seq<Act>)
    requires Replay(open, sockets) == Some({m.indexCurr})
    ensures Replay(open, Requesting(m, was, sockets).1) == Some({m.indexCurr})
  {
    var n := (m.seqNum + 1) % NUMBERS;
    var first := if was == Download then [] else [Changed(Download)];
    ReplayJoin(open, first + sockets, [Request(m.indexCurr, n)]);
    ReplayJoin(open, first, sockets);
    ReplayOne(open, Changed(Download));
    ReplayOne({m.indexCurr}, Request(m.indexCurr, n));
  }

  /** One reaction turns the sockets owned before into the sockets owned after. */
  lemma OwnershipStep(m: Sync, i: Input)
    requires Invariant(m)
    ensures Replay(Owned(m), Next(m, i).1) == Some(Owned(Next(m, i).0))
  {
    var c, n := m.indexCurr, m.indexNext;
    assert {c} - {c} == {} && {} + {c} == {c} && {} + {n} == {n};
    assert Replay({c}, []) == Some({c}) && Replay({}, []) == Some({});
    hide Requesting; hide Replay;
    match i
    case Halt =>
      ReplayJoin({c}, [Close(c)], [Changed(Halted)]);
      ReplayOne({c}, Close(c));
      ReplayOne({}, Changed(Halted));
      assert [] + [Changed(Halted)] == [Changed(Halted)];
    case Start =>
      ReplayOne({}, Open(c));
      ReplayOne({}, Open(n));
      var anew := m.(retryCurr := 0);
      RequestingFields(anew, Halted, [Open(c)]);
      RequestingFields(Rotated(anew), Failed, [Open(n)]);
      RequestingFields(anew, Synced, []);
      if m.phase == Halted { ReplayRequesting({}, anew, Halted, [Open(c)]); }
      if m.phase == Failed { ReplayRequesting({}, Rotated(anew), Failed, [Open(n)]); }
      if m.phase == Synced { ReplayRequesting({c}, anew, Synced, []); }
    case Timeout =>
      ReplayJoin({c}, [Close(c)], [Changed(Failed)]);
      ReplayJoin({c}, [Close(c)], [Open(n)]);
      ReplayOne({c}, Close(c));
      ReplayOne({}, Open(n));
      ReplayOne({}, Changed(Failed));
      assert [Close(c)] + [Open(n)] == [Close(c), Open(n)];
      assert [Close(c)] + [Changed(Failed)] == [Close(c), Changed(Failed)];
      var r := Rotated(m.(timer := m.timer.Consume(), retryCurr := m.retryCurr + 1));
      RequestingFields(r, Download, [Close(c), Open(n)]);
      if m.phase == Download { ReplayRequesting({c}, r, Download, [Close(c), Open(n)]); }
    case Reply(_, _, _) => ReplayOne(Owned(m), Changed(Synced));
    case SetNext(_) =>
    case Expire =>
  }

  lemma RequestingFields(m: Sync, was: Phase, sockets: seq<Act>)
    ensures Requesting(m, was, sockets).0.phase == Download
    ensures Requesting(m, was, sockets).0.indexCurr == m.indexCurr
  {
  }

  lemma {:induction false} ReplayInitial(count: nat)
    ensures Replay({}, InitialActs(count)) == Some({})
  {
    if count > 0 {
      ReplayInitial(count - 1);
      ReplayJoin({}, InitialActs(count - 1), [Close(count - 1)]);
      ReplayOne({}, Close(count - 1));
      var none: set<nat> := {};
      assert none - {count - 1} == none;
    }
  }

  /** In every run the open sockets are exactly the current one in Download and Synced and none otherwise, no
      socket is opened twice without a close, and requests go only to an open socket. */
  lemma {:induction false} SocketOwnership(indexMax: nat, retryMax: nat, ins: seq<Input>)
    ensures var (m, acts) := Run(Initial(indexMax, retryMax), ins);
            Replay({}, InitialActs(indexMax + 1) + acts) == Some(Owned(m))
  {
    hide Next; hide Owned; hide InitialActs;
    var zero := InitialActs(indexMax + 1);
    if ins == [] {
      ReplayInitial(indexMax + 1);
      assert zero + [] == zero;
      assert Owned(Initial(indexMax, retryMax)) == {} by { OwnedInitially(indexMax, retryMax); }
    } else {
      var before := ins[..|ins| - 1];
      var (p, acts) := Run(Initial(indexMax, retryMax), before);
      var more := Next(p, ins[|ins| - 1]).1;
      SocketOwnership(indexMax, retryMax, before);
      InvariantAlways(Initial(indexMax, retryMax), before);
      OwnershipStep(p, ins[|ins| - 1]);
      ReplayJoin({}, zero + acts, more);
      assert zero + (acts + more) == zero + acts + more;
    }
  }

  lemma OwnedInitially(indexMax: nat, retryMax: nat)
    ensures Owned(Initial(indexMax, retryMax)) == {}
  {
  }

  // ---------------------------------------------------------------- request numbers

  datatype Req = Req(index: nat, seqn: nat)

  /** The requests among some actions. */
  function Requests(acts: seq<Act>): seq<Req> {
    if acts == [] then []
    else
      var last := acts[|acts| - 1];
      if last.Request? then Requests(acts[..|acts| - 1]) + [Req(last.index, last.seqn)]
      else Requests(acts[..|acts| - 1])
  }

  lemma {:induction false} RequestsJoin(a: seq<Act>, b: seq<Act>)
    ensures Requests(a + b) == Requests(a) + Requests(b)
  {
    if b == [] {
      assert a + b == a;
    } else {
      assert (a + b)[..|a + b| - 1] == a + b[..|b| - 1];
      RequestsJoin(a, b[..|b| - 1]);
    }
  }

  /** A reaction makes at most one request: on the current index, with the next number. */
  lemma RequestStep(m: Sync, i: Input)
    ensures var (q, acts) := Next(m, i);
            || (Requests(acts) == [] && (i != Halt ==> q.seqNum == m.seqNum))
            || (Requests(acts) == [Req(q.indexCurr, q.seqNum)] && q.seqNum == (m.seqNum + 1) % NUMBERS
                && q.phase == Download
                && q.indexCurr == if m.phase == Download || m.phase == Failed then m.indexNext else m.indexCurr)
  {
    var acts := Next(m, i).1;
    RequestsOf(acts);
  }

  /** A list of actions ending in its only request, or holding none. */
  lemma {:induction false} RequestsOf(acts: seq<Act>)
    ensures (forall k :: 0 <= k < |acts| ==> !acts[k].Request?) ==> Requests(acts) == []
    ensures acts != [] && acts[|acts| - 1].Request? && (forall k :: 0 <= k < |acts| - 1 ==> !acts[k].Request?) ==>
              Requests(acts) == [Req(acts[|acts| - 1].index, acts[|acts| - 1].seqn)]
  {
    if acts != [] { RequestsOf(acts[..|acts| - 1]); }
  }

  /** The j-th request carries the number j modulo 256. */
  ghost predicate Counted(r: seq<Req>) {
    forall j :: 0 <= j < |r| ==> r[j].seqn == (j + 1) % NUMBERS
  }

  lemma CountedSnoc(r: seq<Req>, x: Req)
    requires Counted(r)
    ensures x.seqn == (|r| % NUMBERS + 1) % NUMBERS ==> Counted(r + [x]) && x.seqn == |r + [x]| % NUMBERS
  {
  }

  /** Since a halt, the j-th request carries the number j modulo 256, and the machine remembers the last one. */
  lemma {:induction false} RequestNumbers(m: Sync, ins: seq<Input>)
    requires Invariant(m) && m.phase == Halted && Halt !in ins
    ensures var (p, acts) := Run(m, ins);
            var r := Requests(acts);
            && p.seqNum == |r| % NUMBERS
            && Counted(r)
            && (p.phase == Halted <==> r == [])
            && (p.phase == Download || p.phase == Synced ==> r[|r| - 1].index == p.indexCurr)
  {
    hide Next; hide Invariant;
    if ins == [] {
      HaltedAtZero(m);
    } else {
      var before := ins[..|ins| - 1];
      var (p, acts) := Run(m, before);
      var i := ins[|ins| - 1];
      RequestNumbers(m, before);
      RunLast(m, ins);
      hide Run; hide Requests; hide Counted;
      RequestStep(p, i);
      PhaseStep(p, i);
      RequestsJoin(acts, Next(p, i).1);
      var r, q := Requests(acts), Next(p, i).0;
      CountedSnoc(r, Req(q.indexCurr, q.seqNum));
      assert r + [] == r;
    }
  }

  lemma HaltedAtZero(m: Sync)
    requires Invariant(m) && m.phase == Halted
    ensures m.seqNum == 0
  {
  }

  /** Without a request the current index stays while a download is or was under way; Halted is left only by a
      request. */
  lemma PhaseStep(m: Sync, i: Input)
    requires i != Halt
    ensures var (q, acts) := Next(m, i);
            Requests(acts) == [] ==>
              && q.indexCurr == m.indexCurr && (q.phase == Halted <==> m.phase == Halted)
              && (q.phase == Download || q.phase == Synced ==> m.phase == Download || m.phase == Synced)
  {
    RequestsOf(Next(m, i).1);
    if i == Start && m.phase != Download {
      var acts := Next(m, i).1;
      assert acts[|acts| - 1].Request?;
    } else if i == Timeout && m.phase == Download && m.retryCurr < m.retryMax {
      var acts := Next(m, i).1;
      assert acts[|acts| - 1].Request?;
    }
  }

  /** Between two halts, a reply to the j-th request is accepted while the k-th is the last one made exactly in
      Download, on the current index, and with j = k modulo 256; so within 256 requests only for the k-th. */
  lemma ReplyMatching(m: Sync, ins: seq<Input>, j: nat, index: int)
    requires Invariant(m) && m.phase == Halted && Halt !in ins
    requires 1 <= j <= |Requests(Run(m, ins).1)|
    ensures var (p, acts) := Run(m, ins);
            var r := Requests(acts);
            var k := |r|;
            var ok := ReplyVerdict(p, index, r[j - 1].seqn) == Accepted;
            && (ok <==> p.phase == Download && index == r[k - 1].index && j % NUMBERS == k % NUMBERS)
            && (ok && k - j < NUMBERS ==> j == k)
  {
    hide Run; hide Invariant;
    RequestNumbers(m, ins);
  }

  /** Synced is entered only from Download, by a Complete carrying the current index and number. */
  lemma SyncedOnlyByCurrentComplete(m: Sync, i: Input)
    ensures m.phase != Synced && Next(m, i).0.phase == Synced ==>
              m.phase == Download && i == Reply(m.indexCurr, m.seqNum, Complete)
    ensures Changed(Synced) in Next(m, i).1 <==> m.phase == Download && i == Reply(m.indexCurr, m.seqNum, Complete)
  {
  }

  // ---------------------------------------------------------------- rotation

  function Successor(indexMax: nat, i: nat): nat { if i >= indexMax then 0 else i + 1 }

  ghost predicate InRotation(m: Sync) { m.indexNext == Successor(m.indexMax, m.indexCurr) }

  /** No halt, no outside choice of index, and no accepted completion. */
  ghost predicate OnlyTimesOut(m: Sync, ins: seq<Input>) {
    ins != [] ==>
      && OnlyTimesOut(m, ins[..|ins| - 1])
      && !ins[|ins| - 1].Halt? && !ins[|ins| - 1].SetNext?
      && Run(m, ins).0.phase != Synced
  }

  lemma {:induction false} RotationStays(m: Sync, ins: seq<Input>)
    requires Invariant(m) && InRotation(m) && forall k :: 0 <= k < |ins| ==> !ins[k].SetNext?
    ensures InRotation(Run(m, ins).0)
  {
    hide Next;
    if ins != [] {
      RotationStays(m, ins[..|ins| - 1]);
      InvariantAlways(m, ins[..|ins| - 1]);
      RotationStep(Run(m, ins[..|ins| - 1]).0, ins[|ins| - 1]);
    }
  }

  lemma RunLast(m: Sync, ins: seq<Input>)
    requires ins != []
    ensures var (p, acts) := Run(m, ins[..|ins| - 1]);
            var (q, more) := Next(p, ins[|ins| - 1]);
            Run(m, ins) == (q, acts + more)
  {
  }

  lemma RotationStep(m: Sync, i: Input)
    requires Invariant(m) && InRotation(m) && !i.SetNext?
    ensures InRotation(Next(m, i).0)
  {
  }

  /** The endpoints of the attempts: the one under way at the start and those of all later requests. */
  function Attempts(m: Sync, ins: seq<Input>): seq<nat> {
    [m.indexCurr] + Indices(Requests(Run(m, ins).1))
  }

  function Indices(r: seq<Req>): seq<nat> {
    if r == [] then [] else Indices(r[..|r| - 1]) + [r[|r| - 1].index]
  }

  /** One more input adds at most one attempt, on the next endpoint. */
  lemma AttemptsStep(m: Sync, ins: seq<Input>)
    requires ins != []
    ensures var before := ins[..|ins| - 1];
            var p := Run(m, before).0;
            var q := Run(m, ins).0;
            p.phase == Download || p.phase == Failed ==>
              if Requests(Next(p, ins[|ins| - 1]).1) == [] then Attempts(m, ins) == Attempts(m, before)
              else Attempts(m, ins) == Attempts(m, before) + [p.indexNext] && q.indexCurr == p.indexNext
  {
    hide Next; hide Requests;
    var (p, acts) := Run(m, ins[..|ins| - 1]);
    var i := ins[|ins| - 1];
    RunLast(m, ins);
    RequestStep(p, i);
    RequestsJoin(acts, Next(p, i).1);
    var r, more := Requests(acts), Requests(Next(p, i).1);
    if more == [] {
      assert r + more == r;
    } else if p.phase == Download || p.phase == Failed {
      assert (r + more)[..|r|] == r;
      assert Indices(r + more) == Indices(r) + [p.indexNext];
    }
  }

  lemma OnlyTimesOutStep(m: Sync, ins: seq<Input>)
    requires ins != [] && OnlyTimesOut(m, ins)
    ensures OnlyTimesOut(m, ins[..|ins| - 1]) && !ins[|ins| - 1].Halt? && !ins[|ins| - 1].SetNext?
    ensures Run(m, ins).0.phase != Synced && Run(m, ins).0 == Next(Run(m, ins[..|ins| - 1]).0, ins[|ins| - 1]).0
  {
    hide Next;
  }

  /** Attempts that only time out, across retries and restarts after failure, go round the endpoints in order. */
  lemma {:induction false} AttemptsRotate(m: Sync, ins: seq<Input>)
    requires Invariant(m) && InRotation(m) && (m.phase == Download || m.phase == Failed) && OnlyTimesOut(m, ins)
    ensures var a := Attempts(m, ins);
            var p := Run(m, ins).0;
            && a[|a| - 1] == p.indexCurr && (p.phase == Download || p.phase == Failed) && InRotation(p)
            && (forall j :: 0 <= j < |a| - 1 ==> a[j + 1] == Successor(m.indexMax, a[j]))
  {
    if ins == [] {
      assert Requests(Run(m, ins).1) == [];
    } else {
      hide Next; hide Invariant; hide InRotation; hide Run; hide OnlyTimesOut; hide Requests; hide Attempts;
      hide Successor;
      var before, i := ins[..|ins| - 1], ins[|ins| - 1];
      OnlyTimesOutStep(m, ins);
      AttemptsRotate(m, before);
      InvariantAlways(m, before);
      var p := Run(m, before).0;
      AttemptsStep(m, ins);
      PhaseStep(p, i);
      NotHaltedStep(p, i);
      RotationStep(p, i);
      RotationMeans(p);
    }
  }

  lemma RotationMeans(m: Sync)
    requires InRotation(m)
    ensures m.indexNext == Successor(m.indexMax, m.indexCurr)
  {
  }

  lemma NotHaltedStep(m: Sync, i: Input)
    requires i != Halt && (m.phase == Download || m.phase == Failed)
    ensures Next(m, i).0.phase != Halted
  {
  }

  /** Endpoint e is used exactly once by the indexMax + 1 attempts from one on. */
  ghost predicate UsedOnce(a: seq<nat>, from: nat, indexMax: nat, e: nat)
    requires from + indexMax < |a|
  {
    && (exists j :: from <= j <= from + indexMax && a[j] == e)
    && (forall j, k :: from <= j < k <= from + indexMax ==> a[j] != a[k])
  }

  lemma RotationUsesEachOnce(m: Sync, ins: seq<Input>, from: nat, e: nat)
    requires Invariant(m) && InRotation(m) && (m.phase == Download || m.phase == Failed) && OnlyTimesOut(m, ins)
    requires from + m.indexMax + 1 <= |Attempts(m, ins)| && e <= m.indexMax
    ensures UsedOnce(Attempts(m, ins), from, m.indexMax, e)
  {
    hide Run; hide Attempts; hide OnlyTimesOut;
    var a, n := Attempts(m, ins), m.indexMax;
    AttemptsRotate(m, ins);
    AttemptsInRange(m, ins, from);
    var d := if e >= a[from] then e - a[from] else e - a[from] + n + 1;
    RoundTrip(a, n, from, d);
    assert a[from + d] == e;
    forall j, k | from <= j < k <= from + n ensures a[j] != a[k] {
      RoundTrip(a, n, from, j - from);
      RoundTrip(a, n, from, k - from);
    }
  }

  /** After any inputs without an outside choice of index, halts and completions included, any indexMax + 1
      consecutive attempts that only time out use each endpoint exactly once. */
  lemma EachEndpointOnce(indexMax: nat, retryMax: nat, before: seq<Input>, ins: seq<Input>, from: nat, e: nat)
    requires forall k :: 0 <= k < |before| ==> !before[k].SetNext?
    requires var m := Run(Initial(indexMax, retryMax), before).0;
             && (m.phase == Download || m.phase == Failed) && OnlyTimesOut(m, ins)
             && from + indexMax + 1 <= |Attempts(m, ins)| && e <= indexMax
    ensures UsedOnce(Attempts(Run(Initial(indexMax, retryMax), before).0, ins), from, indexMax, e)
  {
    var first := Initial(indexMax, retryMax);
    assert Invariant(first) && InRotation(first);
    hide Run; hide Attempts; hide OnlyTimesOut; hide Invariant; hide InRotation; hide Initial;
    InvariantAlways(first, before);
    RotationStays(first, before);
    RotationUsesEachOnce(Run(first, before).0, ins, from, e);
  }

  lemma AttemptsInRange(m: Sync, ins: seq<Input>, i: nat)
    requires Invariant(m) && InRotation(m) && (m.phase == Download || m.phase == Failed) && OnlyTimesOut(m, ins)
    requires i < |Attempts(m, ins)|
    ensures Attempts(m, ins)[i] <= m.indexMax
  {
    hide Run; hide OnlyTimesOut;
    AttemptsRotate(m, ins);
    if i > 0 {
      assert Attempts(m, ins)[i - 1 + 1] == Successor(m.indexMax, Attempts(m, ins)[i - 1]);
    }
  }

  lemma {:induction false} RoundTrip(a: seq<nat>, n: nat, from: nat, d: nat)
    requires from + d < |a| && d <= n && a[from] <= n
    requires forall j :: 0 <= j < |a| - 1 ==> a[j + 1] == Successor(n, a[j])
    ensures a[from + d] == if a[from] + d <= n then a[from] + d else a[from] + d - n - 1
  {
    if d > 0 {
      RoundTrip(a, n, from, d - 1);
      assert a[from + d - 1 + 1] == Successor(n, a[from + d - 1]);
    }
  }

  /** Uninterrupted timeouts retry until the retries are used up, and the next one fails. */
  lemma {:induction false} TimeoutsReachFailed(m: Sync, n: nat)
    requires Invariant(m) && m.phase == Download && n <= m.retryMax - m.retryCurr + 1
    ensures var p := Run(m, seq(n, _ => Timeout)).0;
            if n <= m.retryMax - m.retryCurr
            then p.phase == Download && p.retryCurr == m.retryCurr + n && p.retryMax == m.retryMax
            else p.phase == Failed
  {
    if n > 0 {
      var ins := seq(n, _ => Timeout);
      assert ins[..n - 1] == seq(n - 1, _ => Timeout);
      TimeoutsReachFailed(m, n - 1);
    }
  }

  // ---------------------------------------------------------------- exactly when

  /** A request goes out exactly on a start outside Download and on a timeout in Download with retries left. */
  predicate Asks(m: Sync, i: Input) {
    (i == Start && m.phase != Download) || (i == Timeout && m.phase == Download && m.retryCurr < m.retryMax)
  }

  lemma RequestsExactly(m: Sync, i: Input)
    requires Invariant(m)
    ensures var (q, acts) := Next(m, i);
            Requests(acts) == if Asks(m, i) then [Req(q.indexCurr, (m.seqNum + 1) % NUMBERS)] else []
  {
    RequestsOf(Next(m, i).1);
  }

  /** The phase after each input, and the retries used. */
  lemma PhasesExactly(m: Sync, i: Input)
    requires Invariant(m)
    ensures Next(m, i).0.phase ==
            if i == Halt then Halted
            else if i == Start || Asks(m, i) then Download
            else if m.phase == Download && i == Timeout then Failed
            else if m.phase == Download && i == Reply(m.indexCurr, m.seqNum, Complete) then Synced
            else m.phase
    ensures Next(m, i).0.retryCurr ==
            if i == Halt || (i == Start && m.phase != Download) then 0
            else if Asks(m, i) then m.retryCurr + 1
            else m.retryCurr
  {
  }

  /** The timer is armed after a request and after an accepted element, stays armed while the download lasts, and is
      disarmed by its own expiry, which only the handler takes away. */
  lemma TimersExactly(m: Sync, i: Input)
    requires Invariant(m)
    ensures var q := Next(m, i).0;
            && (q.timer.armed <==>
                Asks(m, i) || (m.phase == Download && i == Reply(m.indexCurr, m.seqNum, Snapshot))
                || (m.timer.armed && q.phase == Download && i != Expire))
            && (q.timer.pending <==> if i == Expire then m.timer.armed || m.timer.pending
                                     else m.timer.pending && i != Timeout)
  {
  }

  /** An endpoint chosen from outside is the one the next attempt goes to, after a failure or a timeout. */
  lemma ChosenEndpointIsNext(m: Sync, index: nat, i: Input)
    requires Invariant(m) && index <= m.indexMax && Asks(m, i) && (m.phase == Failed || m.phase == Download)
    ensures Requests(Next(Next(m, SetNext(index)).0, i).1) == [Req(index, (m.seqNum + 1) % NUMBERS)]
  {
    RequestsExactly(Next(m, SetNext(index)).0, i);
  }
}
