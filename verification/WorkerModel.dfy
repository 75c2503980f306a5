/** A worker across its sessions: the cached sequence number, the one-slot mailbox, and the numbers dispatched. */
module WorkerModel {
  import opened Basics
  import opened LruModel
  import opened Integers
  import opened SessionModel
  import opened SessionFacts
  import opened SessionNumbers
  import opened TraceGrammar

  /** A number this worker dispatched, or one of its own it saw come back. */
  datatype Mark = Sent(n: nat) | Own(n: nat)

  /** `cached` and `mailbox` belong to the client's side. The last three record the past: numbers, topics
      published, and topics delivered in each session. */
  datatype Node = Node(
    uuid: Uuid, cached: nat, mailbox: Option<Bytes>, session: Session,
    marks: seq<Mark>, sent: seq<Topic>, lives: seq<seq<Topic>>)

  /** Starting a session, the session reacting, and the client asking for the number. */
  datatype Move = Begin(topicsAll: bool, names: seq<Bytes>) | Take(input: Input) | Query

  function NewNode(uuid: Uuid, initial: nat): Node {
    Node(uuid, initial, None, FRESH.(alive := false), [], [], [])
  }

  /** What `seqNumber` answers. */
  function Known(n: Node): nat {
    if n.mailbox.Some? then ToUint64(n.mailbox.value) else n.cached
  }

  /** `seqNumber` empties the mailbox into the cache. */
  function Queried(n: Node): Node {
    n.(cached := Known(n), mailbox := None)
  }

  /** The slot keeps only the last number. */
  function Mailed(box: Option<Bytes>, numbers: seq<nat>): Option<Bytes> {
    if numbers == [] then box else Some(Encode(numbers[|numbers| - 1], 8))
  }

  function MarksOf(n: Node, i: Input, r: Out): seq<Mark> {
    if i.Oper? && i.op.Dispatch? then [Sent(r.s.seqNum)]
    else if Processed(n.session, i).Some? && Processed(n.session, i).value.worker == n.uuid
    then [Own(Processed(n.session, i).value.seqn)]
    else []
  }

  function Configured(n: Node, topicsAll: bool, names: seq<Bytes>): WorkerConfig {
    WorkerConfig(n.uuid, Known(n), topicsAll, names, [], [], [])
  }

  function Began(n: Node, topicsAll: bool, names: seq<Bytes>): Node {
    Queried(n).(session := Step(FRESH, Oper(Start(Configured(n, topicsAll, names)))).s, lives := n.lives + [[]])
  }

  function Took(n: Node, i: Input): Node {
    var r := Step(n.session, i);
    var ms := Messages(r.fx);
    n.(session := r.s,
       mailbox := Mailed(n.mailbox, NotifiedIn(ms)),
       marks := n.marks + MarksOf(n, i, r),
       sent := n.sent + PublishedIn(ms),
       lives := if n.lives == [] then []
                else n.lives[..|n.lives| - 1] + [n.lives[|n.lives| - 1] + DeliveredIn(Trace(r.fx))])
  }

  function Moved(n: Node, m: Move): Node {
    match m
    case Begin(all, names) => Began(n, all, names)
    case Take(i) => Took(n, i)
    case Query => Queried(n)
  }

  /** A session starts only when none runs; a dispatch carries this worker's uuid and must not wrap the counter;
      received numbers are 64-bit. */
  ghost predicate Enabled(n: Node, m: Move) {
    match m
    case Begin(_, _) => !n.session.alive
    case Take(i) =>
      && n.session.alive && !(i.Oper? && i.op.Start?)
      && (i.Oper? && i.op.Dispatch? ==>
            i.op.topic.worker == n.uuid && i.op.topic.broker == NIL_UUID && n.session.seqNum + 1 < SEQ_LIMIT)
      && (i.Oper? && i.op.BadDispatch? ==> n.session.seqNum + 1 < SEQ_LIMIT)
      && (Processed(n.session, i).Some? ==> Processed(n.session, i).value.seqn < SEQ_LIMIT)
    case Query => true
  }

  // ---------------------------------------------------------------- invariant

  ghost predicate SessionValid(n: Node) {
    var s := n.session;
    s.alive ==>
      && Coherent(s) && s.conf.uuid == n.uuid && s.seqNum <= Known(n) && s.seqNum < SEQ_LIMIT
      && Distinct(s.seen) && LastNumber(s.seen, n.uuid) <= s.seqNum
  }

  ghost predicate MarksBelow(marks: seq<Mark>, bound: nat) {
    forall k :: 0 <= k < |marks| ==> marks[k].n <= bound
  }

  /** Every dispatched number exceeds all numbers dispatched or seen before it. */
  ghost predicate DispatchesGrow(marks: seq<Mark>) {
    forall i, j :: 0 <= i < j < |marks| && marks[j].Sent? ==> marks[i].n < marks[j].n
  }

  ghost predicate NodeValid(n: Node) {
    && Known(n) < SEQ_LIMIT && SessionValid(n)
    && MarksBelow(n.marks, Known(n)) && (n.session.alive ==> MarksBelow(n.marks, n.session.seqNum))
    && DispatchesGrow(n.marks)
  }

  lemma ValidMeans(n: Node)
    requires NodeValid(n)
    ensures n.session.alive ==> Coherent(n.session)
  {
  }

  lemma QueriedKnows(n: Node)
    ensures Known(Queried(n)) == Known(n)
  {
  }

  lemma BeginKeepsValid(n: Node, all: bool, names: seq<Bytes>)
    requires NodeValid(n) && !n.session.alive
    ensures NodeValid(Began(n, all, names))
  {
    hide Step;
    StartNumbers(Configured(n, all, names));
    QueriedKnows(n);
  }

  /** The mailbox knows at least the last number put into it. */
  lemma MailedKnows(n: Node, numbers: seq<nat>)
    requires numbers != [] && numbers[|numbers| - 1] < SEQ_LIMIT
    ensures var k := Known(n.(mailbox := Mailed(n.mailbox, numbers)));
            numbers[|numbers| - 1] <= k < SEQ_LIMIT
  {
    ReadBack(numbers[|numbers| - 1]);
  }

  lemma TakeKeepsSession(n: Node, i: Input)
    requires NodeValid(n) && Enabled(n, Take(i))
    ensures var n' := Took(n, i);
            && SessionValid(n') && Known(n') < SEQ_LIMIT
            && n.session.seqNum <= n'.session.seqNum <= Known(n')
            && MarksBelow(MarksOf(n, i, Step(n.session, i)), n'.session.seqNum)
            && (i.Oper? && i.op.Dispatch? ==> n'.session.seqNum > n.session.seqNum)
            && (NotifiedIn(Messages(Step(n.session, i).fx)) == [] ==> n'.session.seqNum == n.session.seqNum)
  {
    hide Step; hide Messages; hide Trace; hide DeliveredIn; hide PublishedIn; hide NotifiedIn; hide Put;
    hide ToUint64; hide Coherent;
    var s := n.session;
    var r := Step(s, i);
    StepNumbers(s, i);
    assert r.s.alive ==> Coherent(r.s) by { ReadStep(s, i); }
    var numbers := NotifiedIn(Messages(r.fx));
    if numbers != [] { MailedKnows(n, numbers); }
    if Processed(s, i).Some? {
      var t := Processed(s, i).value;
      PutUnbounded(s.seen, t.worker, t.seqn, n.uuid);
    }
  }

  lemma TakeKeepsValid(n: Node, i: Input)
    requires NodeValid(n) && Enabled(n, Take(i))
    ensures NodeValid(Took(n, i))
    ensures Took(n, i).marks == n.marks + MarksOf(n, i, Step(n.session, i))
  {
    TakeKeepsSession(n, i);
    hide SessionValid; hide Step; hide Messages; hide Trace; hide Mailed; hide ToUint64; hide Enabled;
    var n' := Took(n, i);
    var m := MarksOf(n, i, Step(n.session, i));
    assert MarksBelow(n'.marks, n'.session.seqNum);
    assert |m| <= 1;
    forall a, b | 0 <= a < b < |n'.marks| && n'.marks[b].Sent? ensures n'.marks[a].n < n'.marks[b].n {
      if b == |n.marks| {
        assert n'.marks[a] == n.marks[a] && n'.marks[b] == m[0];
      } else {
        assert n'.marks[a] == n.marks[a] && n'.marks[b] == n.marks[b];
      }
    }
  }

  lemma MoveKeepsValid(n: Node, m: Move)
    requires NodeValid(n) && Enabled(n, m)
    ensures NodeValid(Moved(n, m))
  {
    match m
    case Begin(all, names) => BeginKeepsValid(n, all, names);
    case Take(i) => TakeKeepsValid(n, i);
    case Query => QueriedKnows(n);
  }

  // ---------------------------------------------------------------- whole lives of a worker

  /** The worker after a sequence of moves, each of them possible when made. */
  ghost predicate IsRun(n: Node, moves: seq<Move>) {
    moves != [] ==> IsRun(n, moves[..|moves| - 1]) && Enabled(After(n, moves[..|moves| - 1]), moves[|moves| - 1])
  }

  function After(n: Node, moves: seq<Move>): Node {
    if moves == [] then n else Moved(After(n, moves[..|moves| - 1]), moves[|moves| - 1])
  }

  lemma {:induction false} AlwaysValid(n: Node, moves: seq<Move>)
    requires NodeValid(n) && IsRun(n, moves)
    ensures NodeValid(After(n, moves))
  {
    hide NodeValid; hide Moved; hide Enabled;
    if moves != [] {
      AlwaysValid(n, moves[..|moves| - 1]);
      MoveKeepsValid(After(n, moves[..|moves| - 1]), moves[|moves| - 1]);
    }
  }

  /** Within a session and across restarts, each dispatched number exceeds every number dispatched before it and
      every own number processed before it, and the number handed to a client or a next session is no smaller. */
  lemma NumbersAlwaysGrow(uuid: Uuid, initial: nat, moves: seq<Move>)
    requires initial < SEQ_LIMIT && IsRun(NewNode(uuid, initial), moves)
    ensures var n := After(NewNode(uuid, initial), moves);
            DispatchesGrow(n.marks) && MarksBelow(n.marks, Known(n))
  {
    AlwaysValid(NewNode(uuid, initial), moves);
  }

  /** A dispatch takes a number above the session's exactly when the 64-bit counter does not wrap. */
  lemma DispatchGrowsExactly(s: Session, t: Topic)
    requires s.alive && s.seqNum < SEQ_LIMIT
    ensures var n := PublishedIn(Messages(Step(s, Oper(Dispatch(t))).fx));
            |n| == 1 && (n[0].seqn > s.seqNum <==> s.seqNum + 1 < SEQ_LIMIT)
  {
    DispatchSummary(s, t);
  }

  /** A session that ends on a number from 128 to 255 hands the next one a number close to the end of the range. */
  lemma RestartJumps(n: Node, k: nat)
    requires 128 <= k < 256 && n.mailbox == Some(Encode(k, 8))
    ensures Known(n) == SEQ_LIMIT - 256 + k
  {
    ReadBackJumps(k);
  }
}
