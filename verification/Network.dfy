/** Workers and brokers over a network that may lose, duplicate and reorder messages. */
module Network {
  import opened Basics
  import opened LruModel
  import B = BrokerModel
  import opened SessionModel
  import opened SessionFacts
  import opened SessionNumbers
  import opened TraceGrammar
  import W = WorkerModel

  /** A message stays available once sent, so receiving it any number of times, in any order, or never covers
      duplication, reordering and loss. */
  datatype Net = Net(
    nodes: map<Uuid, W.Node>, stores: map<Uuid, B.Store>,
    up: set<Topic>, down: set<(Bytes, Topic)>, snaps: set<SnapMsg>)

  datatype Happening =
    | NodeMoves(u: Uuid, m: W.Move)
    | BrokerTakes(b: Uuid, t: Topic)
    | BrokerServes(b: Uuid, seqn: nat, conf: WorkerConfig)
    | BrokerRestarts(b: Uuid)

  /** What a worker receives was sent to workers. */
  ghost predicate Arrived(net: Net, m: W.Move) {
    m.Take? ==>
      && (m.input.Recv? && m.input.payload.Some? && m.input.group != HUGZ ==>
            (m.input.group, m.input.payload.value) in net.down)
      && (m.input.Snap? && m.input.msg.Some? && m.input.msg.value.Elem? ==> m.input.msg.value in net.snaps)
  }

  ghost predicate Possible(net: Net, h: Happening) {
    match h
    case NodeMoves(u, m) => u in net.nodes && W.Enabled(net.nodes[u], m) && Arrived(net, m)
    case BrokerTakes(b, t) => b in net.stores && t in net.up
    case BrokerServes(b, _, _) => b in net.stores
    case BrokerRestarts(b) => b in net.stores
  }

  ghost function Happened(net: Net, h: Happening): Net
    requires Possible(net, h)
  {
    match h
    case NodeMoves(u, m) =>
      var n := W.Moved(net.nodes[u], m);
      net.(nodes := net.nodes[u := n], up := net.up + (set t | t in n.sent))
    case BrokerTakes(b, t) =>
      var s := t.(broker := b);
      net.(stores := net.stores[b := B.StoreTopic(net.stores[b], s)],
           down := net.down + if B.Accepts(net.stores[b], s) then {(CString(s.name), s), (UPDT, s)} else {})
    case BrokerServes(b, seqn, conf) =>
      net.(snaps := net.snaps + (set x | x in B.FullReply(net.stores[b], b, seqn, conf)))
    case BrokerRestarts(b) =>
      net.(stores := net.stores[b := B.EMPTY])
  }

  /** Any number of workers and brokers, none of which has done anything. */
  ghost predicate Initial(net: Net) {
    && (forall u :: u in net.nodes ==> exists k: nat :: k < SEQ_LIMIT && net.nodes[u] == W.NewNode(u, k))
    && (forall b :: b in net.stores ==> net.stores[b] == B.EMPTY)
    && net.up == {} && net.down == {} && net.snaps == {}
  }

  // ---------------------------------------------------------------- invariant

  /** Up to the broker's stamp, the topic is one its worker dispatched. */
  ghost predicate Genuine(nodes: map<Uuid, W.Node>, t: Topic) {
    t.worker in nodes && t.(broker := NIL_UUID) in nodes[t.worker].sent
  }

  ghost predicate SentBelow(sent: seq<Topic>, bound: nat) {
    forall k :: 0 <= k < |sent| ==> sent[k].seqn <= bound
  }

  /** What a worker published carries its uuid and strictly increasing numbers. */
  ghost predicate SentValid(n: W.Node) {
    && (forall k :: 0 <= k < |n.sent| ==> n.sent[k].worker == n.uuid && n.sent[k].broker == NIL_UUID)
    && (forall i, j :: 0 <= i < j < |n.sent| ==> n.sent[i].seqn < n.sent[j].seqn)
    && SentBelow(n.sent, W.Known(n)) && (n.session.alive ==> SentBelow(n.sent, n.session.seqNum))
  }

  /** In one life, the numbers delivered of each worker increase. */
  ghost predicate Increasing(life: seq<Topic>) {
    forall i, j :: 0 <= i < j < |life| && life[i].worker == life[j].worker ==> life[i].seqn < life[j].seqn
  }

  ghost predicate AllGenuine(nodes: map<Uuid, W.Node>, life: seq<Topic>) {
    forall k :: 0 <= k < |life| ==> Genuine(nodes, life[k])
  }

  /** Everything delivered in the present life is known to the filter. */
  ghost predicate Filtered(life: seq<Topic>, seen: seq<(Uuid, nat)>) {
    forall k :: 0 <= k < |life| ==> life[k].seqn <= LastNumber(seen, life[k].worker)
  }

  ghost predicate LivesValid(nodes: map<Uuid, W.Node>, n: W.Node) {
    && (forall l :: 0 <= l < |n.lives| ==> Increasing(n.lives[l]) && AllGenuine(nodes, n.lives[l]))
    && (n.session.alive ==> n.lives != [] && Filtered(n.lives[|n.lives| - 1], n.session.seen))
  }

  ghost predicate NodesValid(nodes: map<Uuid, W.Node>) {
    forall u :: u in nodes ==>
      nodes[u].uuid == u && W.NodeValid(nodes[u]) && SentValid(nodes[u]) && LivesValid(nodes, nodes[u])
  }

  ghost predicate WiresValid(net: Net) {
    && (forall t :: t in net.up ==> t.broker == NIL_UUID && Genuine(net.nodes, t))
    && (forall x :: x in net.down ==> Genuine(net.nodes, x.1))
    && (forall m :: m in net.snaps && m.Elem? ==> Genuine(net.nodes, m.topic))
    && (forall b, t :: b in net.stores && t in B.StoredTopics(net.stores[b].topics) ==> Genuine(net.nodes, t))
  }

  ghost predicate Valid(net: Net) { NodesValid(net.nodes) && WiresValid(net) }

  // ---------------------------------------------------------------- one worker moves

  /** A move only adds to what a worker published, and publishes only above its number. */
  lemma MoveSends(n: W.Node, m: W.Move)
    requires W.NodeValid(n) && W.Enabled(n, m) && SentValid(n)
    ensures SentValid(W.Moved(n, m)) && n.sent <= W.Moved(n, m).sent
  {
    match m
    case Begin(all, names) =>
      hide Step;
      StartNumbers(W.Configured(n, all, names));
      W.QueriedKnows(n);
    case Query => W.QueriedKnows(n);
    case Take(i) => TakeSends(n, i);
  }

  lemma TakeSends(n: W.Node, i: Input)
    requires W.NodeValid(n) && W.Enabled(n, W.Take(i)) && SentValid(n)
    ensures SentValid(W.Took(n, i)) && n.sent <= W.Took(n, i).sent
  {
    hide Step; hide Messages; hide Trace; hide W.Mailed; hide W.SessionValid; hide DeliveredIn;
    hide PublishedIn; hide NotifiedIn; hide Put; hide Lookup; hide SentValid;
    assert n.session.alive && Coherent(n.session) by { W.ValidMeans(n); }
    hide W.NodeValid;
    W.TakeKeepsSession(n, i);
    StepNumbers(n.session, i);
    var added := PublishedIn(Messages(Step(n.session, i).fx));
    assert added == [] || (i.Oper? && i.op.Dispatch? && added == [i.op.topic.(seqn := W.Took(n, i).session.seqNum)]);
    SentAppends(n, W.Took(n, i), added);
  }

  lemma SentAppends(n: W.Node, n': W.Node, added: seq<Topic>)
    requires SentValid(n) && n.session.alive && n'.uuid == n.uuid && n'.sent == n.sent + added
    requires n.session.seqNum <= n'.session.seqNum <= W.Known(n')
    requires added == [] || (|added| == 1 && added[0].worker == n.uuid && added[0].broker == NIL_UUID
                             && n.session.seqNum < added[0].seqn == n'.session.seqNum)
    ensures SentValid(n') && n.sent <= n'.sent
  {
    hide W.Known;
    assert forall k :: 0 <= k < |n.sent| ==> n'.sent[k] == n.sent[k];
    if added == [] {
      assert n'.sent == n.sent;
    } else {
      assert n'.sent[|n.sent|] == added[0];
    }
  }

  lemma GenuineGrows(nodes: map<Uuid, W.Node>, u: Uuid, n: W.Node, t: Topic)
    requires u in nodes && nodes[u].sent <= n.sent && Genuine(nodes, t)
    ensures Genuine(nodes[u := n], t)
  {
  }

  lemma TakeDelivers(nodes: map<Uuid, W.Node>, n: W.Node, i: Input)
    requires W.NodeValid(n) && W.Enabled(n, W.Take(i)) && LivesValid(nodes, n)
    requires Processed(n.session, i).Some? && i.Recv? ==> Genuine(nodes, Processed(n.session, i).value)
    ensures LivesValid(nodes, W.Took(n, i))
  {
    hide Step; hide Messages; hide Trace; hide W.Mailed; hide DeliveredIn; hide PublishedIn; hide NotifiedIn;
    hide Put; hide Genuine;
    StepNumbers(n.session, i);
    var s := n.session;
    var last := n.lives[|n.lives| - 1];
    var r := Step(s, i);
    var got := DeliveredIn(Trace(r.fx));
    var n' := W.Took(n, i);
    assert n'.lives == n.lives[..|n.lives| - 1] + [last + got];
    assert Distinct(s.seen);
    if Processed(s, i).Some? {
      FilterLearns(s.seen, Processed(s, i).value, last, got);
    } else {
      assert got == [] && last + got == last;
    }
    hide W.NodeValid; hide W.Enabled; hide StepSummary; hide Increasing; hide Filtered;
    assert AllGenuine(nodes, last + got);
  }

  lemma FilterLearns(seen: seq<(Uuid, nat)>, t: Topic, life: seq<Topic>, got: seq<Topic>)
    requires Distinct(seen) && Increasing(life) && Filtered(life, seen)
    requires got == [] || (got == [t] && t.seqn > LastNumber(seen, t.worker))
    ensures Increasing(life + got)
    ensures t.seqn > LastNumber(seen, t.worker) ==> Filtered(life + got, Put(0, seen, t.worker, t.seqn))
    ensures got == [] ==> Filtered(life + got, seen)
  {
    hide Put; hide Lookup;
    var all := life + got;
    if got == [] { assert all == life; }
    if t.seqn > LastNumber(seen, t.worker) {
      forall k | 0 <= k < |all| ensures all[k].seqn <= LastNumber(Put(0, seen, t.worker, t.seqn), all[k].worker) {
        PutUnbounded(seen, t.worker, t.seqn, all[k].worker);
        if k < |life| { assert all[k] == life[k]; }
      }
    }
    forall i, j | 0 <= i < j < |all| && all[i].worker == all[j].worker ensures all[i].seqn < all[j].seqn {
      assert all[i] == life[i];
      if j < |life| { assert all[j] == life[j]; }
    }
  }

  lemma MoveDelivers(net: Net, u: Uuid, m: W.Move)
    requires Valid(net) && Possible(net, NodeMoves(u, m))
    ensures LivesValid(net.nodes, W.Moved(net.nodes[u], m))
  {
    hide Step; hide Genuine; hide W.NodeValid; hide SentValid;
    var n := net.nodes[u];
    match m
    case Begin(all, names) =>
      StartNumbers(W.Configured(n, all, names));
    case Query =>
    case Take(i) =>
      if i.Recv? && Processed(n.session, i).Some? {
        assert (i.group, i.payload.value) in net.down;
      }
      hide LivesValid;
      TakeDelivers(net.nodes, n, i);
  }

  lemma LivesGrow(nodes: map<Uuid, W.Node>, u: Uuid, n: W.Node, x: W.Node)
    requires u in nodes && nodes[u].sent <= n.sent && LivesValid(nodes, x)
    ensures LivesValid(nodes[u := n], x)
  {
    hide Genuine; hide Increasing;
    forall l | 0 <= l < |x.lives| ensures AllGenuine(nodes[u := n], x.lives[l]) {
      forall k | 0 <= k < |x.lives[l]| ensures Genuine(nodes[u := n], x.lives[l][k]) {
        GenuineGrows(nodes, u, n, x.lives[l][k]);
      }
    }
  }

  // ---------------------------------------------------------------- the whole network

  lemma NodeMoveKeepsNodes(net: Net, u: Uuid, m: W.Move)
    requires Valid(net) && Possible(net, NodeMoves(u, m))
    ensures NodesValid(Happened(net, NodeMoves(u, m)).nodes)
    ensures net.nodes[u].sent <= W.Moved(net.nodes[u], m).sent
  {
    hide W.NodeValid; hide SentValid; hide LivesValid; hide W.Enabled; hide W.Moved; hide Arrived; hide WiresValid;
    var n := net.nodes[u];
    var n' := W.Moved(n, m);
    var nodes' := net.nodes[u := n'];
    W.MoveKeepsValid(n, m);
    MoveSends(n, m);
    MoveDelivers(net, u, m);
    assert n'.uuid == u by { MoveKeepsUuid(n, m); }
    forall v | v in nodes' ensures LivesValid(nodes', nodes'[v]) {
      LivesGrow(net.nodes, u, n', nodes'[v]);
    }
  }

  lemma MoveKeepsUuid(n: W.Node, m: W.Move)
    ensures W.Moved(n, m).uuid == n.uuid
  {
  }

  lemma NodeMoveKeepsWires(net: Net, u: Uuid, m: W.Move)
    requires Valid(net) && Possible(net, NodeMoves(u, m))
    ensures WiresValid(Happened(net, NodeMoves(u, m)))
  {
    hide W.NodeValid; hide LivesValid; hide W.Enabled; hide W.Moved; hide Arrived;
    NodeMoveKeepsNodes(net, u, m);
    var n' := W.Moved(net.nodes[u], m);
    var nodes' := net.nodes[u := n'];
    assert SentValid(nodes'[u]) && nodes'[u].uuid == u;
    forall t | Genuine(net.nodes, t) ensures Genuine(nodes', t) { GenuineGrows(net.nodes, u, n', t); }
    forall t | t in n'.sent ensures t.broker == NIL_UUID && Genuine(nodes', t) {
      assert t.(broker := NIL_UUID) == t;
    }
  }

  lemma BrokerKeepsWires(net: Net, b: Uuid, t: Topic)
    requires WiresValid(net) && Possible(net, BrokerTakes(b, t))
    ensures WiresValid(Happened(net, BrokerTakes(b, t)))
  {
    hide B.StoreTopic; hide B.Accepts;
    var s := t.(broker := b);
    assert s.(broker := NIL_UUID) == t.(broker := NIL_UUID);
    assert Genuine(net.nodes, s);
    B.StoredComeFromReceived(net.stores[b], s);
  }

  lemma ServeKeepsWires(net: Net, b: Uuid, seqn: nat, conf: WorkerConfig)
    requires WiresValid(net) && Possible(net, BrokerServes(b, seqn, conf))
    ensures WiresValid(Happened(net, BrokerServes(b, seqn, conf)))
  {
    hide Genuine; hide B.Elements;
    var st := net.stores[b];
    forall m | m in B.FullReply(st, b, seqn, conf) && m.Elem? ensures m.topic in B.StoredTopics(st.topics) {
      B.ElementsAreStored(st.topics, seqn, conf, m);
    }
  }

  lemma HappeningKeepsValid(net: Net, h: Happening)
    requires Valid(net) && Possible(net, h)
    ensures Valid(Happened(net, h))
  {
    match h
    case NodeMoves(u, m) => NodeMoveKeepsNodes(net, u, m); NodeMoveKeepsWires(net, u, m);
    case BrokerTakes(b, t) => BrokerKeepsWires(net, b, t);
    case BrokerServes(b, seqn, conf) => ServeKeepsWires(net, b, seqn, conf);
    case BrokerRestarts(b) =>
      hide Genuine; hide NodesValid;
      assert B.StoredTopics(B.EMPTY.topics) == {};
  }

  lemma InitialIsValid(net: Net)
    requires Initial(net)
    ensures Valid(net)
  {
    forall b | b in net.stores ensures B.StoredTopics(net.stores[b].topics) == {} {}
    forall u | u in net.nodes
      ensures net.nodes[u].uuid == u && W.NodeValid(net.nodes[u])
      ensures SentValid(net.nodes[u]) && LivesValid(net.nodes, net.nodes[u])
    {
      var k: nat :| k < SEQ_LIMIT && net.nodes[u] == W.NewNode(u, k);
    }
  }

  /** A history: the networks one after the other, each change possible when it happened. */
  ghost predicate IsHistory(nets: seq<Net>, hs: seq<Happening>) {
    && |nets| == |hs| + 1 && Initial(nets[0])
    && forall k :: 0 <= k < |hs| ==> Possible(nets[k], hs[k]) && nets[k + 1] == Happened(nets[k], hs[k])
  }

  lemma {:induction false} HistoryIsValid(nets: seq<Net>, hs: seq<Happening>, k: nat)
    requires IsHistory(nets, hs) && k < |nets|
    ensures Valid(nets[k])
  {
    hide Valid; hide Possible; hide Happened; hide Initial;
    if k == 0 {
      InitialIsValid(nets[0]);
    } else {
      HistoryIsValid(nets, hs, k - 1);
      assert Possible(nets[k - 1], hs[k - 1]) && nets[k - 1 + 1] == Happened(nets[k - 1], hs[k - 1]);
      HappeningKeepsValid(nets[k - 1], hs[k - 1]);
    }
  }

  // ---------------------------------------------------------------- the delivery theorem

  /** The topics of one producer in a life. */
  function From(life: seq<Topic>, p: Uuid): seq<Topic> {
    if life == [] then []
    else if life[|life| - 1].worker == p then From(life[..|life| - 1], p) + [life[|life| - 1]]
    else From(life[..|life| - 1], p)
  }

  /** `ix` picks, at strictly increasing places of `log`, the topics of `part` up to the broker's stamp. */
  ghost predicate Picks(part: seq<Topic>, log: seq<Topic>, ix: seq<nat>) {
    && |ix| == |part|
    && (forall k :: 0 <= k < |ix| ==> ix[k] < |log| && log[ix[k]] == part[k].(broker := NIL_UUID))
    && (forall j, k :: 0 <= j < k < |ix| ==> ix[j] < ix[k])
  }

  lemma {:induction false} FromFacts(life: seq<Topic>, p: Uuid)
    requires Increasing(life)
    ensures forall k :: 0 <= k < |From(life, p)| ==> From(life, p)[k] in life && From(life, p)[k].worker == p
    ensures forall j, k :: 0 <= j < k < |From(life, p)| ==> From(life, p)[j].seqn < From(life, p)[k].seqn
  {
    if life != [] {
      var before := life[..|life| - 1];
      FromFacts(before, p);
      var last := life[|life| - 1];
      forall k | 0 <= k < |From(before, p)|
        ensures From(before, p)[k].worker == last.worker ==> From(before, p)[k].seqn < last.seqn
      {
        var i :| 0 <= i < |before| && before[i] == From(before, p)[k];
        assert life[i] == before[i];
      }
    }
  }

  lemma PickOut(part: seq<Topic>, log: seq<Topic>) returns (ix: seq<nat>)
    requires forall k :: 0 <= k < |part| ==> part[k].(broker := NIL_UUID) in log
    requires forall j, k :: 0 <= j < k < |part| ==> part[j].seqn < part[k].seqn
    requires forall i, j :: 0 <= i < j < |log| ==> log[i].seqn < log[j].seqn
    ensures Picks(part, log, ix)
  {
    ix := [];
    while |ix| < |part|
      invariant |ix| <= |part|
      invariant forall k :: 0 <= k < |ix| ==> ix[k] < |log| && log[ix[k]] == part[k].(broker := NIL_UUID)
    {
      var t := part[|ix|].(broker := NIL_UUID);
      var i :| 0 <= i < |log| && log[i] == t;
      ix := ix + [i];
    }
    forall j, k | 0 <= j < k < |ix| ensures ix[j] < ix[k] {
      assert log[ix[j]].seqn == part[j].seqn && log[ix[k]].seqn == part[k].seqn;
    }
  }

  /** In every history, the topics of a producer delivered in one session of a worker are, up to the broker's
      stamp, a subsequence of the topics that producer dispatched: none twice, none out of order, none altered. */
  lemma DeliveriesAreSubsequences(
    nets: seq<Net>, hs: seq<Happening>, k: nat, u: Uuid, l: nat, p: Uuid) returns (ix: seq<nat>)
    requires IsHistory(nets, hs) && k < |nets| && u in nets[k].nodes && l < |nets[k].nodes[u].lives|
    ensures var part := From(nets[k].nodes[u].lives[l], p);
            if p in nets[k].nodes then Picks(part, nets[k].nodes[p].sent, ix) else part == []
  {
    hide Possible; hide Happened; hide Initial; hide W.NodeValid; hide WiresValid; hide IsHistory;
    HistoryIsValid(nets, hs, k);
    var net := nets[k];
    var life := net.nodes[u].lives[l];
    var part := From(life, p);
    assert LivesValid(net.nodes, net.nodes[u]);
    FromFacts(life, p);
    forall i | 0 <= i < |part| ensures Genuine(net.nodes, part[i]) {
      var j :| 0 <= j < |life| && life[j] == part[i];
    }
    assert part != [] ==> part[0].worker == p && Genuine(net.nodes, part[0]);
    if p in net.nodes {
      assert SentValid(net.nodes[p]);
      ix := PickOut(part, net.nodes[p].sent);
    } else {
      ix := [];
    }
  }
}
