/** The broker session: stores and redistributes topics, and answers snapshot requests. */
module BrokerSession {
  import opened Basics
  import opened LruModel
  import opened BrokerModel
  import Wire
  import SyncCodec

  /** How a message handler ends: normally, by an exception of the decoder, or by a failed assertion, which ends the
      program. */
  datatype Handled = Done | Thrown | Aborted

  /** How a snapshot reply ends: sent in full, cut by a failing send, or stopped by the assertion on empty entries. */
  datatype Outcome = Sent | PeerLost | AssertionFailed

  function Position(topics: seq<(Bytes, Inner)>, name: Bytes): (i: nat)
    requires Has(topics, name)
    ensures i < |topics| && topics[i].0 == name
  {
    if topics[0].0 == name then 0 else 1 + Position(topics[1..], name)
  }

  lemma {:induction false} PutInnerAt(topics: seq<(Bytes, Inner)>, t: Topic)
    requires Has(topics, t.name)
    ensures var i := Position(topics, t.name);
            PutInner(topics, t) == topics[i := (t.name, Put(PER_NAME, topics[i].1, t.worker, t))]
  {
    hide Put;
    if topics[0].0 != t.name { PutInnerAt(topics[1..], t); }
  }

  lemma ElementsEnd(topics: seq<(Bytes, Inner)>, i: nat, seqn: nat, conf: WorkerConfig)
    requires i == |topics| || (i < |topics| && topics[i].1 == [])
    ensures Elements(topics[i..], seqn, conf) == [] && NoEmptyEntry(topics[i..]) == (i == |topics|)
  {
  }

  lemma {:induction false} ElementsTail(topics: seq<(Bytes, Inner)>, i: nat, seqn: nat, conf: WorkerConfig)
    requires i < |topics| && topics[i].1 != []
    ensures var t := Back(topics[i].1).value;
            Elements(topics[i..], seqn, conf) ==
            (if Wanted(conf, t) then [Elem(seqn, t)] else []) + Elements(topics[i + 1..], seqn, conf)
    ensures NoEmptyEntry(topics[i..]) == NoEmptyEntry(topics[i + 1..])
  {
    assert topics[i..][0] == topics[i] && topics[i..][1..] == topics[i + 1..];
  }

  /** Messages with the routing id they are sent to. */
  function To(rouId: nat, msgs: seq<SnapMsg>): seq<(nat, SnapMsg)> {
    if msgs == [] then [] else To(rouId, msgs[..|msgs| - 1]) + [(rouId, msgs[|msgs| - 1])]
  }

  lemma ToSnoc(rouId: nat, msgs: seq<SnapMsg>, m: SnapMsg)
    ensures To(rouId, msgs + [m]) == To(rouId, msgs) + [(rouId, m)]
  {
    assert (msgs + [m])[..|msgs|] == msgs;
  }

  function Min(a: nat, b: nat): nat { if a < b then a else b }

  class BrokerSession {
    const uuid: Uuid
    var storTopic: seq<(Bytes, Inner)>
    var storWorker: seq<(Uuid, nat)>
    var hugzActive: bool
    /** Messages published to the workers, with their group. */
    var dispatched: seq<(Bytes, Topic)>
    /** Snapshot messages sent, with the routing id of the requester. */
    var replies: seq<(nat, SnapMsg)>

    function View(): Store
      reads this
    {
      Store(storTopic, storWorker)
    }

    constructor (uuid: Uuid)
      ensures View() == EMPTY && this.uuid == uuid && dispatched == [] && replies == [] && !hugzActive
    {
      this.uuid := uuid;
      storTopic, storWorker, hugzActive, dispatched, replies := [], [], false, [], [];
    }

    method StoreTopic(t: Topic) returns (ok: bool)
      modifies this`storTopic, this`storWorker
      ensures View() == BrokerModel.StoreTopic(old(View()), t)
      ensures ok == Accepts(old(View()), t)
    {
      if !Has(storTopic, t.name) {
        Snoc(storTopic, (t.name, []), t.name);
        if |storTopic| >= NAMES { Snoc(storTopic[1..], (t.name, []), t.name); }
        storTopic := Put(NAMES, storTopic, t.name, []);
      }
      var lastSeqNum := 0;
      var el := Lookup(storWorker, t.worker);
      if el.Some? {
        lastSeqNum := el.value;
      }
      if t.seqn <= lastSeqNum {
        return false;
      }
      storWorker := Put(WORKERS, storWorker, t.worker, t.seqn);
      var i := Position(storTopic, t.name);
      PutInnerAt(storTopic, t);
      storTopic := storTopic[i := (t.name, Put(PER_NAME, storTopic[i].1, t.worker, t))];
      return true;
    }

    /** A decodable topic is stamped with the broker's uuid and, if accepted, published under its own name and
        under the common group; a rejected one is not published. */
    method CollectWorkerMessage(group: Bytes, payload: Option<Topic>) returns (r: Handled)
      modifies this
      ensures replies == old(replies)
      ensures hugzActive == (old(hugzActive) || HUGZ <= group)
      ensures !(HUGZ <= group) && UPDT <= group && payload.Some? ==>
                var t := payload.value.(broker := uuid);
                && r == Done && View() == BrokerModel.StoreTopic(old(View()), t)
                && dispatched == old(dispatched) +
                     (if Accepts(old(View()), t) then [(CString(t.name), t), (UPDT, t)] else [])
      ensures HUGZ <= group || !(UPDT <= group) || payload.None? ==>
                View() == old(View()) && dispatched == old(dispatched)
      ensures r != Aborted && (r == Thrown <==> !(HUGZ <= group) && UPDT <= group && payload.None?)
    {
      r := Done;
      if HUGZ <= group {
        if !hugzActive { hugzActive := true; }
      } else if UPDT <= group {
        if payload.None? {
          return Thrown;
        }
        var t := payload.value.(broker := uuid);
        var ok := StoreTopic(t);
        if !ok {
          return;
        }
        dispatched := dispatched + [(CString(t.name), t)];
        dispatched := dispatched + [(UPDT, t)];
      }
    }

    method TrySend(rouId: nat, m: SnapMsg, ghost out: seq<SnapMsg>, ghost before: seq<(nat, SnapMsg)>)
      requires replies == before + To(rouId, out)
      modifies this`replies
      ensures replies == before + To(rouId, out + [m])
    {
      ToSnoc(rouId, out, m);
      replies := replies + [(rouId, m)];
    }

    /** `sends` is how many sends succeed before the peer becomes unreachable or would block.
        What goes out is that much of the full reply. */
    method ReplySnapshot(rouId: nat, syncseq: nat, conf: WorkerConfig, sends: nat) returns (r: Outcome)
      modifies this`replies
      ensures var full := FullReply(View(), uuid, syncseq, conf);
              && replies == old(replies) + To(rouId, full[..Min(sends, |full|)])
              && (r == PeerLost <==> sends < |full|)
              && (r == Sent ==> NoEmptyEntry(storTopic))
              && (r == AssertionFailed ==> !NoEmptyEntry(storTopic))
    {
      hide Wanted; hide To; hide Elements; hide NoEmptyEntry;
      ghost var full := FullReply(View(), uuid, syncseq, conf);
      ghost var last := if NoEmptyEntry(storTopic) then [Compl(syncseq, uuid)] else [];
      ghost var out: seq<SnapMsg> := [];
      var sent := 0;
      if sent >= sends {
        assert To(rouId, full[..0]) == [] by { ToEmpty(rouId, full[..0]); }
        return PeerLost;
      }
      ToEmpty(rouId, out);
      TrySend(rouId, Begin(syncseq, uuid), out, old(replies));
      sent, out := sent + 1, out + [Begin(syncseq, uuid)];
      var i := 0;
      assert storTopic[i..] == storTopic;
      while i < |storTopic|
        invariant 0 <= i <= |storTopic| && sent == |out| <= sends
        invariant replies == old(replies) + To(rouId, out)
        invariant NoEmptyEntry(storTopic) == NoEmptyEntry(storTopic[i..])
        invariant full == out + Elements(storTopic[i..], syncseq, conf) + last
      {
        if storTopic[i].1 == [] {
          ElementsEnd(storTopic, i, syncseq, conf);
          assert full == out && full[..|full|] == out;
          return AssertionFailed;
        }
        ElementsTail(storTopic, i, syncseq, conf);
        ghost var rest := Elements(storTopic[i + 1..], syncseq, conf);
        var t := storTopic[i].1[|storTopic[i].1| - 1].1;
        i := i + 1;
        var skip := t.kind == Event || (!conf.topicsAll && t.name !in conf.topicsNames);
        assert skip == !Wanted(conf, t) by { WantedMeans(conf, t); }
        if skip {
          continue;
        }
        assert full == out + [Elem(syncseq, t)] + rest + last;
        if sent >= sends {
          assert full[..sends] == out;
          return PeerLost;
        }
        TrySend(rouId, Elem(syncseq, t), out, old(replies));
        sent, out := sent + 1, out + [Elem(syncseq, t)];
      }
      ElementsEnd(storTopic, i, syncseq, conf);
      assert full == out + last;
      if sent >= sends {
        assert full[..sends] == out;
        return PeerLost;
      }
      TrySend(rouId, Compl(syncseq, uuid), out, old(replies));
      assert full[..|full|] == out + [Compl(syncseq, uuid)];
      return Sent;
    }

    /** A readable snapshot request is answered to its sender with its own number; an entry without topics that the
        reply gets to aborts; another command is ignored, and an unreadable one throws. */
    method ReceiveWorkerCommand(rouId: nat, payload: Bytes, sends: nat) returns (r: Handled)
      requires |payload| < Wire.SIZE_LIMIT
      modifies this`replies
      ensures var seen := SyncCodec.ReadRequest(payload);
              && (r == Thrown <==> seen.Thrown?)
              && (!seen.Message? ==> replies == old(replies) && r != Aborted)
              && (seen.Message? ==>
                    var full := FullReply(View(), uuid, seen.value.0, seen.value.1);
                    && replies == old(replies) + To(rouId, full[..Min(sends, |full|)])
                    && (r == Aborted <==> !NoEmptyEntry(storTopic) && |full| <= sends))
    {
      var seen := SyncCodec.ReadRequest(payload);
      r := if seen.Thrown? then Thrown else Done;
      if seen.Message? {
        var o := ReplySnapshot(rouId, seen.value.0, seen.value.1, sends);
        if o == AssertionFailed { r := Aborted; }
      }
    }
  }

  lemma ToEmpty(rouId: nat, msgs: seq<SnapMsg>)
    requires msgs == []
    ensures To(rouId, msgs) == []
  {
  }

  lemma WantedMeans(conf: WorkerConfig, t: Topic)
    ensures Wanted(conf, t) <==> !(t.kind == Event || (!conf.topicsAll && t.name !in conf.topicsNames))
  {
  }
}
