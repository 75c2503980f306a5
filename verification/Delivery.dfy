/** The way of a topic from a broker that accepted it to the sessions that subscribed to it. */
module Delivery {
  import opened Basics
  import opened SessionModel
  import opened SessionNumbers
  import opened SessionParts
  import opened SessionScript
  import opened SessionHistory
  import B = BrokerModel
  import W = Network

  /** A broker publishes an accepted topic, with its stamp, under the name up to its first zero byte and under the
      common group, and publishes nothing else. */
  lemma PublishedExactly(net: W.Net, b: Uuid, t: Topic)
    requires W.Possible(net, W.BrokerTakes(b, t))
    ensures var s := t.(broker := b);
            W.Happened(net, W.BrokerTakes(b, t)).down - net.down <= {(CString(t.name), s), (UPDT, s)}
    ensures B.Accepts(net.stores[b], t.(broker := b)) ==>
              var down := W.Happened(net, W.BrokerTakes(b, t)).down;
              (UPDT, t.(broker := b)) in down && (0 !in t.name ==> (t.name, t.(broker := b)) in down)
    ensures !B.Accepts(net.stores[b], t.(broker := b)) ==> W.Happened(net, W.BrokerTakes(b, t)).down == net.down
  {
    hide B.Accepts; hide B.StoreTopic;
    CStringExactly(t.name);
  }

  /** With names free of zero bytes and other than the reserved ones, a session has joined a group under which a topic
      is published if and only if it subscribed to all topics or to that name; and it reads what comes under any
      such group as a topic. It always joins the group of the keepalives. */
  lemma JoinedExactly(conf: WorkerConfig, name: Bytes)
    requires 0 !in name && name != HUGZ && name != UPDT && forall n :: n in conf.topicsNames ==> 0 !in n && n != UPDT
    ensures name in Joined(conf) || UPDT in Joined(conf) <==> conf.topicsAll || name in conf.topicsNames
    ensures HUGZ in Joined(conf) && forall g :: g in Joined(conf) && g != HUGZ ==> Subscribed(conf, g)
  {
    NameGroupsExactly(conf.topicsNames);
    assert HUGZ[0] == 72 && UPDT[0] == 85;
  }

  lemma {:induction false} NameGroupsExactly(names: seq<Bytes>)
    requires forall n :: n in names ==> 0 !in n
    ensures forall g :: g in NameGroups(names) <==> g in names
  {
    if names != [] {
      NameGroupsExactly(names[..|names| - 1]);
      CStringExactly(names[|names| - 1]);
    }
  }

  /** A topic a broker accepted, received under its own name by a living session that subscribed to it, is delivered
      if and only if it is newer than everything that session received of its worker. */
  lemma SubscriberGetsIt(net: W.Net, b: Uuid, t: Topic, ins: seq<Input>, k: nat)
    requires W.Possible(net, W.BrokerTakes(b, t)) && B.Accepts(net.stores[b], t.(broker := b))
    requires 0 !in t.name && t.name != HUGZ
    requires IsLife(ins) && 1 <= k < |ins| && Before(ins, k).alive && t.name in ins[0].op.conf.topicsNames
    requires ins[k] == Recv(t.name, Some(t.(broker := b)))
    ensures (t.name, t.(broker := b)) in W.Happened(net, W.BrokerTakes(b, t)).down
    ensures DeliveredIn(Trace(Step(Before(ins, k), ins[k]).fx)) ==
            if Above(t.seqn, t.worker, Heard(ins[0].op.conf, ins[..k])) then [t.(broker := b)] else []
  {
    hide B.Accepts; hide B.StoreTopic; hide Step; hide Trace; hide Run; hide Above; hide Heard;
    PublishedExactly(net, b, t);
    DeliveredExactly(ins, k);
  }
}
