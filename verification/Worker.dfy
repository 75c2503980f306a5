/** The worker as its client sees it: the runner, the cached sequence number and the one-slot mailbox. */
module Worker {
  import opened Basics
  import opened Integers
  import opened SessionModel
  import opened WorkerModel
  import opened Codec
  import R = Runners
  import RM = RunnerModel

  /** The conflating sockets a session sends its number through. */
  class Mailbox {
    var value: Option<Bytes>

    constructor ()
      ensures value == None
    {
      value := None;
    }

    /** A session leaves a number; one that nobody read is replaced. */
    method Leave(n: nat)
      modifies this
      ensures value == Mailed(old(value), [n])
    {
      value := Some(Encode(n, 8));
    }
  }

  class Worker {
    const uuid: Uuid
    const runner: R.Runner
    const box: Mailbox
    var seqNum: nat
    var subscrAll: bool
    var subscrNames: seq<Bytes>
    var endpDelivery: seq<Bytes>
    var endpDispatch: seq<Bytes>
    var endpSnapshot: seq<Bytes>

    /** The client's side of the worker, without a session and without a past. */
    function Client(): Node
      reads this, box
    {
      NewNode(uuid, seqNum).(mailbox := box.value)
    }

    constructor (uuid: Uuid, initSequence: nat)
      ensures Client() == NewNode(uuid, initSequence) && fresh(runner) && fresh(box)
      ensures runner.View() == RM.IDLE.front && fresh(runner.ops) && fresh(runner.fin)
      ensures subscrAll && subscrNames == []
    {
      this.uuid, seqNum, subscrAll, subscrNames := uuid, initSequence, true, [];
      endpDelivery, endpDispatch, endpSnapshot := [], [], [];
      runner := new R.Runner();
      box := new Mailbox();
    }

    method SetTopicsAll()
      modifies this`subscrAll, this`subscrNames
      ensures subscrAll && subscrNames == []
    {
      subscrAll, subscrNames := true, [];
    }

    method SetTopicsNames(names: seq<Bytes>)
      modifies this`subscrAll, this`subscrNames
      ensures !subscrAll && subscrNames == CutAll(names)
    {
      subscrAll, subscrNames := false, CutAll(names);
    }

    method SeqNumber() returns (n: nat)
      modifies this`seqNum, box
      ensures n == Known(old(Client())) && Client() == Queried(old(Client()))
      ensures box.value == None && seqNum == n
    {
      if box.value.Some? {
        var r := box.value.value;
        box.value := None;
        seqNum := ToUint64(r);
      }
      n := seqNum;
    }

    method PrepareConfiguration() returns (c: WorkerConfig)
      modifies this`seqNum, box
      ensures c == Configured(old(Client()), subscrAll, subscrNames).(
                     endpDelivery := endpDelivery, endpDispatch := endpDispatch, endpSnapshot := endpSnapshot)
      ensures c.uuid == uuid && c.seqNum == seqNum && c.topicsAll == subscrAll && c.topicsNames == subscrNames
      ensures c.endpDelivery == endpDelivery && c.endpDispatch == endpDispatch && c.endpSnapshot == endpSnapshot
      ensures Client() == Queried(old(Client()))
    {
      var n := SeqNumber();
      c := WorkerConfig(uuid, n, subscrAll, subscrNames, endpDelivery, endpDispatch, endpSnapshot);
    }

    /** The session sets the number, so a dispatched topic goes out with number 0 and no broker. */
    method Dispatch(name: Bytes, data: Bytes, kind: Kind) returns (sent: bool)
      modifies runner, runner.ops, runner.fin
      ensures var now := RM.Polled(old(runner.View()));
              var op := Op.Dispatch(Topic(NIL_UUID, uuid, 0, Cut(name), data, kind));
              && sent == now.running
              && runner.View() == if sent then RM.Sent(now, op) else now
    {
      sent := runner.Ask(Op.Dispatch(Topic(NIL_UUID, uuid, 0, Cut(name), data, kind)));
    }

    method Sync() returns (sent: bool)
      modifies runner, runner.ops, runner.fin
      ensures var now := RM.Polled(old(runner.View()));
              sent == now.running && runner.View() == if sent then RM.Sent(now, Op.Sync) else now
    {
      sent := runner.Ask(Op.Sync);
    }
  }
}
