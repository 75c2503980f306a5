/** The runner and its sessions as objects that share a queue and a mailbox. */
module Runners {
  import opened Basics
  import opened SessionModel
  import opened RunnerModel

  /** The pair of sockets over which operations travel, in order and without loss. */
  class Pipe {
    var items: seq<Packet>

    constructor ()
      ensures items == []
    {
      items := [];
    }
  }

  /** The conflating sockets: only the last message is kept. */
  class Slot {
    var value: Option<nat>

    constructor ()
      ensures value == None
    {
      value := None;
    }
  }

  /** The operations a session with this token executes from a queue. */
  function Mine(queue: seq<Packet>, token: nat): seq<Op> {
    if queue == [] then []
    else if queue[0].token != token then Mine(queue[1..], token)
    else if queue[0].op.Stop? then [queue[0].op]
    else [queue[0].op] + Mine(queue[1..], token)
  }

  /** What it leaves in the queue: all that follows its Stop. */
  function Left(queue: seq<Packet>, token: nat): seq<Packet> {
    if queue == [] then []
    else if queue[0].token == token && queue[0].op.Stop? then queue[1..]
    else Left(queue[1..], token)
  }

  /** Reading on while there is something to read. */
  function Drained(h: Hand): Hand
    requires |h.meant| == |h.front.queue|
    decreases |h.front.queue|
  {
    if h.phase != Listening || h.front.queue == [] then h else Drained(Taken(h))
  }

  /** The loop of a session is repeated reading: it executes its own operations as far as a Stop and leaves the rest. */
  lemma {:induction false} DrainedIs(h: Hand)
    requires |h.meant| == |h.front.queue| && h.phase == Listening
    ensures var r := Drained(h);
            && r.front == h.front.(queue := Left(h.front.queue, h.own))
            && DoneBy(r.done, h.launched) == DoneBy(h.done, h.launched) + Mine(h.front.queue, h.own)
            && (r.phase == Ending <==> HasStop(Mine(h.front.queue, h.own)))
    decreases |h.front.queue|
  {
    hide DoneBy;
    if h.front.queue == [] {
      assert DoneBy(h.done, h.launched) + [] == DoneBy(h.done, h.launched);
    } else {
      var p, t := h.front.queue[0], Taken(h);
      DoneBySnoc(h.done, Done(h.launched, h.meant[0], p.op), h.launched);
      if t.phase == Listening { DrainedIs(t); }
    }
  }

  class Session {
    const token: nat
    const ops: Pipe
    const fin: Slot
    var executed: seq<Op>
    var ended: bool

    constructor (token: nat, ops: Pipe, fin: Slot)
      ensures this.token == token && this.ops == ops && this.fin == fin && executed == [] && !ended
    {
      this.token, this.ops, this.fin := token, ops, fin;
      executed, ended := [], false;
    }

    /** Takes the head of the queue and says whether it carries this session's token. */
    method RecvOperation() returns (op: Op, mine: bool)
      requires ops.items != []
      modifies ops
      ensures old(ops.items) == [Packet(if mine then token else old(ops.items[0].token), op)] + ops.items
      ensures !mine ==> old(ops.items[0].token) != token
    {
      var p := ops.items[0];
      ops.items := ops.items[1..];
      op, mine := p.op, p.token == token;
    }

    /** The loop of `run`, as long as operations are waiting. Ending leaves the token in the mailbox. */
    method Run()
      requires !ended
      modifies this, ops, fin
      ensures executed == old(executed) + Mine(old(ops.items), token)
      ensures ops.items == Left(old(ops.items), token)
      ensures ended <==> HasStop(Mine(old(ops.items), token))
      ensures fin.value == if ended then Some(token) else old(fin.value)
    {
      ghost var rest := Mine(ops.items, token);
      assert executed + rest == old(executed) + rest;
      while ops.items != [] && !ended
        invariant fin.value == old(fin.value)
        invariant if ended then
                    && executed == old(executed) + Mine(old(ops.items), token)
                    && ops.items == Left(old(ops.items), token) && HasStop(Mine(old(ops.items), token))
                  else
                    && executed + Mine(ops.items, token) == old(executed) + Mine(old(ops.items), token)
                    && Left(ops.items, token) == Left(old(ops.items), token)
                    && HasStop(Mine(ops.items, token)) == HasStop(Mine(old(ops.items), token))
        decreases |ops.items|
      {
        ghost var before, had := ops.items, executed;
        var op, mine := RecvOperation();
        assert before[1..] == ops.items && before[0].op == op;
        if mine {
          assert Mine(before, token) == if op.Stop? then [op] else [op] + Mine(ops.items, token);
          assert had + ([op] + Mine(ops.items, token)) == (had + [op]) + Mine(ops.items, token);
          executed := executed + [op];
          ended := op.Stop?;
        }
      }
      assert !ended ==> executed + [] == executed;
      if ended { fin.value := Some(token); }
    }
  }

  class Runner {
    var running: bool
    var token: nat
    const ops: Pipe
    const fin: Slot

    function View(): Front
      reads this, ops, fin
    {
      Front(running, token, ops.items, fin.value)
    }

    constructor ()
      ensures View() == IDLE.front && fresh(ops) && fresh(fin)
    {
      running, token := false, 0;
      ops := new Pipe();
      fin := new Slot();
    }

    method IsRunning() returns (r: bool)
      modifies this, fin
      ensures View() == Polled(old(View())) && r == running
      ensures fin.value == None && token == old(token)
      ensures running <==> old(running) && old(fin.value) != Some(old(token))
    {
      if fin.value.Some? {
        var done := fin.value.value;
        fin.value := None;
        if done == token { running := false; }
      }
      r := running;
    }

    /** Every new session gets the next token and its Start, sent after it was created. */
    method Start(conf: WorkerConfig) returns (session: Session?)
      modifies this, ops, fin
      ensures Polled(old(View())).running ==> session == null && View() == Polled(old(View()))
      ensures !Polled(old(View())).running ==>
                && session != null && fresh(session)
                && session.token == token && session.ops == ops && session.fin == fin
                && session.executed == [] && !session.ended
                && View() == Sent(Renewed(Polled(old(View()))), Op.Start(conf))
    {
      var busy := IsRunning();
      if busy { return null; }
      token := (token + 1) % TOKENS;
      running := true;
      session := new Session(token, ops, fin);
      SendOperation(Op.Start(conf));
    }

    method Stop() returns (sent: bool)
      modifies this, ops, fin
      ensures sent == Polled(old(View())).running
      ensures View() == if sent then Sent(Polled(old(View())), Op.Stop) else Polled(old(View()))
    {
      sent := IsRunning();
      if sent { SendOperation(Op.Stop); }
    }

    /** Dispatch and sync requests of a worker go the same way. */
    method Ask(op: Op) returns (sent: bool)
      modifies this, ops, fin
      ensures sent == Polled(old(View())).running
      ensures View() == if sent then Sent(Polled(old(View())), op) else Polled(old(View()))
    {
      sent := IsRunning();
      if sent { SendOperation(op); }
    }

    method SendOperation(op: Op)
      modifies ops
      ensures View() == Sent(old(View()), op)
    {
      ops.items := ops.items + [Packet(token, op)];
    }
  }
}
