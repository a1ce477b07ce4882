// The two-way datagram pump, between sessions that buffer one outgoing packet each.
module UdpPump {
  import opened Flow
  import opened Address

  datatype Packet = Packet(peer: Destination, data: Buffer)

  function AsSeq(p: Option<Packet>): seq<Packet> {
    if p.Some? then [p.value] else []
  }

  function TotalLen(s: seq<Packet>): nat {
    if s == [] then 0 else TotalLen(s[..|s| - 1]) + |s[|s| - 1].data|
  }

  // What a session answers to a poll: it is not ready, it serves, or its channel is closed.
  datatype Answer = Wait | Serve | Close

  datatype Outgoing = Outgoing(sent: seq<Packet>, slot: Option<Packet>)

  /** `InboundUdpSession` behind its channel: packets from the channel on the receiving side, a
      single slot in front of the socket on the sending side. A script decides the answers; once it
      is used up the session serves what it has and then ends. */
  class Session {
    // packets the channel will deliver
    var incoming: seq<Packet>
    // packets the socket was handed, then the one that waits in the slot
    var out: seq<Packet>
    var txBuf: Option<Packet>
    var script: seq<Answer>
    // the receiving side has reported its end
    ghost var ended: bool
    // the channel was closed while it may still have held packets
    ghost var closed: bool

    constructor (incoming: seq<Packet>, script: seq<Answer>)
      ensures this.incoming == incoming && this.script == script && out == [] && txBuf == None
      ensures !ended && !closed
    {
      this.incoming, this.script, out, txBuf := incoming, script, [], None;
      ended, closed := false, false;
    }

    // The channel is not closed early, neither now nor later.
    ghost predicate Open()
      reads this
    {
      !closed && Close !in script
    }

    // Every packet given to `SendTo`, in order.
    ghost function Taken(): seq<Packet>
      reads this
    {
      out + AsSeq(txBuf)
    }

    ghost function Outbox(): Outgoing
      reads this
    {
      Outgoing(out, txBuf)
    }

    ghost predicate Waits()
      reads this
    {
      script != [] && script[0] == Wait
    }

    method Next() returns (a: Answer)
      modifies this`script
      ensures |script| <= |old(script)| && (old(Open()) ==> Open() && a != Close)
      ensures a == Wait <==> old(Waits())
      ensures a == Wait ==> script == old(script)[1..]
    {
      if script == [] {
        return Serve;
      }
      a, script := script[0], script[1..];
    }

    /** Ready means that the slot is free: what was in it has gone to the socket. */
    method PollSendReady() returns (ready: bool)
      modifies this`out, this`txBuf, this`script
      ensures Taken() == old(Taken()) && |script| <= |old(script)| && (old(Open()) ==> Open())
      ensures ready ==> txBuf == None
      ensures !ready ==> |script| < |old(script)| && Outbox() == old(Outbox())
      ensures old(Waits()) ==> !ready && script == old(script)[1..]
      ensures old(txBuf.None?) ==> Outbox() == old(Outbox())
    {
      var socket := Next();
      if socket == Wait {
        return false;
      }
      if txBuf.Some? {
        var send := Next();
        if send == Wait {
          return false;
        }
        out, txBuf := out + [txBuf.value], None;
      }
      ready := true;
    }

    /** Fills the slot. The precondition is what keeps an unsent packet from being overwritten. */
    method SendTo(p: Packet)
      requires txBuf == None
      modifies this`txBuf
      ensures Taken() == old(Taken()) + [p]
    {
      txBuf := Some(p);
    }

    // A packet, or None once the channel is closed or the session has been idle for too long.
    method PollRecvFrom() returns (r: Poll<Option<Packet>>)
      modifies this`incoming, this`script, this`ended, this`closed
      ensures |script| <= |old(script)| && (old(Open()) ==> Open())
      ensures ended == (old(ended) || r == Ready(None))
      ensures r == Ready(None) ==> closed || incoming == []
      ensures r.Pending? <==> old(Waits())
      ensures r.Pending? ==> script == old(script)[1..] && incoming == old(incoming)
      ensures r == Ready(None) ==> incoming == old(incoming)
      ensures r.Ready? && r.value.Some? ==> [r.value.value] + incoming == old(incoming)
    {
      var channel := Next();
      if channel == Wait {
        return Pending;
      }
      if channel == Close || incoming == [] {
        ended, closed := true, closed || channel == Close;
        return Ready(None);
      }
      r := Ready(Some(incoming[0]));
      incoming := incoming[1..];
    }
  }

  // What one half of a loop turn asks for: the next turn, the end of the session, or neither.
  datatype Turn = Again | Finished | Fall

  /** One direction of the pump: its source, its sink, the packet in hand and the byte counter. */
  class Direction {
    const from: Session
    const to: Session
    var buf: Option<Packet>
    var written: nat
    ghost const source: seq<Packet>

    constructor (from: Session, to: Session)
      requires from != to && to.Taken() == []
      ensures this.from == from && this.to == to && buf == None && written == 0
      ensures source == from.incoming && Valid()
    {
      this.from, this.to, buf, written, source := from, to, None, 0, from.incoming;
    }

    /** Conservation: packets sent, the packet in hand and those still to come are, in this order,
        exactly the packets of the source; the counter is the length of those sent. */
    ghost predicate Valid()
      reads this, from, to
    {
      && from != to
      && to.Taken() + AsSeq(buf) + from.incoming == source
      && written == TotalLen(to.Taken()) % COUNTER_SPAN
    }

    ghost function Work(): nat
      reads this, from
    {
      2 * |from.incoming| + |AsSeq(buf)|
    }

    // The source has ended with nothing in hand, closed early or with nothing left.
    ghost predicate Over()
      reads this, from
    {
      from.ended && buf == None && (from.closed || from.incoming == [])
    }

    ghost predicate Open()
      reads this, from, to
    {
      from.Open() && to.Open()
    }

    // The sink is ready: it gets the packet in hand.
    method HandOn()
      requires Valid() && buf.Some? && to.txBuf == None
      modifies this`buf, this`written, to`txBuf
      ensures Valid() && buf == None && Work() < old(Work())
    {
      var p := buf.value;
      ghost var taken := to.Taken();
      to.SendTo(p);
      Handed(taken, p, from.incoming);
      WrapOnce(TotalLen(taken), |p.data|);
      written := (written + |p.data|) % COUNTER_SPAN;
      buf := None;
    }

    // A packet is in hand: it is sent once the sink is ready, or stays in hand.
    method SendInHand() returns (turn: Turn)
      requires Valid() && buf.Some?
      modifies this`buf, this`written
      modifies from`incoming, from`script, from`ended, from`closed, to`out, to`txBuf, to`script
      ensures Valid() && turn != Finished && from.ended == old(from.ended)
      ensures old(Open()) ==> Open()
      ensures turn == Again ==> Work() < old(Work())
      ensures turn != Again ==> Work() == old(Work()) && buf == old(buf)
      ensures from.script == old(from.script) && |to.script| <= |old(to.script)|
      ensures turn == Fall ==> |to.script| < |old(to.script)|
      ensures old(to.Waits()) ==> turn == Fall && to.script == old(to.script)[1..]
      ensures turn == Fall ==> to.Outbox() == old(to.Outbox())
    {
      var ready := to.PollSendReady();
      if ready {
        HandOn();
      }
      turn := if ready then Again else Fall;
    }

    // Nothing is in hand: the next packet is taken from the source.
    method TakeNext() returns (turn: Turn)
      requires Valid() && buf.None?
      modifies this`buf, this`written
      modifies from`incoming, from`script, from`ended, from`closed, to`out, to`txBuf, to`script
      ensures Valid()
      ensures old(Open()) ==> Open()
      ensures from.ended == (old(from.ended) || turn == Finished) && (turn == Finished ==> Over())
      // the sink's slot was offered to its socket
      ensures to.txBuf == None || |to.script| < |old(to.script)|
      ensures turn == Again ==> Work() < old(Work())
      ensures turn != Again ==> Work() == old(Work()) && buf == None
      ensures |from.script| <= |old(from.script)| && |to.script| <= |old(to.script)|
      ensures turn == Fall ==> |from.script| < |old(from.script)|
      ensures old(from.Waits()) ==> turn == Fall && from.script == old(from.script)[1..]
      ensures old(to.txBuf.None?) ==> to.Outbox() == old(to.Outbox())
    {
      var _ := to.PollSendReady();
      ghost var left := from.incoming;
      var received := from.PollRecvFrom();
      match received
      case Pending =>
        turn := Fall;
      case Ready(None) =>
        turn := Finished;
      case Ready(Some(p)) =>
        Taking(to.Taken(), p, from.incoming, left);
        buf := Some(p);
        turn := Again;
    }

    /** One half of a turn of the loop in `on_session`. A sent or received packet starts the loop
        over; a packet that cannot be sent yet is put back and the half falls through. */
    method Half() returns (turn: Turn)
      requires Valid()
      modifies this`buf, this`written
      modifies from`incoming, from`script, from`ended, from`closed, to`out, to`txBuf, to`script
      ensures Valid()
      ensures old(Open()) ==> Open()
      ensures from.ended == (old(from.ended) || turn == Finished) && (turn == Finished ==> Over())
      ensures turn == Again ==> Work() < old(Work())
      ensures turn != Again ==> Work() == old(Work()) && buf == old(buf)
      ensures |from.script| <= |old(from.script)| && |to.script| <= |old(to.script)|
      ensures turn == Fall ==> |from.script| + |to.script| < |old(from.script)| + |old(to.script)|
      ensures turn == Finished ==> buf == None
      ensures old(buf.Some? && to.Waits()) ==>
        && turn == Fall && to.script == old(to.script)[1..] && from.script == old(from.script)
        && to.Outbox() == old(to.Outbox())
      ensures old(buf.None? && from.Waits()) ==> turn == Fall && from.script == old(from.script)[1..]
      ensures old(buf.None? && to.txBuf.None?) ==> to.Outbox() == old(to.Outbox())
    {
      if buf.Some? {
        turn := SendInHand();
      } else {
        turn := TakeNext();
      }
    }
  }

  lemma Handed(taken: seq<Packet>, p: Packet, rest: seq<Packet>)
    ensures taken + AsSeq(Some(p)) + rest == taken + [p] + AsSeq(None) + rest
    ensures TotalLen(taken + [p]) == TotalLen(taken) + |p.data|
  {
    assert (taken + [p])[..|taken|] == taken;
    assert taken + [p] + [] == taken + [p];
  }

  lemma Taking(taken: seq<Packet>, p: Packet, rest: seq<Packet>, left: seq<Packet>)
    requires [p] + rest == left
    ensures taken + AsSeq(Some(p)) + rest == taken + AsSeq(None) + left
  {
    assert taken + [p] + rest == taken + ([p] + rest);
    assert taken + [] == taken;
  }

  /** The pump of one UDP association: the uplink runs from the session to the outbound, the
      downlink back. */
  class Pump {
    const up: Direction
    const down: Direction

    ghost predicate Valid()
      reads this, up, down, up.from, up.to, down.from, down.to
    {
      && up != down && up.from == down.to && up.to == down.from
      && up.Valid() && down.Valid()
    }

    constructor (up: Direction, down: Direction)
      requires up != down && up.from == down.to && up.to == down.from && up.Valid() && down.Valid()
      ensures this.up == up && this.down == down && Valid()
    {
      this.up, this.down := up, down;
    }

    ghost predicate Ended()
      reads this, up, down, up.from, down.from
    {
      up.from.ended || down.from.ended
    }

    // A source has ended, with nothing of it in hand.
    ghost predicate Over()
      reads this, up, down, up.from, down.from
    {
      up.Over() || down.Over()
    }

    // The first half of a turn.
    method UpHalf() returns (turn: Turn)
      requires Valid()
      modifies up`buf, up`written
      modifies up.from`incoming, up.from`script, up.from`ended, up.from`closed
      modifies up.to`out, up.to`txBuf, up.to`script
      ensures Valid()
      ensures old(up.Open()) ==> up.Open()
      ensures down.from.ended == old(down.from.ended)
      ensures up.from.ended == (old(up.from.ended) || turn == Finished)
      ensures turn == Finished ==> up.Over()
      ensures turn == Again ==> Work() < old(Work())
      ensures turn != Again ==> Work() == old(Work())
      ensures turn == Fall ==> Patience() < old(Patience())
      ensures old(Stuck()) ==>
        && turn == Fall && Held() == old(Held()) && up.from.script == old(up.from.script)[1..]
    {
      turn := up.Half();
    }

    // The second half.
    method DownHalf() returns (r: Option<bool>)
      requires Valid()
      modifies down`buf, down`written
      modifies up.from, up.to
      ensures Valid() && Work() <= old(Work()) && Patience() <= old(Patience())
      ensures old(up.Open()) ==> up.Open()
      ensures up.from.ended == old(up.from.ended)
      ensures down.from.ended == (old(down.from.ended) || r == Some(true))
      ensures r == Some(true) ==> down.Over()
      ensures r == Some(false) ==> old(down.buf.None?) && down.buf == None && Work() == old(Work())
      ensures Work() == old(Work()) && r != Some(true) ==> (r == Some(false) <==> old(down.buf.None?))
      ensures old(down.buf.Some? && up.from.Waits()) ==>
        && r == None && Work() == old(Work()) && Held() == old(Held())
        && up.from.script == old(up.from.script)[1..]
    {
      var waiting := down.buf.Some?;
      var turn := down.Half();
      if turn == Finished {
        return Some(true);
      }
      r := if turn == Fall && !waiting then Some(false) else None;
    }

    // One turn of the loop; None sends it round again.
    method LoopTurn() returns (r: Option<bool>)
      requires Valid() && !Ended()
      modifies up`buf, up`written, down`buf, down`written
      modifies up.from, up.to
      ensures Valid() && (old(up.Open()) ==> up.Open())
      // it ends exactly when a source does, and yields only if nothing moved
      ensures r == Some(true) <==> Ended()
      ensures r == Some(true) ==> Over()
      ensures r == Some(false) ==> Work() == old(Work())
      ensures r == Some(false) ==> down.buf == None
      ensures old(down.buf.Some?) ==> r != Some(false)
      // a turn in which nothing moves yields exactly when no downlink packet is in hand
      ensures Work() == old(Work()) && r != Some(true) ==> (r == Some(false) <==> old(down.buf.None?))
      ensures r == None ==> Work() < old(Work()) || (Work() == old(Work()) && Patience() < old(Patience()))
      ensures old(Stuck()) ==>
        && r == None && Work() == old(Work()) && Held() == old(Held())
        && up.from.script == old(up.from.script)[2..]
    {
      var turn := UpHalf();
      match turn
      case Again =>
        r := None;
      case Finished =>
        r := Some(true);
      case Fall =>
        ghost var script := up.from.script;
        r := DownHalf();
        assert old(Stuck()) ==> script[1..] == old(up.from.script)[2..];
    }

    // What the two directions and the two sessions hold or have sent.
    ghost function Held(): (Option<Packet>, Option<Packet>, Outgoing, Outgoing)
      reads this, up, down, up.from, up.to
    {
      (up.buf, down.buf, up.from.Outbox(), up.to.Outbox())
    }

    // A downlink packet is in hand, and the client is neither ready for it nor sends anything.
    ghost predicate Stuck()
      reads this, up, down, up.from, up.to
    {
      && up.buf == None && up.to.txBuf == None && down.buf.Some?
      && |up.from.script| >= 2 && up.from.script[0] == up.from.script[1] == Wait
    }

    ghost function Work(): nat
      reads this, up, down, up.from, down.from
    {
      up.Work() + down.Work()
    }

    ghost function Patience(): nat
      reads this, up, up.from, up.to
    {
      |up.from.script| + |up.to.script|
    }

    /** One poll of the pump. Both directions conserve their packets throughout. It ends exactly when
        a source has ended and nothing of it is in hand; without a channel that closes early, all
        packets of that source have then been given to its sink. Otherwise it yields, with an empty
        downlink slot: while a downlink packet waits for its sink the loop keeps polling instead. */
    method Poll() returns (finished: bool)
      requires Valid() && !Ended()
      modifies up`buf, up`written, down`buf, down`written
      modifies up.from, up.to
      ensures Valid() && (finished <==> Ended()) && (finished ==> Over())
      ensures finished && old(up.Open()) ==>
        up.to.Taken() == up.source || down.to.Taken() == down.source
      ensures !finished ==> down.buf == None
    {
      while true
        invariant Valid() && !Ended() && (old(up.Open()) ==> up.Open())
        decreases Work(), Patience()
      {
        var r := LoopTurn();
        if r.Some? {
          if r.value && up.Open() {
            AllTaken(this);
          }
          return r.value;
        }
      }
    }
  }

  // A source that ended by itself has nothing left outside its sink.
  lemma AllTaken(pump: Pump)
    requires pump.Valid() && pump.Over() && pump.up.Open()
    ensures pump.up.to.Taken() == pump.up.source || pump.down.to.Taken() == pump.down.source
  {
    var way := if pump.up.Over() then pump.up else pump.down;
    assert way.to.Taken() + [] + [] == way.to.Taken();
  }

  // An association with one downlink packet in hand, a client that will not be ready for `waits`
  // polls, and nothing else to move.
  method Clogged(p: Packet, waits: nat) returns (pump: Pump)
    ensures fresh(pump.up) && fresh(pump.down) && fresh(pump.up.from) && fresh(pump.up.to)
    ensures pump.Valid() && !pump.Ended()
    ensures pump.Held() == (None, Some(p), Outgoing([], None), Outgoing([], None))
    ensures pump.up.from.script == seq(waits, _ => Wait)
  {
    var client := new Session([], seq(waits, _ => Wait));
    var lower := new Session([p], []);
    var up := new Direction(client, lower);
    var down := new Direction(lower, client);
    lower.incoming, down.buf := [], Some(p);
    assert client.Taken() + [p] + [] == client.Taken() + [] + [p];
    pump := new Pump(up, down);
  }

  /** For every number of turns there is an association whose loop makes that many without yielding,
      without ending and without moving anything. */
  method FullSlotSpins(p: Packet, turns: nat) returns (pump: Pump, spun: nat)
    ensures spun == turns
    ensures pump.Held() == (None, Some(p), Outgoing([], None), Outgoing([], None))
  {
    pump := Clogged(p, 2 * turns);
    ghost var held := pump.Held();
    spun := 0;
    while spun < turns
      invariant spun <= turns && pump.Valid() && !pump.Ended() && pump.Held() == held
      invariant |pump.up.from.script| == 2 * (turns - spun)
      invariant forall i :: 0 <= i < |pump.up.from.script| ==> pump.up.from.script[i] == Wait
    {
      var r := pump.LoopTurn();
      if r != None {
        return;
      }
      spun := spun + 1;
    }
  }
}
