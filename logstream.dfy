/**
 * The live log hub: one loop owns the set of subscribed clients and applies
 * register, unregister and broadcast events to it. Each client has a send
 * queue of capacity 256; a broadcast that finds a queue full drops that
 * client and closes its queue. A client's write pump sends everything
 * queued as one newline-joined frame, and a close frame once its queue is
 * closed and drained. The WebSocket transport, deadlines, pings and
 * goroutines are not modelled: events are applied one at a time.
 */
module LogStream {
  import opened Wrappers
  import opened Text

  newtype byte = b: int | 0 <= b < 256

  type Message = seq<byte>

  /** Capacity of each client's send queue. */
  const SendBufferSize: nat := 256

  const Newline: byte := 10

  /** Every queue is within the send-queue capacity. */
  ghost predicate Bounded<K>(queues: map<K, seq<Message>>)
  {
    forall c :: c in queues ==> |queues[c]| <= SendBufferSize
  }

  /** One broadcast, on the queues of the registered clients: a client with
      room gets the message at the tail, a client whose queue is full is
      dropped. */
  function Deliver<K>(queues: map<K, seq<Message>>, msg: Message): (r: map<K, seq<Message>>)
    ensures r.Keys <= queues.Keys
    ensures Bounded(queues) ==> Bounded(r)
    ensures forall c :: c in r ==> |r[c]| == |queues[c]| + 1 && r[c][..|queues[c]|] == queues[c]
  {
    map c | c in queues && |queues[c]| < SendBufferSize :: queues[c] + [msg]
  }

  /** Several broadcasts in a row, with no client draining in between. */
  function DeliverAll<K>(queues: map<K, seq<Message>>, msgs: seq<Message>): map<K, seq<Message>>
    decreases |msgs|
  {
    if msgs == [] then queues else DeliverAll(Deliver(queues, msgs[0]), msgs[1..])
  }

  /** A client with room for all of `msgs` keeps its place and receives all
      of them, in order, after what it already had, whatever happens to the
      other clients. */
  lemma {:induction false} DeliverAllReceivesAll<K>(queues: map<K, seq<Message>>, msgs: seq<Message>, c: K)
    requires c in queues && |queues[c]| + |msgs| <= SendBufferSize
    ensures c in DeliverAll(queues, msgs)
    ensures DeliverAll(queues, msgs)[c] == queues[c] + msgs
    decreases |msgs|
  {
    if msgs != [] {
      var next := Deliver(queues, msgs[0]);
      DeliverAllReceivesAll(next, msgs[1..], c);
      assert queues[c] + [msgs[0]] + msgs[1..] == queues[c] + msgs;
    }
  }

  /** A client without room for all of `msgs` is dropped along the way. */
  lemma {:induction false} DeliverAllDropsOverrun<K>(queues: map<K, seq<Message>>, msgs: seq<Message>, c: K)
    requires Bounded(queues)
    requires c in queues && |queues[c]| + |msgs| > SendBufferSize
    ensures c !in DeliverAll(queues, msgs)
    decreases |msgs|
  {
    var next := Deliver(queues, msgs[0]);
    if c in next {
      DeliverAllDropsOverrun(next, msgs[1..], c);
    } else {
      DeliverAllAbsent(next, msgs[1..], c);
    }
  }

  /** A dropped client never comes back through broadcasts. */
  lemma {:induction false} DeliverAllAbsent<K>(queues: map<K, seq<Message>>, msgs: seq<Message>, c: K)
    requires c !in queues
    ensures c !in DeliverAll(queues, msgs)
    decreases |msgs|
  {
    if msgs != [] {
      DeliverAllAbsent(Deliver(queues, msgs[0]), msgs[1..], c);
    }
  }

  /** The log lines the standard logger hands over for the texts `texts`.
      A text is a line's content without its terminating newline; the logger
      appends the newline only when the output does not already end in one,
      so every line handed over ends in exactly one newline after its text. */
  function Lines(texts: seq<Message>): (lines: seq<Message>)
    ensures |lines| == |texts|
    ensures forall i :: 0 <= i < |texts| ==> lines[i] == texts[i] + [Newline]
  {
    seq(|texts|, i requires 0 <= i < |texts| => texts[i] + [Newline])
  }

  /** Each text followed by an empty part: what a frame of log lines splits
      into, the empty part lying between a line's own newline and the
      separator the pump puts after it. */
  function LineParts(texts: seq<Message>): (parts: seq<Message>)
    ensures |parts| == 2 * |texts|
    ensures (forall i :: 0 <= i < |texts| ==> Newline !in texts[i]) ==>
              forall k :: 0 <= k < |parts| ==> Newline !in parts[k]
    decreases |texts|
  {
    if texts == [] then []
    else [texts[0], []] + LineParts(texts[1..])
  }

  /** Text number i sits at position 2i, followed by an empty part. */
  lemma {:induction false} LinePartsAt(texts: seq<Message>, i: nat)
    requires i < |texts|
    ensures LineParts(texts)[2 * i] == texts[i] && LineParts(texts)[2 * i + 1] == []
    decreases i
  {
    if i > 0 {
      LinePartsAt(texts[1..], i - 1);
      assert LineParts(texts)[2 * i] == LineParts(texts[1..])[2 * (i - 1)];
      assert LineParts(texts)[2 * i + 1] == LineParts(texts[1..])[2 * (i - 1) + 1];
    }
  }

  /** A frame of log lines is the newline-join of their texts and empty parts. */
  lemma {:induction false} FrameOfLines(texts: seq<Message>)
    requires |texts| >= 1
    ensures Join(Lines(texts), Newline) == Join(LineParts(texts), Newline)
    decreases |texts|
  {
    var parts := LineParts(texts);
    if |texts| == 1 {
      assert parts[1..] == [[]];
    } else {
      FrameOfLines(texts[1..]);
      assert Lines(texts)[1..] == Lines(texts[1..]);
      var rest := LineParts(texts[1..]);
      assert parts[1..] == [[]] + rest;
      assert parts[1..][1..] == rest;
      assert Join(parts[1..], Newline) == [] + [Newline] + Join(rest, Newline);
    }
  }

  /** Splitting a frame of newline-terminated log lines at newlines gives
      each line's text followed by an empty part. */
  lemma FrameRecoversMessages(texts: seq<Message>)
    requires |texts| >= 1
    requires forall i :: 0 <= i < |texts| ==> Newline !in texts[i]
    ensures Split(Join(Lines(texts), Newline), Newline) == LineParts(texts)
  {
    FrameOfLines(texts);
    SplitJoin(LineParts(texts), Newline);
  }

  /** Two lines "A\n" and "B\n" batched in one frame split into "A", "", "B", "". */
  lemma FrameOfTwoLines()
    ensures Split(Join([[65, 10], [66, 10]], Newline), Newline) == [[65], [], [66], []]
  {
    var texts: seq<Message> := [[65], [66]];
    assert [65] + [Newline] == [65, 10] && [66] + [Newline] == [66, 10];
    assert Lines(texts)[0] == [65, 10] && Lines(texts)[1] == [66, 10];
    assert Lines(texts) == [[65, 10], [66, 10]];
    FrameRecoversMessages(texts);
    assert LineParts(texts) == [[65], [], [66], []];
  }

  /** What one turn of a client's write pump puts on the wire. */
  datatype PumpStep =
    | Waiting              // nothing queued and the queue is open: the pump blocks
    | CloseFrame           // queue closed and drained: a close frame, then the pump stops
    | TextFrame(frame: Message)

  class Client {
    /** The buffered send channel. */
    var send: seq<Message>
    /** Whether the hub has closed the send channel. */
    var closed: bool

    /** A new subscriber, with an empty open queue of capacity SendBufferSize. */
    constructor ()
      ensures send == [] && !closed
    {
      send := [];
      closed := false;
    }

    /** One turn of the write pump: the first queued message followed by
        "\n" + m for each message still queued, in FIFO order, leaving the
        queue empty; a close frame once the queue is closed and empty. */
    method WritePumpStep() returns (out: PumpStep)
      modifies this
      ensures closed == old(closed)
      ensures old(send) == [] ==> send == [] && out == (if closed then CloseFrame else Waiting)
      ensures old(send) != [] ==> send == [] && out == TextFrame(Join(old(send), Newline))
    {
      if send == [] {
        out := if closed then CloseFrame else Waiting;
        return;
      }
      var message := send[0];
      send := send[1..];
      var frame := message;
      var n := |send|;
      for i := 0 to n
        invariant send == old(send)[1 + i..] && closed == old(closed)
        invariant frame == Join(old(send)[..1 + i], Newline)
      {
        JoinSnoc(old(send)[..1 + i], Newline, send[0]);
        assert old(send)[..1 + i] + [send[0]] == old(send)[..2 + i];
        frame := frame + [Newline] + send[0];
        send := send[1..];
      }
      assert old(send)[..1 + n] == old(send);
      out := TextFrame(frame);
    }
  }

  /** The three kinds of message the hub's loop receives. */
  datatype HubEvent =
    | RegisterEvent(client: Client)
    | UnregisterEvent(client: Client)
    | BroadcastEvent(message: Message)

  class Hub {
    var clients: set<Client>

    /** Every registered client has an open queue within capacity. */
    ghost predicate Valid()
      reads this, clients
    {
      forall c :: c in clients ==> !c.closed && |c.send| <= SendBufferSize
    }

    /** The queue of each registered client. */
    ghost function Queues(): map<Client, seq<Message>>
      reads this, clients
    {
      map c | c in clients :: c.send
    }

    constructor ()
      ensures Valid() && clients == {}
    {
      clients := {};
    }

    /** Adding a client; adding one that is already there changes nothing. */
    method Register(c: Client)
      requires Valid()
      requires !c.closed && |c.send| <= SendBufferSize
      modifies this
      ensures Valid()
      ensures clients == old(clients) + {c}
      ensures Queues() == old(Queues())[c := c.send]
    {
      clients := clients + {c};
    }

    /** Removing a registered client closes its queue; an unknown client is
        ignored, so no queue is closed twice. */
    method Unregister(c: Client)
      requires Valid()
      modifies this, c
      ensures Valid()
      ensures clients == old(clients) - {c}
      ensures Queues() == old(Queues()) - {c}
      ensures c.send == old(c.send)
      ensures c in old(clients) ==> !old(c.closed) && c.closed
      ensures c !in old(clients) ==> c.closed == old(c.closed)
    {
      if c in clients {
        clients := clients - {c};
        c.closed := true;
      }
    }

    /** Offers the message to every client without blocking. */
    method Broadcast(msg: Message)
      requires Valid()
      modifies this, clients
      ensures Valid()
      ensures Queues() == Deliver(old(Queues()), msg)
      ensures clients <= old(clients)
      ensures forall c :: c in old(clients) && c !in clients ==> c.closed && c.send == old(c.send)
    {
      var pending := clients;
      while pending != {}
        invariant pending <= clients <= old(clients)
        invariant forall c :: c in old(clients) && c !in pending ==>
                    if |old(c.send)| < SendBufferSize
                    then c in clients && !c.closed && c.send == old(c.send) + [msg]
                    else c !in clients && c.closed && c.send == old(c.send)
        invariant forall c :: c in pending ==> c.send == old(c.send) && c.closed == old(c.closed)
        decreases pending
      {
        var c :| c in pending;
        if |c.send| < SendBufferSize {
          c.send := c.send + [msg];
        } else {
          c.closed := true;
          clients := clients - {c};
        }
        pending := pending - {c};
      }
      assert Queues().Keys == Deliver(old(Queues()), msg).Keys;
    }

    /** One turn of the hub's loop: apply whichever event arrived. */
    method Apply(e: HubEvent)
      requires Valid()
      requires e.RegisterEvent? ==> !e.client.closed && |e.client.send| <= SendBufferSize
      modifies this, clients, if e.UnregisterEvent? then {e.client} else {}
      ensures Valid()
      ensures Queues() == match e
                          case RegisterEvent(c) => old(Queues())[c := c.send]
                          case UnregisterEvent(c) => old(Queues()) - {c}
                          case BroadcastEvent(m) => Deliver(old(Queues()), m)
    {
      match e
      case RegisterEvent(c) => Register(c);
      case UnregisterEvent(c) => Unregister(c);
      case BroadcastEvent(m) => Broadcast(m);
    }
  }

  /** The log writer that feeds the hub. */
  class Broadcaster {
    constructor ()
    {
    }

    /** Hands a copy of `p` to the hub when there is a hub and it takes the
        message now (`hubReady`); otherwise the message is dropped. Always
        reports the whole of `p` written and no error. */
    method Write(hub: Hub?, p: array<byte>, hubReady: bool) returns (n: int, err: Option<string>)
      requires hub != null ==> hub.Valid()
      modifies hub, if hub != null then hub.clients else {}
      ensures n == p.Length && err == None
      ensures hub != null ==> hub.Valid()
      ensures hub != null && hubReady ==> hub.Queues() == Deliver(old(hub.Queues()), old(p[..]))
      ensures hub != null && !hubReady ==> hub.Queues() == old(hub.Queues())
    {
      if hub != null {
        var msg := p[..];
        if hubReady {
          hub.Broadcast(msg);
        }
      }
      return p.Length, None;
    }
  }

  /** The logger reuses its buffer after each write: what the hub queued is
      the text at the time of the write, not what the buffer holds later. */
  method WriteThenReuseBuffer(b: Broadcaster, hub: Hub, p: array<byte>)
    requires hub.Valid() && p.Length > 0
    modifies hub, hub.clients, p
    ensures hub.Queues() == Deliver(old(hub.Queues()), old(p[..]))
  {
    var n, err := b.Write(hub, p, true);
    p[0] := if p[0] == 0 then 1 else 0;
  }
}
