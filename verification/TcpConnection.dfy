// hl/net/tcp/tcp_connection.cc: reading into the in-buffer, executing what was decoded, writing the
// out-buffer, and the connection states.
//
// `Conn` is the value of a connection.  What the kernel answers to each read and write is a script
// of results; when a script runs out, the next call would block.  A callback is an opaque token, and
// running it is recorded in `fired`; callbacks are taken not to use the connection they run on.

module TcpConnections {
  import opened Bytes
  import opened Buffers
  import opened TinyPB
  import opened TinyPBDecode
  import opened TinyPBBackward
  import opened TinyPBCoder
  import opened RpcDispatchers

  datatype TcpState = NotConnected | Connected | HalfClosing | Closed

  datatype ConnectionType = ByServer | ByClient

  type Callback = nat

  datatype Conn = Conn(
    state: TcpState,
    kind: ConnectionType,
    inBuf: Buf,
    out: seq<byte>,                          // the readable bytes of the out-buffer
    readDones: map<seq<byte>, Callback>,
    writeDones: seq<(Message, Callback)>,
    fired: seq<(Callback, Message)>,
    wire: seq<byte>,                         // everything the socket took
    patience: nat,                           // how many moves back of the decoder are followed at a time
    writing: bool                            // whether the writable event is listened for
  )

  // ---------------------------------------------------------------- reading

  /** Bytes that are there to be read, none at the end of the stream; a read takes as many as it has space for. */
  datatype ReadResult = Arrived(bs: seq<byte>) | ReadBlocked | ReadError

  /** `closed` is set when the peer's end of stream was read. */
  datatype Reading = Reading(b: Buf, closed: bool)

  datatype ReadTurn = ReadOn(b: Buf) | ReadDone(end: Reading)

  /** A full array is doubled before the next read. */
  function MakeRoom(b: Buf): (b': Buf)
    requires b.Ok()
    ensures b'.Ok()
  {
    if b.Writable() == 0 then Resize(b, 2 * |b.data|) else b
  }

  /** A read hands over what fits the free space. */
  function Clipped(bs: seq<byte>, free: int): seq<byte>
    requires 0 <= free
  {
    bs[..Min(|bs|, free)]
  }

  /** Bytes read into the free space; the write index moves only when some of it is left. */
  function Take(b: Buf, got: seq<byte>): (b': Buf)
    requires b.Ok() && |got| <= b.Writable()
    ensures b'.Ok()
  {
    MoveWrite(Poke(b, got), |got|)
  }

  /** One turn of the read loop. */
  function ReadOnce(b: Buf, result: ReadResult): (t: ReadTurn)
    requires b.Ok()
    ensures if t.ReadOn? then t.b.Ok() else t.end.b.Ok()
  {
    var room := MakeRoom(b);
    match result
    case ReadBlocked => ReadDone(Reading(room, false))
    case ReadError => ReadOn(room)
    case Arrived(bs) =>
      var got := Clipped(bs, room.Writable());
      if got == [] then ReadDone(Reading(room, true))
      else if |got| == room.Writable() then ReadOn(Take(room, got))
      else ReadDone(Reading(Take(room, got), false))
  }

  /** What is there for the next read: bytes that did not fit this one come before everything else. */
  function Later(script: seq<ReadResult>, free: nat): (later: seq<ReadResult>)
    requires script != []
    ensures |script| - 1 <= |later| <= |script|
    ensures |later| == |script| ==> Pieces(later) == Pieces(script) - free
  {
    if script[0].Arrived? && |script[0].bs| > free then [Arrived(script[0].bs[free..])] + script[1..] else script[1..]
  }

  /** The bytes that wait at the front of the script. */
  function Pieces(script: seq<ReadResult>): nat {
    if script != [] && script[0].Arrived? then |script[0].bs| else 0
  }

  function ReadLoop(b: Buf, script: seq<ReadResult>): (r: Reading)
    requires b.Ok()
    ensures r.b.Ok()
    decreases |script|, Pieces(script)
  {
    match ReadOnce(b, if script == [] then ReadBlocked else script[0])
    case ReadDone(r) => r
    case ReadOn(b') =>
      if script == [] then Reading(b', false) else ReadLoop(b', Later(script, MakeRoom(b).Writable()))
  }

  // ---------------------------------------------------------------- executing

  function Serve(services: map<seq<byte>, Service>, requests: seq<Message>): (replies: seq<Message>)
    ensures |replies| == |requests|
    ensures forall k | 0 <= k < |requests| :: replies[k] == Reply(services, requests[k], BLANK)
  {
    seq(|requests|, k requires 0 <= k < |requests| => Reply(services, requests[k], BLANK))
  }

  /** The payloads services answer with leave room for the rest of a frame in an `int`. */
  ghost predicate Modest(services: map<seq<byte>, Service>) {
    forall s, m, x :: s in services && m in services[s] && services[s][m](x).Response? ==>
      |services[s][m](x).payload| <= INT_MAX - 1000
  }

  lemma ReplySizable(services: map<seq<byte>, Service>, req: Message)
    requires Modest(services) && NamesBounded(req)
    ensures Sizable(Reply(services, req, BLANK))
  {
  }

  lemma RepliesSizable(services: map<seq<byte>, Service>, requests: seq<Message>)
    requires Modest(services) && AllNamesBounded(requests)
    ensures AllSizable(Serve(services, requests))
  {
    forall k | 0 <= k < |requests|
      ensures Sizable(Serve(services, requests)[k])
    {
      ReplySizable(services, requests[k]);
    }
  }

  datatype Delivery = Delivery(table: map<seq<byte>, Callback>, fired: seq<(Callback, Message)>)

  /** Replies in order: the callback registered for an id runs with its reply and is removed. */
  function Deliver(table: map<seq<byte>, Callback>, replies: seq<Message>): Delivery {
    if replies == [] then Delivery(table, [])
    else
      var id := replies[0].msgId;
      if id in table then
        var d := Deliver(table - {id}, replies[1..]);
        Delivery(d.table, [(table[id], replies[0])] + d.fired)
      else Deliver(table, replies[1..])
  }

  function Register(table: map<seq<byte>, Callback>, id: seq<byte>, done: Callback): map<seq<byte>, Callback> {
    if id in table then table else table[id := done]
  }

  // ---------------------------------------------------------------- steps

  function Cleared(c: Conn): Conn {
    if c.state == Closed then c else c.(state := Closed, writing := false)
  }

  function ShutOff(c: Conn): Conn {
    if c.state == Closed || c.state == NotConnected then c else c.(state := HalfClosing)
  }

  datatype Step = Step(c: Conn, outcome: Outcome)

  /** How encoding these messages ends. */
  function Encoding(ms: seq<Message>): Outcome {
    if Overruns(ms) then Overrun else Done
  }

  /**
   * `excute`: nothing after the decoder runs when the decoder does not return.  When a reply overruns its
   * allocation the state is the one after a run that it did not damage.
   */
  ghost function Executed(services: map<seq<byte>, Service>, c: Conn): (s: Step)
    requires c.inBuf.Ok() && Modest(services)
    ensures s.c.inBuf.Ok()
  {
    var d := DecodeOn(c.inBuf, c.patience);
    if d.outcome != Done then Step(c.(inBuf := d.b), d.outcome)
    else if c.kind == ByServer then
      OnNames(c.inBuf, c.patience);
      RepliesSizable(services, d.msgs);
      Step(c.(inBuf := d.b, out := c.out + EncodeAll(Serve(services, d.msgs)), writing := true),
           Encoding(Serve(services, d.msgs)))
    else
      var v := Deliver(c.readDones, d.msgs);
      Step(c.(inBuf := d.b, readDones := v.table, fired := c.fired + v.fired), Done)
  }

  ghost function AfterRead(services: map<seq<byte>, Service>, c: Conn, script: seq<ReadResult>): (s: Step)
    requires c.inBuf.Ok() && Modest(services)
    ensures s.c.inBuf.Ok()
  {
    if c.state != Connected then Step(c, Done)
    else
      var r := ReadLoop(c.inBuf, script);
      if r.closed then Step(Cleared(c.(inBuf := r.b)), Done)
      else Executed(services, c.(inBuf := r.b))
  }

  // ---------------------------------------------------------------- writing

  datatype WriteResult = Wrote(n: nat) | WriteBlocked | WriteError

  datatype Sending = Sending(sent: seq<byte>, all: bool)

  /** The write loop: the read index never moves, so every turn offers all of the readable bytes. */
  function SendLoop(view: seq<byte>, script: seq<WriteResult>): Sending {
    if view == [] then Sending([], true)
    else if script == [] then Sending([], false)
    else
      match script[0]
      case WriteBlocked => Sending([], false)
      case WriteError => SendLoop(view, script[1..])
      case Wrote(n) =>
        if n >= |view| then Sending(view, true)
        else
          var s := SendLoop(view, script[1..]);
          Sending(view[..n] + s.sent, s.all)
  }

  function Firsts(dones: seq<(Message, Callback)>): (ms: seq<Message>)
    ensures |ms| == |dones| && forall k | 0 <= k < |ms| :: ms[k] == dones[k].0
  {
    seq(|dones|, k requires 0 <= k < |dones| => dones[k].0)
  }

  /** The write callbacks in queue order, each with its message as the encoder left it. */
  function Written(dones: seq<(Message, Callback)>): (f: seq<(Callback, Message)>)
    requires AllSizable(Firsts(dones))
    ensures |f| == |dones|
    ensures forall k | 0 <= k < |dones| :: f[k].0 == dones[k].1 && SameContent(dones[k].0, f[k].1)
  {
    seq(|dones|, k requires 0 <= k < |dones| =>
      assert Firsts(dones)[k] in Firsts(dones); (dones[k].1, Seal(dones[k].0)))
  }

  ghost function AfterWrite(c: Conn, script: seq<WriteResult>): Conn
    requires c.kind == ByClient ==> AllSizable(Firsts(c.writeDones))
  {
    if c.state != Connected then c
    else
      var out := if c.kind == ByClient then c.out + EncodeAll(Firsts(c.writeDones)) else c.out;
      var s := SendLoop(out, script);
      var c' := c.(out := out, wire := c.wire + s.sent, writing := c.writing && !s.all);
      if c.kind == ByServer then c'
      else c'.(writeDones := [], fired := c.fired + Written(c.writeDones))
  }

  /** Whether what a writable event encodes overruns an allocation. */
  predicate WriteOverruns(c: Conn) {
    c.state == Connected && c.kind == ByClient && Overruns(Firsts(c.writeDones))
  }

  // ---------------------------------------------------------------- the object

  lemma DeliverOn(table: map<seq<byte>, Callback>, replies: seq<Message>, i: nat)
    requires i < |replies|
    ensures var id, d := replies[i].msgId, Deliver(table, replies[i..]);
            var table' := if id in table then table - {id} else table;
            var d' := Deliver(table', replies[i + 1..]);
            d.table == d'.table
            && d.fired == (if id in table then [(table[id], replies[i])] else []) + d'.fired
  {
    assert replies[i..][0] == replies[i] && replies[i..][1..] == replies[i + 1..];
  }

  /** The message objects waiting to be written. */
  function Queue(dones: seq<(TinyPBProtocol, Callback)>): (ms: seq<TinyPBProtocol>)
    ensures |ms| == |dones| && forall k :: 0 <= k < |ms| ==> ms[k] == dones[k].0
  {
    seq(|dones|, k requires 0 <= k < |dones| => dones[k].0)
  }

  ghost function QueueValue(dones: seq<(TinyPBProtocol, Callback)>): (ds: seq<(Message, Callback)>)
    reads Queue(dones)
    ensures |ds| == |dones| && Firsts(ds) == Values(Queue(dones))
    ensures forall k :: 0 <= k < |ds| ==> ds[k].1 == dones[k].1
  {
    seq(|dones|, k requires 0 <= k < |dones| reads Queue(dones) => (Queue(dones)[k].Value(), dones[k].1))
  }

  /** `c'` is `c` after `msgs` were answered or delivered, field by field. */
  ghost predicate Settles(services: map<seq<byte>, Service>, c: Conn, c': Conn, msgs: seq<Message>) {
    && c' == c.(out := c'.out, readDones := c'.readDones, fired := c'.fired, writing := c'.writing)
    && (c.kind == ByServer ==>
          && AllSizable(Serve(services, msgs)) && c'.out == c.out + EncodeAll(Serve(services, msgs))
          && c'.writing && c'.readDones == c.readDones && c'.fired == c.fired)
    && (c.kind == ByClient ==>
          && c'.readDones == Deliver(c.readDones, msgs).table
          && c'.fired == c.fired + Deliver(c.readDones, msgs).fired
          && c'.out == c.out && c'.writing == c.writing)
  }

  lemma ExecutedIs(services: map<seq<byte>, Service>, c: Conn, c': Conn, msgs: seq<Message>, outcome: Outcome)
    requires c.inBuf.Ok() && Modest(services)
    requires DecodeOn(c.inBuf, c.patience) == Decoding(msgs, c'.inBuf, outcome)
    requires if outcome == Done then Settles(services, c.(inBuf := c'.inBuf), c', msgs) else c' == c.(inBuf := c'.inBuf)
    ensures Executed(services, c)
         == Step(c', if outcome == Done && c.kind == ByServer then Encoding(Serve(services, msgs)) else outcome)
  {
  }

  class TcpConnection {
    var state: TcpState
    var kind: ConnectionType
    const inBuffer: TcpBuffer
    const outBuffer: TcpBuffer
    const dispatcher: RpcDispatcher
    const patience: nat
    var readDones: map<seq<byte>, Callback>
    var writeDones: seq<(TinyPBProtocol, Callback)>
    var writing: bool
    ghost var fired: seq<(Callback, Message)>
    ghost var wire: seq<byte>

    constructor (size: nat, kind: ConnectionType, dispatcher: RpcDispatcher, patience: nat)
      ensures Valid() && fresh(inBuffer) && fresh(inBuffer.buffer) && fresh(outBuffer) && fresh(outBuffer.buffer)
      ensures Value() == Conn(NotConnected, kind, Fresh(size), [], map[], [], [], [], patience, false)
      ensures this.dispatcher == dispatcher
    {
      this.dispatcher, this.patience := dispatcher, patience;
      state, this.kind := NotConnected, kind;
      inBuffer := new TcpBuffer(size);
      outBuffer := new TcpBuffer(size);
      readDones, writeDones, writing := map[], [], false;
      fired, wire := [], [];
    }

    ghost predicate Valid()
      reads this, inBuffer, inBuffer.buffer, outBuffer, outBuffer.buffer
    {
      && inBuffer != outBuffer && inBuffer.buffer != outBuffer.buffer
      && inBuffer.Valid() && outBuffer.Valid()
    }

    ghost function Value(): Conn
      requires Valid()
      reads this, inBuffer, inBuffer.buffer, outBuffer, outBuffer.buffer, Queue(writeDones)
    {
      Conn(state, kind, inBuffer.State(), outBuffer.State().View(), readDones, QueueValue(writeDones),
           fired, wire, patience, writing)
    }

    /** `setState` ignores its argument. */
    method SetState(state: TcpState)
      modifies this`state
      ensures this.state == Connected
    {
      this.state := Connected;
    }

    /** `std::map::insert`: an id that is already there keeps its callback. */
    method PushReadMessage(id: seq<byte>, done: Callback)
      requires Valid()
      modifies this`readDones
      ensures Value() == old(Value()).(readDones := Register(old(readDones), id, done))
      ensures id in readDones && readDones[id] == if id in old(readDones) then old(readDones)[id] else done
      ensures forall x | x != id :: x in readDones <==> x in old(readDones)
      ensures forall x | x != id && x in readDones :: readDones[x] == old(readDones)[x]
    {
      if id !in readDones {
        readDones := readDones[id := done];
      }
    }

    method PushSendMessage(message: TinyPBProtocol, done: Callback)
      requires Valid()
      modifies this`writeDones
      ensures Value() == old(Value()).(writeDones := old(QueueValue(writeDones)) + [(message.Value(), done)])
    {
      writeDones := writeDones + [(message, done)];
      assert QueueValue(writeDones) == old(QueueValue(writeDones)) + [(message.Value(), done)];
    }

    /** `clear`. */
    method Clear()
      requires Valid()
      modifies this`state, this`writing
      ensures Value() == Cleared(old(Value()))
      ensures state == Closed && (old(state) != Closed ==> !writing)
    {
      if state == Closed {
        return;
      }
      writing := false;
      state := Closed;
    }

    /** `shutDown`: the socket is shut, the connection waits for the peer. */
    method ShutDown()
      requires Valid()
      modifies this`state
      ensures Value() == ShutOff(old(Value()))
      ensures state == if old(state) == Closed || old(state) == NotConnected then old(state) else HalfClosing
    {
      if state == Closed || state == NotConnected {
        return;
      }
      state := HalfClosing;
    }

    /** One `read` call of the loop in `onRead`. */
    method ReadTurn(result: ReadResult) returns (more: bool, closed: bool, readCount: nat)
      requires Valid()
      modifies inBuffer, inBuffer.buffer
      ensures Valid() && (inBuffer.buffer == old(inBuffer.buffer) || fresh(inBuffer.buffer))
      ensures readCount == MakeRoom(old(inBuffer.State())).Writable() && (more && result.Arrived? ==> 0 < readCount)
      ensures ReadOnce(old(inBuffer.State()), result)
           == if more then ReadOn(inBuffer.State()) else ReadDone(Reading(inBuffer.State(), closed))
    {
      if inBuffer.WriteAble() == 0 {
        inBuffer.ResizeBuffer(2 * inBuffer.buffer.Length);
      }
      assert inBuffer.State() == MakeRoom(old(inBuffer.State()));
      readCount := inBuffer.WriteAble();
      if result.Arrived? {
        more, closed := TakeArrived(Clipped(result.bs, readCount));
      } else {
        more, closed := result == ReadError, false;
      }
    }

    method TakeArrived(got: seq<byte>) returns (more: bool, closed: bool)
      requires Valid() && |got| <= inBuffer.State().Writable()
      modifies inBuffer, inBuffer.buffer
      ensures Valid() && (inBuffer.buffer == old(inBuffer.buffer) || fresh(inBuffer.buffer))
      ensures inBuffer.State() == if got == [] then old(inBuffer.State()) else Take(old(inBuffer.State()), got)
      ensures closed == (got == []) && more == (got != [] && |got| == old(inBuffer.State()).Writable())
    {
      if got == [] {
        return false, true;
      }
      var readCount := inBuffer.WriteAble();
      inBuffer.CopyIn(got);
      var astray := inBuffer.MoveWriteIndex(|got|);
      return |got| == readCount, false;
    }

    /** The loop of `onRead`. */
    method FillInBuffer(script: seq<ReadResult>) returns (closed: bool)
      requires Valid()
      modifies inBuffer, inBuffer.buffer
      ensures Valid() && (inBuffer.buffer == old(inBuffer.buffer) || fresh(inBuffer.buffer))
      ensures ReadLoop(old(inBuffer.State()), script) == Reading(inBuffer.State(), closed)
    {
      var rest, more := script, true;
      closed := false;
      while more
        invariant Valid() && (inBuffer.buffer == old(inBuffer.buffer) || fresh(inBuffer.buffer))
        invariant more ==> ReadLoop(old(inBuffer.State()), script) == ReadLoop(inBuffer.State(), rest)
        invariant !more ==> ReadLoop(old(inBuffer.State()), script) == Reading(inBuffer.State(), closed)
        decreases more, |rest|, Pieces(rest)
      {
        var result := if rest == [] then ReadBlocked else rest[0];
        var readCount;
        more, closed, readCount := ReadTurn(result);
        if rest != [] {
          rest := Later(rest, readCount);
        }
      }
    }

    /** The server's loop over the decoded requests: each is dispatched to a fresh response object. */
    method ServeAll(requests: seq<TinyPBProtocol>) returns (replies: seq<TinyPBProtocol>)
      ensures forall k | 0 <= k < |replies| :: fresh(replies[k])
      ensures Values(replies) == Serve(dispatcher.services, Values(requests))
    {
      replies := [];
      for i := 0 to |requests|
        invariant |replies| == i && forall k | 0 <= k < i :: fresh(replies[k])
        invariant forall k :: 0 <= k < i ==>
                    replies[k].Value() == Reply(dispatcher.services, requests[k].Value(), BLANK)
      {
        var message := new TinyPBProtocol();
        dispatcher.Dispatch(requests[i], message);
        replies := replies + [message];
      }
    }

    /** The client's loop over the decoded replies. */
    method DeliverAll(replies: seq<TinyPBProtocol>)
      modifies this`readDones, this`fired
      ensures var d := Deliver(old(readDones), Values(replies));
              readDones == d.table && fired == old(fired) + d.fired
    {
      ghost var rs := Values(replies);
      ghost var all := Deliver(readDones, rs);
      assert rs[0..] == rs;
      for i := 0 to |replies|
        invariant Deliver(readDones, rs[i..]).table == all.table
        invariant fired + Deliver(readDones, rs[i..]).fired == old(fired) + all.fired
      {
        DeliverOn(readDones, rs, i);
        var id := replies[i].msgId;
        if id in readDones {
          fired := fired + [(readDones[id], replies[i].Value())];
          readDones := readDones - {id};
        }
      }
    }

    /** The server's half of `excute`. */
    method AnswerAll(requests: seq<TinyPBProtocol>) returns (outcome: Outcome)
      requires Valid() && Modest(dispatcher.services) && AllNamesBounded(Values(requests))
      modifies this`writing, outBuffer, outBuffer.buffer
      ensures Valid() && AllSizable(Serve(dispatcher.services, old(Values(requests))))
      ensures outBuffer.State().View()
           == old(outBuffer.State().View()) + EncodeAll(Serve(dispatcher.services, old(Values(requests))))
      ensures writing && outcome == Encoding(Serve(dispatcher.services, old(Values(requests))))
      ensures outBuffer.buffer == old(outBuffer.buffer) || fresh(outBuffer.buffer)
    {
      RepliesSizable(dispatcher.services, Values(requests));
      var replies := ServeAll(requests);
      var overflow := Encode(replies, outBuffer);
      writing := true;
      outcome := if overflow then Overrun else Done;
    }

    /** What `excute` does with the decoded messages, by the kind of the connection. */
    method HandleAll(result: seq<TinyPBProtocol>) returns (outcome: Outcome)
      requires Valid() && Modest(dispatcher.services) && AllNamesBounded(Values(result))
      modifies this`readDones, this`fired, this`writing, outBuffer, outBuffer.buffer
      ensures Valid() && (outBuffer.buffer == old(outBuffer.buffer) || fresh(outBuffer.buffer))
      ensures Settles(dispatcher.services, old(Value()), Value(), old(Values(result)))
      ensures outcome == if kind == ByServer then Encoding(Serve(dispatcher.services, old(Values(result)))) else Done
    {
      ghost var c, msgs := Value(), Values(result);
      if kind == ByServer {
        outcome := AnswerAll(result);
      } else {
        DeliverAll(result);
        outcome := Done;
      }
      assert QueueValue(writeDones) == c.writeDones && inBuffer.State() == c.inBuf;
    }

    /** `excute`; the outcome says whether the decoder returned and no reply overran its allocation. */
    method Excute() returns (outcome: Outcome)
      requires Valid() && Modest(dispatcher.services)
      modifies this, inBuffer, inBuffer.buffer, outBuffer, outBuffer.buffer
      ensures Valid() && Step(Value(), outcome) == Executed(dispatcher.services, old(Value()))
      ensures inBuffer.buffer == old(inBuffer.buffer) || fresh(inBuffer.buffer)
      ensures outBuffer.buffer == old(outBuffer.buffer) || fresh(outBuffer.buffer)
    {
      ghost var c := Value();
      OnNames(inBuffer.State(), patience);
      var result;
      result, outcome := DecodeBuffer(inBuffer, patience);
      ghost var msgs := Values(result);
      assert Value() == c.(inBuf := inBuffer.State());
      ghost var decoded := outcome;
      if outcome == Done {
        outcome := HandleAll(result);
      }
      ExecutedIs(dispatcher.services, c, Value(), msgs, decoded);
    }

    /** `onRead`. */
    method OnRead(script: seq<ReadResult>) returns (outcome: Outcome)
      requires Valid() && Modest(dispatcher.services)
      modifies this, inBuffer, inBuffer.buffer, outBuffer, outBuffer.buffer
      ensures Valid() && Step(Value(), outcome) == AfterRead(dispatcher.services, old(Value()), script)
    {
      outcome := Done;
      if state != Connected {
        return;
      }
      var closed := FillInBuffer(script);
      if closed {
        Clear();
      } else {
        outcome := Excute();
      }
    }

    /** The loop of `onWrite`. */
    method DrainOutBuffer(script: seq<WriteResult>) returns (all: bool)
      requires Valid()
      modifies this`wire
      ensures var s := SendLoop(outBuffer.State().View(), script);
              wire == old(wire) + s.sent && all == s.all
    {
      ghost var view := outBuffer.State().View();
      ghost var s := SendLoop(view, script);
      assert script[0..] == script;
      for i := 0 to |script|
        invariant wire + SendLoop(view, script[i..]).sent == old(wire) + s.sent
        invariant s.all == SendLoop(view, script[i..]).all
      {
        var writeSize := outBuffer.ReadAble();
        if writeSize == 0 {
          return true;
        }
        assert script[i..][0] == script[i] && script[i..][1..] == script[i + 1..];
        match script[i] {
          case WriteBlocked => return false;
          case WriteError =>
          case Wrote(n) =>
            wire := wire + view[..Min(n, writeSize)];
            if n >= writeSize {
              return true;
            }
        }
      }
      return outBuffer.ReadAble() == 0;
    }

    /** The client's loop that encodes every queued message. */
    method EncodeQueued() returns (overrun: bool)
      requires Valid() && AllSizable(Values(Queue(writeDones)))
      modifies Queue(writeDones), outBuffer, outBuffer.buffer
      ensures Valid() && (outBuffer.buffer == old(outBuffer.buffer) || fresh(outBuffer.buffer))
      ensures outBuffer.State().View() == old(outBuffer.State().View()) + EncodeAll(old(Values(Queue(writeDones))))
      ensures forall k :: 0 <= k < |writeDones| ==> writeDones[k].0.Value() == Seal(old(Values(Queue(writeDones)))[k])
      ensures overrun == Overruns(old(Values(Queue(writeDones))))
    {
      var messages := Queue(writeDones);
      overrun := Encode(messages, outBuffer);
      assert forall k :: 0 <= k < |writeDones| ==> writeDones[k].0.Value() == Values(messages)[k];
    }

    /** The client's loop that runs the write callbacks. */
    method RunWriteDones(ghost dones: seq<(Message, Callback)>)
      requires Valid() && AllSizable(Firsts(dones)) && |dones| == |writeDones|
      requires forall k :: 0 <= k < |dones| ==>
                 writeDones[k].0.Value() == Seal(Firsts(dones)[k]) && writeDones[k].1 == dones[k].1
      modifies this`writeDones, this`fired
      ensures writeDones == [] && fired == old(fired) + Written(dones)
    {
      ghost var ran: seq<(Callback, Message)> := [];
      for i := 0 to |writeDones|
        invariant |ran| == i && fired == old(fired) + ran
        invariant forall k :: 0 <= k < i ==> ran[k] == Written(dones)[k]
      {
        fired := fired + [(writeDones[i].1, writeDones[i].0.Value())];
        ran := ran + [(writeDones[i].1, writeDones[i].0.Value())];
      }
      writeDones := [];
    }

    /** Write, and stop listening for the writable event when all was written. */
    method Send(script: seq<WriteResult>)
      requires Valid()
      modifies this`wire, this`writing
      ensures var s := SendLoop(outBuffer.State().View(), script);
              wire == old(wire) + s.sent && writing == (old(writing) && !s.all)
    {
      var all := DrainOutBuffer(script);
      if all {
        writing := false;
      }
    }

    /** The client's half of `onWrite`. */
    method WriteQueued(script: seq<WriteResult>) returns (overrun: bool)
      requires Valid() && AllSizable(Values(Queue(writeDones)))
      modifies this`wire, this`writing, this`writeDones, this`fired, outBuffer, outBuffer.buffer, Queue(writeDones)
      ensures Valid()
      ensures var dones := old(QueueValue(writeDones));
              && outBuffer.State().View() == old(outBuffer.State().View()) + EncodeAll(Firsts(dones))
              && writeDones == [] && fired == old(fired) + Written(dones) && overrun == Overruns(Firsts(dones))
      ensures var s := SendLoop(outBuffer.State().View(), script);
              wire == old(wire) + s.sent && writing == (old(writing) && !s.all)
    {
      ghost var dones := QueueValue(writeDones);
      overrun := EncodeQueued();
      Send(script);
      RunWriteDones(dones);
    }

    /** `onWrite`; it reports when a queued message overran its allocation. */
    method OnWrite(script: seq<WriteResult>) returns (overrun: bool)
      requires Valid() && AllSizable(Values(Queue(writeDones)))
      modifies this, outBuffer, outBuffer.buffer, Queue(writeDones)
      ensures Valid() && Value() == AfterWrite(old(Value()), script) && overrun == WriteOverruns(old(Value()))
    {
      overrun := false;
      if state != Connected {
        return;
      }
      if kind == ByClient {
        overrun := WriteQueued(script);
      } else {
        Send(script);
      }
    }
  }
}
