// What a server and a client make of any run of readable events, end of stream included.

module PeerRuns {
  import opened Bytes
  import opened Buffers
  import opened TinyPB
  import opened TinyPBDecode
  import opened TinyPBBackward
  import opened RpcDispatchers
  import opened TcpConnections
  import opened ConnectionRuns
  import opened RpcDelivery

  lemma {:induction false} EncodeAllConcat(a: seq<Message>, b: seq<Message>)
    requires AllSizable(a) && AllSizable(b) && AllSizable(a + b)
    ensures EncodeAll(a + b) == EncodeAll(a) + EncodeAll(b)
  {
    if a == [] {
      assert a + b == b;
    } else {
      SizableSlice(a, 1, |a|);
      SizableSlice(a + b, 1, |a + b|);
      assert a[0] in a && (a + b)[1..] == a[1..] + b;
      EncodeAllConcat(a[1..], b);
      Assoc(Frame(a[0]), EncodeAll(a[1..]), EncodeAll(b));
    }
  }

  lemma ServeConcat(services: map<seq<byte>, Service>, a: seq<Message>, b: seq<Message>)
    ensures Serve(services, a + b) == Serve(services, a) + Serve(services, b)
  {
  }

  lemma SizableBoth(a: seq<Message>, b: seq<Message>)
    requires AllSizable(a) && AllSizable(b)
    ensures AllSizable(a + b)
  {
  }

  // ---------------------------------------------------------------- a server

  /** `c'` is the server `c` after it decoded `msgs`, as far as its peer can tell. */
  ghost predicate AnsweredBy(services: map<seq<byte>, Service>, c: Conn, c': Conn, msgs: seq<Message>) {
    && AllSizable(Serve(services, msgs)) && c'.out == c.out + EncodeAll(Serve(services, msgs))
    && c'.kind == c.kind && c'.wire == c.wire && c'.patience == c.patience
  }

  lemma AnsweredOn(services: map<seq<byte>, Service>, c: Conn, c': Conn, c'': Conn,
                   a: seq<Message>, b: seq<Message>)
    requires AnsweredBy(services, c, c', a) && AnsweredBy(services, c', c'', b)
    ensures AnsweredBy(services, c, c'', a + b)
  {
    ServeConcat(services, a, b);
    SizableBoth(Serve(services, a), Serve(services, b));
    EncodeAllConcat(Serve(services, a), Serve(services, b));
    Assoc(c.out, EncodeAll(Serve(services, a)), EncodeAll(Serve(services, b)));
  }

  lemma AnsweredNothing(services: map<seq<byte>, Service>, c: Conn, c': Conn)
    requires c'.out == c.out && c'.kind == c.kind && c'.wire == c.wire && c'.patience == c.patience
    ensures AnsweredBy(services, c, c', [])
  {
    assert Serve(services, []) == [] && c.out + [] == c.out;
  }

  /** Every request is answered by its service method. */
  ghost predicate EachAnswered(services: map<seq<byte>, Service>, ms: seq<Message>) {
    forall k :: 0 <= k < |ms| ==> IsAnswered(services, ms[k])
  }

  /** Only the dispatcher's own error replies have error text: encoding survives exactly without them. */
  lemma SurvivesIff(services: map<seq<byte>, Service>, ms: seq<Message>)
    ensures Encoding(Serve(services, ms)) == Done <==> EachAnswered(services, ms)
  {
    var rs := Serve(services, ms);
    forall k | 0 <= k < |ms|
      ensures rs[k].errInfo == [] <==> IsAnswered(services, ms[k])
    {
      assert rs[k] == Reply(services, ms[k], BLANK);
      IsAnsweredIff(services, ms[k]);
    }
  }

  lemma AnsweredConcat(services: map<seq<byte>, Service>, a: seq<Message>, b: seq<Message>)
    ensures EachAnswered(services, a + b) <==> EachAnswered(services, a) && EachAnswered(services, b)
  {
    if EachAnswered(services, a + b) {
      assert forall k | 0 <= k < |a| :: (a + b)[k] == a[k];
      assert forall k | 0 <= k < |b| :: (a + b)[|a| + k] == b[k];
    }
  }

  /** One readable event that does not meet the end of the stream and that the decoder survives. */
  lemma ServerStep(services: map<seq<byte>, Service>, c: Conn, script: seq<ReadResult>)
    requires Modest(services) && c.state == Connected && c.kind == ByServer && c.inBuf.Ok()
    requires var r := ReadLoop(c.inBuf, script); !r.closed && DecodeOn(r.b, c.patience).outcome == Done
    ensures var s, d := AfterRead(services, c, script), DecodeOn(ReadLoop(c.inBuf, script).b, c.patience);
            && s.outcome == (if EachAnswered(services, d.msgs) then Done else Overrun)
            && s.c.state == Connected && s.c.inBuf == d.b && AnsweredBy(services, c, s.c, d.msgs) && s.c.writing
  {
    var r := ReadLoop(c.inBuf, script);
    OnNames(r.b, c.patience);
    RepliesSizable(services, DecodeOn(r.b, c.patience).msgs);
    SurvivesIff(services, DecodeOn(r.b, c.patience).msgs);
  }

  /**
   * Over any run of readable events that its decoder survives, a server survives if and only if every
   * request decoded is answered by a service method; otherwise an error reply overruns its allocation.
   * When it survives it answers exactly what its in-buffer decodes, in order, and is closed afterwards
   * exactly when it met the end of the stream; if not, it listens for the writable event from the first
   * event on.
   */
  lemma {:induction false} ServerRun(services: map<seq<byte>, Service>, c: Conn, events: seq<seq<ReadResult>>)
    requires Modest(services) && c.state == Connected && c.kind == ByServer && c.inBuf.Ok()
    requires FeedOn(c.inBuf, events, c.patience).outcome == Done
    ensures var f, r := FeedOn(c.inBuf, events, c.patience), ReadRun(services, c, events);
            && r.outcome == (if EachAnswered(services, f.msgs) then Done else Overrun)
            && (r.outcome == Done ==>
                  && r.c.inBuf == f.b && AnsweredBy(services, c, r.c, f.msgs)
                  && r.c.state == (if f.closed then Closed else Connected)
                  && r.c.writing == (!f.closed && (c.writing || events != [])))
    decreases |events|
  {
    if events == [] {
      AnsweredNothing(services, c, c);
    } else {
      var r, s := ReadLoop(c.inBuf, events[0]), AfterRead(services, c, events[0]);
      if r.closed {
        DeafRun(services, s.c, events[1..]);
        AnsweredNothing(services, c, s.c);
      } else {
        var d := DecodeOn(r.b, c.patience);
        ServerStep(services, c, events[0]);
        AnsweredConcat(services, d.msgs, FeedOn(d.b, events[1..], c.patience).msgs);
        if s.outcome == Done {
          ServerRun(services, s.c, events[1..]);
          var later := ReadRun(services, s.c, events[1..]);
          if later.outcome == Done {
            AnsweredOn(services, c, s.c, later.c, d.msgs, FeedOn(d.b, events[1..], c.patience).msgs);
          }
        }
      }
    }
  }

  /** Names that come off the wire are bounded by the decoder's C arrays, over any run. */
  lemma {:induction false} FedNames(b: Buf, events: seq<seq<ReadResult>>, n: nat)
    requires b.Ok()
    ensures AllNamesBounded(FeedOn(b, events, n).msgs)
    decreases |events|
  {
    if events == [] {
    } else {
      var r := ReadLoop(b, events[0]);
      if !r.closed {
        var d := DecodeOn(r.b, n);
        OnNames(r.b, n);
        if d.outcome == Done {
          FedNames(d.b, events[1..], n);
          NamesBoth(d.msgs, FeedOn(d.b, events[1..], n).msgs);
        }
      }
    }
  }

  // ---------------------------------------------------------------- a client

  /** `c'` is `c` after the replies `rs` were delivered to it. */
  ghost predicate DeliveredTo(c: Conn, c': Conn, rs: seq<Message>) {
    var d := Deliver(c.readDones, rs);
    c'.readDones == d.table && c'.fired == c.fired + d.fired && c'.kind == c.kind && c'.patience == c.patience
  }

  lemma DeliveredOn(c: Conn, c': Conn, c'': Conn, a: seq<Message>, b: seq<Message>)
    requires DeliveredTo(c, c', a) && DeliveredTo(c', c'', b)
    ensures DeliveredTo(c, c'', a + b)
  {
    DeliverConcat(c.readDones, a, b);
    var v, v' := Deliver(c.readDones, a), Deliver(c'.readDones, b);
    assert (c.fired + v.fired) + v'.fired == c.fired + (v.fired + v'.fired);
  }

  lemma ClientStep(services: map<seq<byte>, Service>, c: Conn, script: seq<ReadResult>)
    requires Modest(services) && c.state == Connected && c.kind == ByClient && c.inBuf.Ok()
    requires var r := ReadLoop(c.inBuf, script); !r.closed && DecodeOn(r.b, c.patience).outcome == Done
    ensures var s, d := AfterRead(services, c, script), DecodeOn(ReadLoop(c.inBuf, script).b, c.patience);
            && s.outcome == Done && s.c.state == Connected && s.c.inBuf == d.b && DeliveredTo(c, s.c, d.msgs)
  {
  }

  /** Over any such run a client delivers exactly what its in-buffer decodes, in order. */
  lemma {:induction false} ClientRun(services: map<seq<byte>, Service>, c: Conn, events: seq<seq<ReadResult>>)
    requires Modest(services) && c.state == Connected && c.kind == ByClient && c.inBuf.Ok()
    requires FeedOn(c.inBuf, events, c.patience).outcome == Done
    ensures var f, r := FeedOn(c.inBuf, events, c.patience), ReadRun(services, c, events);
            && r.outcome == Done && r.c.inBuf == f.b && DeliveredTo(c, r.c, f.msgs)
            && r.c.state == (if f.closed then Closed else Connected)
    decreases |events|
  {
    if events == [] {
      assert c.fired + [] == c.fired;
    } else {
      var r, s := ReadLoop(c.inBuf, events[0]), AfterRead(services, c, events[0]);
      if r.closed {
        DeafRun(services, s.c, events[1..]);
        assert c.fired + [] == c.fired;
      } else {
        var d := DecodeOn(r.b, c.patience);
        ClientStep(services, c, events[0]);
        ClientRun(services, s.c, events[1..]);
        DeliveredOn(c, s.c, ReadRun(services, s.c, events[1..]).c, d.msgs,
                    FeedOn(d.b, events[1..], c.patience).msgs);
      }
    }
  }

  // ---------------------------------------------------------------- a decoder that does not return

  /** A run in which the decoder does not return does not return either; a client's ends just as the decoder does. */
  lemma {:induction false} EndsWithDecoder(services: map<seq<byte>, Service>, c: Conn, events: seq<seq<ReadResult>>)
    requires Modest(services) && c.state == Connected && c.inBuf.Ok()
    requires FeedOn(c.inBuf, events, c.patience).outcome != Done
    ensures ReadRun(services, c, events).outcome != Done
    ensures c.kind == ByClient ==>
              ReadRun(services, c, events).outcome == FeedOn(c.inBuf, events, c.patience).outcome
    decreases |events|
  {
    if events == [] {
    } else {
      var r, s := ReadLoop(c.inBuf, events[0]), AfterRead(services, c, events[0]);
      if !r.closed && DecodeOn(r.b, c.patience).outcome == Done {
        if c.kind == ByServer {
          ServerStep(services, c, events[0]);
        } else {
          ClientStep(services, c, events[0]);
        }
        if s.outcome == Done {
          EndsWithDecoder(services, s.c, events[1..]);
        }
      }
    }
  }
}
