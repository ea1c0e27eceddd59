// Requests and replies over a pair of connections, from the first byte to the last callback.

module RpcExchange {
  import opened Bytes
  import opened Buffers
  import opened TinyPB
  import opened TinyPBDecode
  import opened RpcDispatchers
  import opened TcpConnections
  import opened ConnectionRuns
  import opened RpcDelivery
  import opened PeerRuns
  import opened Arriving

  // ---------------------------------------------------------------- rounds of requests and replies

  /** `r` is what a client should get for request `m`. */
  ghost predicate Answers(services: map<seq<byte>, Service>, m: Message, r: Message) {
    && r.msgId == WithId(m).msgId && r.methodName == m.methodName
    && r.errCode == 0 && r.errInfo == []
    && AnswersWith(services, m.methodName, m.pbData, r.pbData)
  }

  /** A request that can be sent and that the server answers. */
  ghost predicate GoodRequest(services: map<seq<byte>, Service>, m: Message) {
    Sizable(m) && WireSafe(m) && IsAnswered(services, m)
  }

  lemma GoodReply(services: map<seq<byte>, Service>, m: Message)
    requires Modest(services) && GoodRequest(services, m)
    ensures Deliverable(m)
    ensures var r := Reply(services, Received(m), BLANK); Deliverable(r) && Answers(services, m, Received(r))
  {
    WireSafeIsExact(m);
    IsAnsweredIff(services, m);
    var r := Reply(services, Received(m), BLANK);
    JudgeAnswers(services, m.methodName, m.pbData, r.pbData);
    ReplySizable(services, Received(m));
    WireSafeIsExact(r);
  }

  ghost predicate GoodBatch(services: map<seq<byte>, Service>, ms: seq<Message>) {
    ms != [] && forall m | m in ms :: GoodRequest(services, m)
  }

  ghost predicate GoodBatches(services: map<seq<byte>, Service>, batches: seq<seq<Message>>) {
    forall ms | ms in batches :: GoodBatch(services, ms)
  }

  lemma GoodTail(services: map<seq<byte>, Service>, batches: seq<seq<Message>>)
    requires batches != [] && GoodBatches(services, batches)
    ensures GoodBatch(services, batches[0]) && GoodBatches(services, batches[1..])
  {
    assert forall ms | ms in batches[1..] :: ms in batches;
  }

  lemma GoodBatchDeliverable(services: map<seq<byte>, Service>, ms: seq<Message>)
    requires Modest(services) && GoodBatch(services, ms)
    ensures AllDeliverable(ms) && AllSizable(ms)
  {
    forall m | m in ms
      ensures Deliverable(m)
    {
      GoodReply(services, m);
    }
  }

  /** As it comes off the wire, too, such a batch is answered. */
  lemma GoodAnswered(services: map<seq<byte>, Service>, ms: seq<Message>)
    requires Modest(services) && GoodBatch(services, ms)
    ensures AllSizable(ms) && EachAnswered(services, ReceivedAll(ms))
  {
    GoodBatchDeliverable(services, ms);
    forall k | 0 <= k < |ms|
      ensures IsAnswered(services, ReceivedAll(ms)[k])
    {
      assert ms[k] in ms;
      WireSafeIsExact(ms[k]);
    }
  }

  /** The replies the server makes to a batch as it comes off the wire. */
  ghost function Replies(services: map<seq<byte>, Service>, ms: seq<Message>): (rs: seq<Message>)
    requires Modest(services) && GoodBatch(services, ms)
    ensures |rs| == |ms| && AllDeliverable(rs)
    ensures forall k | 0 <= k < |ms| :: Sizable(ms[k]) && rs[k] == Reply(services, Received(ms[k]), BLANK)
  {
    GoodBatchDeliverable(services, ms);
    var rs := Serve(services, ReceivedAll(ms));
    assert AllDeliverable(rs) by {
      forall k | 0 <= k < |rs|
        ensures Deliverable(rs[k])
      {
        assert ms[k] in ms;
        GoodReply(services, ms[k]);
      }
    }
    rs
  }

  ghost function AllReplies(services: map<seq<byte>, Service>, batches: seq<seq<Message>>): (rss: seq<seq<Message>>)
    requires Modest(services) && GoodBatches(services, batches)
    ensures |rss| == |batches|
  {
    if batches == [] then []
    else
      GoodTail(services, batches);
      [Replies(services, batches[0])] + AllReplies(services, batches[1..])
  }

  lemma DeliverableBoth(a: seq<Message>, b: seq<Message>)
    requires AllDeliverable(a) && AllDeliverable(b)
    ensures AllDeliverable(a + b) && AllSizable(a) && AllSizable(b) && AllSizable(a + b)
  {
  }

  // ---------------------------------------------------------------- the server

  ghost predicate ServerReady(s: Conn) {
    s.state == Connected && s.kind == ByServer && Roomed(s.inBuf) && s.inBuf.View() == []
  }

  /** A batch of requests read in chunks, then everything in the out-buffer written at once. */
  ghost function Round(services: map<seq<byte>, Service>, s: Conn, chunks: seq<seq<byte>>): (s': Conn)
    requires Modest(services) && s.inBuf.Ok()
    ensures s'.inBuf.Ok()
  {
    var c := ReadRun(services, s, Singles(chunks)).c;
    if c.kind == ByServer then AfterWrite(c, [Wrote(|c.out|)]) else c
  }

  lemma RoundIs(services: map<seq<byte>, Service>, s: Conn, ms: seq<Message>, chunks: seq<seq<byte>>)
    requires Modest(services) && GoodBatch(services, ms) && ServerReady(s)
    requires ArrivesWell(s.inBuf, ms, chunks)
    ensures AllSizable(Replies(services, ms))
    ensures RoundDone(s, Round(services, s, chunks), EncodeAll(Replies(services, ms)))
    ensures Round(services, s, chunks).inBuf == Feed(s.inBuf, Singles(chunks)).b
  {
    GoodBatchDeliverable(services, ms);
    GoodAnswered(services, ms);
    WellFed(s.inBuf, ms, chunks, s.patience);
    ServerRun(services, s, Singles(chunks));
    var c := ReadRun(services, s, Singles(chunks)).c;
    assert SendLoop(c.out, [Wrote(|c.out|)]).sent == c.out;
  }

  /** The out-buffer and the socket over a run of rounds. */
  ghost function Rounds(services: map<seq<byte>, Service>, s: Conn, pieces: seq<seq<seq<byte>>>): (s': Conn)
    requires Modest(services) && s.inBuf.Ok()
    decreases |pieces|
  {
    if pieces == [] then s else Rounds(services, Round(services, s, pieces[0]), pieces[1..])
  }

  lemma {:induction false} ResendsDeliverable(services: map<seq<byte>, Service>, sent: seq<Message>,
                                              batches: seq<seq<Message>>)
    requires Modest(services) && GoodBatches(services, batches) && AllDeliverable(sent)
    ensures AllDeliverable(Resends(sent, AllReplies(services, batches)))
    decreases |batches|
  {
    if batches == [] {
    } else {
      GoodTail(services, batches);
      var a := Replies(services, batches[0]);
      DeliverableBoth(sent, a);
      assert AllReplies(services, batches)[1..] == AllReplies(services, batches[1..]);
      ResendsDeliverable(services, sent + a, batches[1..]);
      DeliverableBoth(sent + a, Resends(sent + a, AllReplies(services, batches[1..])));
    }
  }

  /** The server's state after a round, as far as the next round needs it. */
  ghost predicate RoundDone(s: Conn, s': Conn, more: seq<byte>) {
    && ServerReady(s') && s'.out == s.out + more && s'.wire == s.wire + s'.out
  }

  /** The first step of a run of resends, in frames. */
  lemma ResendsEncode(services: map<seq<byte>, Service>, sent: seq<Message>, batches: seq<seq<Message>>)
    requires Modest(services) && batches != [] && GoodBatches(services, batches) && AllDeliverable(sent)
    ensures GoodBatch(services, batches[0]) && GoodBatches(services, batches[1..])
    ensures var a := Replies(services, batches[0]);
            var later := Resends(sent + a, AllReplies(services, batches[1..]));
            var resent := Resends(sent, AllReplies(services, batches));
            && AllSizable(sent) && AllDeliverable(sent + a) && AllSizable(sent + a) && AllSizable(a)
            && AllSizable(later) && AllSizable(resent)
            && EncodeAll(sent + a) == EncodeAll(sent) + EncodeAll(a)
            && EncodeAll(resent) == EncodeAll(sent + a) + EncodeAll(later)
  {
    GoodTail(services, batches);
    var a := Replies(services, batches[0]);
    DeliverableBoth(sent, a);
    EncodeAllConcat(sent, a);
    assert AllReplies(services, batches)[1..] == AllReplies(services, batches[1..]);
    var later := Resends(sent + a, AllReplies(services, batches[1..]));
    ResendsDeliverable(services, sent + a, batches[1..]);
    DeliverableBoth(sent + a, later);
    EncodeAllConcat(sent + a, later);
  }

  /** The socket gets every reply again with every later batch. */
  lemma {:induction false} RoundsWire(services: map<seq<byte>, Service>, s: Conn, sent: seq<Message>,
                                      batches: seq<seq<Message>>, pieces: seq<seq<seq<byte>>>)
    requires Modest(services) && GoodBatches(services, batches) && ServerReady(s)
    requires AllArriveWell(s.inBuf, batches, pieces)
    requires AllDeliverable(sent) && AllSizable(sent) && s.out == EncodeAll(sent)
    ensures var resent := Resends(sent, AllReplies(services, batches));
            AllSizable(resent) && Rounds(services, s, pieces).wire == s.wire + EncodeAll(resent)
    decreases |batches|
  {
    if batches == [] {
      assert s.wire + [] == s.wire;
    } else {
      ResendsEncode(services, sent, batches);
      var a := Replies(services, batches[0]);
      RoundIs(services, s, batches[0], pieces[0]);
      RoundsWire(services, Round(services, s, pieces[0]), sent + a, batches[1..], pieces[1..]);
      Assoc(s.wire, EncodeAll(sent + a), EncodeAll(Resends(sent + a, AllReplies(services, batches[1..]))));
    }
  }

  // ---------------------------------------------------------------- the client

  ghost predicate EachDeliverable(rss: seq<seq<Message>>) {
    forall rs | rs in rss :: AllDeliverable(rs)
  }

  lemma EachTail(rss: seq<seq<Message>>)
    requires rss != [] && EachDeliverable(rss)
    ensures AllDeliverable(rss[0]) && AllSizable(rss[0]) && EachDeliverable(rss[1..])
  {
    assert rss[0] in rss && forall rs | rs in rss[1..] :: rs in rss;
  }

  ghost function ReceivedEach(rss: seq<seq<Message>>): (r: seq<seq<Message>>)
    requires EachDeliverable(rss)
    ensures |r| == |rss|
  {
    if rss == [] then []
    else
      EachTail(rss);
      [ReceivedAll(rss[0])] + ReceivedEach(rss[1..])
  }

  lemma {:induction false} ReceivedResends(sent: seq<Message>, rss: seq<seq<Message>>)
    requires AllDeliverable(sent) && EachDeliverable(rss)
    ensures AllSizable(sent) && AllDeliverable(Resends(sent, rss)) && AllSizable(Resends(sent, rss))
    ensures ReceivedAll(Resends(sent, rss)) == Resends(ReceivedAll(sent), ReceivedEach(rss))
    decreases |rss|
  {
    if rss == [] {
    } else {
      EachTail(rss);
      var a := rss[0];
      DeliverableBoth(sent, a);
      ReceivedResends(sent + a, rss[1..]);
      DeliverableBoth(sent + a, Resends(sent + a, rss[1..]));
      ReceivedConcat(sent, a);
      ReceivedConcat(sent + a, Resends(sent + a, rss[1..]));
      assert ReceivedEach(rss)[1..] == ReceivedEach(rss[1..]);
    }
  }

  lemma {:induction false} RepliesDeliverable(services: map<seq<byte>, Service>, batches: seq<seq<Message>>)
    requires Modest(services) && GoodBatches(services, batches)
    ensures EachDeliverable(AllReplies(services, batches))
  {
    if batches == [] {
    } else {
      GoodTail(services, batches);
      RepliesDeliverable(services, batches[1..]);
    }
  }

  /** Reply `k` answers request `k`. */
  ghost predicate AnswersAll(services: map<seq<byte>, Service>, ms: seq<Message>, rs: seq<Message>) {
    |ms| == |rs| && forall k :: 0 <= k < |ms| ==> Answers(services, ms[k], rs[k])
  }

  lemma BatchAnswers(services: map<seq<byte>, Service>, ms: seq<Message>)
    requires Modest(services) && GoodBatch(services, ms)
    ensures AllSizable(Replies(services, ms))
    ensures AnswersAll(services, ms, ReceivedAll(Replies(services, ms)))
  {
    var rs := Replies(services, ms);
    DeliverableBoth(rs, []);
    forall k | 0 <= k < |ms|
      ensures Answers(services, ms[k], ReceivedAll(rs)[k])
    {
      assert ms[k] in ms;
      GoodReply(services, ms[k]);
    }
  }

  lemma {:induction false} AllAnswered(services: map<seq<byte>, Service>, batches: seq<seq<Message>>)
    requires Modest(services) && GoodBatches(services, batches)
    requires EachDeliverable(AllReplies(services, batches))
    ensures AnswersAll(services, Flat(batches), Flat(ReceivedEach(AllReplies(services, batches))))
  {
    if batches == [] {
    } else {
      var rss := AllReplies(services, batches);
      GoodTail(services, batches);
      EachTail(rss);
      assert rss[1..] == AllReplies(services, batches[1..]);
      AllAnswered(services, batches[1..]);
      BatchAnswers(services, batches[0]);
      assert ReceivedEach(rss)[1..] == ReceivedEach(rss[1..]);
    }
  }

  /** The first request sent under an id, if there is any. */
  function FirstAsked(ms: seq<Message>, id: seq<byte>): (m: seq<Message>)
    ensures |m| <= 1
  {
    if ms == [] then []
    else if WithId(ms[0]).msgId == id then [ms[0]]
    else FirstAsked(ms[1..], id)
  }

  lemma {:induction false} FirstAnswers(services: map<seq<byte>, Service>, ms: seq<Message>, rs: seq<Message>,
                                        id: seq<byte>)
    requires AnswersAll(services, ms, rs)
    ensures var m, r := FirstAsked(ms, id), FirstFor(rs, id);
            |m| == |r| && (m != [] ==> Answers(services, m[0], r[0]))
  {
    if ms == [] {
    } else {
      FirstAnswers(services, ms[1..], rs[1..], id);
    }
  }

  /** The calls a client should see for an id after sending `ms`. */
  ghost predicate AnsweredOnce(services: map<seq<byte>, Service>, table: map<seq<byte>, Callback>,
                               ms: seq<Message>, id: seq<byte>, calls: seq<(Callback, Message)>)
  {
    var m := FirstAsked(ms, id);
    if id in table && m != [] then
      |calls| == 1 && calls[0].0 == table[id] && Answers(services, m[0], calls[0].1)
    else calls == []
  }

  /**
   * End to end.  Batches of requests reach a server, each in any chunks that reassemble; after each
   * batch the server writes its whole out-buffer; and everything the socket took reaches a client, in
   * any chunks that reassemble.  Although every reply but those of the last batch arrives several
   * times, for each id the callback registered under it runs exactly once if a request was sent under
   * that id, with the answer to the first such request, and not at all otherwise.
   */
  lemma EndToEnd(services: map<seq<byte>, Service>, s: Conn, c: Conn, batches: seq<seq<Message>>,
                 pieces: seq<seq<seq<byte>>>, chunks: seq<seq<byte>>, id: seq<byte>)
    requires Modest(services) && GoodBatches(services, batches)
    requires ServerReady(s) && s.out == [] && s.wire == [] && AllArriveWell(s.inBuf, batches, pieces)
    requires c.state == Connected && c.kind == ByClient && Roomed(c.inBuf) && c.inBuf.View() == []
    requires ArrivesWell(c.inBuf, Resends([], AllReplies(services, batches)), chunks)
    ensures var r := ReadRun(services, c, Singles(chunks));
            && Flatten(chunks) == Rounds(services, s, pieces).wire
            && r.outcome == Done && c.fired <= r.c.fired
            && AnsweredOnce(services, c.readDones, Flat(batches), id, ForId(r.c.fired[|c.fired|..], id))
            && (id in r.c.readDones <==> id in c.readDones && FirstAsked(Flat(batches), id) == [])
  {
    var rss := AllReplies(services, batches);
    var rs := Resends([], rss);
    RepliesDeliverable(services, batches);
    ReceivedResends([], rss);
    RoundsWire(services, s, [], batches, pieces);
    CoverIs(c.inBuf, rs, chunks);
    assert [] + EncodeAll(rs) == EncodeAll(rs);
    Delivered(services, c, rs, chunks);
    var each := ReceivedEach(rss);
    ResendsHarmless(c.readDones, [], each);
    var d := Deliver(c.readDones, Flat(each));
    assert (c.fired + d.fired)[|c.fired|..] == d.fired;
    DeliverIs(c.readDones, Flat(each), id);
    AllAnswered(services, batches);
    FirstAnswers(services, Flat(batches), Flat(each), id);
  }

  /** Reading a stream of replies in chunks runs the due callbacks and no others. */
  lemma Delivered(services: map<seq<byte>, Service>, c: Conn, rs: seq<Message>, chunks: seq<seq<byte>>)
    requires Modest(services) && AllDeliverable(rs) && AllSizable(rs)
    requires c.state == Connected && c.kind == ByClient && Roomed(c.inBuf) && c.inBuf.View() == []
    requires ArrivesWell(c.inBuf, rs, chunks)
    ensures var r, d := ReadRun(services, c, Singles(chunks)), Deliver(c.readDones, ReceivedAll(rs));
            r.outcome == Done && r.c.readDones == d.table && r.c.fired == c.fired + d.fired
  {
    WellFed(c.inBuf, rs, chunks, c.patience);
    ClientRun(services, c, Singles(chunks));
  }

  /** What each write offers: the batches so far. */
  function Prefixes(sent: seq<Message>, batches: seq<seq<Message>>): (mss: seq<seq<Message>>)
    ensures |mss| == |batches|
    decreases |batches|
  {
    if batches == [] then [] else [sent + batches[0]] + Prefixes(sent + batches[0], batches[1..])
  }

  lemma {:induction false} PrefixesAreResends(sent: seq<Message>, batches: seq<seq<Message>>)
    ensures Flat(Prefixes(sent, batches)) == Resends(sent, batches)
    decreases |batches|
  {
    if batches == [] {
    } else {
      PrefixesAreResends(sent + batches[0], batches[1..]);
    }
  }

  /**
   * The plain case, for any number of batches: each batch of requests is read whole, and so is each
   * write of the server.  All that is asked for is that each fits two thirds of the buffer it comes to.
   */
  lemma EndToEndByWrites(services: map<seq<byte>, Service>, s: Conn, c: Conn, batches: seq<seq<Message>>, id: seq<byte>)
    requires Modest(services) && GoodBatches(services, batches)
    requires ServerReady(s) && Tidy(s.inBuf) && s.out == [] && s.wire == []
    requires c.state == Connected && c.kind == ByClient && Tidy(c.inBuf) && c.inBuf.View() == []
    requires Handy(batches, |s.inBuf.data|) && Handy(Prefixes([], AllReplies(services, batches)), |c.inBuf.data|)
    ensures var chunks := Encoded(Prefixes([], AllReplies(services, batches)));
            var r := ReadRun(services, c, Singles(chunks));
            && |chunks| == |batches| && Flatten(chunks) == Rounds(services, s, Wholes(batches)).wire
            && r.outcome == Done && c.fired <= r.c.fired
            && AnsweredOnce(services, c.readDones, Flat(batches), id, ForId(r.c.fired[|c.fired|..], id))
  {
    var mss := Prefixes([], AllReplies(services, batches));
    WholesArriveWell(s.inBuf, batches);
    PrefixesAreResends([], AllReplies(services, batches));
    BatchesArriveWell(c.inBuf, mss);
    EndToEnd(services, s, c, batches, Wholes(batches), Encoded(mss), id);
  }

  // ---------------------------------------------------------------- requests that are sent again

  function Messages(queues: seq<seq<(Message, Callback)>>): (mss: seq<seq<Message>>)
    ensures |mss| == |queues|
  {
    if queues == [] then [] else [Firsts(queues[0])] + Messages(queues[1..])
  }

  ghost predicate EachSizable(queues: seq<seq<(Message, Callback)>>) {
    forall q | q in queues :: AllSizable(Firsts(q))
  }

  /** A client that queues one batch of requests after another and writes everything each time. */
  ghost function Sends(c: Conn, queues: seq<seq<(Message, Callback)>>): Conn
    requires EachSizable(queues)
    decreases |queues|
  {
    if queues == [] then c
    else
      assert queues[0] in queues && forall q | q in queues[1..] :: q in queues;
      var n := |c.out| + |EncodeAll(Firsts(queues[0]))|;
      Sends(AfterWrite(c.(writeDones := queues[0]), [Wrote(n)]), queues[1..])
  }

  lemma {:induction false} SendsWire(c: Conn, sent: seq<Message>, queues: seq<seq<(Message, Callback)>>)
    requires c.state == Connected && c.kind == ByClient && EachDeliverable(Messages(queues))
    requires AllDeliverable(sent) && AllSizable(sent) && c.out == EncodeAll(sent)
    ensures EachSizable(queues) && AllSizable(Resends(sent, Messages(queues)))
    ensures Sends(c, queues).wire == c.wire + EncodeAll(Resends(sent, Messages(queues)))
    decreases |queues|
  {
    QueuesSizable(queues);
    ReceivedResends(sent, Messages(queues));
    if queues == [] {
      assert c.wire + [] == c.wire;
    } else {
      var a, rest := Firsts(queues[0]), queues[1..];
      EachTail(Messages(queues));
      assert Messages(queues)[1..] == Messages(rest);
      DeliverableBoth(sent, a);
      EncodeAllConcat(sent, a);
      var n := |c.out| + |EncodeAll(a)|;
      var c' := AfterWrite(c.(writeDones := queues[0]), [Wrote(n)]);
      assert SendLoop(EncodeAll(sent + a), [Wrote(n)]).sent == EncodeAll(sent + a);
      SendsWire(c', sent + a, rest);
      EncodeAllConcat(sent + a, Resends(sent + a, Messages(rest)));
      Assoc(c.wire, EncodeAll(sent + a), EncodeAll(Resends(sent + a, Messages(rest))));
    }
  }

  lemma {:induction false} QueuesSizable(queues: seq<seq<(Message, Callback)>>)
    requires EachDeliverable(Messages(queues))
    ensures EachSizable(queues)
  {
    if queues == [] {
    } else {
      EachTail(Messages(queues));
      assert Messages(queues)[1..] == Messages(queues[1..]);
      QueuesSizable(queues[1..]);
      assert forall q | q in queues :: q == queues[0] || q in queues[1..];
    }
  }

  /** A server decodes whatever arrives well, and answers it unless an error reply overruns its allocation. */
  lemma Executes(services: map<seq<byte>, Service>, s: Conn, rs: seq<Message>, chunks: seq<seq<byte>>)
    requires Modest(services) && ServerReady(s) && AllDeliverable(rs) && AllSizable(rs)
    requires ArrivesWell(s.inBuf, rs, chunks)
    ensures var decoded := Feed(s.inBuf, Singles(chunks)).msgs;
            var r := ReadRun(services, s, Singles(chunks));
            && decoded == ReceivedAll(rs) && AllSizable(Serve(services, decoded))
            && (r.outcome == Done <==> EachAnswered(services, decoded))
            && (r.outcome == Done ==> r.c.out == s.out + EncodeAll(Serve(services, decoded)))
  {
    WellFed(s.inBuf, rs, chunks, s.patience);
    FedNames(s.inBuf, Singles(chunks), s.patience);
    RepliesSizable(services, Feed(s.inBuf, Singles(chunks)).msgs);
    ServerRun(services, s, Singles(chunks));
  }

  /** How often a request is in what a client wrote. */
  lemma ReplayCount(mss: seq<seq<Message>>, m: Message)
    requires EachDeliverable(mss)
    ensures AllDeliverable(Resends([], mss)) && AllSizable(Resends([], mss))
    ensures Count(ReceivedAll(Resends([], mss)), m) == Replays(ReceivedEach(mss), m)
  {
    ReceivedResends([], mss);
    ResendCount([], ReceivedEach(mss), m);
    TimesZero(|mss|);
  }

  /** What a client that starts with nothing to send puts on the socket. */
  lemma SentStream(c: Conn, queues: seq<seq<(Message, Callback)>>)
    requires c.state == Connected && c.kind == ByClient && c.out == [] && c.wire == []
    requires EachDeliverable(Messages(queues))
    ensures EachSizable(queues) && AllSizable(Resends([], Messages(queues)))
    ensures Sends(c, queues).wire == EncodeAll(Resends([], Messages(queues)))
  {
    SendsWire(c, [], queues);
  }

  lemma CoverIs(b: Buf, rs: seq<Message>, chunks: seq<seq<byte>>)
    requires b.Ok() && ArrivesWell(b, rs, chunks)
    ensures Flatten(chunks) == EncodeAll(rs)
  {
    FramesFlatten(rs);
    assert EncodeAll(rs) + [] == EncodeAll(rs);
  }

  /**
   * A server executes requests again.  When what a client wrote in `n` writes arrives, in any chunks
   * that reassemble, a request of the first write is decoded `n` times, one of the last write once; and
   * if every request is answered, which is when the server survives, each is answered as often.
   */
  lemma RequestsReplayed(services: map<seq<byte>, Service>, s: Conn, c: Conn,
                         queues: seq<seq<(Message, Callback)>>, chunks: seq<seq<byte>>, m: Message)
    requires Modest(services) && ServerReady(s) && EachDeliverable(Messages(queues))
    requires c.state == Connected && c.kind == ByClient && c.out == [] && c.wire == []
    requires ArrivesWell(s.inBuf, Resends([], Messages(queues)), chunks)
    ensures EachSizable(queues) && Flatten(chunks) == Sends(c, queues).wire
    ensures var decoded := Feed(s.inBuf, Singles(chunks)).msgs;
            var r := ReadRun(services, s, Singles(chunks));
            && Count(decoded, m) == Replays(ReceivedEach(Messages(queues)), m)
            && AllSizable(Serve(services, decoded))
            && (r.outcome == Done <==> EachAnswered(services, decoded))
            && (r.outcome == Done ==> r.c.out == s.out + EncodeAll(Serve(services, decoded)))
  {
    var rs := Resends([], Messages(queues));
    ReplayCount(Messages(queues), m);
    SentStream(c, queues);
    CoverIs(s.inBuf, rs, chunks);
    Executes(services, s, rs, chunks);
  }

  lemma {:induction false} TimesZero(n: nat)
    ensures Times(n, 0) == 0
  {
    if n == 0 {
    } else {
      TimesZero(n - 1);
    }
  }
}
