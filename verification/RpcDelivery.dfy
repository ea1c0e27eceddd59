// The client's table of callbacks: which callback runs with which reply, also when every write of the
// peer offers its whole out-buffer again.

module RpcDelivery {
  import opened Bytes
  import opened TinyPB
  import opened TcpConnections

  // ---------------------------------------------------------------- the id table

  /** The calls made for one id, in order. */
  function ForId(fired: seq<(Callback, Message)>, id: seq<byte>): seq<(Callback, Message)> {
    if fired == [] then []
    else (if fired[0].1.msgId == id then [fired[0]] else []) + ForId(fired[1..], id)
  }

  /** The first reply for one id, if there is any. */
  function FirstFor(replies: seq<Message>, id: seq<byte>): (r: seq<Message>)
    ensures |r| <= 1
  {
    if replies == [] then []
    else if replies[0].msgId == id then [replies[0]]
    else FirstFor(replies[1..], id)
  }

  /** The calls that an id is due: its callback once, with its first reply. */
  function Due(table: map<seq<byte>, Callback>, replies: seq<Message>, id: seq<byte>): seq<(Callback, Message)> {
    var first := FirstFor(replies, id);
    if id in table && first != [] then [(table[id], first[0])] else []
  }

  /**
   * Correlation.  For every id, registered or not: its callback runs exactly when it is registered
   * and a reply carries the id, exactly once, with the first such reply; exactly then it is
   * removed; and no other entry of the table changes.
   */
  lemma {:induction false} DeliverIs(table: map<seq<byte>, Callback>, replies: seq<Message>, id: seq<byte>)
    ensures var d := Deliver(table, replies);
            && ForId(d.fired, id) == Due(table, replies, id)
            && (id in d.table <==> id in table && FirstFor(replies, id) == [])
            && (id in d.table ==> d.table[id] == table[id])
  {
    if replies == [] {
    } else {
      var first := replies[0];
      if first.msgId in table {
        var d := Deliver(table - {first.msgId}, replies[1..]);
        DeliverIs(table - {first.msgId}, replies[1..], id);
        assert ([(table[first.msgId], first)] + d.fired)[1..] == d.fired;
      } else {
        DeliverIs(table, replies[1..], id);
      }
    }
  }

  /** The call that the first reply makes, and the table after it. */
  function FirstCall(table: map<seq<byte>, Callback>, reply: Message): Delivery {
    if reply.msgId in table then Delivery(table - {reply.msgId}, [(table[reply.msgId], reply)])
    else Delivery(table, [])
  }

  lemma DeliverFirst(table: map<seq<byte>, Callback>, replies: seq<Message>)
    requires replies != []
    ensures var first := FirstCall(table, replies[0]);
            var d := Deliver(first.table, replies[1..]);
            Deliver(table, replies) == Delivery(d.table, first.fired + d.fired)
  {
  }

  lemma {:induction false} DeliverConcat(table: map<seq<byte>, Callback>, a: seq<Message>, b: seq<Message>)
    ensures var d := Deliver(table, a);
            var d' := Deliver(d.table, b);
            Deliver(table, a + b) == Delivery(d'.table, d.fired + d'.fired)
    decreases |a|
  {
    if a == [] {
      assert a + b == b;
    } else {
      var first := FirstCall(table, a[0]);
      DeliverFirst(table, a);
      DeliverFirst(table, a + b);
      assert (a + b)[1..] == a[1..] + b;
      DeliverConcat(first.table, a[1..], b);
      var d := Deliver(first.table, a[1..]);
      Assoc(first.fired, d.fired, Deliver(d.table, b).fired);
    }
  }

  /**
   * Registering and delivering.  The first reply with the id runs the callback that was registered first,
   * once; the other ids get what they would have got.
   */
  lemma RegisteredRuns(table: map<seq<byte>, Callback>, id: seq<byte>, done: Callback, replies: seq<Message>)
    ensures var d := Deliver(Register(table, id, done), replies);
            var first := FirstFor(replies, id);
            && ForId(d.fired, id)
               == (if first == [] then [] else [(if id in table then table[id] else done, first[0])])
            && (id in d.table <==> first == [])
            && forall x | x != id :: ForId(d.fired, x) == ForId(Deliver(table, replies).fired, x)
  {
    DeliverIs(Register(table, id, done), replies, id);
    forall x | x != id
      ensures ForId(Deliver(Register(table, id, done), replies).fired, x) == ForId(Deliver(table, replies).fired, x)
    {
      DeliverIs(Register(table, id, done), replies, x);
      DeliverIs(table, replies, x);
    }
  }

  /** None of the replies is waited for. */
  ghost predicate Unawaited(table: map<seq<byte>, Callback>, replies: seq<Message>) {
    forall r | r in replies :: r.msgId !in table
  }

  lemma {:induction false} UnawaitedIgnored(table: map<seq<byte>, Callback>, replies: seq<Message>)
    requires Unawaited(table, replies)
    ensures Deliver(table, replies) == Delivery(table, [])
  {
    if replies == [] {
    } else {
      assert forall r | r in replies[1..] :: r in replies;
      UnawaitedIgnored(table, replies[1..]);
    }
  }

  lemma {:induction false} FirstForFinds(replies: seq<Message>, r: Message)
    requires r in replies
    ensures FirstFor(replies, r.msgId) != []
  {
    if replies[0].msgId == r.msgId {
    } else {
      FirstForFinds(replies[1..], r);
    }
  }

  lemma DeliveredOnce(table: map<seq<byte>, Callback>, replies: seq<Message>)
    ensures Unawaited(Deliver(table, replies).table, replies)
    ensures forall rs :: Unawaited(table, rs) ==> Unawaited(Deliver(table, replies).table, rs)
  {
    forall r | r in replies
      ensures r.msgId !in Deliver(table, replies).table
    {
      FirstForFinds(replies, r);
      DeliverIs(table, replies, r.msgId);
    }
    forall id | id in Deliver(table, replies).table
      ensures id in table
    {
      DeliverIs(table, replies, id);
    }
  }

  // ---------------------------------------------------------------- sending everything again

  function Flat(batches: seq<seq<Message>>): seq<Message> {
    if batches == [] then [] else batches[0] + Flat(batches[1..])
  }

  /** What a peer sees when every batch is sent behind all the earlier ones again. */
  function Resends(sent: seq<Message>, batches: seq<seq<Message>>): seq<Message>
    decreases |batches|
  {
    if batches == [] then []
    else (sent + batches[0]) + Resends(sent + batches[0], batches[1..])
  }

  lemma UnawaitedBoth(table: map<seq<byte>, Callback>, a: seq<Message>, b: seq<Message>)
    requires Unawaited(table, a) && Unawaited(table, b)
    ensures Unawaited(table, a + b)
  {
  }

  /** Replies that are sent again run no callback again. */
  lemma {:induction false} ResendsHarmless(table: map<seq<byte>, Callback>, sent: seq<Message>,
                                           batches: seq<seq<Message>>)
    requires Unawaited(table, sent)
    ensures Deliver(table, Resends(sent, batches)) == Deliver(table, Flat(batches))
    decreases |batches|
  {
    if batches == [] {
    } else {
      var a, rest := batches[0], batches[1..];
      var table' := Deliver(table, a).table;
      UnawaitedIgnored(table, sent);
      DeliverConcat(table, sent, a);
      DeliverConcat(table, sent + a, Resends(sent + a, rest));
      DeliveredOnce(table, a);
      UnawaitedBoth(table', sent, a);
      ResendsHarmless(table', sent + a, rest);
      DeliverConcat(table, a, Flat(rest));
    }
  }

  /**
   * A stale reply.  An id is registered again after the replies `a` have come; then `a` comes again, as
   * every later write sends it, and `b` behind it.  The new callback runs with the first reply of all that
   * carry its id: with an old one exactly when there was one in `a`, whatever `b` holds for it.
   */
  lemma StaleIff(table: map<seq<byte>, Callback>, a: seq<Message>, b: seq<Message>, id: seq<byte>, done: Callback)
    requires id !in Deliver(table, a).table
    ensures var again := Register(Deliver(table, a).table, id, done);
            var fired := ForId(Deliver(again, a + b).fired, id);
            fired == if FirstFor(a, id) != [] then [(done, FirstFor(a, id)[0])] else Due(again, b, id)
  {
    RegisteredRuns(Deliver(table, a).table, id, done, a + b);
    FirstForConcat(a, b, id);
  }

  lemma {:induction false} FirstForConcat(a: seq<Message>, b: seq<Message>, id: seq<byte>)
    ensures FirstFor(a + b, id) == if FirstFor(a, id) != [] then FirstFor(a, id) else FirstFor(b, id)
  {
    if a == [] {
      assert a + b == b;
    } else {
      assert (a + b)[1..] == a[1..] + b;
      FirstForConcat(a[1..], b, id);
    }
  }

  function Count(ms: seq<Message>, m: Message): nat {
    multiset(ms)[m]
  }

  lemma CountConcat(a: seq<Message>, b: seq<Message>, m: Message)
    ensures Count(a + b, m) == Count(a, m) + Count(b, m)
  {
  }

  /** Occurrences in the batches, each counted once for every write from its own on. */
  function Replays(batches: seq<seq<Message>>, m: Message): nat {
    if batches == [] then 0 else Times(|batches|, Count(batches[0], m)) + Replays(batches[1..], m)
  }

  function Times(n: nat, k: nat): nat {
    if n == 0 then 0 else k + Times(n - 1, k)
  }

  lemma {:induction false} TimesSum(n: nat, j: nat, k: nat)
    ensures Times(n, j + k) == Times(n, j) + Times(n, k)
  {
    if n == 0 {
    } else {
      TimesSum(n - 1, j, k);
    }
  }

  /** A message of the first of `n` batches reaches the peer `n` times, one of the last batch once. */
  lemma {:induction false} ResendCount(sent: seq<Message>, batches: seq<seq<Message>>, m: Message)
    ensures Count(Resends(sent, batches), m) == Times(|batches|, Count(sent, m)) + Replays(batches, m)
    decreases |batches|
  {
    if batches == [] {
    } else {
      var a, rest := batches[0], batches[1..];
      ResendCount(sent + a, rest, m);
      CountConcat(sent, a, m);
      CountConcat(sent + a, Resends(sent + a, rest), m);
      TimesSum(|rest|, Count(sent, m), Count(a, m));
    }
  }
}
