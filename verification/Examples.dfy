// Concrete inputs: that the theorems about exchanges apply to more than the empty one, and what a cut
// inside a frame that carries a frame does.

module Examples {
  import opened Bytes
  import opened Buffers
  import opened TinyPB
  import opened TinyPBDecode
  import opened RpcDispatchers
  import opened TcpConnections
  import opened ConnectionRuns
  import opened Reassembly
  import opened RpcDelivery
  import opened Arriving
  import opened RpcExchange
  import opened PeerRuns

  // ---------------------------------------------------------------- two calls, two writes

  /** "S.m" */
  const CALLED: seq<byte> := [83, 46, 109]

  function Echo(request: seq<byte>): Handled {
    if |request| <= 100 then Response(request) else Unparsable
  }

  /** One service "S" with one method "m". */
  function Services(): map<seq<byte>, Service> {
    map[[83] := map[[109] := Echo]]
  }

  function Call(id: byte): Message {
    Message([id], CALLED, 0, [], [], 0, 0, 0, 0, false)
  }

  function Batches(): seq<seq<Message>> {
    [[Call(49)], [Call(50)]]
  }

  lemma ServicesModest()
    ensures Modest(Services())
  {
  }

  lemma CallIsGood(id: byte)
    requires id != 0
    ensures GoodRequest(Services(), Call(id)) && PkLen(Call(id)) == 30
    ensures Judge(Services(), CALLED, []) == Answered([])
  {
    FirstDotUnique(CALLED, 1);
    assert CALLED[..1] == [83] && CALLED[2..] == [109];
    assert ParseFullName(CALLED) == FullName([83], [109]);
    JudgeAnswers(Services(), CALLED, [], []);
  }

  lemma BatchesGood()
    ensures GoodBatches(Services(), Batches())
  {
    CallIsGood(49);
    CallIsGood(50);
  }

  /** The reply to such a call has the size of the call. */
  lemma ReplySize(id: byte)
    requires id != 0
    ensures Modest(Services()) && GoodBatch(Services(), [Call(id)])
    ensures var rs := Replies(Services(), [Call(id)]); |rs| == 1 && AllSizable(rs) && |EncodeAll(rs)| == 30
  {
    ServicesModest();
    CallIsGood(id);
    var rs := Replies(Services(), [Call(id)]);
    GoodReply(Services(), Call(id));
    WireSafeIsExact(Call(id));
    assert rs[0] in rs && rs[1..] == [];
  }

  lemma TwoBatchesHandy()
    ensures Handy(Batches(), 128)
  {
    CallIsGood(49);
    CallIsGood(50);
    forall ms | ms in Batches()
      ensures ms != [] && AllDeliverable(ms) && AllSizable(ms) && |EncodeAll(ms)| == 30
    {
      ServicesModest();
      GoodReply(Services(), ms[0]);
      assert ms[1..] == [];
    }
  }

  /** The first write carries one reply, the second both. */
  lemma TwoWritesHandy()
    ensures Modest(Services()) && GoodBatches(Services(), Batches())
    ensures Handy(Prefixes([], AllReplies(Services(), Batches())), 128)
  {
    ServicesModest();
    BatchesGood();
    ReplySize(49);
    ReplySize(50);
    var a, b := Replies(Services(), [Call(49)]), Replies(Services(), [Call(50)]);
    var rest := Batches()[1..];
    assert rest == [[Call(50)]] && rest[1..] == [];
    GoodTail(Services(), Batches());
    assert AllReplies(Services(), rest) == [b] + AllReplies(Services(), []);
    assert AllReplies(Services(), Batches()) == [a] + AllReplies(Services(), rest) == [a, b];
    TwoPrefixes(a, b);
  }

  lemma TwoPrefixes(a: seq<Message>, b: seq<Message>)
    requires |a| == |b| == 1 && AllDeliverable(a) && AllDeliverable(b) && AllSizable(a) && AllSizable(b)
    requires |EncodeAll(a)| == |EncodeAll(b)| == 30
    ensures Handy(Prefixes([], [a, b]), 128)
  {
    DeliverableBoth(a, b);
    EncodeAllConcat(a, b);
    assert [a, b][1..] == [b] && [b][1..] == [];
    assert [] + a == a && Prefixes([], [a, b]) == [a] + Prefixes(a, [b]) == [a, a + b];
  }

  /** Two calls in two batches over 128-byte buffers: each callback runs once, though the first reply comes twice. */
  lemma TwoCalls(id: byte)
    requires id == 49 || id == 50
    ensures Modest(Services()) && GoodBatches(Services(), Batches())
    ensures Handy(Prefixes([], AllReplies(Services(), Batches())), 128)
    ensures var c := Conn(Connected, ByClient, Fresh(128), [], map[[49] := 0, [50] := 1], [], [], [], 0, false);
            var r := ReadRun(Services(), c, Singles(Encoded(Prefixes([], AllReplies(Services(), Batches())))));
            && r.outcome == Done
            && var calls := ForId(r.c.fired, [id]);
               |calls| == 1 && calls[0].0 == c.readDones[[id]] && calls[0].1.errCode == 0
  {
    var s := Conn(Connected, ByServer, Fresh(128), [], map[], [], [], [], 0, false);
    var c := Conn(Connected, ByClient, Fresh(128), [], map[[49] := 0, [50] := 1], [], [], [], 0, false);
    TwoBatchesHandy();
    TwoWritesHandy();
    EndToEndByWrites(Services(), s, c, Batches(), [id]);
    var r := ReadRun(Services(), c, Singles(Encoded(Prefixes([], AllReplies(Services(), Batches())))));
    assert r.c.fired[0..] == r.c.fired;
    CallsAsked(id);
  }

  lemma CallsAsked(id: byte)
    requires id == 49 || id == 50
    ensures FirstAsked(Flat(Batches()), [id]) == [Call(id)]
  {
    assert Batches()[1..] == [[Call(50)]] && Batches()[1..][1..] == [];
    assert Flat(Batches()) == [Call(49)] + ([Call(50)] + []);
    assert Flat(Batches())[1..] == [Call(50)];
  }

  // ---------------------------------------------------------------- a frame inside a frame

  const INNER: seq<byte> :=
    [2, 0, 0, 0, 27, 0, 0, 0, 1, 49, 0, 0, 0, 0, 0, 0, 0, 0, 0, 0, 0, 0, 0, 0, 0, 1, 3]

  const HEAD: seq<byte> :=
    [2, 0, 0, 0, 54, 0, 0, 0, 1, 49, 0, 0, 0, 0, 0, 0, 0, 0, 0, 0, 0, 0]

  function Inner(): Message {
    Message([49], [], 0, [], [], 0, 0, 0, 0, false)
  }

  /** A message whose payload is an encoded message. */
  function Outer(): Message {
    Inner().(pbData := INNER)
  }

  lemma SmallNet(n: int32)
    requires 0 <= n < 256
    ensures ToNet(n) == [0, 0, 0, n]
  {
  }

  lemma InnerIsFrame()
    ensures Frame(Inner()) == INNER
  {
    SmallNet(27);
    SmallNet(1);
    SmallNet(0);
    var s := Seal(Inner());
    assert Frame(Inner()) == Layout(s);
  }

  lemma OuterIsFrame()
    ensures Frame(Outer()) == HEAD + INNER + [0, 0, 0, 1, 3]
  {
    SmallNet(54);
    SmallNet(1);
    SmallNet(0);
    var s := Seal(Outer());
    assert Frame(Outer()) == Layout(s);
  }

  /** The frame cut right behind the frame in its payload. */
  function Cut(): seq<seq<byte>> {
    [HEAD + INNER, [0, 0, 0, 1, 3]]
  }

  /** The only start bytes in the first piece are the two that begin a frame, and both lengths are sound. */
  lemma CutSettled()
    ensures Settled(HEAD + INNER, 128)
  {
    var t := HEAD + INNER;
    IntAtIs(t, 1);
    IntAtIs(t, 23);
    forall k | 0 <= k < |t| - 1 && t[k] == PB_START
      ensures SettledAt(t, k, 128)
    {
      assert k < 22 ==> HEAD[k] == PB_START;
      assert 22 <= k ==> INNER[k - 22] == PB_START;
      assert k == 0 || k == 22;
    }
  }

  lemma CutNoisy()
    ensures !Quiet(HEAD + INNER)
  {
    IntAtIs(HEAD + INNER, 23);
    assert Accepts(HEAD + INNER, 22);
  }

  lemma CutFlat()
    ensures Flatten(Cut()) == HEAD + INNER + [0, 0, 0, 1, 3] && Flatten(Cut()[..1]) == HEAD + INNER
  {
    assert Cut()[1..] == [[0, 0, 0, 1, 3]] && Cut()[1..][1..] == [];
    assert Flatten(Cut()) == (HEAD + INNER) + ([0, 0, 0, 1, 3] + []);
    assert Cut()[..1] == [HEAD + INNER] && Cut()[..1][1..] == [];
    assert Flatten(Cut()[..1]) == (HEAD + INNER) + [];
  }

  lemma OuterFrames()
    ensures Sizable(Outer()) && AllSizable([Outer()]) && AllDeliverable([Outer()])
    ensures FramesOf([Outer()]) == [HEAD + INNER + [0, 0, 0, 1, 3]]
  {
    OuterIsFrame();
  }

  lemma CutCovers(parts: seq<seq<byte>>)
    requires parts == [HEAD + INNER + [0, 0, 0, 1, 3]]
    ensures Cover(parts, [], Cut())
    ensures Left(parts, [], Cut(), 0) == [] && Left(parts, [], Cut(), 2) == []
    ensures Left(parts, [], Cut(), 1) == HEAD + INNER
  {
    var f := parts[0];
    CutFlat();
    assert parts[1..] == [] && Flatten(parts) == f + Flatten([]) == f == f + [];
    EmptyPrefix(parts, [], Cut());
    LeftAtEnd(parts, [], Cut());
    assert HEAD + INNER == f[..49];
  }

  lemma CutIs(parts: seq<seq<byte>>)
    requires Cover(parts, [], Cut()) && Left(parts, [], Cut(), 0) == [] && Left(parts, [], Cut(), 2) == []
    requires Left(parts, [], Cut(), 1) == HEAD + INNER
    ensures Fits(parts, [], Cut(), 128) && SettledCuts(parts, [], Cut(), 128) && !QuietCuts(parts, [], Cut(), 0)
  {
    CutSettled();
    CutNoisy();
  }

  /**
   * A message that carries an encoded message, cut behind it: both pieces fit and are settled, and
   * still the message does not arrive, because the first piece contains the whole frame of the other.
   */
  lemma NoisyCutExample(b: Buf)
    requires Tidy(b) && |b.data| == 128 && b.View() == []
    ensures AllSizable([Outer()]) && Cover(FramesOf([Outer()]), [], Cut())
    ensures Fits(FramesOf([Outer()]), [], Cut(), 128) && SettledCuts(FramesOf([Outer()]), [], Cut(), 128)
    ensures Outer().pbData == Frame(Inner()) && !Arrives(Feed(b, Singles(Cut())), [Outer()], [])
  {
    InnerIsFrame();
    OuterFrames();
    CutCovers(FramesOf([Outer()]));
    CutIs(FramesOf([Outer()]));
    EmptyPrefix(FramesOf([Outer()]), [], Cut());
    ChunkedRoundTrip(b, [Outer()], [], Cut());
    SettledIsClean(b, [Outer()], [], Cut(), 0);
  }
}
