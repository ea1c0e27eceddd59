// Reassembly: a stream of frames that arrives in chunks yields the messages it would yield whole, if
// and only if every chunk is shorter than the free space and the scan skips everything that a cut leaves.

module Reassembly {
  import opened Bytes
  import opened Buffers
  import opened TinyPB
  import opened TinyPBDecode
  import opened TcpConnections
  import opened ConnectionRuns

  /** The number of bytes in the first `i` chunks. */
  function Pos(chunks: seq<seq<byte>>, i: nat): nat
    requires i <= |chunks|
  {
    |Flatten(chunks[..i])|
  }

  /** The chunks make up the frames `parts` with `t` behind them. */
  ghost predicate Cover(parts: seq<seq<byte>>, t: seq<byte>, chunks: seq<seq<byte>>) {
    Flatten(chunks) == Flatten(parts) + t && [] !in chunks
  }

  lemma {:induction false} FlattenPrefix(chunks: seq<seq<byte>>, i: nat)
    requires i < |chunks|
    ensures Pos(chunks, i) <= Pos(chunks, i + 1) <= |Flatten(chunks)|
    ensures Pos(chunks, i + 1) == Pos(chunks, i) + |chunks[i]|
    ensures Flatten(chunks)[Pos(chunks, i)..Pos(chunks, i + 1)] == chunks[i]
  {
    var a, c, z := chunks[..i], [chunks[i]], chunks[i + 1..];
    assert chunks == a + (c + z) && chunks[..i + 1] == a + c;
    FlattenConcat(a, c + z);
    FlattenConcat(c, z);
    FlattenConcat(a, c);
    assert Flatten(c) == chunks[i];
  }

  lemma PosBound(chunks: seq<seq<byte>>, i: nat)
    requires i <= |chunks|
    ensures Pos(chunks, i) <= |Flatten(chunks)|
  {
    FlattenConcat(chunks[..i], chunks[i..]);
    assert chunks == chunks[..i] + chunks[i..];
  }

  /** The incomplete frame (or part of the tail) that is there after `i` chunks. */
  function Left(parts: seq<seq<byte>>, t: seq<byte>, chunks: seq<seq<byte>>, i: nat): seq<byte>
    requires Cover(parts, t, chunks) && i <= |chunks|
  {
    PosBound(chunks, i);
    Residue(parts, t, Pos(chunks, i))
  }

  /** The number of frames that are complete after `i` chunks. */
  function Arrivals(parts: seq<seq<byte>>, chunks: seq<seq<byte>>, i: nat): (k: nat)
    requires i <= |chunks|
    ensures k <= |parts|
  {
    Whole(parts, Pos(chunks, i))
  }

  /** Every chunk fits two thirds of the array together with what was left before it. */
  ghost predicate Fits(parts: seq<seq<byte>>, t: seq<byte>, chunks: seq<seq<byte>>, cap: nat)
    requires Cover(parts, t, chunks)
  {
    forall i | 0 <= i < |chunks| :: |Left(parts, t, chunks, i)| + |chunks[i]| <= cap - cap / 3
  }

  /** After every chunk what the decoder makes of the residue depends on the residue alone. */
  ghost predicate SettledCuts(parts: seq<seq<byte>>, t: seq<byte>, chunks: seq<seq<byte>>, cap: nat)
    requires Cover(parts, t, chunks)
  {
    forall i | 0 < i <= |chunks| :: Settled(Left(parts, t, chunks, i), cap)
  }

  /** After every chunk from the `i`th on nothing inside the residue looks like a whole frame. */
  ghost predicate QuietCuts(parts: seq<seq<byte>>, t: seq<byte>, chunks: seq<seq<byte>>, i: nat)
    requires Cover(parts, t, chunks)
  {
    forall k | i < k <= |chunks| :: Quiet(Left(parts, t, chunks, k))
  }

  lemma LeftGrows(parts: seq<seq<byte>>, t: seq<byte>, chunks: seq<seq<byte>>, i: nat)
    requires Cover(parts, t, chunks) && i < |chunks|
    ensures Arrivals(parts, chunks, i) <= Arrivals(parts, chunks, i + 1)
    ensures Left(parts, t, chunks, i) + chunks[i]
         == Flatten(parts[Arrivals(parts, chunks, i)..Arrivals(parts, chunks, i + 1)])
            + Left(parts, t, chunks, i + 1)
  {
    FlattenPrefix(chunks, i);
    ResidueGrows(parts, t, Pos(chunks, i), Pos(chunks, i + 1));
  }

  lemma {:induction false} AllArrive(parts: seq<seq<byte>>, t: seq<byte>, n: nat)
    requires |Flatten(parts)| <= n <= |Flatten(parts)| + |t|
    ensures Whole(parts, n) == |parts| && Residue(parts, t, n) == t[..n - |Flatten(parts)|]
  {
    if parts == [] {
    } else {
      AllArrive(parts[1..], t, n - |parts[0]|);
    }
  }

  lemma LeftAtEnd(parts: seq<seq<byte>>, t: seq<byte>, chunks: seq<seq<byte>>)
    requires Cover(parts, t, chunks)
    ensures Arrivals(parts, chunks, |chunks|) == |parts| && Left(parts, t, chunks, |chunks|) == t
  {
    assert chunks[..|chunks|] == chunks;
    AllArrive(parts, t, |Flatten(chunks)|);
  }

  /** What is left is shorter than the frame it belongs to. */
  lemma {:induction false} ResidueShort(parts: seq<seq<byte>>, t: seq<byte>, n: nat)
    requires n <= |Flatten(parts)| + |t| && Whole(parts, n) < |parts|
    ensures |Residue(parts, t, n)| < |parts[Whole(parts, n)]|
  {
    if parts == [] {
    } else if n >= |parts[0]| {
      ResidueShort(parts[1..], t, n - |parts[0]|);
    }
  }

  // ---------------------------------------------------------------- one chunk

  lemma DeliverableSlice(ms: seq<Message>, i: nat, j: nat)
    requires AllDeliverable(ms) && i <= j <= |ms|
    ensures AllSizable(ms) && AllDeliverable(ms[i..j])
  {
    assert forall m | m in ms[i..j] :: m in ms;
  }

  /** The buffer once chunk `i` has been read and the frames that it completes are off the front. */
  ghost function AfterFrames(b: Buf, ms: seq<Message>, t: seq<byte>, chunks: seq<seq<byte>>, i: nat): (b': Buf)
    requires b.Ok() && AllSizable(ms) && i < |chunks| && Cover(FramesOf(ms), t, chunks)
    ensures b'.Ok()
  {
    var k, k' := Arrivals(FramesOf(ms), chunks, i), Arrivals(FramesOf(ms), chunks, i + 1);
    LeftGrows(FramesOf(ms), t, chunks, i);
    SizableSlice(ms, k, k');
    Taken(ReadLoop(b, [Arrived(chunks[i])]).b, ms[k..k'])
  }

  /**
   * From the `i`th chunk on, every chunk is shorter than the free space when it comes, and the scan skips
   * everything that is left behind the frames it completes.
   */
  ghost predicate CleanRun(b: Buf, ms: seq<Message>, t: seq<byte>, chunks: seq<seq<byte>>, i: nat)
    requires b.Ok() && AllSizable(ms) && i <= |chunks| && Cover(FramesOf(ms), t, chunks)
    decreases |chunks| - i
  {
    || i == |chunks|
    || (&& |chunks[i]| < b.Writable()
        && var b' := AfterFrames(b, ms, t, chunks, i);
           Rests(b') && CleanRun(b', ms, t, chunks, i + 1))
  }

  /** After chunk `i` the decoder first returns the frames that it completes. */
  lemma ChunkLeads(b: Buf, ms: seq<Message>, t: seq<byte>, chunks: seq<seq<byte>>, i: nat)
    requires Roomed(b) && AllDeliverable(ms) && AllSizable(ms) && i < |chunks|
    requires Cover(FramesOf(ms), t, chunks) && |chunks[i]| < b.Writable()
    requires b.View() == Left(FramesOf(ms), t, chunks, i)
    ensures var r, b' := ReadLoop(b, [Arrived(chunks[i])]), AfterFrames(b, ms, t, chunks, i);
            var k, k' := Arrivals(FramesOf(ms), chunks, i), Arrivals(FramesOf(ms), chunks, i + 1);
            && !r.closed && Roomed(r.b) && k <= k' && AllDeliverable(ms[k..k']) && AllSizable(ms[k..k'])
            && Roomed(b') && |b'.data| == |b.data| && b'.View() == Left(FramesOf(ms), t, chunks, i + 1)
            && Leads(r.b, ReceivedAll(ms[k..k']), b')
  {
    var parts := FramesOf(ms);
    var k, k' := Arrivals(parts, chunks, i), Arrivals(parts, chunks, i + 1);
    assert chunks[i] in chunks;
    ShortRead(b, chunks[i]);
    LeftGrows(parts, t, chunks, i);
    FramesSlice(ms, k, k');
    DeliverableSlice(ms, k, k');
    FramesDecode(ReadLoop(b, [Arrived(chunks[i])]).b, ms[k..k'], Left(parts, t, chunks, i + 1));
  }

  lemma ReceivedSplits(ms: seq<Message>, i: nat, j: nat)
    requires AllSizable(ms) && i <= j <= |ms|
    ensures AllSizable(ms[i..]) && AllSizable(ms[i..j]) && AllSizable(ms[j..])
    ensures ReceivedAll(ms[i..]) == ReceivedAll(ms[i..j]) + ReceivedAll(ms[j..])
  {
    SizableSlice(ms, i, |ms|);
    SizableSlice(ms, i, j);
    SizableSlice(ms, j, |ms|);
    assert ms[i..] == ms[i..j] + ms[j..];
    ReceivedConcat(ms[i..j], ms[j..]);
  }

  // ---------------------------------------------------------------- the price of a message

  /** The bytes the decoder took for these messages. */
  function Weight(ms: seq<Message>): int {
    if ms == [] then 0 else ms[0].pkLen + Weight(ms[1..])
  }

  lemma {:induction false} WeightConcat(ms: seq<Message>, ms': seq<Message>)
    ensures Weight(ms + ms') == Weight(ms) + Weight(ms')
  {
    if ms == [] {
      assert ms + ms' == ms';
    } else {
      assert (ms + ms')[1..] == ms[1..] + ms';
      WeightConcat(ms[1..], ms');
    }
  }

  lemma {:induction false} WeightOfFrames(ms: seq<Message>)
    requires AllSizable(ms)
    ensures Weight(ReceivedAll(ms)) == |EncodeAll(ms)|
  {
    if ms == [] {
    } else {
      SizableSlice(ms, 1, |ms|);
      assert ms[0] in ms && ReceivedAll(ms)[1..] == ReceivedAll(ms[1..]);
      WeightOfFrames(ms[1..]);
    }
  }

  /** What is left and what the messages took together are no more than `n` bytes. */
  ghost predicate Within(d: Decoding, n: int)
    requires d.b.Ok()
  {
    |d.b.View()| + Weight(d.msgs) <= n
  }

  lemma FrameLength(data: seq<byte>, start: int, len: int32)
    requires 0 <= start && 6 <= len && start + len <= |data|
    ensures var p := ParseFrame(data, start, len); p.Parsed? ==> p.msg.pkLen == len
  {
  }

  lemma PushWeight(b: Buf, p: Parse, len: nat)
    requires b.Ok() && (p.Parsed? ==> p.msg.pkLen == len) && Within(Decode(b), |b.View()|)
    ensures Within(Push(b, p), |b.View()| + if p.Parsed? then len else 0)
  {
    if p.Parsed? {
      WeightConcat([p.msg], Decode(b).msgs);
    }
  }

  lemma TakeWeight(b: Buf, start: int, len: int)
    requires b.Ok() && Scan(b.data, b.w, b.r) == FoundFrame(start, len) && !Halts(b, len)
    requires Within(Decode(MoveRead(b, len)), |MoveRead(b, len).View()|)
    ensures Within(Decode(b), |b.View()|)
  {
    var b' := MoveRead(b, len);
    DecodeTakes(b, start, len);
    FrameLength(b.data, start, len);
    PushWeight(b', ParseFrame(b.data, start, len), len);
    assert |b'.View()| + len == |b.View()|;
  }

  /** Each message takes its own length off the readable bytes, or more. */
  lemma {:induction false} DecodeWeight(b: Buf)
    requires b.Ok()
    ensures Within(Decode(b), |b.View()|)
    decreases b.w - b.r
  {
    match Scan(b.data, b.w, b.r)
    case FoundFrame(start, len) =>
      if Halts(b, len) {
        DecodeHalts(b, start, len);
      } else {
        DecodeWeight(MoveRead(b, len));
        TakeWeight(b, start, len);
      }
    case _ => DecodeStops(b);
  }

  /**
   * Whatever the scan does not skip loses bytes: decoding it fails, or yields first a message shorter
   * than what was there, or takes more bytes than its messages are worth.
   */
  lemma NoisyDecode(b: Buf)
    requires Roomed(b) && !Rests(b)
    ensures var d := Decode(b);
            || d.outcome != Done
            || (d.msgs != [] && d.msgs[0].pkLen <= |b.View()|)
            || |d.b.View()| + Weight(d.msgs) < |b.View()|
  {
    ScanIsFirst(b.data, b.w, b.r);
    DecodeStops(b);
    var f := Scan(b.data, b.w, b.r);
    if f.FoundFrame? {
      if Halts(b, f.len) {
        DecodeHalts(b, f.start, f.len);
      } else {
        NoisyTake(b, f.start, f.len);
      }
    }
  }

  lemma NoisyTake(b: Buf, start: int, len: int)
    requires Roomed(b) && Scan(b.data, b.w, b.r) == FoundFrame(start, len) && !Halts(b, len)
    ensures var d := Decode(b);
            || (d.outcome != Done)
            || (d.msgs != [] && d.msgs[0].pkLen <= |b.View()|)
            || |d.b.View()| + Weight(d.msgs) < |b.View()|
  {
    DecodeTakes(b, start, len);
    AcceptedFrameAdvances(b, start, len);
    var b' := MoveRead(b, len);
    DecodeWeight(b');
    match ParseFrame(b.data, start, len)
    case Parsed(m) =>
      assert Decode(b) == Prepend([m], Decode(b'));
      assert Decode(b).msgs[0] == m;
    case _ =>
  }

  lemma FeedOne(b: Buf, chunks: seq<seq<byte>>, i: nat)
    requires b.Ok() && i < |chunks|
    ensures var r := ReadLoop(b, [Arrived(chunks[i])]);
            Feed(b, Singles(chunks)[i..])
            == if r.closed then Inbox(r.b, [], Done, true)
               else Join(Decode(r.b), Feed(Decode(r.b).b, Singles(chunks)[i + 1..]))
  {
    assert Singles(chunks)[i..][0] == [Arrived(chunks[i])];
    assert Singles(chunks)[i..][1..] == Singles(chunks)[i + 1..];
  }

  lemma {:induction false} FeedWeight(b: Buf, chunks: seq<seq<byte>>, i: nat)
    requires Roomed(b) && i <= |chunks|
    ensures var f := Feed(b, Singles(chunks)[i..]);
            |f.b.View()| + Weight(f.msgs) <= |b.View()| + |Flatten(chunks)| - Pos(chunks, i)
    decreases |chunks| - i
  {
    PosBound(chunks, i);
    if i == |chunks| {
    } else {
      FlattenPrefix(chunks, i);
      FeedOne(b, chunks, i);
      ReadAtMost(b, chunks[i]);
      var r := ReadLoop(b, [Arrived(chunks[i])]);
      DecodeWeight(r.b);
      if !r.closed && Decode(r.b).outcome == Done {
        FeedWeight(Decode(r.b).b, chunks, i + 1);
        WeightConcat(Decode(r.b).msgs, Feed(Decode(r.b).b, Singles(chunks)[i + 1..]).msgs);
      }
    }
  }

  lemma ReadAtMost(b: Buf, chunk: seq<byte>)
    requires Roomed(b)
    ensures var r := ReadLoop(b, [Arrived(chunk)]);
            Roomed(r.b) && |r.b.View()| <= |b.View()| + |chunk|
  {
    ReadLoopKeeps(b, [Arrived(chunk)]);
    if chunk != [] {
      var _ := ChunkKept(b.Writable(), chunk);
    }
  }

  // ---------------------------------------------------------------- the theorem

  /** What a caller hopes for: every message, in order, and exactly the tail still readable. */
  ghost predicate Arrives(f: Inbox, ms: seq<Message>, t: seq<byte>)
    requires f.b.Ok() && AllSizable(ms)
  {
    f.outcome == Done && f.msgs == ReceivedAll(ms) && f.b.View() == t
  }

  lemma SameHead(a: seq<Message>, x: seq<Message>, y: seq<Message>)
    ensures a + x == a + y <==> x == y
  {
    assert (a + x)[|a|..] == x && (a + y)[|a|..] == y;
  }

  lemma LeftSize(parts: seq<seq<byte>>, t: seq<byte>, chunks: seq<seq<byte>>, i: nat)
    requires i <= |chunks| && Cover(parts, t, chunks)
    ensures |Left(parts, t, chunks, i)| + |Flatten(chunks)| - Pos(chunks, i)
         == |Flatten(parts[Arrivals(parts, chunks, i)..])| + |t|
  {
    var k := Arrivals(parts, chunks, i);
    PosBound(chunks, i);
    PrefixSplits(parts, t, Pos(chunks, i));
    FlattenConcat(parts[..k], parts[k..]);
    assert parts == parts[..k] + parts[k..];
  }

  /** The bytes that are still to be turned into messages and tail after `i` chunks. */
  lemma RestSize(ms: seq<Message>, t: seq<byte>, chunks: seq<seq<byte>>, i: nat)
    requires AllSizable(ms) && i <= |chunks| && Cover(FramesOf(ms), t, chunks)
    ensures var k := Arrivals(FramesOf(ms), chunks, i);
            AllSizable(ms[k..])
            && |Left(FramesOf(ms), t, chunks, i)| + |Flatten(chunks)| - Pos(chunks, i)
               == Weight(ReceivedAll(ms[k..])) + |t|
  {
    LeftSize(FramesOf(ms), t, chunks, i);
    RestWeight(ms, Arrivals(FramesOf(ms), chunks, i));
  }

  lemma RestWeight(ms: seq<Message>, k: nat)
    requires AllSizable(ms) && k <= |ms|
    ensures AllSizable(ms[k..]) && Weight(ReceivedAll(ms[k..])) == |Flatten(FramesOf(ms)[k..])|
  {
    FramesSlice(ms, k, |ms|);
    assert ms[k..|ms|] == ms[k..] && FramesOf(ms)[k..|ms|] == FramesOf(ms)[k..];
    WeightOfFrames(ms[k..]);
  }

  /** The first message still due is longer than what has come of it. */
  lemma FirstDue(ms: seq<Message>, t: seq<byte>, chunks: seq<seq<byte>>, i: nat)
    requires AllSizable(ms) && i <= |chunks| && Cover(FramesOf(ms), t, chunks)
    ensures var k := Arrivals(FramesOf(ms), chunks, i);
            && AllSizable(ms[k..])
            && (k < |ms| ==> |Left(FramesOf(ms), t, chunks, i)| < ReceivedAll(ms[k..])[0].pkLen)
  {
    var parts := FramesOf(ms);
    var k := Arrivals(parts, chunks, i);
    SizableSlice(ms, k, |ms|);
    assert ms[k..|ms|] == ms[k..];
    if k < |ms| {
      PosBound(chunks, i);
      ResidueShort(parts, t, Pos(chunks, i));
      assert ReceivedAll(ms[k..])[0] == Received(ms[k]);
    }
  }

  /** A cut that leaves what the scan does not skip is never made good. */
  lemma NoisyCut(ms: seq<Message>, t: seq<byte>, chunks: seq<seq<byte>>, i: nat, b': Buf, f: Inbox)
    requires AllSizable(ms) && i <= |chunks| && Cover(FramesOf(ms), t, chunks)
    requires Roomed(b') && !Rests(b')
    requires b'.View() == Left(FramesOf(ms), t, chunks, i) && Decode(b').outcome == Done && f.b.Ok()
    requires f == Feed(Decode(b').b, Singles(chunks)[i..])
    ensures var k := Arrivals(FramesOf(ms), chunks, i);
            AllSizable(ms[k..])
            && !(Decode(b').msgs + f.msgs == ReceivedAll(ms[k..]) && f.b.View() == t)
  {
    var k := Arrivals(FramesOf(ms), chunks, i);
    FirstDue(ms, t, chunks, i);
    NoisyDecode(b');
    var d := Decode(b');
    if d.msgs + f.msgs == ReceivedAll(ms[k..]) && f.b.View() == t {
      RestSize(ms, t, chunks, i);
      FeedWeight(d.b, chunks, i);
      WeightConcat(d.msgs, f.msgs);
    }
  }

  /** Chunk `i` completes `first`; whether the rest arrives is decided by what follows it. */
  lemma JoinLeads(first: seq<Message>, d: Decoding, f: Inbox)
    ensures Join(Prepend(first, d), f)
         == if d.outcome != Done then Inbox(d.b, first + d.msgs, d.outcome, false)
            else Inbox(f.b, first + (d.msgs + f.msgs), f.outcome, f.closed)
  {
    assert (first + d.msgs) + f.msgs == first + (d.msgs + f.msgs);
  }

  lemma QuietCutsStep(parts: seq<seq<byte>>, t: seq<byte>, chunks: seq<seq<byte>>, i: nat)
    requires Cover(parts, t, chunks) && i < |chunks|
    ensures QuietCuts(parts, t, chunks, i)
       <==> Quiet(Left(parts, t, chunks, i + 1)) && QuietCuts(parts, t, chunks, i + 1)
  {
  }

  /** All the messages from the `k`th on arrive, and the tail. */
  ghost predicate ArrivesFrom(f: Inbox, ms: seq<Message>, t: seq<byte>, k: nat)
    requires f.b.Ok() && AllSizable(ms) && k <= |ms|
  {
    SizableSlice(ms, k, |ms|);
    Arrives(f, ms[k..], t)
  }

  lemma LongReadWeight(b: Buf, chunks: seq<seq<byte>>, i: nat)
    requires Roomed(b) && i < |chunks| && chunks[i] != [] && |chunks[i]| >= b.Writable()
    ensures var f := Feed(b, Singles(chunks)[i..]);
            |f.b.View()| + Weight(f.msgs) < |b.View()| + |Flatten(chunks)| - Pos(chunks, i)
  {
    var r := ReadLoop(b, [Arrived(chunks[i])]);
    LongReadLacks(b, chunks[i]);
    FeedOne(b, chunks, i);
    FlattenPrefix(chunks, i);
    DecodeWeight(r.b);
    var d := Decode(r.b);
    if d.outcome == Done {
      FeedWeight(d.b, chunks, i + 1);
      WeightConcat(d.msgs, Feed(d.b, Singles(chunks)[i + 1..]).msgs);
    }
  }

  /** Of a chunk that is not shorter than the free space bytes are lost, and they are missing for ever. */
  lemma LongReadLoses(b: Buf, ms: seq<Message>, t: seq<byte>, chunks: seq<seq<byte>>, i: nat)
    requires Roomed(b) && AllSizable(ms) && i < |chunks| && Cover(FramesOf(ms), t, chunks)
    requires |chunks[i]| >= b.Writable() && b.View() == Left(FramesOf(ms), t, chunks, i)
    ensures !ArrivesFrom(Feed(b, Singles(chunks)[i..]), ms, t, Arrivals(FramesOf(ms), chunks, i))
  {
    assert chunks[i] in chunks;
    LongReadWeight(b, chunks, i);
    RestSize(ms, t, chunks, i);
  }

  lemma LongReadLacks(b: Buf, chunk: seq<byte>)
    requires Roomed(b) && chunk != [] && |chunk| >= b.Writable()
    ensures var r := ReadLoop(b, [Arrived(chunk)]);
            !r.closed && Roomed(r.b) && |r.b.View()| < |b.View()| + |chunk|
  {
    ReadLoopKeeps(b, [Arrived(chunk)]);
    var _ := ChunkKept(b.Writable(), chunk);
  }

  lemma {:induction false} FeedExact(b: Buf, ms: seq<Message>, t: seq<byte>, chunks: seq<seq<byte>>, i: nat)
    requires Roomed(b) && AllDeliverable(ms) && AllSizable(ms) && i <= |chunks| && Cover(FramesOf(ms), t, chunks)
    requires b.View() == Left(FramesOf(ms), t, chunks, i)
    ensures ArrivesFrom(Feed(b, Singles(chunks)[i..]), ms, t, Arrivals(FramesOf(ms), chunks, i))
       <==> CleanRun(b, ms, t, chunks, i)
    decreases |chunks| - i
  {
    var parts := FramesOf(ms);
    if i == |chunks| {
      LeftAtEnd(parts, t, chunks);
      assert Feed(b, Singles(chunks)[i..]) == Inbox(b, [], Done, false);
    } else if |chunks[i]| >= b.Writable() {
      LongReadLoses(b, ms, t, chunks, i);
    } else {
      var k, k' := Arrivals(parts, chunks, i), Arrivals(parts, chunks, i + 1);
      var b' := AfterFrames(b, ms, t, chunks, i);
      ChunkLeads(b, ms, t, chunks, i);
      FeedOne(b, chunks, i);
      JoinLeads(ReceivedAll(ms[k..k']), Decode(b'), Feed(Decode(b').b, Singles(chunks)[i + 1..]));
      ReceivedSplits(ms, k, k');
      RestsIff(b');
      var d := Decode(b');
      if d.outcome == Done {
        var f := Feed(d.b, Singles(chunks)[i + 1..]);
        SameHead(ReceivedAll(ms[k..k']), d.msgs + f.msgs, ReceivedAll(ms[k'..]));
        if Rests(b') {
          FeedExact(b', ms, t, chunks, i + 1);
          assert d.msgs + f.msgs == f.msgs;
        } else {
          NoisyCut(ms, t, chunks, i + 1, b', f);
        }
      }
    }
  }

  /**
   * Reassembly.  A stream of frames and any tail arrives in chunks, each of them read in an event of its
   * own.  The run of readable events yields every message in order, and leaves exactly the tail, if and
   * only if every chunk is shorter than the free space when it comes and after every chunk the scan skips
   * everything behind the frames that it completes.
   */
  lemma ChunkedRoundTrip(b: Buf, ms: seq<Message>, t: seq<byte>, chunks: seq<seq<byte>>)
    requires Roomed(b) && b.View() == [] && AllDeliverable(ms) && AllSizable(ms) && Cover(FramesOf(ms), t, chunks)
    ensures Flatten(chunks) == EncodeAll(ms) + t
    ensures Arrives(Feed(b, Singles(chunks)), ms, t) <==> CleanRun(b, ms, t, chunks, 0)
  {
    FramesFlatten(ms);
    EmptyPrefix(FramesOf(ms), t, chunks);
    FeedExact(b, ms, t, chunks, 0);
    assert ms[0..] == ms && Singles(chunks)[0..] == Singles(chunks);
  }

  /**
   * The same when moves back of the read index are followed: such chunks arrive all the same, and
   * chunks of any other kind do not, except perhaps through a move back, which reads consumed bytes again.
   */
  lemma ChunkedRoundTripOn(b: Buf, ms: seq<Message>, t: seq<byte>, chunks: seq<seq<byte>>, n: nat)
    requires Roomed(b) && b.View() == [] && AllDeliverable(ms) && AllSizable(ms) && Cover(FramesOf(ms), t, chunks)
    ensures CleanRun(b, ms, t, chunks, 0) ==> Arrives(FeedOn(b, Singles(chunks), n), ms, t)
    ensures Arrives(FeedOn(b, Singles(chunks), n), ms, t)
            ==> CleanRun(b, ms, t, chunks, 0) || Feed(b, Singles(chunks)).outcome == Backward
  {
    ChunkedRoundTrip(b, ms, t, chunks);
    if Feed(b, Singles(chunks)).outcome != Backward {
      FeedOnIsForward(b, Singles(chunks), n);
    }
  }

  // ---------------------------------------------------------------- what a caller can check

  /** From the `i`th chunk on, every chunk is shorter than the free space when it comes. */
  ghost predicate ShortReads(b: Buf, ms: seq<Message>, t: seq<byte>, chunks: seq<seq<byte>>, i: nat)
    requires b.Ok() && AllSizable(ms) && i <= |chunks| && Cover(FramesOf(ms), t, chunks)
    decreases |chunks| - i
  {
    || i == |chunks|
    || (|chunks[i]| < b.Writable() && ShortReads(AfterFrames(b, ms, t, chunks, i), ms, t, chunks, i + 1))
  }

  /** When every residue is settled, a run is clean exactly when reads are short and residues quiet. */
  lemma {:induction false} SettledIsClean(b: Buf, ms: seq<Message>, t: seq<byte>, chunks: seq<seq<byte>>, i: nat)
    requires Roomed(b) && AllDeliverable(ms) && AllSizable(ms) && i <= |chunks| && Cover(FramesOf(ms), t, chunks)
    requires SettledCuts(FramesOf(ms), t, chunks, |b.data|) && b.View() == Left(FramesOf(ms), t, chunks, i)
    ensures CleanRun(b, ms, t, chunks, i)
       <==> ShortReads(b, ms, t, chunks, i) && QuietCuts(FramesOf(ms), t, chunks, i)
    decreases |chunks| - i
  {
    if i == |chunks| {
    } else if |chunks[i]| < b.Writable() {
      var b' := AfterFrames(b, ms, t, chunks, i);
      ChunkLeads(b, ms, t, chunks, i);
      QuietCutsStep(FramesOf(ms), t, chunks, i);
      TailDecodes(b');
      SettledIsClean(b', ms, t, chunks, i + 1);
    }
  }

  lemma EmptyPrefix(parts: seq<seq<byte>>, t: seq<byte>, chunks: seq<seq<byte>>)
    requires Cover(parts, t, chunks) && [] !in parts
    ensures Arrivals(parts, chunks, 0) == 0 && Left(parts, t, chunks, 0) == []
  {
    assert chunks[..0] == [];
  }

  /** Chunks that fit two thirds of the array together with what was left before them are short reads. */
  lemma {:induction false} FitsIsShort(b: Buf, ms: seq<Message>, t: seq<byte>, chunks: seq<seq<byte>>, i: nat)
    requires Tidy(b) && AllDeliverable(ms) && AllSizable(ms) && i <= |chunks| && Cover(FramesOf(ms), t, chunks)
    requires Fits(FramesOf(ms), t, chunks, |b.data|) && b.View() == Left(FramesOf(ms), t, chunks, i)
    ensures ShortReads(b, ms, t, chunks, i)
    decreases |chunks| - i
  {
    if i == |chunks| {
    } else {
      assert |Left(FramesOf(ms), t, chunks, i)| + |chunks[i]| <= |b.data| - |b.data| / 3;
      ChunkLeads(b, ms, t, chunks, i);
      TidyLoop(b, [Arrived(chunks[i])]);
      LeftGrows(FramesOf(ms), t, chunks, i);
      var k, k' := Arrivals(FramesOf(ms), chunks, i), Arrivals(FramesOf(ms), chunks, i + 1);
      TidyTaken(ReadLoop(b, [Arrived(chunks[i])]).b, ms[k..k']);
      FitsIsShort(AfterFrames(b, ms, t, chunks, i), ms, t, chunks, i + 1);
    }
  }

  lemma {:induction false} TidyTaken(b: Buf, ms: seq<Message>)
    requires Tidy(b) && AllSizable(ms)
    ensures Taken(b, ms).r < |b.data| / 3
    decreases |ms|
  {
    if ms == [] {
    } else {
      assert ms[0] in ms && forall m | m in ms[1..] :: m in ms;
      TidyTaken(MoveRead(b, Seal(ms[0]).pkLen), ms[1..]);
    }
  }

  /** The same messages as one decode of the whole stream. */
  lemma SameAsWhole(b: Buf, whole: Buf, ms: seq<Message>, chunks: seq<seq<byte>>)
    requires Roomed(b) && b.View() == [] && AllDeliverable(ms) && AllSizable(ms)
    requires Cover(FramesOf(ms), [], chunks) && CleanRun(b, ms, [], chunks, 0)
    requires Roomed(whole) && whole.View() == Flatten(chunks)
    ensures Feed(b, Singles(chunks)).msgs == Decode(whole).msgs
  {
    ChunkedRoundTrip(b, ms, [], chunks);
    StreamRoundTrip(whole, ms, []);
    FramesDecode(whole, ms, []);
  }
}
