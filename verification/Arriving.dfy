// Streams that reassemble: what a caller can check before sending, and what a run of readable events
// then makes of them.

module Arriving {
  import opened Bytes
  import opened Buffers
  import opened TinyPB
  import opened TinyPBDecode
  import opened ConnectionRuns
  import opened Reassembly
  import opened RpcDelivery

  /** A stream of messages arrives in chunks, by short reads and with nothing left that the scan does not skip. */
  ghost predicate ArrivesWell(b: Buf, ms: seq<Message>, chunks: seq<seq<byte>>)
    requires b.Ok()
  {
    AllSizable(ms) && Cover(FramesOf(ms), [], chunks) && CleanRun(b, ms, [], chunks, 0)
  }

  /** Just such streams are received: no others yield exactly the messages and leave nothing. */
  lemma ArrivesWellIff(b: Buf, ms: seq<Message>, chunks: seq<seq<byte>>)
    requires Roomed(b) && b.View() == [] && AllDeliverable(ms) && AllSizable(ms) && Cover(FramesOf(ms), [], chunks)
    ensures ArrivesWell(b, ms, chunks) <==> Arrives(Feed(b, Singles(chunks)), ms, [])
  {
    ChunkedRoundTrip(b, ms, [], chunks);
  }

  /** The run then yields the messages however many moves back would be followed. */
  lemma WellFed(b: Buf, ms: seq<Message>, chunks: seq<seq<byte>>, n: nat)
    requires Roomed(b) && b.View() == [] && AllDeliverable(ms) && AllSizable(ms) && ArrivesWell(b, ms, chunks)
    ensures var f := FeedOn(b, Singles(chunks), n);
            && f == Feed(b, Singles(chunks)) && f.outcome == Done && !f.closed && f.msgs == ReceivedAll(ms)
            && f.b.View() == [] && Roomed(f.b) && |f.b.data| == |b.data|
  {
    ChunkedRoundTrip(b, ms, [], chunks);
    FeedOnIsForward(b, Singles(chunks), n);
    CapacityIsForever(b, Singles(chunks), n);
    SinglesStayOpen(b, chunks);
  }

  /** Batch `k` arrives well in the chunks of piece `k`, in the state the pieces before it leave. */
  ghost predicate AllArriveWell(b: Buf, batches: seq<seq<Message>>, pieces: seq<seq<seq<byte>>>)
    requires b.Ok()
    decreases |pieces|
  {
    && |batches| == |pieces|
    && (pieces == [] || (ArrivesWell(b, batches[0], pieces[0])
                         && AllArriveWell(Feed(b, Singles(pieces[0])).b, batches[1..], pieces[1..])))
  }

  // ---------------------------------------------------------------- chunks that fit

  /** Settled, quiet cuts and chunks that fit two thirds of the array with what is left before them are enough. */
  lemma FittingArrivesWell(b: Buf, ms: seq<Message>, chunks: seq<seq<byte>>)
    requires Tidy(b) && b.View() == [] && AllDeliverable(ms) && AllSizable(ms)
    requires Cover(FramesOf(ms), [], chunks) && Fits(FramesOf(ms), [], chunks, |b.data|)
    requires SettledCuts(FramesOf(ms), [], chunks, |b.data|) && QuietCuts(FramesOf(ms), [], chunks, 0)
    ensures ArrivesWell(b, ms, chunks)
  {
    EmptyPrefix(FramesOf(ms), [], chunks);
    FitsIsShort(b, ms, [], chunks, 0);
    SettledIsClean(b, ms, [], chunks, 0);
  }

  /** One chunk per batch, the whole of its frames. */
  function Encoded(mss: seq<seq<Message>>): (chunks: seq<seq<byte>>)
    requires forall ms | ms in mss :: AllSizable(ms)
    ensures |chunks| == |mss|
  {
    if mss == [] then [] else [EncodeAll(mss[0])] + Encoded(mss[1..])
  }

  /** Batches that can be sent and fit two thirds of an array of `cap` bytes, each by itself. */
  ghost predicate Handy(mss: seq<seq<Message>>, cap: nat) {
    forall ms | ms in mss ::
      ms != [] && AllDeliverable(ms) && AllSizable(ms) && |EncodeAll(ms)| <= cap - cap / 3
  }

  lemma HandyTail(mss: seq<seq<Message>>, cap: nat)
    requires mss != [] && Handy(mss, cap)
    ensures Handy([mss[0]], cap) && Handy(mss[1..], cap)
    ensures mss[0] != [] && AllDeliverable(mss[0]) && AllSizable(mss[0]) && |EncodeAll(mss[0])| <= cap - cap / 3
    ensures 26 <= |EncodeAll(mss[0])|
  {
    assert mss[0] in mss && forall ms | ms in mss[1..] :: ms in mss;
    assert mss[0][0] in mss[0];
  }

  lemma {:induction false} HandyFlat(mss: seq<seq<Message>>, cap: nat)
    requires Handy(mss, cap)
    ensures AllDeliverable(Flat(mss)) && AllSizable(Flat(mss))
  {
    if mss == [] {
    } else {
      HandyTail(mss, cap);
      HandyFlat(mss[1..], cap);
    }
  }

  /** Bytes that end with a whole part leave no residue. */
  lemma {:induction false} ResidueAtBoundary(parts: seq<seq<byte>>, t: seq<byte>, k: nat)
    requires k <= |parts| && [] !in parts
    ensures |Flatten(parts[..k])| <= |Flatten(parts)| && Residue(parts, t, |Flatten(parts[..k])|) == []
  {
    if k == 0 {
    } else {
      assert parts[..k][1..] == parts[1..][..k - 1] && parts[..k][0] == parts[0];
      ResidueAtBoundary(parts[1..], t, k - 1);
    }
  }

  /** Groups of parts one after another, and each group laid end to end. */
  function Joined(groups: seq<seq<seq<byte>>>): seq<seq<byte>> {
    if groups == [] then [] else groups[0] + Joined(groups[1..])
  }

  function Laid(groups: seq<seq<seq<byte>>>): (chunks: seq<seq<byte>>)
    ensures |chunks| == |groups|
  {
    if groups == [] then [] else [Flatten(groups[0])] + Laid(groups[1..])
  }

  /** The bytes of the first groups are those of the first parts. */
  lemma {:induction false} LaidPrefix(groups: seq<seq<seq<byte>>>, i: nat) returns (k: nat)
    requires i <= |groups|
    ensures k <= |Joined(groups)| && Flatten(Laid(groups)[..i]) == Flatten(Joined(groups)[..k])
    ensures i == |groups| ==> k == |Joined(groups)|
  {
    if i == 0 {
      k := 0;
    } else {
      var j := LaidPrefix(groups[1..], i - 1);
      k := |groups[0]| + j;
      assert Joined(groups)[..k] == groups[0] + Joined(groups[1..])[..j];
      FlattenConcat(groups[0], Joined(groups[1..])[..j]);
      assert Laid(groups)[..i] == [Flatten(groups[0])] + Laid(groups[1..])[..i - 1];
      assert Laid(groups)[..i][1..] == Laid(groups[1..])[..i - 1];
    }
  }

  lemma LaidCovers(groups: seq<seq<seq<byte>>>)
    requires [] !in Laid(groups)
    ensures Cover(Joined(groups), [], Laid(groups))
  {
    var k := LaidPrefix(groups, |groups|);
    assert Laid(groups)[..|groups|] == Laid(groups) && Joined(groups)[..k] == Joined(groups);
    assert Flatten(Joined(groups)) + [] == Flatten(Joined(groups));
  }

  lemma LaidLeavesNothing(groups: seq<seq<seq<byte>>>, i: nat)
    requires [] !in Joined(groups) && Cover(Joined(groups), [], Laid(groups)) && i <= |groups|
    ensures Left(Joined(groups), [], Laid(groups), i) == []
  {
    var k := LaidPrefix(groups, i);
    ResidueAtBoundary(Joined(groups), [], k);
  }

  function FrameGroups(mss: seq<seq<Message>>): (groups: seq<seq<seq<byte>>>)
    requires forall ms | ms in mss :: AllSizable(ms)
    ensures |groups| == |mss|
  {
    if mss == [] then [] else [FramesOf(mss[0])] + FrameGroups(mss[1..])
  }

  lemma FramesConcat(a: seq<Message>, b: seq<Message>)
    requires AllSizable(a) && AllSizable(b) && AllSizable(a + b)
    ensures FramesOf(a + b) == FramesOf(a) + FramesOf(b)
  {
    var n := |FramesOf(a)|;
    assert forall k | 0 <= k < n + |b| :: (a + b)[k] == if k < n then a[k] else b[k - n];
  }

  lemma {:induction false} FrameGroupsAre(mss: seq<seq<Message>>, cap: nat)
    requires Handy(mss, cap) && AllSizable(Flat(mss))
    ensures Joined(FrameGroups(mss)) == FramesOf(Flat(mss)) && Laid(FrameGroups(mss)) == Encoded(mss)
  {
    if mss == [] {
    } else {
      HandyTail(mss, cap);
      HandyFlat(mss[1..], cap);
      FrameGroupsAre(mss[1..], cap);
      FramesFlatten(mss[0]);
      FramesConcat(mss[0], Flat(mss[1..]));
      assert FrameGroups(mss)[1..] == FrameGroups(mss[1..]);
    }
  }

  lemma {:induction false} EncodedFilled(mss: seq<seq<Message>>, cap: nat)
    requires Handy(mss, cap)
    ensures [] !in Encoded(mss) && forall chunk | chunk in Encoded(mss) :: |chunk| <= cap - cap / 3
  {
    if mss == [] {
    } else {
      HandyTail(mss, cap);
      EncodedFilled(mss[1..], cap);
    }
  }

  /** Cuts that leave nothing are quiet and settled, and chunks that fit then fit with what is left. */
  lemma NothingLeft(parts: seq<seq<byte>>, chunks: seq<seq<byte>>, cap: nat)
    requires Cover(parts, [], chunks) && forall i | 0 <= i <= |chunks| :: Left(parts, [], chunks, i) == []
    requires forall chunk | chunk in chunks :: |chunk| <= cap - cap / 3
    ensures Fits(parts, [], chunks, cap) && SettledCuts(parts, [], chunks, cap) && QuietCuts(parts, [], chunks, 0)
  {
    assert forall i | 0 <= i < |chunks| :: chunks[i] in chunks;
  }

  /** Any number of batches, one chunk each, arrives well. */
  lemma BatchesArriveWell(b: Buf, mss: seq<seq<Message>>)
    requires Tidy(b) && b.View() == [] && Handy(mss, |b.data|)
    ensures ArrivesWell(b, Flat(mss), Encoded(mss))
  {
    var cap := |b.data|;
    HandyFlat(mss, cap);
    EncodedFilled(mss, cap);
    FrameGroupsAre(mss, cap);
    LaidCovers(FrameGroups(mss));
    forall i | 0 <= i <= |mss|
      ensures Left(FramesOf(Flat(mss)), [], Encoded(mss), i) == []
    {
      LaidLeavesNothing(FrameGroups(mss), i);
    }
    NothingLeft(FramesOf(Flat(mss)), Encoded(mss), cap);
    FittingArrivesWell(b, Flat(mss), Encoded(mss));
  }

  /** Each batch in one chunk of its own. */
  function Wholes(batches: seq<seq<Message>>): (pieces: seq<seq<seq<byte>>>)
    requires forall ms | ms in batches :: AllSizable(ms)
    ensures |pieces| == |batches|
  {
    if batches == [] then [] else [[EncodeAll(batches[0])]] + Wholes(batches[1..])
  }

  lemma {:induction false} WholesArriveWell(b: Buf, batches: seq<seq<Message>>)
    requires Tidy(b) && b.View() == [] && Handy(batches, |b.data|)
    ensures AllArriveWell(b, batches, Wholes(batches))
    decreases |batches|
  {
    if batches == [] {
    } else {
      var ms := batches[0];
      HandyTail(batches, |b.data|);
      BatchesArriveWell(b, [ms]);
      assert Flat([ms]) == ms + Flat([]) == ms && Encoded([ms]) == [EncodeAll(ms)] + Encoded([]) == [EncodeAll(ms)];
      WellFed(b, ms, [EncodeAll(ms)], 0);
      FeedTidy(b, Singles([EncodeAll(ms)]));
      assert Wholes(batches)[1..] == Wholes(batches[1..]);
      WholesArriveWell(Feed(b, Singles([EncodeAll(ms)])).b, batches[1..]);
    }
  }
}
