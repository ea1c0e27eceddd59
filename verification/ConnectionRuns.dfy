// Runs of readable events: what the in-buffer can and cannot hold, and when a stream that arrives in
// pieces yields the messages it would yield whole.

module ConnectionRuns {
  import opened Bytes
  import opened Buffers
  import opened TinyPB
  import opened TinyPBDecode
  import opened TinyPBBackward
  import opened RpcDispatchers
  import opened TcpConnections

  // ---------------------------------------------------------------- one readable event

  /** The bytes of a script that get recorded when each read has `free` bytes of space. */
  function Kept(free: nat, script: seq<ReadResult>): (bs: seq<byte>)
    requires 0 < free
    ensures |bs| < free
    decreases |script|, Pieces(script)
  {
    if script == [] then []
    else
      match script[0]
      case ReadBlocked => []
      case ReadError => Kept(free, script[1..])
      case Arrived(bs) => if |bs| < free then bs else Kept(free, Later(script, free))
  }

  /** Whether the loop meets the end of the stream. */
  predicate MeetsEnd(free: nat, script: seq<ReadResult>)
    requires 0 < free
    decreases |script|, Pieces(script)
  {
    && script != []
    && match script[0]
       case ReadBlocked => false
       case ReadError => MeetsEnd(free, script[1..])
       case Arrived(bs) => bs == [] || (|bs| >= free && MeetsEnd(free, Later(script, free)))
  }

  /** Of a chunk that is read in one event only what is left after whole fillings of the free space is recorded. */
  lemma {:induction false} ChunkKept(free: nat, chunk: seq<byte>) returns (fillings: nat)
    requires 0 < free && chunk != []
    ensures !MeetsEnd(free, [Arrived(chunk)])
    ensures var bs := Kept(free, [Arrived(chunk)]);
            |chunk| == fillings * free + |bs| && chunk[fillings * free..] == bs
    decreases |chunk|
  {
    var script := [Arrived(chunk)];
    assert script[0] == Arrived(chunk) && script[1..] == [];
    if |chunk| < free {
      fillings := 0;
    } else if |chunk| == free {
      assert Later(script, free) == [];
      fillings := 1;
    } else {
      assert Later(script, free) == [Arrived(chunk[free..])];
      var more := ChunkKept(free, chunk[free..]);
      fillings := more + 1;
      assert fillings * free == more * free + free;
    }
  }

  lemma TakeShort(b: Buf, got: seq<byte>)
    requires Roomed(b) && |got| < b.Writable()
    ensures Roomed(Take(b, got)) && |Take(b, got).data| == |b.data|
    ensures Take(b, got).View() == b.View() + got
  {
    var p := Poke(b, got);
    assert p.data[p.r..p.w + |got|] == p.View() + got;
  }

  lemma TakeFull(b: Buf, got: seq<byte>)
    requires Roomed(b) && |got| == b.Writable()
    ensures var b' := Take(b, got);
            Roomed(b') && |b'.data| == |b.data| && b'.r == b.r && b'.w == b.w && b'.View() == b.View()
  {
  }

  /** The loop ended in `r`, with a free byte, the array as large as before, and what `Kept` says recorded. */
  ghost predicate Records(b: Buf, script: seq<ReadResult>, r: Reading)
    requires Roomed(b)
  {
    && Roomed(r.b) && |r.b.data| == |b.data|
    && r.b.View() == b.View() + Kept(b.Writable(), script)
    && r.closed == MeetsEnd(b.Writable(), script)
  }

  /** Only a full array is resized before a read: to twice its size. */
  lemma FullDoubles(b: Buf)
    requires b.Ok()
    ensures MakeRoom(b).View() == b.View()
    ensures |MakeRoom(b).data| == if b.w == |b.data| then 2 * |b.data| else |b.data|
  {
    assert b.View()[..b.w - b.r] == b.View();
  }

  /** A read that fills the free space changes nothing but the bytes in it, and the loop goes on. */
  lemma ReadFills(b: Buf, script: seq<ReadResult>)
    requires Roomed(b) && script != [] && script[0].Arrived? && |script[0].bs| >= b.Writable()
    ensures var b', later := Take(b, script[0].bs[..b.Writable()]), Later(script, b.Writable());
            && ReadLoop(b, script) == ReadLoop(b', later)
            && Roomed(b') && |b'.data| == |b.data| && b'.r == b.r && b'.w == b.w && b'.View() == b.View()
  {
    TakeFull(b, script[0].bs[..b.Writable()]);
  }

  /** What was recorded behind such a read is recorded all the same. */
  lemma RecordsLater(b: Buf, b': Buf, script: seq<ReadResult>, r: Reading)
    requires Roomed(b) && script != [] && script[0].Arrived? && |script[0].bs| >= b.Writable()
    requires Roomed(b') && |b'.data| == |b.data| && b'.w == b.w && b'.View() == b.View()
    requires Records(b', Later(script, b.Writable()), r)
    ensures Records(b, script, r)
  {
  }

  /** A read that takes less than the free space, nothing, or the end of the stream ends the loop. */
  lemma ReadEnds(b: Buf, script: seq<ReadResult>)
    requires Roomed(b)
    requires script == [] || script[0] == ReadBlocked || (script[0].Arrived? && |script[0].bs| < b.Writable())
    ensures Records(b, script, ReadLoop(b, script))
  {
    if script == [] || !script[0].Arrived? || script[0].bs == [] {
      assert b.View() + [] == b.View();
    } else {
      ReadShort(b, script);
      RecordsShort(b, script);
    }
  }

  lemma ReadShort(b: Buf, script: seq<ReadResult>)
    requires Roomed(b) && script != [] && script[0].Arrived? && 0 < |script[0].bs| < b.Writable()
    ensures ReadLoop(b, script) == Reading(Take(b, script[0].bs), false)
  {
    assert Clipped(script[0].bs, b.Writable()) == script[0].bs;
  }

  lemma RecordsShort(b: Buf, script: seq<ReadResult>)
    requires Roomed(b) && script != [] && script[0].Arrived? && 0 < |script[0].bs| < b.Writable()
    ensures Records(b, script, Reading(Take(b, script[0].bs), false))
  {
    TakeShort(b, script[0].bs);
  }

  lemma ReadRetries(b: Buf, script: seq<ReadResult>)
    requires Roomed(b) && script != [] && script[0] == ReadError
    ensures ReadLoop(b, script) == ReadLoop(b, script[1..])
    ensures Records(b, script[1..], ReadLoop(b, script[1..])) ==> Records(b, script, ReadLoop(b, script))
  {
  }

  /**
   * With one free byte or more at the start, the read loop never doubles the array and leaves a free
   * byte again.  It records the first read that is shorter than the free space and nothing else:
   * every read before it filled the space exactly, was refused by `moveWriteIndex`, and was
   * overwritten by the next one, which reads on where it stopped.
   */
  lemma {:induction false} ReadLoopKeeps(b: Buf, script: seq<ReadResult>)
    requires Roomed(b)
    ensures Records(b, script, ReadLoop(b, script))
    decreases |script|, Pieces(script)
  {
    if script == [] {
      ReadEnds(b, script);
    } else if script[0] == ReadError {
      ReadLoopKeeps(b, script[1..]);
      ReadRetries(b, script);
    } else if script[0].Arrived? && |script[0].bs| >= b.Writable() {
      var b' := Take(b, script[0].bs[..b.Writable()]);
      ReadFills(b, script);
      ReadLoopKeeps(b', Later(script, b.Writable()));
      RecordsLater(b, b', script, ReadLoop(b, script));
    } else {
      ReadEnds(b, script);
    }
  }

  // ---------------------------------------------------------------- runs of readable events

  /** What a run of readable events decoded, how it ended, and whether at the end of the stream. */
  datatype Inbox = Inbox(b: Buf, msgs: seq<Message>, outcome: Outcome, closed: bool)

  /** One `onRead` after another, up to the end of the stream or a decoder that moves back or does not return. */
  function Feed(b: Buf, events: seq<seq<ReadResult>>): (f: Inbox)
    requires b.Ok()
    ensures f.b.Ok()
    decreases |events|
  {
    if events == [] then Inbox(b, [], Done, false)
    else
      var r := ReadLoop(b, events[0]);
      if r.closed then Inbox(r.b, [], Done, true)
      else Join(Decode(r.b), Feed(Decode(r.b).b, events[1..]))
  }

  /** One decode and the run after it, which only takes place when the decoder returned. */
  function Join(d: Decoding, f: Inbox): Inbox {
    if d.outcome != Done then Inbox(d.b, d.msgs, d.outcome, false)
    else Inbox(f.b, d.msgs + f.msgs, f.outcome, f.closed)
  }

  /** The same run, with every decode followed through up to `n` moves back. */
  function FeedOn(b: Buf, events: seq<seq<ReadResult>>, n: nat): (f: Inbox)
    requires b.Ok()
    ensures f.b.Ok()
    decreases |events|
  {
    if events == [] then Inbox(b, [], Done, false)
    else
      var r := ReadLoop(b, events[0]);
      if r.closed then Inbox(r.b, [], Done, true)
      else Join(DecodeOn(r.b, n), FeedOn(DecodeOn(r.b, n).b, events[1..], n))
  }

  /** Where the decoder never moves back the two are the same. */
  lemma {:induction false} FeedOnIsForward(b: Buf, events: seq<seq<ReadResult>>, n: nat)
    requires b.Ok() && Feed(b, events).outcome != Backward
    ensures FeedOn(b, events, n) == Feed(b, events)
    decreases |events|
  {
    if events == [] {
    } else {
      var r := ReadLoop(b, events[0]);
      if !r.closed {
        OnIsForward(r.b, n);
        if Decode(r.b).outcome == Done {
          FeedOnIsForward(Decode(r.b).b, events[1..], n);
        }
      }
    }
  }

  /** The only hit the decoder cannot get past: one of length below one that reaches beyond the array's start. */
  ghost predicate AtDeadEnd(b: Buf)
    requires b.Ok()
  {
    var h := Scan(b.data, b.w, b.r);
    h.FoundFrame? && h.len < 1 && b.r + h.len < 0
  }

  /**
   * The in-buffer never grows.  Whatever the socket delivers and however often, and however the
   * decoder moves back, a connection that starts with a free byte keeps its first capacity for ever
   * and keeps a free byte; so it never decodes a message as large as that capacity, and a move of
   * the read index is refused only for a length below one that reaches beyond the array's start.
   */
  lemma {:induction false} CapacityIsForever(b: Buf, events: seq<seq<ReadResult>>, n: nat)
    requires Roomed(b)
    ensures var f := FeedOn(b, events, n);
            && Roomed(f.b) && |f.b.data| == |b.data| && AllFit(f.msgs, |b.data| - 1)
            && (f.outcome == Stuck ==> AtDeadEnd(f.b))
    decreases |events|
  {
    if events == [] {
    } else {
      ReadLoopKeeps(b, events[0]);
      var r := ReadLoop(b, events[0]);
      if !r.closed {
        var d := DecodeOn(r.b, n);
        OnFits(r.b, n);
        OnEnds(r.b, n);
        AllFitGrows(d.msgs, r.b.w, |b.data| - 1);
        if d.outcome == Done {
          CapacityIsForever(d.b, events[1..], n);
          AllFitOn(d.msgs, FeedOn(d.b, events[1..], n).msgs, |b.data| - 1, |b.data| - 1, |b.data| - 1);
        }
      }
    }
  }

  // ---------------------------------------------------------------- connection states

  /** Readable events of a whole connection, while the decoder returns. */
  ghost function ReadRun(services: map<seq<byte>, Service>, c: Conn, events: seq<seq<ReadResult>>): (s: Step)
    requires c.inBuf.Ok() && Modest(services)
    ensures s.c.inBuf.Ok()
    decreases |events|
  {
    if events == [] then Step(c, Done)
    else
      var s := AfterRead(services, c, events[0]);
      if s.outcome != Done then s else ReadRun(services, s.c, events[1..])
  }

  /**
   * Nothing is read off a connection that is not connected.  So after `shutDown` no event ever closes
   * it: `onRead` returns before it can meet the end of the stream, and `clear`, which would stop the
   * loop from watching the descriptor, is never reached.
   */
  lemma {:induction false} DeafRun(services: map<seq<byte>, Service>, c: Conn, events: seq<seq<ReadResult>>)
    requires c.inBuf.Ok() && Modest(services) && c.state != Connected
    ensures ReadRun(services, c, events) == Step(c, Done)
    decreases |events|
  {
    if events == [] {
    } else {
      DeafRun(services, c, events[1..]);
    }
  }

  // ---------------------------------------------------------------- writing

  /** The bytes that partial writes put on the socket before the write loop ends. */
  function Partial(view: seq<byte>, script: seq<WriteResult>): nat
    decreases |script|
  {
    if view == [] || script == [] then 0
    else
      match script[0]
      case WriteBlocked => 0
      case WriteError => Partial(view, script[1..])
      case Wrote(n) => if n >= |view| then 0 else n + Partial(view, script[1..])
  }

  lemma {:induction false} SendLoopLength(view: seq<byte>, script: seq<WriteResult>)
    ensures var s := SendLoop(view, script);
            |s.sent| == Partial(view, script) + (if s.all then |view| else 0)
    decreases |script|
  {
    if view == [] {
    } else if script != [] {
      SendLoopLength(view, script[1..]);
    }
  }

  lemma {:induction false} SendLoopEnds(view: seq<byte>, script: seq<WriteResult>)
    requires SendLoop(view, script).all
    ensures var s := SendLoop(view, script).sent; |view| <= |s| && s[|s| - |view|..] == view
    decreases |script|
  {
    if view == [] {
    } else {
      match script[0]
      case WriteError => SendLoopEnds(view, script[1..]);
      case Wrote(n) =>
        if n < |view| {
          var s := SendLoop(view, script[1..]).sent;
          SendLoopEnds(view, script[1..]);
          assert (view[..n] + s)[n + |s| - |view|..] == s[|s| - |view|..];
        }
      case WriteBlocked =>
    }
  }

  /** The `k`th result takes everything, and nothing before it blocked. */
  ghost predicate Finishes(view: seq<byte>, script: seq<WriteResult>, k: int) {
    && 0 <= k < |script| && script[k].Wrote? && script[k].n >= |view|
    && forall j | 0 <= j < k :: script[j] != WriteBlocked
  }

  /** The loop says that all was written exactly when nothing was there, or one write took everything. */
  lemma {:induction false} SendAllIff(view: seq<byte>, script: seq<WriteResult>)
    ensures SendLoop(view, script).all <==> view == [] || exists k :: Finishes(view, script, k)
    decreases |script|
  {
    if view == [] || script == [] {
    } else {
      SendAllIff(view, script[1..]);
      forall k | Finishes(view, script[1..], k) && script[0] != WriteBlocked
        ensures Finishes(view, script, k + 1)
      {
        assert forall j | 0 < j <= k :: script[j] == script[1..][j - 1];
      }
      forall k | Finishes(view, script, k) && k > 0
        ensures Finishes(view, script[1..], k - 1)
      {
        assert forall j | 0 <= j < k - 1 :: script[1..][j] == script[j + 1];
      }
      if Finishes(view, script, 0) {
        assert SendLoop(view, script).all;
      }
    }
  }

  /**
   * What a writable event does for a client: every queued message is in the out-buffer, in order, and its
   * callback has run with it, once; the queue is empty; and the socket got what the write loop sent.  On a
   * connection that is not connected everything waits.
   */
  lemma WriteIs(c: Conn, script: seq<WriteResult>)
    requires c.kind == ByClient && AllSizable(Firsts(c.writeDones))
    ensures c.state != Connected ==> AfterWrite(c, script) == c
    ensures c.state == Connected ==>
              var c', n := AfterWrite(c, script), |c.fired|;
              && c'.writeDones == [] && c'.out == c.out + EncodeAll(Firsts(c.writeDones))
              && c'.wire == c.wire + SendLoop(c'.out, script).sent
              && |c'.fired| == n + |c.writeDones| && c'.fired[..n] == c.fired
              && forall k | 0 <= k < |c.writeDones| ::
                   c'.fired[n + k].0 == c.writeDones[k].1 && SameContent(c.writeDones[k].0, c'.fired[n + k].1)
  {
    if c.state == Connected {
      var c', n := AfterWrite(c, script), |c.fired|;
      assert c'.fired == c.fired + Written(c.writeDones);
      forall k | 0 <= k < |c.writeDones|
        ensures c'.fired[n + k] == Written(c.writeDones)[k]
      {
      }
    }
  }

  /** A connection listens for the writable event until all that it has to write was taken by one write. */
  lemma ListensIff(c: Conn, script: seq<WriteResult>)
    requires c.state == Connected && (c.kind == ByClient ==> AllSizable(Firsts(c.writeDones)))
    ensures var c' := AfterWrite(c, script);
            c'.writing <==> c.writing && c'.out != [] && forall k :: !Finishes(c'.out, script, k)
  {
    SendAllIff(AfterWrite(c, script).out, script);
  }

  /**
   * When the write loop says that all was written, the socket took the out-buffer exactly once if
   * and only if no write before the last took a part of it; after a partial write the same bytes
   * are offered again from the start.
   */
  lemma SentOnceIff(view: seq<byte>, script: seq<WriteResult>)
    requires SendLoop(view, script).all
    ensures SendLoop(view, script).sent == view <==> Partial(view, script) == 0
  {
    SendLoopLength(view, script);
    SendLoopEnds(view, script);
  }

  // ---------------------------------------------------------------- streams in pieces

  /** The number of whole parts in the first `n` bytes of a run of parts. */
  function Whole(parts: seq<seq<byte>>, n: nat): (k: nat)
    ensures k <= |parts|
  {
    if parts == [] || n < |parts[0]| then 0 else 1 + Whole(parts[1..], n - |parts[0]|)
  }

  /** What is left of the first `n` bytes of the run, and of `t` behind it, without its whole parts. */
  function Residue(parts: seq<seq<byte>>, t: seq<byte>, n: nat): (r: seq<byte>)
    requires n <= |Flatten(parts)| + |t|
    ensures |r| <= n
  {
    if parts == [] then t[..n]
    else if n < |parts[0]| then parts[0][..n]
    else Residue(parts[1..], t, n - |parts[0]|)
  }

  lemma CutInside(a: seq<byte>, b: seq<byte>, p: nat, q: nat)
    requires p <= q <= |a|
    ensures (a + b)[p..q] == a[p..q] && a[..p] + a[p..q] == a[..q]
  {
  }

  lemma CutAcross(a: seq<byte>, b: seq<byte>, p: nat, q: nat)
    requires p <= |a| <= q <= |a| + |b|
    ensures a[..p] + (a + b)[p..q] == a + b[..q - |a|]
  {
  }

  lemma CutBeyond(a: seq<byte>, b: seq<byte>, p: nat, q: nat)
    requires |a| <= p <= q <= |a| + |b|
    ensures (a + b)[p..q] == b[p - |a|..q - |a|]
  {
  }

  lemma RunHead(parts: seq<seq<byte>>, t: seq<byte>)
    requires parts != []
    ensures Flatten(parts) + t == parts[0] + (Flatten(parts[1..]) + t)
  {
  }

  lemma {:induction false} PrefixSplits(parts: seq<seq<byte>>, t: seq<byte>, n: nat)
    requires n <= |Flatten(parts)| + |t|
    ensures (Flatten(parts) + t)[..n] == Flatten(parts[..Whole(parts, n)]) + Residue(parts, t, n)
  {
    if parts == [] {
      assert Flatten(parts) + t == t;
    } else {
      var a, rest := parts[0], Flatten(parts[1..]) + t;
      RunHead(parts, t);
      if |a| <= n {
        var k := Whole(parts[1..], n - |a|);
        PrefixSplits(parts[1..], t, n - |a|);
        CutAcross(a, rest, 0, n);
        assert (a + rest)[..n] == a + rest[..n - |a|];
        assert [a] + parts[1..] == parts;
        FlattenCons(a, parts[1..], k);
        Assoc(a, Flatten(parts[1..][..k]), Residue(parts, t, n));
      } else {
        CutInside(a, rest, 0, n);
      }
    }
  }

  lemma FlattenCons(a: seq<byte>, parts: seq<seq<byte>>, k: nat)
    requires k <= |parts|
    ensures Flatten(([a] + parts)[..k + 1]) == a + Flatten(parts[..k])
  {
    assert ([a] + parts)[..k + 1][1..] == parts[..k];
  }

  /** Bytes `p` up to `q` of the run turn the residue at `p` into whole parts and the residue at `q`. */
  ghost predicate Grows(parts: seq<seq<byte>>, t: seq<byte>, p: nat, q: nat)
    requires p <= q <= |Flatten(parts)| + |t|
  {
    && Whole(parts, p) <= Whole(parts, q)
    && Residue(parts, t, p) + (Flatten(parts) + t)[p..q]
       == Flatten(parts[Whole(parts, p)..Whole(parts, q)]) + Residue(parts, t, q)
  }

  lemma SliceTail<T>(s: seq<T>, i: nat, j: nat)
    requires i <= j < |s|
    ensures s[1..][i..j] == s[1 + i..1 + j]
  {
  }

  lemma {:induction false} ResidueGrows(parts: seq<seq<byte>>, t: seq<byte>, p: nat, q: nat)
    requires p <= q <= |Flatten(parts)| + |t|
    ensures Grows(parts, t, p, q)
  {
    if parts == [] {
      CutInside(t, [], p, q);
      assert Flatten(parts) + t == t && t + [] == t;
    } else {
      RunHead(parts, t);
      if p < |parts[0]| {
        GrowsFromHead(parts, t, p, q);
      } else {
        var m := |parts[0]|;
        ResidueGrows(parts[1..], t, p - m, q - m);
        CutBeyond(parts[0], Flatten(parts[1..]) + t, p, q);
        SliceTail(parts, Whole(parts[1..], p - m), Whole(parts[1..], q - m));
      }
    }
  }

  lemma GrowsFromHead(parts: seq<seq<byte>>, t: seq<byte>, p: nat, q: nat)
    requires parts != [] && p < |parts[0]| && p <= q <= |Flatten(parts)| + |t|
    ensures Grows(parts, t, p, q)
  {
    var s := Flatten(parts) + t;
    PrefixSplits(parts, t, q);
    assert parts[0][..p] == s[..p] by {
      RunHead(parts, t);
      CutInside(parts[0], Flatten(parts[1..]) + t, 0, p);
    }
    CutInside(s, [], p, q);
    assert s + [] == s;
  }

  // ---------------------------------------------------------------- reassembly

  function FramesOf(ms: seq<Message>): (fs: seq<seq<byte>>)
    requires AllSizable(ms)
    ensures |fs| == |ms| && forall k | 0 <= k < |ms| :: Sizable(ms[k]) && fs[k] == Frame(ms[k])
  {
    assert forall k | 0 <= k < |ms| :: ms[k] in ms;
    seq(|ms|, k requires 0 <= k < |ms| && Sizable(ms[k]) => Frame(ms[k]))
  }

  lemma SizableSlice(ms: seq<Message>, i: nat, j: nat)
    requires AllSizable(ms) && i <= j <= |ms|
    ensures AllSizable(ms[i..j])
  {
    assert forall m | m in ms[i..j] :: m in ms;
  }

  lemma {:induction false} FramesFlatten(ms: seq<Message>)
    requires AllSizable(ms)
    ensures Flatten(FramesOf(ms)) == EncodeAll(ms)
  {
    if ms == [] {
    } else {
      SizableSlice(ms, 1, |ms|);
      assert FramesOf(ms)[1..] == FramesOf(ms[1..]);
      FramesFlatten(ms[1..]);
    }
  }

  lemma FramesSlice(ms: seq<Message>, i: nat, j: nat)
    requires AllSizable(ms) && i <= j <= |ms|
    ensures AllSizable(ms[i..j]) && Flatten(FramesOf(ms)[i..j]) == EncodeAll(ms[i..j])
  {
    SizableSlice(ms, i, j);
    assert FramesOf(ms)[i..j] == FramesOf(ms[i..j]);
    FramesFlatten(ms[i..j]);
  }

  /** One readable event per chunk, each answered by a single read. */
  function Singles(chunks: seq<seq<byte>>): (events: seq<seq<ReadResult>>)
    ensures |events| == |chunks|
  {
    seq(|chunks|, k requires 0 <= k < |chunks| => [Arrived(chunks[k])])
  }

  /** Room for two thirds of the array is always there once a consumed third is reclaimed. */
  ghost predicate Tidy(b: Buf) {
    Roomed(b) && |b.data| >= 3 && b.r < |b.data| / 3
  }

  /** A read shorter than the free space is recorded. */
  lemma ShortRead(b: Buf, chunk: seq<byte>)
    requires Roomed(b) && chunk != [] && |chunk| < b.Writable()
    ensures var r := ReadLoop(b, [Arrived(chunk)]);
            && !r.closed && Roomed(r.b) && |r.b.data| == |b.data| && r.b.View() == b.View() + chunk
  {
    ReadLoopKeeps(b, [Arrived(chunk)]);
    assert [Arrived(chunk)][0] == Arrived(chunk);
  }

  lemma {:induction false} TidyDecode(b: Buf)
    requires Tidy(b)
    ensures Tidy(Decode(b).b)
    decreases b.w - b.r
  {
    match Scan(b.data, b.w, b.r)
    case FoundFrame(start, len) =>
      if Halts(b, len) {
        DecodeHalts(b, start, len);
      } else {
        DecodeTakes(b, start, len);
        TidyDecode(MoveRead(b, len));
      }
    case _ => DecodeStops(b);
  }

  lemma {:induction false} TidyLoop(b: Buf, script: seq<ReadResult>)
    requires Tidy(b)
    ensures Tidy(ReadLoop(b, script).b)
    decreases |script|, Pieces(script)
  {
    if script == [] {
    } else {
      match script[0]
      case ReadBlocked =>
      case ReadError => TidyLoop(b, script[1..]);
      case Arrived(bs) =>
        if |bs| >= b.Writable() {
          ReadFills(b, script);
          TidyLoop(Take(b, bs[..b.Writable()]), Later(script, b.Writable()));
        } else if bs != [] {
          TakeShort(b, bs);
        }
    }
  }

  lemma {:induction false} FeedTidy(b: Buf, events: seq<seq<ReadResult>>)
    requires Tidy(b)
    ensures Tidy(Feed(b, events).b)
    decreases |events|
  {
    if events == [] {
    } else {
      TidyLoop(b, events[0]);
      var r := ReadLoop(b, events[0]);
      if !r.closed {
        TidyDecode(r.b);
        FeedTidy(Decode(r.b).b, events[1..]);
      }
    }
  }

  /** Reads that deliver bytes do not end the connection. */
  lemma {:induction false} SinglesStayOpen(b: Buf, chunks: seq<seq<byte>>)
    requires Roomed(b) && [] !in chunks
    ensures !Feed(b, Singles(chunks)).closed
    decreases |chunks|
  {
    if chunks == [] {
    } else {
      var r := ReadLoop(b, [Arrived(chunks[0])]);
      ReadLoopKeeps(b, [Arrived(chunks[0])]);
      assert chunks[0] in chunks;
      var _ := ChunkKept(b.Writable(), chunks[0]);
      assert Singles(chunks)[0] == [Arrived(chunks[0])] && Singles(chunks)[1..] == Singles(chunks[1..]);
      SinglesStayOpen(Decode(r.b).b, chunks[1..]);
    }
  }
}
