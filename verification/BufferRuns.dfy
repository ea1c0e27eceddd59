// Whole runs of TcpBuffer operations: every run is a byte FIFO, and the copying that growth and
// compaction do is paid for by the growth of the array and by the bytes consumed.

module BufferRuns {
  import opened Bytes
  import opened Buffers

  datatype Op =
    | Append(bs: seq<byte>)   // writeToBuffer
    | Take(size: nat)         // readFromBuffer
    | Skip(size: nat)         // moveReadIndex
    | Fill(bs: seq<byte>)     // a socket read into the free space, then moveWriteIndex
    | Double                  // the resize of onRead

  /** What a step (or a run) took out and put in, and how many bytes each kind of copying moved. */
  datatype Tally = Tally(b: Buf, taken: seq<byte>, put: seq<byte>, grown: nat, moved: nat)

  /** What the callers guarantee: no read past the write index, no socket read past the array. */
  ghost predicate Legal(b: Buf, op: Op) {
    match op
    case Skip(n) => b.r + n <= b.w || ReadMoveRefused(b, n)
    case Fill(bs) => |bs| <= b.Writable()
    case _ => true
  }

  /** Bytes that were copied on the way from one state to the other: all the readable ones if anything moved. */
  function Copied(b: Buf, b': Buf): (n: nat)
    requires b.Ok()
  {
    if b' == b then 0 else b.w - b.r
  }

  /** The same for a step that may change the array for a larger one. */
  function Regrown(b: Buf, b': Buf): (n: nat)
    requires b.Ok()
  {
    if |b'.data| == |b.data| then 0 else b.w - b.r
  }

  ghost function Step(b: Buf, op: Op): (t: Tally)
    requires b.Ok() && Legal(b, op)
    ensures t.b.Ok()
  {
    match op
    case Append(bs) =>
      Tally(Write(b, bs), [], bs, Regrown(b, Write(b, bs)), 0)
    case Take(n) =>
      var k := Min(n, b.w - b.r);
      Tally(Consume(b, n), b.View()[..k], [], 0, Copied(b.(r := b.r + k), Consume(b, n)))
    case Skip(n) =>
      if ReadMoveRefused(b, n) then Tally(b, [], [], 0, 0)
      else Tally(MoveRead(b, n), b.View()[..n], [], 0, Copied(b.(r := b.r + n), MoveRead(b, n)))
    case Fill(bs) =>
      var p := Poke(b, bs);
      if WriteMoveRefused(p, |bs|) then Tally(p, [], [], 0, 0)
      else Tally(MoveWrite(p, |bs|), [], bs, 0, Copied(p.(w := p.w + |bs|), MoveWrite(p, |bs|)))
    case Double =>
      Tally(Resize(b, 2 * |b.data|), [], [], b.w - b.r, 0)
  }

  ghost predicate LegalRun(b: Buf, ops: seq<Op>)
    requires b.Ok()
    decreases |ops|
  {
    ops == [] || (Legal(b, ops[0]) && LegalRun(Step(b, ops[0]).b, ops[1..]))
  }

  ghost function Run(b: Buf, ops: seq<Op>): (t: Tally)
    requires b.Ok() && LegalRun(b, ops)
    ensures t.b.Ok()
    decreases |ops|
  {
    if ops == [] then Tally(b, [], [], 0, 0)
    else
      var s := Step(b, ops[0]);
      var t := Run(s.b, ops[1..]);
      Tally(t.b, s.taken + t.taken, s.put + t.put, s.grown + t.grown, s.moved + t.moved)
  }

  lemma FillIsFifo(b: Buf, bs: seq<byte>)
    requires b.Ok() && |bs| <= b.Writable()
    ensures b.View() + Step(b, Fill(bs)).put == Step(b, Fill(bs)).b.View()
  {
    var p := Poke(b, bs);
    if !WriteMoveRefused(p, |bs|) {
      assert p.data[p.r..p.w + |bs|] == p.View() + bs;
    }
  }

  lemma StepIsFifo(b: Buf, op: Op)
    requires b.Ok() && Legal(b, op)
    ensures b.View() + Step(b, op).put == Step(b, op).taken + Step(b, op).b.View()
  {
    match op
    case Append(bs) =>
    case Take(n) =>
    case Skip(n) =>
    case Fill(bs) => FillIsFifo(b, bs);
    case Double =>
      assert b.View()[..b.w - b.r] == b.View();
  }

  lemma Splice(v: seq<byte>, p: seq<byte>, t: seq<byte>, v': seq<byte>, p': seq<byte>, t': seq<byte>, v'': seq<byte>)
    requires v + p == t + v' && v' + p' == t' + v''
    ensures v + (p + p') == (t + t') + v''
  {
    assert v + (p + p') == (v + p) + p';
    assert t + v' + p' == t + (v' + p');
    assert t + (t' + v'') == (t + t') + v'';
  }

  /** Over any run, what went in after the initial content came out first, in order. */
  lemma {:induction false} RunIsFifo(b: Buf, ops: seq<Op>)
    requires b.Ok() && LegalRun(b, ops)
    ensures b.View() + Run(b, ops).put == Run(b, ops).taken + Run(b, ops).b.View()
    decreases |ops|
  {
    if ops == [] {
    } else {
      var s := Step(b, ops[0]);
      var t := Run(s.b, ops[1..]);
      StepIsFifo(b, ops[0]);
      RunIsFifo(s.b, ops[1..]);
      Splice(b.View(), s.put, s.taken, s.b.View(), t.put, t.taken, t.b.View());
    }
  }

  /** Less than a third of the array has been consumed; an array of one or two bytes has no third. */
  ghost predicate Compact(b: Buf) {
    |b.data| >= 3 ==> b.r < |b.data| / 3
  }

  /** Every granted move leaves the buffer compact, whatever it was before, and no other operation spoils it. */
  lemma StepCompact(b: Buf, op: Op)
    requires b.Ok() && Legal(b, op)
    ensures Compact(b) ==> Compact(Step(b, op).b)
    ensures op.Take? && b.r < b.w ==> Compact(Step(b, op).b)
    ensures op.Skip? && !ReadMoveRefused(b, op.size) ==> Compact(Step(b, op).b)
    ensures op.Fill? && !WriteMoveRefused(b, |op.bs|) ==> Compact(Step(b, op).b)
  {
  }

  /** Over every run the consumed bytes stay below a third of the array. */
  lemma {:induction false} StaysCompact(b: Buf, ops: seq<Op>)
    requires b.Ok() && LegalRun(b, ops) && Compact(b)
    ensures Compact(Run(b, ops).b)
    decreases |ops|
  {
    if ops == [] {
    } else {
      StepCompact(b, ops[0]);
      StaysCompact(Step(b, ops[0]).b, ops[1..]);
    }
  }

  /** A write that does not fit grows the array to one and a half times what must fit, and no other does. */
  lemma GrowsByHalf(b: Buf, bs: seq<byte>)
    requires b.Ok()
    ensures |Write(b, bs).data| == if b.w + |bs| <= |b.data| then |b.data| else (b.w + |bs|) * 3 / 2
  {
  }

  /** The 1.5 growth factor: a step copies at most twice the capacity it adds. */
  lemma GrowthStep(b: Buf, op: Op)
    requires b.Ok() && Legal(b, op)
    ensures |b.data| <= |Step(b, op).b.data|
    ensures Step(b, op).grown <= 2 * (|Step(b, op).b.data| - |b.data|)
  {
  }

  lemma CompactionCost(b: Buf)
    requires b.Ok() && |b.data| >= 3
    ensures Copied(b, Adjust(b)) + 4 * Adjust(b).r <= 4 * b.r
  {
  }

  lemma TakeCompaction(b: Buf, n: nat)
    requires b.Ok() && |b.data| >= 3
    ensures var t := Step(b, Take(n)); t.moved + 4 * t.b.r <= 4 * |t.taken| + 4 * b.r
  {
    if b.r < b.w {
      CompactionCost(b.(r := b.r + Min(n, b.w - b.r)));
    }
  }

  lemma SkipCompaction(b: Buf, n: nat)
    requires b.Ok() && |b.data| >= 3 && Legal(b, Skip(n))
    ensures var t := Step(b, Skip(n)); t.moved + 4 * t.b.r <= 4 * |t.taken| + 4 * b.r
  {
    if !ReadMoveRefused(b, n) {
      CompactionCost(b.(r := b.r + n));
    }
  }

  lemma FillCompaction(b: Buf, bs: seq<byte>)
    requires b.Ok() && |b.data| >= 3 && Legal(b, Fill(bs))
    ensures var t := Step(b, Fill(bs)); t.moved + 4 * t.b.r <= 4 * |t.taken| + 4 * b.r
  {
    var p := Poke(b, bs);
    if !WriteMoveRefused(p, |bs|) {
      CompactionCost(p.(w := p.w + |bs|));
    }
  }

  /** The one-third threshold: compaction is paid for by the bytes consumed since the last one. */
  lemma CompactionStep(b: Buf, op: Op)
    requires b.Ok() && Legal(b, op) && |b.data| >= 3
    ensures Step(b, op).moved + 4 * Step(b, op).b.r <= 4 * |Step(b, op).taken| + 4 * b.r
  {
    match op
    case Take(n) => TakeCompaction(b, n);
    case Skip(n) => SkipCompaction(b, n);
    case Fill(bs) => FillCompaction(b, bs);
    case _ =>
  }

  lemma {:induction false} AmortisedCopying(b: Buf, ops: seq<Op>)
    requires b.Ok() && LegalRun(b, ops)
    ensures |b.data| <= |Run(b, ops).b.data|
    ensures Run(b, ops).grown <= 2 * (|Run(b, ops).b.data| - |b.data|)
    ensures |b.data| >= 3 ==>
              Run(b, ops).moved + 4 * Run(b, ops).b.r <= 4 * |Run(b, ops).taken| + 4 * b.r
    decreases |ops|
  {
    if ops == [] {
    } else {
      GrowthStep(b, ops[0]);
      if |b.data| >= 3 {
        CompactionStep(b, ops[0]);
      }
      AmortisedCopying(Step(b, ops[0]).b, ops[1..]);
    }
  }

  /** A read that fills the free space exactly is not recorded; every shorter one is. */
  lemma ReadRecordedIffShort(b: Buf, bs: seq<byte>)
    requires b.Ok() && 0 < |bs| <= b.Writable()
    ensures Step(b, Fill(bs)).b.View() == b.View() + bs <==> |bs| < b.Writable()
    ensures |bs| == b.Writable() ==> Step(b, Fill(bs)).b.View() == b.View()
  {
    StepIsFifo(b, Fill(bs));
    if |bs| == b.Writable() {
      assert |b.View() + bs| > |b.View()|;
    }
  }
}
