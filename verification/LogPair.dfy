// The two loggers of a process: a file name does not say which of them it belongs to, so both writers
// append to the same files.

module LogPair {
  import opened Bytes
  import opened Logs
  import opened LogRuns

  /** Two pipelines on one directory; a pipeline's own disk holds what its writer put into each file. */
  datatype Pair = Pair(a: Pipe, b: Pipe, disk: Disk)

  /**
   * `rotate` is whether a writer finds its open file too long.  It asks `ftell`, which does not count what
   * the other writer has added since; so whatever the answer is is allowed.
   */
  datatype PairStep = OfA(step: Step, rotate: bool) | OfB(step: Step, rotate: bool)

  function Turned(p: Pair): Pair {
    Pair(p.b, p.a, p.disk)
  }

  function Part(disk: Disk, name: Name): seq<byte> {
    if name in disk then disk[name] else []
  }

  /** `c` is made up of `a` and `b`, each in its order. */
  predicate Shuffled(c: seq<byte>, a: seq<byte>, b: seq<byte>)
    decreases |c|
  {
    if c == [] then a == [] && b == []
    else
      var n, last := |c| - 1, c[|c| - 1];
      || (a != [] && a[|a| - 1] == last && Shuffled(c[..n], a[..|a| - 1], b))
      || (b != [] && b[|b| - 1] == last && Shuffled(c[..n], a, b[..|b| - 1]))
  }

  lemma {:induction false} ShuffledBack(c: seq<byte>, a: seq<byte>, b: seq<byte>)
    requires Shuffled(c, a, b)
    ensures Shuffled(c, b, a) && |c| == |a| + |b|
    decreases |c|
  {
    if c == [] {
    } else {
      var n := |c| - 1;
      if a != [] && a[|a| - 1] == c[n] && Shuffled(c[..n], a[..|a| - 1], b) {
        ShuffledBack(c[..n], a[..|a| - 1], b);
      } else {
        ShuffledBack(c[..n], a, b[..|b| - 1]);
      }
    }
  }

  lemma {:induction false} ShuffledAppend(c: seq<byte>, a: seq<byte>, b: seq<byte>, bs: seq<byte>)
    requires Shuffled(c, a, b)
    ensures Shuffled(c + bs, a + bs, b)
    decreases |bs|
  {
    if bs == [] {
      assert c + bs == c && a + bs == a;
    } else {
      var n := |bs| - 1;
      ShuffledAppend(c, a, b, bs[..n]);
      assert (c + bs)[..|c + bs| - 1] == c + bs[..n] && (a + bs)[..|a + bs| - 1] == a + bs[..n];
    }
  }

  // ---------------------------------------------------------------- one batch of one writer

  /** The step to the next number, whatever it was that decided for it. */
  function RotatedIf(w: Writer, rotate: bool): (w': Writer)
    requires w.names != [] && Current(w) in w.disk
    ensures w'.names != [] && Current(w') in w'.disk && (w.isOpen ==> w'.isOpen)
  {
    if rotate then Open(w.(no := w.no + 1), Name(w.date, w.no + 1)) else w
  }

  /** What a turn of a writer adds to a disk: to the shared directory, or to its own record. */
  function WrittenOn(w: Writer, rotate: bool, date: int, batch: seq<Msg>): (w': Writer)
    requires Ready(w)
    ensures Ready(w') && w'.isOpen && w'.names != []
  {
    Append(RotatedIf(Dated(w, date), rotate), Flatten(batch))
  }

  /** The same files are new on both disks, and the text is at the end of one file on both. */
  ghost predicate Grown(d: Disk, d': Disk, added: set<Name>, name: Name, text: seq<byte>) {
    && d'.Keys == d.Keys + added && name in d'
    && forall n :: Part(d', n) == Part(d, n) + if n == name then text else []
  }

  /** New, empty files. */
  ghost predicate Opened(d: Disk, d': Disk, added: set<Name>) {
    d'.Keys == d.Keys + added && forall n :: Part(d', n) == Part(d, n)
  }

  lemma OpenedTwice(d: Disk, d': Disk, d'': Disk, more: set<Name>, added: set<Name>)
    requires Opened(d, d', more) && Opened(d', d'', added)
    ensures Opened(d, d'', more + added)
  {
  }

  lemma OpenAdds(w: Writer, name: Name)
    ensures Opened(w.disk, Open(w, name).disk, {name})
  {
  }

  /** But for its disk, the writer is the same on both. */
  ghost predicate Alike(w: Writer, w': Writer) {
    w == w'.(disk := w.disk)
  }

  lemma DatedAdds(w: Writer, w': Writer, date: int) returns (added: set<Name>)
    requires Ready(w) && Ready(w') && Alike(w, w')
    ensures Alike(Dated(w, date), Dated(w', date))
    ensures Opened(w.disk, Dated(w, date).disk, added) && Opened(w'.disk, Dated(w', date).disk, added)
  {
    if date != w.date {
      added := {Name(date, 0)};
      OpenAdds(w.(date := date, no := 0), Name(date, 0));
      OpenAdds(w'.(date := date, no := 0), Name(date, 0));
    } else if !w.isOpen {
      added := {Name(date, w.no)};
      OpenAdds(w, Name(date, w.no));
      OpenAdds(w', Name(date, w.no));
    } else {
      added := {};
    }
  }

  lemma RotatedAdds(w: Writer, w': Writer, rotate: bool) returns (added: set<Name>)
    requires w.names != [] && Current(w) in w.disk && Current(w) in w'.disk && Alike(w, w')
    ensures Alike(RotatedIf(w, rotate), RotatedIf(w', rotate))
    ensures Opened(w.disk, RotatedIf(w, rotate).disk, added) && Opened(w'.disk, RotatedIf(w', rotate).disk, added)
  {
    if rotate {
      added := {Name(w.date, w.no + 1)};
      OpenAdds(w.(no := w.no + 1), Name(w.date, w.no + 1));
      OpenAdds(w'.(no := w.no + 1), Name(w.date, w.no + 1));
    } else {
      added := {};
    }
  }

  lemma AppendGrows(w: Writer, d: Disk, added: set<Name>, text: seq<byte>)
    requires w.names != [] && Current(w) in w.disk && Opened(d, w.disk, added)
    ensures Grown(d, Append(w, text).disk, added, Current(w), text)
  {
  }

  lemma AppendAlike(w: Writer, w': Writer, text: seq<byte>)
    requires w.names != [] && Current(w) in w.disk && Current(w) in w'.disk && Alike(w, w')
    ensures Alike(Append(w, text), Append(w', text)) && Current(Append(w, text)) == Current(w)
  {
  }

  /** The directory and the writer's own record grow alike. */
  lemma WriteGrows(own: Writer, disk: Disk, rotate: bool, date: int, batch: seq<Msg>) returns (added: set<Name>)
    requires Ready(own) && Ready(own.(disk := disk))
    ensures var there, w := WrittenOn(own.(disk := disk), rotate, date, batch), WrittenOn(own, rotate, date, batch);
            && Alike(w, there)
            && Grown(disk, there.disk, added, Current(w), Flatten(batch))
            && Grown(own.disk, w.disk, added, Current(w), Flatten(batch))
  {
    var w' := own.(disk := disk);
    var d, d' := Dated(own, date), Dated(w', date);
    var r, r' := RotatedIf(d, rotate), RotatedIf(d', rotate);
    var first := DatedAdds(own, w', date);
    var second := RotatedAdds(d, d', rotate);
    OpenedTwice(own.disk, d.disk, r.disk, first, second);
    OpenedTwice(disk, d'.disk, r'.disk, first, second);
    added := first + second;
    AppendAlike(r, r', Flatten(batch));
    AppendGrows(r, own.disk, added, Flatten(batch));
    AppendGrows(r', disk, added, Flatten(batch));
  }

  lemma RotatedIfOrderly(w: Writer, rotate: bool)
    requires Orderly(w) && w.isOpen
    ensures Orderly(RotatedIf(w, rotate)) && Stored(RotatedIf(w, rotate)) == Stored(w)
  {
    LastIsLatest(w);
    if rotate {
      OpenNext(w, Name(w.date, w.no + 1));
    }
  }

  lemma WrittenOnOrderly(w: Writer, rotate: bool, date: int, batch: seq<Msg>)
    requires Orderly(w) && Ready(w) && w.date <= date && (w.names == [] ==> w.date < date)
    ensures var w' := WrittenOn(w, rotate, date, batch);
            Orderly(w') && Stored(w') == Stored(w) + Flatten(batch)
  {
    var d := Dated(w, date);
    DatedOrderly(w, date);
    RotatedIfOrderly(d, rotate);
    AppendOrderly(RotatedIf(d, rotate), Flatten(batch));
  }

  // ---------------------------------------------------------------- the invariant

  /** Every file on the directory is a shuffle of what the two writers put into it. */
  ghost predicate Mixed(a: Disk, b: Disk, disk: Disk) {
    && disk.Keys == a.Keys + b.Keys
    && forall n | n in disk :: Shuffled(disk[n], Part(a, n), Part(b, n))
  }

  ghost predicate Paired(p: Pair) {
    Sound(p.a) && Sound(p.b) && Mixed(p.a.writer.disk, p.b.writer.disk, p.disk)
  }

  lemma MixedBack(a: Disk, b: Disk, disk: Disk)
    requires Mixed(a, b, disk)
    ensures Mixed(b, a, disk)
  {
    forall n | n in disk
      ensures Shuffled(disk[n], Part(b, n), Part(a, n))
    {
      ShuffledBack(disk[n], Part(a, n), Part(b, n));
    }
  }

  lemma MixedGrows(a: Disk, b: Disk, disk: Disk, a': Disk, disk': Disk, added: set<Name>, name: Name, text: seq<byte>)
    requires Mixed(a, b, disk) && Grown(disk, disk', added, name, text) && Grown(a, a', added, name, text)
    ensures Mixed(a', b, disk')
  {
    forall n | n in disk'
      ensures Shuffled(disk'[n], Part(a', n), Part(b, n))
    {
      assert Shuffled(Part(disk, n), Part(a, n), Part(b, n));
      ShuffledAppend(Part(disk, n), Part(a, n), Part(b, n), if n == name then text else []);
      assert disk'[n] == Part(disk', n);
    }
  }

  // ---------------------------------------------------------------- runs

  predicate PairEnabled(p: Pair, s: PairStep) {
    if s.OfA? then Enabled(p.a, s.step) else Enabled(p.b, s.step)
  }

  ghost predicate PairTimely(p: Pair, s: PairStep) {
    if s.OfA? then Timely(p.a, s.step) else Timely(p.b, s.step)
  }

  /** Open files exist. */
  ghost predicate PairReady(p: Pair) {
    && Ready(p.a.writer) && Ready(p.a.writer.(disk := p.disk))
    && Ready(p.b.writer) && Ready(p.b.writer.(disk := p.disk))
  }

  lemma PairedIsReady(p: Pair)
    requires Paired(p)
    ensures PairReady(p)
  {
  }

  lemma WriteLeaves(own: Writer, disk: Disk, rotate: bool, date: int, batch: seq<Msg>)
    requires Ready(own) && Ready(own.(disk := disk))
    ensures var there, w := WrittenOn(own.(disk := disk), rotate, date, batch), WrittenOn(own, rotate, date, batch);
            Ready(w) && Ready(w.(disk := there.disk)) && disk.Keys <= there.disk.Keys
  {
    var added := WriteGrows(own, disk, rotate, date, batch);
  }

  /** A step of the first pipeline. */
  ghost function AfterA(p: Pair, s: Step, rotate: bool): (p': Pair)
    requires PairReady(p) && Enabled(p.a, s)
    ensures PairReady(p')
  {
    match s
    case Write(date) =>
      var w := p.a.writer;
      var batch := p.a.inHand[0];
      WriteLeaves(w, p.disk, rotate, date, batch);
      p.(a := HandedOver(p.a, WrittenOn(w, rotate, date, batch)),
         disk := WrittenOn(w.(disk := p.disk), rotate, date, batch).disk)
    case _ =>
      WriterStays(p.a, s);
      p.(a := After(p.a, s, 0))
  }

  lemma PairedTurned(p: Pair)
    requires Paired(p)
    ensures Paired(Turned(p))
  {
    MixedBack(p.a.writer.disk, p.b.writer.disk, p.disk);
  }

  ghost function PairAfter(p: Pair, s: PairStep): (p': Pair)
    requires PairReady(p) && PairEnabled(p, s)
    ensures PairReady(p')
  {
    if s.OfA? then AfterA(p, s.step, s.rotate) else Turned(AfterA(Turned(p), s.step, s.rotate))
  }

  lemma WriteA(p: Pair, date: int, rotate: bool)
    requires Paired(p) && PairReady(p) && Enabled(p.a, Write(date)) && Timely(p.a, Write(date))
    ensures var p' := AfterA(p, Write(date), rotate);
            Paired(p') && p'.b == p.b && Held(p'.a) == Held(p.a)
  {
    var w, batch := p.a.writer, p.a.inHand[0];
    var w' := WrittenOn(w, rotate, date, batch);
    WrittenOnOrderly(w, rotate, date, batch);
    HandOverConserves(p.a, w');
    var added := WriteGrows(w, p.disk, rotate, date, batch);
    MixedGrows(w.disk, p.b.writer.disk, p.disk, w'.disk, AfterA(p, Write(date), rotate).disk,
               added, Current(w'), Flatten(batch));
  }

  lemma OtherA(p: Pair, s: Step, rotate: bool)
    requires Paired(p) && PairReady(p) && Enabled(p.a, s) && Timely(p.a, s) && !s.Write?
    ensures var p' := AfterA(p, s, rotate);
            Paired(p') && p'.b == p.b && Held(p'.a) == Held(p.a) + Pushed([s])
  {
    StepConserves(p.a, s, 0);
    WriterStays(p.a, s);
    assert AfterA(p, s, rotate) == p.(a := After(p.a, s, 0));
  }

  lemma NothingPushed(s: Step, bs: seq<byte>)
    requires !s.Push?
    ensures bs + Pushed([s]) == bs
  {
    assert [s][1..] == [];
  }

  lemma StepA(p: Pair, s: Step, rotate: bool)
    requires Paired(p) && PairReady(p) && Enabled(p.a, s) && Timely(p.a, s)
    ensures var p' := AfterA(p, s, rotate);
            Paired(p') && p'.b == p.b && Held(p'.a) == Held(p.a) + Pushed([s])
  {
    if s.Write? {
      WriteA(p, s.date, rotate);
      NothingPushed(s, Held(p.a));
    } else {
      OtherA(p, s, rotate);
    }
  }

  lemma WriterStays(p: Pipe, s: Step)
    requires Enabled(p, s) && Ready(p.writer) && !s.Write?
    ensures After(p, s, 0).writer == p.writer
  {
  }

  lemma PairStepKeeps(p: Pair, s: PairStep)
    requires Paired(p) && PairEnabled(p, s) && PairTimely(p, s)
    ensures PairReady(p)
    ensures var p' := PairAfter(p, s);
            && Paired(p')
            && Held(p'.a) == Held(p.a) + (if s.OfA? then Pushed([s.step]) else [])
            && Held(p'.b) == Held(p.b) + (if s.OfB? then Pushed([s.step]) else [])
  {
    assert Held(p.a) + [] == Held(p.a) && Held(p.b) + [] == Held(p.b);
    PairedIsReady(p);
    if s.OfA? {
      StepA(p, s.step, s.rotate);
    } else {
      PairedTurned(p);
      StepA(Turned(p), s.step, s.rotate);
      PairedTurned(AfterA(Turned(p), s.step, s.rotate));
    }
  }

  ghost predicate GoodPairRun(p: Pair, ss: seq<PairStep>)
    requires PairReady(p)
    decreases |ss|
  {
    || ss == []
    || (PairEnabled(p, ss[0]) && PairTimely(p, ss[0]) && GoodPairRun(PairAfter(p, ss[0]), ss[1..]))
  }

  ghost function PairRun(p: Pair, ss: seq<PairStep>): Pair
    requires PairReady(p) && GoodPairRun(p, ss)
    decreases |ss|
  {
    if ss == [] then p else PairRun(PairAfter(p, ss[0]), ss[1..])
  }

  /** The steps of one of the two. */
  function StepsOf(ss: seq<PairStep>, first: bool): seq<Step> {
    if ss == [] then [] else (if ss[0].OfA? == first then [ss[0].step] else []) + StepsOf(ss[1..], first)
  }

  lemma PushedFirst(s: Step, rest: seq<Step>)
    ensures Pushed([s] + rest) == Pushed([s]) + Pushed(rest)
  {
    assert ([s] + rest)[1..] == rest && [s][1..] == [];
    assert Pushed([s]) + [] == Pushed([s]);
  }

  lemma PushedOf(ss: seq<PairStep>, first: bool)
    requires ss != []
    ensures Pushed(StepsOf(ss, first))
         == (if ss[0].OfA? == first then Pushed([ss[0].step]) else []) + Pushed(StepsOf(ss[1..], first))
  {
    var rest := StepsOf(ss[1..], first);
    if ss[0].OfA? == first {
      PushedFirst(ss[0].step, rest);
    } else {
      assert [] + rest == rest;
    }
  }

  /**
   * Both loggers.  However the steps of the two pipelines interleave, each of them holds exactly the
   * bytes pushed to it, in the order they were pushed, and every file of the directory they share is a
   * shuffle of what the one and the other wrote into it.
   */
  lemma {:induction false} PairConserved(p: Pair, ss: seq<PairStep>)
    requires Paired(p) && PairReady(p) && GoodPairRun(p, ss)
    ensures var p' := PairRun(p, ss);
            && Paired(p')
            && Held(p'.a) == Held(p.a) + Pushed(StepsOf(ss, true))
            && Held(p'.b) == Held(p.b) + Pushed(StepsOf(ss, false))
    decreases |ss|
  {
    if ss == [] {
      assert Held(p.a) + [] == Held(p.a) && Held(p.b) + [] == Held(p.b);
    } else {
      PairStepKeeps(p, ss[0]);
      PairConserved(PairAfter(p, ss[0]), ss[1..]);
      PushedOf(ss, true);
      PushedOf(ss, false);
      var now, later := if ss[0].OfA? then Pushed([ss[0].step]) else [], Pushed(StepsOf(ss[1..], true));
      Assoc(Held(p.a), now, later);
      var now', later' := if ss[0].OfB? then Pushed([ss[0].step]) else [], Pushed(StepsOf(ss[1..], false));
      Assoc(Held(p.b), now', later');
    }
  }

  /**
   * A process that has just started, with no log file on disk: once both pipelines have drained, what
   * each writer put into the files, in the order it opened them, is exactly what was pushed to it.
   */
  lemma BothDrained(ss: seq<PairStep>)
    requires GoodPairRun(Pair(NewPipe(), NewPipe(), map[]), ss)
    ensures var p := PairRun(Pair(NewPipe(), NewPipe(), map[]), ss);
            && Paired(p)
            && (Drained(p.a) ==> Stored(p.a.writer) == Pushed(StepsOf(ss, true)))
            && (Drained(p.b) ==> Stored(p.b.writer) == Pushed(StepsOf(ss, false)))
  {
    PairConserved(Pair(NewPipe(), NewPipe(), map[]), ss);
    assert Held(NewPipe()) == [];
    var p := PairRun(Pair(NewPipe(), NewPipe(), map[]), ss);
    DrainedHolds(p.a);
    DrainedHolds(p.b);
    assert [] + Pushed(StepsOf(ss, true)) == Pushed(StepsOf(ss, true));
    assert [] + Pushed(StepsOf(ss, false)) == Pushed(StepsOf(ss, false));
  }
}
