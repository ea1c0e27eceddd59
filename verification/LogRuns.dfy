// Runs of the log pipeline: one front buffer, one syncer, one writer, every hand-over an atomic step.

module LogRuns {
  import opened Bytes
  import opened Logs

  /** `syncer` is what syncLoop swapped out and has not queued yet; `inHand` the batch the writer took. */
  datatype Pipe = Pipe(front: seq<Msg>, syncer: seq<Msg>, queue: seq<seq<Msg>>, inHand: seq<seq<Msg>>,
                       writer: Writer, stop: bool, halted: bool)

  datatype Step = Push(msg: Msg) | SyncSwap | SyncPush | Take | Write(date: int) | Stop

  predicate Enabled(p: Pipe, s: Step) {
    match s
    case SyncSwap => p.syncer == []
    case SyncPush => p.syncer != []
    case Take => !p.halted && p.inHand == [] && p.queue != []
    case Write(_) => p.inHand != []
    case _ => true
  }

  /** The batch in hand has become part of the writer's files. */
  function HandedOver(p: Pipe, w: Writer): Pipe {
    p.(inHand := [], writer := w, halted := p.stop)
  }

  ghost function After(p: Pipe, s: Step, max: int): Pipe
    requires Enabled(p, s) && Ready(p.writer)
  {
    match s
    case Push(msg) => p.(front := p.front + [msg])
    case SyncSwap => p.(syncer := p.front, front := [])
    case SyncPush => p.(queue := p.queue + [p.syncer], syncer := [])
    case Take => p.(inHand := [p.queue[0]], queue := p.queue[1..])
    case Write(date) => HandedOver(p, Written(p.writer, max, date, p.inHand[0]))
    case Stop => p.(stop := true)
  }

  // ---------------------------------------------------------------- the writer's files

  /** The files' contents in the order the files were opened. */
  ghost function Contents(disk: Disk, names: seq<Name>): (bs: seq<byte>)
    requires forall n | n in names :: n in disk
  {
    if names == [] then [] else disk[names[0]] + Contents(disk, names[1..])
  }

  ghost predicate Later(a: Name, b: Name) {
    a.date < b.date || (a.date == b.date && a.no < b.no)
  }

  ghost predicate Increasing(names: seq<Name>) {
    forall i, j :: 0 <= i < j < |names| ==> Later(names[i], names[j])
  }

  /**
   * A writer that started on an empty disk: the files it opened are all there is, each name is later
   * than the one before, and the last is the file of the writer's date and number.
   */
  ghost predicate Orderly(w: Writer) {
    && Increasing(w.names)
    && (forall n :: n in w.disk <==> n in w.names)
    && (w.isOpen <==> w.names != [])
    && (w.names != [] ==> Current(w) == Name(w.date, w.no))
  }

  ghost function Stored(w: Writer): seq<byte>
    requires Orderly(w)
  {
    Contents(w.disk, w.names)
  }

  lemma {:induction false} ContentsSnoc(disk: Disk, names: seq<Name>, last: Name)
    requires last in disk && forall n | n in names :: n in disk
    ensures (forall n | n in names + [last] :: n in disk)
    ensures Contents(disk, names + [last]) == Contents(disk, names) + disk[last]
  {
    if names == [] {
      assert [last][1..] == [];
    } else {
      assert (names + [last])[1..] == names[1..] + [last];
      ContentsSnoc(disk, names[1..], last);
    }
  }

  lemma {:induction false} ContentsElsewhere(disk: Disk, names: seq<Name>, name: Name, bs: seq<byte>)
    requires name !in names && forall n | n in names :: n in disk
    ensures Contents(disk[name := bs], names) == Contents(disk, names)
  {
    if names == [] {
    } else {
      ContentsElsewhere(disk, names[1..], name, bs);
    }
  }

  lemma LastIsLatest(w: Writer)
    requires Orderly(w) && w.names != []
    ensures forall n | n in w.names :: n == Current(w) || Later(n, Current(w))
  {
  }

  ghost predicate Before(w: Writer, name: Name) {
    forall n | n in w.names :: Later(n, name)
  }

  /** Opening a later file adds a name and no bytes. */
  lemma OpenNext(w: Writer, name: Name)
    requires Orderly(w) && Before(w, name)
    ensures var w' := Open(w.(date := name.date, no := name.no), name);
            Orderly(w') && Stored(w') == Stored(w) && SizeOf(w'.disk, name) == 0
  {
    assert name !in w.names;
    ContentsElsewhere(w.disk, w.names, name, []);
    ContentsSnoc(w.disk[name := []], w.names, name);
  }

  lemma DatedOrderly(w: Writer, date: int)
    requires Orderly(w) && Ready(w) && w.date <= date && (w.names == [] ==> w.date < date)
    ensures Orderly(Dated(w, date)) && Stored(Dated(w, date)) == Stored(w)
  {
    if date != w.date {
      if w.names != [] {
        LastIsLatest(w);
      }
      OpenNext(w, Name(date, 0));
    }
  }

  lemma RotatedOrderly(w: Writer, max: int)
    requires Orderly(w) && w.isOpen && 0 <= max
    ensures var w' := Rotated(w, max);
            Orderly(w') && Stored(w') == Stored(w) && SizeOf(w'.disk, Current(w')) <= max
  {
    LastIsLatest(w);
    if SizeOf(w.disk, Current(w)) > max {
      OpenNext(w, Name(w.date, w.no + 1));
    }
  }

  lemma AppendOrderly(w: Writer, bs: seq<byte>)
    requires Orderly(w) && w.isOpen && Current(w) in w.disk
    ensures Orderly(Append(w, bs)) && Stored(Append(w, bs)) == Stored(w) + bs
  {
    var k := |w.names| - 1;
    var before, last := w.names[..k], w.names[k];
    assert w.names == before + [last] && last !in before;
    var disk' := w.disk[last := w.disk[last] + bs];
    ContentsSnoc(w.disk, before, last);
    ContentsElsewhere(w.disk, before, last, w.disk[last] + bs);
    ContentsSnoc(disk', before, last);
    Assoc(Contents(w.disk, before), w.disk[last], bs);
  }

  /**
   * A batch goes behind everything written before it, into a file that held no more than the limit;
   * files are opened in the order of date and number, so no two are the same.
   */
  lemma WrittenOrderly(w: Writer, max: int, date: int, batch: seq<Msg>)
    requires Orderly(w) && Ready(w) && 0 <= max && w.date <= date && (w.names == [] ==> w.date < date)
    ensures var w' := Written(w, max, date, batch);
            && Orderly(w') && Stored(w') == Stored(w) + Flatten(batch)
            && SizeOf(w'.disk, Current(w')) <= max + |Flatten(batch)|
  {
    DatedOrderly(w, date);
    RotatedOrderly(Dated(w, date), max);
    AppendOrderly(Rotated(Dated(w, date), max), Flatten(batch));
  }

  /** The file that a batch of this date begins with: a new one for a new date or a first batch. */
  function Begins(w: Writer, date: int): seq<Name> {
    if date != w.date then [Name(date, 0)] else if !w.isOpen then [Name(date, w.no)] else []
  }

  /**
   * Exactly which files a batch opens: one for a new date or for the first batch, and behind it the next
   * number exactly when the file that is open then is already larger than the limit.
   */
  lemma FilesOpened(w: Writer, max: int, date: int, batch: seq<Msg>)
    requires Orderly(w) && Ready(w)
    ensures var names := w.names + Begins(w, date);
            && names != []
            && var last := names[|names| - 1];
               Written(w, max, date, batch).names
               == names + if SizeOf(w.disk, last) > max then [Name(date, last.no + 1)] else []
  {
    var d := Dated(w, date);
    assert w.names + [] == w.names && d.names == w.names + Begins(w, date);
    assert SizeOf(d.disk, Current(d)) == SizeOf(w.disk, Current(d));
    assert d.names + [] == d.names;
  }

  // ---------------------------------------------------------------- conservation

  function Texts(batches: seq<seq<Msg>>): seq<byte> {
    if batches == [] then [] else Flatten(batches[0]) + Texts(batches[1..])
  }

  lemma {:induction false} TextsSnoc(batches: seq<seq<Msg>>, last: seq<Msg>)
    ensures Texts(batches + [last]) == Texts(batches) + Flatten(last)
  {
    if batches == [] {
      assert [last][1..] == [];
    } else {
      assert (batches + [last])[1..] == batches[1..] + [last];
      TextsSnoc(batches[1..], last);
      Assoc(Flatten(batches[0]), Texts(batches[1..]), Flatten(last));
    }
  }

  /** Every byte in the pipeline, oldest first: files, the batch in hand, the queue, the syncer, the front. */
  ghost function Held(p: Pipe): seq<byte>
    requires Orderly(p.writer)
  {
    Stored(p.writer) + (Texts(p.inHand) + (Texts(p.queue) + (Flatten(p.syncer) + Flatten(p.front))))
  }

  ghost predicate Sound(p: Pipe) {
    Orderly(p.writer) && Ready(p.writer) && |p.inHand| <= 1 && (p.halted ==> p.inHand == [])
  }

  /** The clock that dates the batches never goes back. */
  ghost predicate Timely(p: Pipe, s: Step) {
    s.Write? ==> p.writer.date <= s.date && 0 <= s.date && (p.writer.names == [] ==> p.writer.date < s.date)
  }

  function Pushed(ss: seq<Step>): seq<byte> {
    if ss == [] then [] else (if ss[0].Push? then ss[0].msg else []) + Pushed(ss[1..])
  }

  /** What a swap of the front buffer queues: its messages as one batch, and never an empty one. */
  lemma BatchIs(vec: seq<Msg>)
    ensures Texts(Batch(vec)) == Flatten(vec) && [] !in Batch(vec) && |Batch(vec)| == if vec == [] then 0 else 1
  {
    if vec != [] {
      assert Batch(vec)[1..] == [];
    }
  }

  lemma PushConserves(p: Pipe, msg: Msg, max: int)
    requires Sound(p)
    ensures Held(After(p, Push(msg), max)) == Held(p) + msg
  {
    FlattenConcat(p.front, [msg]);
    assert Flatten([msg]) == msg;
    var a, b, c, d := Stored(p.writer), Texts(p.inHand), Texts(p.queue), Flatten(p.syncer);
    var e := Flatten(p.front);
    Assoc(d, e, msg);
    Assoc(c, d + e, msg);
    Assoc(b, c + (d + e), msg);
    Assoc(a, b + (c + (d + e)), msg);
  }

  lemma SyncConserves(p: Pipe, s: Step, max: int)
    requires Sound(p) && (s == SyncSwap || s == SyncPush) && Enabled(p, s)
    ensures Held(After(p, s, max)) == Held(p)
  {
    if s == SyncSwap {
      assert Flatten(p.syncer) + Flatten(p.front) == Flatten(p.front) + Flatten([]);
    } else {
      TextsSnoc(p.queue, p.syncer);
      Assoc(Texts(p.queue), Flatten(p.syncer), Flatten(p.front));
      assert Flatten([]) + Flatten(p.front) == Flatten(p.front);
    }
  }

  lemma TakeConserves(p: Pipe, max: int)
    requires Sound(p) && Enabled(p, Take)
    ensures Sound(After(p, Take, max)) && Held(After(p, Take, max)) == Held(p)
  {
    var rest := Flatten(p.syncer) + Flatten(p.front);
    assert Texts([p.queue[0]]) == Flatten(p.queue[0]) + Texts([]);
    assert Texts([p.queue[0]]) == Flatten(p.queue[0]);
    Assoc(Flatten(p.queue[0]), Texts(p.queue[1..]), rest);
    assert Texts(p.inHand) + (Texts(p.queue) + rest) == Texts(p.queue) + rest;
  }

  lemma HandOverConserves(p: Pipe, w: Writer)
    requires Sound(p) && p.inHand != [] && Orderly(w) && Ready(w)
    requires Stored(w) == Stored(p.writer) + Flatten(p.inHand[0])
    ensures Sound(HandedOver(p, w)) && Held(HandedOver(p, w)) == Held(p)
  {
    var text, rest := Flatten(p.inHand[0]), Texts(p.queue) + (Flatten(p.syncer) + Flatten(p.front));
    assert Texts(p.inHand) == text + Texts([]) == text;
    Assoc(Stored(p.writer), text, rest);
    assert Texts([]) + rest == rest;
  }

  lemma WriteConserves(p: Pipe, date: int, max: int)
    requires Sound(p) && Enabled(p, Write(date)) && Timely(p, Write(date)) && 0 <= max
    ensures Sound(After(p, Write(date), max)) && Held(After(p, Write(date), max)) == Held(p)
  {
    WrittenOrderly(p.writer, max, date, p.inHand[0]);
    HandOverConserves(p, Written(p.writer, max, date, p.inHand[0]));
  }

  lemma StepConserves(p: Pipe, s: Step, max: int)
    requires Sound(p) && Enabled(p, s) && Timely(p, s) && 0 <= max
    ensures Sound(After(p, s, max)) && Held(After(p, s, max)) == Held(p) + Pushed([s])
  {
    assert [s][1..] == [];
    assert Held(p) + [] == Held(p);
    match s
    case Push(msg) =>
      PushConserves(p, msg, max);
      assert msg + [] == msg;
    case Take => TakeConserves(p, max);
    case Write(date) => WriteConserves(p, date, max);
    case Stop =>
    case _ => SyncConserves(p, s, max);
  }

  ghost predicate GoodRun(p: Pipe, ss: seq<Step>, max: int)
    requires Ready(p.writer)
    decreases |ss|
  {
    ss == [] || (Enabled(p, ss[0]) && Timely(p, ss[0]) && GoodRun(After(p, ss[0], max), ss[1..], max))
  }

  ghost function Run(p: Pipe, ss: seq<Step>, max: int): Pipe
    requires Ready(p.writer) && GoodRun(p, ss, max)
    decreases |ss|
  {
    if ss == [] then p else Run(After(p, ss[0], max), ss[1..], max)
  }

  /**
   * Log conservation.  In every reachable state the files in opening order, then the batch in hand,
   * the queue, the syncer's batch and the front buffer hold exactly the bytes pushed, in the order
   * they were pushed, and no file was opened twice.
   */
  lemma {:induction false} LogConserved(p: Pipe, ss: seq<Step>, max: int)
    requires Sound(p) && 0 <= max && GoodRun(p, ss, max)
    ensures Sound(Run(p, ss, max)) && Held(Run(p, ss, max)) == Held(p) + Pushed(ss)
    decreases |ss|
  {
    if ss == [] {
      assert Held(p) + [] == Held(p);
    } else {
      StepConserves(p, ss[0], max);
      LogConserved(After(p, ss[0], max), ss[1..], max);
      assert [ss[0]][1..] == [] && Pushed([ss[0]]) + Pushed(ss[1..]) == Pushed(ss);
      Assoc(Held(p), Pushed([ss[0]]), Pushed(ss[1..]));
    }
  }

  /** Nothing logged yet, and no file on disk. */
  function NewPipe(): Pipe {
    Pipe([], [], [], [], NewWriter(map[]), false, false)
  }

  /** All that was pushed is in the files. */
  predicate Drained(p: Pipe) {
    p.front == p.syncer == [] && p.queue == p.inHand == []
  }

  lemma DrainedHolds(p: Pipe)
    requires Sound(p)
    ensures Drained(p) ==> Held(p) == Stored(p.writer)
  {
  }

  /** Once a new pipeline has drained, its files in opening order hold exactly what was pushed. */
  lemma DrainedFilesHoldAll(ss: seq<Step>, max: int)
    requires 0 <= max && GoodRun(NewPipe(), ss, max)
    ensures var p := Run(NewPipe(), ss, max);
            Orderly(p.writer) && (Drained(p) ==> Stored(p.writer) == Pushed(ss))
  {
    LogConserved(NewPipe(), ss, max);
    DrainedHolds(Run(NewPipe(), ss, max));
    assert Held(NewPipe()) == [] && [] + Pushed(ss) == Pushed(ss);
  }

  function Writes(ss: seq<Step>): nat {
    if ss == [] then 0 else (if ss[0].Write? then 1 else 0) + Writes(ss[1..])
  }

  /** Once it is told to stop, the writer writes at most one more batch; the rest is never written. */
  lemma {:induction false} StopWritesOnce(p: Pipe, ss: seq<Step>, max: int)
    requires Ready(p.writer) && GoodRun(p, ss, max) && p.stop && |p.inHand| <= 1 && (p.halted ==> p.inHand == [])
    ensures Writes(ss) <= if p.halted then 0 else 1
    decreases |ss|
  {
    if ss == [] {
    } else {
      StopWritesOnce(After(p, ss[0], max), ss[1..], max);
    }
  }

  /** So after `stop` at most one more batch is written, whatever is still pushed and queued. */
  lemma StopEndsWriting(p: Pipe, ss: seq<Step>, max: int)
    requires Sound(p) && GoodRun(After(p, Stop, max), ss, max)
    ensures Writes(ss) <= 1
  {
    StopWritesOnce(After(p, Stop, max), ss, max);
  }
}
