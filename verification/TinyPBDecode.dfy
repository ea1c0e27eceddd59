// Streams of frames: what `decode` returns and leaves readable, and exactly when that is right.

module TinyPBDecode {
  import opened Bytes
  import opened Buffers
  import opened TinyPB
  import opened TinyPBStream

  /** The message as the decoder rebuilds it: both names end at their first NUL. */
  function Received(m: Message): (r: Message)
    requires Sizable(m)
  {
    Truncated(Seal(m))
  }

  /** The encoder stays inside its allocation and the decoder inside its C arrays. */
  ghost predicate Deliverable(m: Message) {
    Sizable(m) && m.errInfo == [] && NamesSafe(Seal(m))
  }

  function ReceivedAll(ms: seq<Message>): (rs: seq<Message>)
    requires AllSizable(ms)
    ensures |rs| == |ms| && forall k | 0 <= k < |ms| :: rs[k] == Received(ms[k])
  {
    if ms == [] then [] else [Received(ms[0])] + ReceivedAll(ms[1..])
  }

  lemma ReceivedConcat(a: seq<Message>, b: seq<Message>)
    requires AllSizable(a) && AllSizable(b) && AllSizable(a + b)
    ensures ReceivedAll(a + b) == ReceivedAll(a) + ReceivedAll(b)
  {
    forall k | 0 <= k < |a| + |b|
      ensures ReceivedAll(a + b)[k] == (ReceivedAll(a) + ReceivedAll(b))[k]
    {
      assert (a + b)[k] == if k < |a| then a[k] else b[k - |a|];
    }
  }

  /** The array has room left and its indices are C `int`s. */
  ghost predicate Roomed(b: Buf) {
    b.Ok() && b.w < |b.data| <= INT_MAX
  }

  lemma FrameStands(b: Buf, m: Message, rest: seq<byte>)
    requires b.Ok() && Sizable(m) && m.errInfo == [] && b.View() == Frame(m) + rest
    ensures At(b.data, b.r, Layout(Seal(m))) && b.r + Seal(m).pkLen <= b.w
  {
    var f := Frame(m);
    assert f == Layout(Seal(m));
    SliceOfSlice(b.data, b.r, b.w, |f|);
    assert b.View()[..|f|] == f;
  }

  // ---------------------------------------------------------------- one turn of the loop

  lemma DecodeStops(b: Buf)
    requires b.Ok()
    ensures Scan(b.data, b.w, b.r) == NoFrame ==> Decode(b) == Decoding([], b, Done)
    ensures Scan(b.data, b.w, b.r) == ScanFault ==> Decode(b) == Decoding([], b, Faulted)
  {
    assert Decode(b) == TakeFound(b, Scan(b.data, b.w, b.r));
  }

  lemma DecodeHalts(b: Buf, start: int, len: int)
    requires b.Ok() && Scan(b.data, b.w, b.r) == FoundFrame(start, len) && Halts(b, len)
    ensures Decode(b) == Decoding([], b, if ReadMoveRefused(b, len) then Stuck else Backward)
  {
    assert Decode(b) == TakeFound(b, Scan(b.data, b.w, b.r));
  }

  lemma DecodeTakes(b: Buf, start: int, len: int)
    requires b.Ok() && Scan(b.data, b.w, b.r) == FoundFrame(start, len) && !Halts(b, len)
    ensures Decode(b) == Push(MoveRead(b, len), ParseFrame(b.data, start, len))
  {
    assert Decode(b) == TakeFound(b, Scan(b.data, b.w, b.r));
  }

  lemma PrependTwice(rs: seq<Message>, rs': seq<Message>, d: Decoding)
    ensures Prepend(rs, Prepend(rs', d)) == Prepend(rs + rs', d)
  {
    assert rs + (rs' + d.msgs) == (rs + rs') + d.msgs;
  }

  lemma PrependNone(d: Decoding)
    ensures Prepend([], d) == d
  {
  }

  /** Decoding from `b` yields `rs` and then whatever decoding from `b'` yields. */
  ghost predicate Leads(b: Buf, rs: seq<Message>, b': Buf)
    requires b.Ok() && b'.Ok()
  {
    Decode(b) == Prepend(rs, Decode(b'))
  }

  lemma LeadsOn(b: Buf, rs: seq<Message>, b': Buf, rs': seq<Message>, b'': Buf)
    requires b.Ok() && b'.Ok() && b''.Ok() && Leads(b, rs, b') && Leads(b', rs', b'')
    ensures Leads(b, rs + rs', b'')
  {
    PrependTwice(rs, rs', Decode(b''));
  }

  /** A frame at the read index is the first hit; its length is what the read index moves by. */
  lemma FrameDecodes(b: Buf, m: Message, rest: seq<byte>)
    requires Roomed(b) && Sizable(m) && m.errInfo == [] && b.View() == Frame(m) + rest
    ensures var b' := MoveRead(b, Seal(m).pkLen);
            Roomed(b') && |b'.data| == |b.data| && b'.View() == rest
            && (Deliverable(m) ==> Leads(b, [Received(m)], b'))
            && (!Deliverable(m) ==> Decode(b) == Decoding([], b', Faulted))
  {
    var s := Seal(m);
    FrameStands(b, m, rest);
    FrameIsHit(b.data, b.w, b.r, s);
    FrameOffsets(b.data, b.r, s);
    FrameParses(b.data, b.r, s);
    DecodeTakes(b, b.r, s.pkLen);
    assert b.View()[s.pkLen..] == rest;
  }

  // ---------------------------------------------------------------- what decode does to any buffer

  /** Every message costs 26 readable bytes or more. */
  lemma {:induction false} DecodeCost(b: Buf)
    requires b.Ok()
    ensures |Decode(b).b.View()| + 26 * |Decode(b).msgs| <= |b.View()|
    decreases b.w - b.r
  {
    match Scan(b.data, b.w, b.r)
    case FoundFrame(start, len) =>
      if Halts(b, len) {
        DecodeHalts(b, start, len);
      } else {
        DecodeTakes(b, start, len);
        DecodeCost(MoveRead(b, len));
      }
    case _ => DecodeStops(b);
  }

  ghost predicate Suffix(t: seq<byte>, s: seq<byte>) {
    |t| <= |s| && s[|s| - |t|..] == t
  }

  lemma DroppedSuffix(t: seq<byte>, s: seq<byte>, n: int)
    requires 0 <= n <= |s| && Suffix(t, s[n..])
    ensures Suffix(t, s)
  {
    assert s[n..][|s| - n - |t|..] == s[|s| - |t|..];
  }

  /** The decoder consumes a prefix of the readable bytes and never changes the rest. */
  lemma {:induction false} DecodeConsumes(b: Buf)
    requires b.Ok()
    ensures Suffix(Decode(b).b.View(), b.View())
    decreases b.w - b.r
  {
    match Scan(b.data, b.w, b.r)
    case FoundFrame(start, len) =>
      if Halts(b, len) {
        DecodeHalts(b, start, len);
      } else {
        DecodeTakes(b, start, len);
        var b' := MoveRead(b, len);
        DecodeConsumes(b');
        DroppedSuffix(Decode(b').b.View(), b.View(), len);
        DroppedSuffix(b'.View(), b.View(), len);
      }
    case _ => DecodeStops(b);
  }

  /** Each frame accepted with a positive length takes exactly that length off the readable bytes, parsed or not. */
  lemma AcceptedFrameAdvances(b: Buf, start: int, len: int)
    requires Roomed(b) && Scan(b.data, b.w, b.r) == FoundFrame(start, len) && 1 <= len
    ensures |MoveRead(b, len).View()| == |b.View()| - len && 6 <= len
    ensures |Decode(b).b.View()| <= |b.View()| - len
  {
    DecodeTakes(b, start, len);
    DecodeCost(MoveRead(b, len));
  }

  /** The scan finds the first index at which a turn of the inner loop does not skip, if there is one. */
  lemma {:induction false} ScanIsFirst(data: seq<byte>, w: int, i: int)
    requires 0 <= i <= w <= |data|
    ensures var f := Scan(data, w, i);
            && (f == NoFrame <==> forall k | i <= k < w :: Probe(data, w, k) == Skip)
            && (f.FoundFrame? ==> i <= f.start < w && Probe(data, w, f.start) == Hit(f.len)
                                  && forall k | i <= k < f.start :: Probe(data, w, k) == Skip)
            && (f == ScanFault ==> exists j | i <= j < w ::
                  Probe(data, w, j) == Fault && forall k | i <= k < j :: Probe(data, w, k) == Skip)
    decreases w - i
  {
    if i == w {
    } else {
      ScanIsFirst(data, w, i + 1);
    }
  }

  /** Where decoding ends: no start byte left to accept, a hit that cannot be consumed, or a fault. */
  lemma {:induction false} DecodeEnd(b: Buf)
    requires b.Ok()
    ensures var d := Decode(b);
            var f := Scan(d.b.data, d.b.w, d.b.r);
            && (d.outcome == Done ==> f == NoFrame)
            && (d.outcome == Stuck ==> f.FoundFrame? && ReadMoveRefused(d.b, f.len))
            && (d.outcome == Backward ==> f.FoundFrame? && !ReadMoveRefused(d.b, f.len) && f.len < 1)
    decreases b.w - b.r
  {
    match Scan(b.data, b.w, b.r)
    case FoundFrame(start, len) =>
      if Halts(b, len) {
        DecodeHalts(b, start, len);
      } else {
        DecodeTakes(b, start, len);
        DecodeEnd(MoveRead(b, len));
      }
    case _ => DecodeStops(b);
  }

  /** Nothing readable is accepted, and looking for it stays inside the array. */
  ghost predicate Rests(b: Buf)
    requires b.Ok()
  {
    forall k | b.r <= k < b.w :: Probe(b.data, b.w, k) == Skip
  }

  /** What is readable is left alone exactly when every probe skips; otherwise bytes or the way back are lost. */
  lemma RestsIff(b: Buf)
    requires Roomed(b)
    ensures Rests(b) <==> Decode(b) == Decoding([], b, Done)
    ensures Rests(b) <==> Decode(b).outcome == Done && |Decode(b).b.View()| == |b.View()|
  {
    ScanIsFirst(b.data, b.w, b.r);
    DecodeStops(b);
    var f := Scan(b.data, b.w, b.r);
    if f.FoundFrame? {
      if Halts(b, f.len) {
        DecodeHalts(b, f.start, f.len);
      } else {
        AcceptedFrameAdvances(b, f.start, f.len);
      }
    }
  }

  ghost predicate AllFit(ms: seq<Message>, n: int) {
    forall m | m in ms :: ContentSize(m) + 26 <= n
  }

  lemma FitMore(m: Message, ms: seq<Message>, n: int, n': int)
    requires AllFit(ms, n) && n <= n' && ContentSize(m) + 26 <= n'
    ensures AllFit(ms, n') && AllFit([m] + ms, n')
  {
  }

  /** No decoded message carries more than the readable bytes minus the fixed overhead. */
  lemma {:induction false} DecodedFits(b: Buf)
    requires b.Ok()
    ensures AllFit(Decode(b).msgs, |b.View()|)
    decreases b.w - b.r
  {
    match Scan(b.data, b.w, b.r)
    case FoundFrame(start, len) =>
      if Halts(b, len) {
        DecodeHalts(b, start, len);
      } else {
        DecodeTakes(b, start, len);
        var b' := MoveRead(b, len);
        DecodedFits(b');
        match ParseFrame(b.data, start, len) {
          case Parsed(m) => FitMore(m, Decode(b').msgs, |b'.View()|, |b.View()|);
          case _ => AllFitGrows(Decode(b').msgs, |b'.View()|, |b.View()|);
        }
      }
    case _ => DecodeStops(b);
  }

  lemma AllFitGrows(ms: seq<Message>, n: int, n': int)
    requires AllFit(ms, n) && n <= n'
    ensures AllFit(ms, n')
  {
  }

  /** The C arrays the names are copied through bound what any frame can carry in them. */
  ghost predicate NamesBounded(m: Message) {
    |m.msgId| <= 100 && |m.methodName| <= 512 && |m.errInfo| <= 512
  }

  ghost predicate ParseBounded(p: Parse) {
    p.Parsed? ==> NamesBounded(p.msg)
  }

  lemma {:induction false} ParsedNames(data: seq<byte>, at: int, end: int, len: int32, got: seq<Field>)
    requires FieldsRead(data, at, got) && end < |data|
    requires forall k :: 0 <= k < |got| ==> got[k].len <= if k == 0 then 100 else 512
    ensures ParseBounded(ParseFields(data, at, end, len, got))
    decreases 3 - |got|
  {
    var skip := if |got| == 2 then 4 else 0;
    if |got| == 3 {
    } else if at < end && at + skip <= |data| {
      var f := StringField(data, at + skip, end, if |got| == 0 then 100 else 512);
      if f.Field? {
        ParsedNames(data, f.next, end, len, got + [f]);
      }
    }
  }

  lemma FrameNames(data: seq<byte>, start: int, len: int32)
    requires 0 <= start && 6 <= len && start + len <= |data|
    ensures ParseBounded(ParseFrame(data, start, len))
  {
    ParsedNames(data, start + 5, start + len - 1, len, []);
  }

  lemma PushedNames(b: Buf, p: Parse)
    requires b.Ok() && ParseBounded(p) && AllNamesBounded(Decode(b).msgs)
    ensures AllNamesBounded(Push(b, p).msgs)
  {
  }

  ghost predicate AllNamesBounded(ms: seq<Message>) {
    forall m | m in ms :: NamesBounded(m)
  }

  lemma {:induction false} DecodedNames(b: Buf)
    requires b.Ok()
    ensures AllNamesBounded(Decode(b).msgs)
    decreases b.w - b.r
  {
    match Scan(b.data, b.w, b.r)
    case FoundFrame(start, len) =>
      if Halts(b, len) {
        DecodeHalts(b, start, len);
      } else {
        DecodeTakes(b, start, len);
        var b' := MoveRead(b, len);
        DecodedNames(b');
        FrameNames(b.data, start, len);
        PushedNames(b', ParseFrame(b.data, start, len));
      }
    case _ => DecodeStops(b);
  }

  // ---------------------------------------------------------------- tails

  /**
   * What the decoder makes of `t` depends on `t` alone: every start byte that has a successor has
   * its whole length field in `t`, the length leaves index sums inside `int` for an array of `cap`
   * bytes, and one below 1 points back at a byte of `t` that is no end byte.
   */
  ghost predicate Settled(t: seq<byte>, cap: int) {
    forall k | 0 <= k < |t| - 1 && t[k] == PB_START :: SettledAt(t, k, cap)
  }

  ghost predicate SettledAt(t: seq<byte>, k: int, cap: int) {
    && 0 <= k && k + 5 <= |t|
    && var len := IntAt(t, k + 1);
       len <= INT_MAX - cap && (1 <= len || (0 <= k + len - 1 && t[k + len - 1] != PB_END))
  }

  /** A whole frame, by its start byte, length and end byte, begins at index `k`. */
  ghost predicate Accepts(t: seq<byte>, k: int) {
    && 0 <= k && k + 5 <= |t| && t[k] == PB_START
    && var len := IntAt(t, k + 1);
    1 <= len && k + len <= |t| && t[k + len - 1] == PB_END
  }

  /** No whole frame begins at index `k` or later. */
  ghost predicate QuietFrom(t: seq<byte>, k: int) {
    forall j :: k <= j < |t| ==> !Accepts(t, j)
  }

  ghost predicate Quiet(t: seq<byte>) {
    QuietFrom(t, 0)
  }

  lemma ViewAt(b: Buf, k: int)
    requires b.Ok()
    ensures 0 <= k < b.w - b.r ==> b.View()[k] == b.data[b.r + k]
  {
  }

  lemma ProbeView(b: Buf, k: int)
    requires Roomed(b) && Settled(b.View(), |b.data|) && 0 <= k < b.w - b.r
    ensures Probe(b.data, b.w, b.r + k)
         == if Accepts(b.View(), k) then Hit(IntAt(b.View(), k + 1)) else Skip
  {
    var t := b.View();
    var i := b.r + k;
    ViewAt(b, k);
    if t[k] == PB_START && k < |t| - 1 {
      assert SettledAt(t, k, |b.data|);
      assert t[k + 1..k + 5] == b.data[i + 1..i + 5];
      SameInt(t, k + 1, b.data, i + 1);
      ViewAt(b, k + IntAt(t, k + 1) - 1);
    }
  }

  lemma QuietStep(t: seq<byte>, k: int)
    requires 0 <= k < |t|
    ensures QuietFrom(t, k) <==> !Accepts(t, k) && QuietFrom(t, k + 1)
  {
  }

  lemma {:induction false} ScanView(b: Buf, k: int)
    requires Roomed(b) && Settled(b.View(), |b.data|) && 0 <= k <= b.w - b.r
    ensures QuietFrom(b.View(), k) ==> Scan(b.data, b.w, b.r + k) == NoFrame
    ensures !QuietFrom(b.View(), k) ==>
              Scan(b.data, b.w, b.r + k).FoundFrame? && 1 <= Scan(b.data, b.w, b.r + k).len
    decreases b.w - b.r - k
  {
    if k == b.w - b.r {
    } else {
      ProbeView(b, k);
      QuietStep(b.View(), k);
      if !Accepts(b.View(), k) {
        ScanView(b, k + 1);
      }
    }
  }

  /** A settled tail is left alone exactly when it is quiet, and then wherever it stands in whatever array. */
  lemma TailDecodes(b: Buf)
    requires Roomed(b) && Settled(b.View(), |b.data|)
    ensures Rests(b) <==> Quiet(b.View())
    ensures Quiet(b.View()) ==> Decode(b) == Decoding([], b, Done)
    ensures !Quiet(b.View()) ==> |Decode(b).b.View()| < |b.View()|
  {
    ScanView(b, 0);
    DecodeStops(b);
    ScanIsFirst(b.data, b.w, b.r);
    if !Quiet(b.View()) {
      var f := Scan(b.data, b.w, b.r);
      AcceptedFrameAdvances(b, f.start, f.len);
    }
  }

  // ---------------------------------------------------------------- whole streams

  ghost predicate AllDeliverable(ms: seq<Message>) {
    forall m | m in ms :: Deliverable(m)
  }

  lemma AllDeliverableTail(ms: seq<Message>)
    requires ms != [] && AllDeliverable(ms)
    ensures Deliverable(ms[0]) && AllDeliverable(ms[1..]) && AllSizable(ms) && AllSizable(ms[1..])
  {
    assert ms[0] in ms && forall m | m in ms[1..] :: m in ms;
  }

  lemma EncodeAllHead(ms: seq<Message>, t: seq<byte>)
    requires ms != [] && AllSizable(ms) && AllSizable(ms[1..]) && Sizable(ms[0])
    ensures EncodeAll(ms) + t == Frame(ms[0]) + (EncodeAll(ms[1..]) + t)
  {
  }

  /** The buffer once the frames of `ms` are off its front. */
  function Taken(b: Buf, ms: seq<Message>): (b': Buf)
    requires b.Ok() && AllSizable(ms)
    ensures b'.Ok() && |b'.data| == |b.data|
    decreases |ms|
  {
    if ms == [] then b
    else
      assert ms[0] in ms && forall m | m in ms[1..] :: m in ms;
      Taken(MoveRead(b, Seal(ms[0]).pkLen), ms[1..])
  }

  /** The frames come off the front one by one; decoding goes on with what follows them. */
  lemma {:induction false} FramesDecode(b: Buf, ms: seq<Message>, t: seq<byte>)
    requires Roomed(b) && AllDeliverable(ms) && AllSizable(ms) && b.View() == EncodeAll(ms) + t
    ensures Roomed(Taken(b, ms)) && Taken(b, ms).View() == t
    ensures Leads(b, ReceivedAll(ms), Taken(b, ms))
    decreases |ms|
  {
    if ms == [] {
      assert b.View() == t;
      PrependNone(Decode(b));
    } else {
      AllDeliverableTail(ms);
      EncodeAllHead(ms, t);
      FrameDecodes(b, ms[0], EncodeAll(ms[1..]) + t);
      var next := MoveRead(b, Seal(ms[0]).pkLen);
      FramesDecode(next, ms[1..], t);
      LeadsOn(b, [Received(ms[0])], next, ReceivedAll(ms[1..]), Taken(b, ms));
    }
  }

  /** The state and messages a caller hopes for after a stream of `ms` and an incomplete tail `t`. */
  ghost predicate Delivers(d: Decoding, ms: seq<Message>, t: seq<byte>)
    requires AllSizable(ms) && d.b.Ok()
  {
    d.outcome == Done && d.msgs == ReceivedAll(ms) && d.b.View() == t
  }

  /**
   * Stream round trip.  Any number of frames back to back, then any tail: decoding returns exactly
   * their messages, in order, and leaves exactly the tail, if and only if every probe of the scan over
   * the tail skips, wherever the frames have left it in the array.
   */
  lemma StreamRoundTrip(b: Buf, ms: seq<Message>, t: seq<byte>)
    requires Roomed(b) && AllDeliverable(ms) && AllSizable(ms) && b.View() == EncodeAll(ms) + t
    ensures Delivers(Decode(b), ms, t) <==> Rests(Taken(b, ms))
    ensures ReceivedAll(ms) <= Decode(b).msgs
  {
    FramesDecode(b, ms, t);
    RestsIff(Taken(b, ms));
  }

  /** For a settled tail, whatever the array holds: if and only if nothing inside it looks like a whole frame. */
  lemma SettledRoundTrip(b: Buf, ms: seq<Message>, t: seq<byte>)
    requires Roomed(b) && AllDeliverable(ms) && AllSizable(ms)
    requires b.View() == EncodeAll(ms) + t && Settled(t, |b.data|)
    ensures Delivers(Decode(b), ms, t) <==> Quiet(t)
  {
    StreamRoundTrip(b, ms, t);
    FramesDecode(b, ms, t);
    TailDecodes(Taken(b, ms));
  }

  /** A message whose names do not fit stops the stream at its frame. */
  lemma UndeliverableFaults(b: Buf, ms: seq<Message>, m: Message, t: seq<byte>)
    requires Roomed(b) && AllDeliverable(ms) && AllSizable(ms) && Sizable(m) && m.errInfo == [] && !Deliverable(m)
    requires b.View() == EncodeAll(ms) + (Frame(m) + t)
    ensures Decode(b).outcome == Faulted && Decode(b).msgs == ReceivedAll(ms)
  {
    FramesDecode(b, ms, Frame(m) + t);
    FrameDecodes(Taken(b, ms), m, t);
  }

  // ---------------------------------------------------------------- one message, exactly

  /** A buffer that holds just this frame and has one free byte. */
  function Holding(f: seq<byte>): (b: Buf)
    ensures b.Ok() && b.View() == f
  {
    Buf(f + [0], 0, |f|)
  }

  /** What the ids and the error text must look like, for a caller to check before sending. */
  ghost predicate WireSafe(m: Message) {
    && m.errInfo == []
    && 0 !in m.msgId && |m.msgId| < 100
    && 0 !in m.methodName && |m.methodName| < 512
  }

  lemma WireSafeIsExact(m: Message)
    requires Sizable(m)
    ensures WireSafe(m) <==> Deliverable(m) && Received(m) == Seal(m)
  {
    var s := Seal(m);
    CStringIs(s.msgId);
    CStringIs(s.methodName);
    assert 0 !in DEFAULT_ID;
  }

  lemma PlainRoundTrip(m: Message)
    requires Sizable(m) && Seal(m).pkLen < INT_MAX && m.errInfo == []
    ensures Deliverable(m) ==> Delivers(Decode(Holding(Frame(m))), [m], [])
    ensures !Deliverable(m) ==> Decode(Holding(Frame(m))).msgs == []
  {
    var b := Holding(Frame(m));
    var b' := MoveRead(b, Seal(m).pkLen);
    assert b.View() == Frame(m) + [];
    FrameDecodes(b, m, []);
    TailDecodes(b');
  }

  lemma OverflownLosesBytes(m: Message)
    requires Sizable(m) && Seal(m).pkLen < INT_MAX && m.errInfo != []
    ensures Decode(Holding(Frame(m))).msgs != [Seal(m)]
  {
    var b := Holding(Frame(m));
    DecodedFits(b);
    assert Seal(m) in [Seal(m)];
  }

  /**
   * Frame round trip: a message comes out as the sealed object that went in if and only if it
   * carries no error text and both names are NUL-free and shorter than the decoder's C arrays.
   */
  lemma FrameRoundTrip(m: Message)
    requires Sizable(m) && Seal(m).pkLen < INT_MAX
    ensures Decode(Holding(Frame(m))).msgs == [Seal(m)] <==> WireSafe(m)
    ensures WireSafe(m) ==> Delivers(Decode(Holding(Frame(m))), [m], [])
  {
    WireSafeIsExact(m);
    if m.errInfo == [] {
      PlainRoundTrip(m);
      assert ReceivedAll([m]) == [Received(m)];
    } else {
      OverflownLosesBytes(m);
    }
  }

  /** What is received of a message that can be sent: all it carries. */
  lemma ReceivedContent(m: Message)
    requires Sizable(m) && WireSafe(m)
    ensures Deliverable(m) && SameContent(m, Received(m))
  {
    WireSafeIsExact(m);
    SealKeeps(m);
  }

  /** So a message that can be sent comes out as one message that carries, field by field, what it carried. */
  lemma ContentRoundTrip(m: Message)
    requires Sizable(m) && Seal(m).pkLen < INT_MAX && WireSafe(m)
    ensures var d := Decode(Holding(Frame(m)));
            d.outcome == Done && d.b.View() == [] && |d.msgs| == 1 && SameContent(m, d.msgs[0])
  {
    FrameRoundTrip(m);
    SealKeeps(m);
  }

  ghost predicate AllSafe(ms: seq<Message>) {
    forall k :: 0 <= k < |ms| ==> Sizable(ms[k]) && WireSafe(ms[k])
  }

  lemma SafeDeliverable(ms: seq<Message>)
    requires AllSafe(ms)
    ensures AllDeliverable(ms) && AllSizable(ms)
  {
    forall m | m in ms
      ensures Deliverable(m)
    {
      ReceivedContent(m);
    }
  }

  /** Any number of them, back to back: as many messages come out, each with the content of its own. */
  lemma ContentsRoundTrip(b: Buf, ms: seq<Message>)
    requires Roomed(b) && AllSafe(ms) && AllSizable(ms) && b.View() == EncodeAll(ms)
    ensures var d := Decode(b);
            && d.outcome == Done && d.b.View() == [] && |d.msgs| == |ms|
            && forall k | 0 <= k < |ms| :: SameContent(ms[k], d.msgs[k])
  {
    SafeDeliverable(ms);
    assert EncodeAll(ms) + [] == EncodeAll(ms);
    SettledRoundTrip(b, ms, []);
    forall k | 0 <= k < |ms|
      ensures SameContent(ms[k], ReceivedAll(ms)[k])
    {
      ReceivedContent(ms[k]);
    }
  }

  // ---------------------------------------------------------------- where the domain ends

  /** The length field of a frame shorter than 256 bytes starts with three zeros. */
  lemma ShortHeader(m: Message)
    requires Sizable(m) && m.errInfo == [] && Seal(m).pkLen < 256
    ensures Frame(m)[0] == PB_START && Frame(m)[1] == Frame(m)[2] == Frame(m)[3] == 0
  {
    var img := Frame(m);
    assert img == Layout(Seal(m)) && At(img, 0, Layout(Seal(m)));
    FrameOffsets(img, 0, Seal(m));
    IntAtIs(img, 1);
  }

  /** An accepted frame that ends exactly at the end of the array cannot be consumed. */
  lemma FullArraySticks(b: Buf, m: Message)
    requires b.Ok() && b.w == |b.data| <= INT_MAX && Sizable(m) && m.errInfo == []
    requires b.View() == Frame(m)
    ensures Decode(b) == Decoding([], b, Stuck)
  {
    assert b.View() == Frame(m) + [];
    FrameStands(b, m, []);
    FrameIsHit(b.data, b.w, b.r, Seal(m));
    DecodeHalts(b, b.r, Seal(m).pkLen);
  }
}
