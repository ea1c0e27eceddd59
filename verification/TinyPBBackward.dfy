// Hits of length below one: `moveReadIndex` then moves the read index back, or refuses.
//
// The loop of `decode` need not end behind such a hit.  `DecodeOn` follows it through any given number
// of moves back; every theorem about it holds for every number.

module TinyPBBackward {
  import opened Bytes
  import opened Buffers
  import opened TinyPB
  import opened TinyPBStream
  import opened TinyPBDecode

  /** The buffer after the move by a length below one; no message comes of the hit. */
  function Rewound(b: Buf): (b': Buf)
    requires b.Ok()
    ensures b'.Ok() && |b'.data| == |b.data| && b'.w <= b.w
  {
    match Scan(b.data, b.w, b.r)
    case FoundFrame(_, len) => if len < 1 then MoveRead(b, len) else b
    case _ => b
  }

  /** `decode` through up to `n` moves back; the outcome is Backward when there are more. */
  function DecodeOn(b: Buf, n: nat): (d: Decoding)
    requires b.Ok()
    ensures d.b.Ok() && |d.b.data| == |b.data| && d.b.w <= b.w
    decreases n
  {
    Follow(Decode(b), n)
  }

  /** Going on after a forward run that ended in `d`. */
  function Follow(d: Decoding, n: nat): (d': Decoding)
    requires d.b.Ok()
    ensures d'.b.Ok() && |d'.b.data| == |d.b.data| && d'.b.w <= d.b.w
    decreases n, 0
  {
    if d.outcome != Backward || n == 0 then d else Prepend(d.msgs, DecodeOn(Rewound(d.b), n - 1))
  }

  // ---------------------------------------------------------------- one turn of the loop

  lemma FollowPrepended(rs: seq<Message>, d: Decoding, n: nat)
    requires d.b.Ok()
    ensures Follow(Prepend(rs, d), n) == Prepend(rs, Follow(d, n))
  {
    if d.outcome != Backward || n == 0 {
    } else {
      PrependTwice(rs, d.msgs, DecodeOn(Rewound(d.b), n - 1));
    }
  }

  /** A turn that consumes a frame. */
  lemma OnTakes(b: Buf, n: nat, start: int, len: int)
    requires b.Ok() && Scan(b.data, b.w, b.r) == FoundFrame(start, len) && !Halts(b, len)
    ensures var b' := MoveRead(b, len);
            var p := ParseFrame(b.data, start, len);
            DecodeOn(b, n) == if p == ParseFault then Decoding([], b', Faulted)
                              else if p == Malformed then DecodeOn(b', n)
                              else Prepend([p.msg], DecodeOn(b', n))
  {
    DecodeTakes(b, start, len);
    match ParseFrame(b.data, start, len)
    case Parsed(m) => FollowPrepended([m], Decode(MoveRead(b, len)), n);
    case _ =>
  }

  /** A turn that moves back. */
  lemma OnMovesBack(b: Buf, n: nat, start: int, len: int)
    requires b.Ok() && Scan(b.data, b.w, b.r) == FoundFrame(start, len) && len < 1 && !ReadMoveRefused(b, len)
    ensures DecodeOn(b, n) == if n == 0 then Decoding([], b, Backward) else DecodeOn(MoveRead(b, len), n - 1)
  {
    DecodeHalts(b, start, len);
    if n > 0 {
      PrependNone(DecodeOn(MoveRead(b, len), n - 1));
    }
  }

  /** A turn that ends the loop, or repeats itself for ever. */
  lemma OnStops(b: Buf, n: nat)
    requires b.Ok()
    ensures Scan(b.data, b.w, b.r) == NoFrame ==> DecodeOn(b, n) == Decoding([], b, Done)
    ensures Scan(b.data, b.w, b.r) == ScanFault ==> DecodeOn(b, n) == Decoding([], b, Faulted)
    ensures var f := Scan(b.data, b.w, b.r);
            f.FoundFrame? && ReadMoveRefused(b, f.len) ==> DecodeOn(b, n) == Decoding([], b, Stuck)
  {
    DecodeStops(b);
    var f := Scan(b.data, b.w, b.r);
    if f.FoundFrame? && ReadMoveRefused(b, f.len) {
      DecodeHalts(b, f.start, f.len);
    }
  }

  // ---------------------------------------------------------------- any number of moves back

  /** A run that never moves back is the forward run. */
  lemma OnIsForward(b: Buf, n: nat)
    requires b.Ok() && Decode(b).outcome != Backward
    ensures DecodeOn(b, n) == Decode(b)
  {
  }

  /** Once the loop has ended, following it further changes nothing. */
  lemma {:induction false} OnIsStable(b: Buf, n: nat, m: nat)
    requires b.Ok() && n <= m && DecodeOn(b, n).outcome != Backward
    ensures DecodeOn(b, m) == DecodeOn(b, n)
    decreases n
  {
    var d := Decode(b);
    if d.outcome != Backward {
      OnIsForward(b, n);
      OnIsForward(b, m);
    } else {
      OnIsStable(Rewound(d.b), n - 1, m - 1);
    }
  }

  /**
   * While a byte is free, the move that the decoder asks for is refused if and only if the accepted
   * length is below one and reaches back beyond the start of the array; no move goes astray.
   */
  lemma MoveRefusedIff(b: Buf, start: int, len: int)
    requires Roomed(b) && Scan(b.data, b.w, b.r) == FoundFrame(start, len)
    ensures ReadMoveRefused(b, len) <==> len < 1 && b.r + len < 0
    ensures !ReadMoveAstray(b, len)
  {
  }

  /** Where decoding can end: without a hit, at a hit whose move is refused, or at one that moves back. */
  ghost predicate EndsRightly(d: Decoding)
    requires d.b.Ok()
  {
    var f := Scan(d.b.data, d.b.w, d.b.r);
    && Roomed(d.b)
    && (d.outcome == Done ==> f == NoFrame)
    && (d.outcome == Stuck ==> f.FoundFrame? && f.len < 1 && d.b.r + f.len < 0)
    && (d.outcome == Backward ==> f.FoundFrame? && f.len < 1 && d.b.r + f.len >= 0)
  }

  lemma ForwardEnds(b: Buf)
    requires Roomed(b)
    ensures EndsRightly(Decode(b)) && Roomed(Rewound(Decode(b).b))
  {
    DecodeEnd(b);
  }

  /** Decoding ends Stuck only at such a hit, and Done only where there is no hit at all. */
  lemma {:induction false} OnEnds(b: Buf, n: nat)
    requires Roomed(b)
    ensures EndsRightly(DecodeOn(b, n))
    decreases n
  {
    ForwardEnds(b);
    if n == 0 {
    } else if Decode(b).outcome == Backward {
      OnEnds(Rewound(Decode(b).b), n - 1);
    }
  }

  lemma AllFitOn(ms: seq<Message>, ms': seq<Message>, n: int, n': int, w: int)
    requires AllFit(ms, n) && AllFit(ms', n') && n <= w && n' <= w
    ensures AllFit(ms + ms', w)
  {
  }

  /** No message is larger than the bytes below the write index, however often the index moves back. */
  lemma {:induction false} OnFits(b: Buf, n: nat)
    requires b.Ok()
    ensures AllFit(DecodeOn(b, n).msgs, b.w)
    decreases n
  {
    var d := Decode(b);
    DecodedFits(b);
    AllFitGrows(d.msgs, |b.View()|, b.w);
    if n == 0 {
    } else if d.outcome == Backward {
      OnFits(Rewound(d.b), n - 1);
      AllFitOn(d.msgs, DecodeOn(Rewound(d.b), n - 1).msgs, b.w, Rewound(d.b).w, b.w);
    }
  }

  lemma NamesBoth(ms: seq<Message>, ms': seq<Message>)
    requires AllNamesBounded(ms) && AllNamesBounded(ms')
    ensures AllNamesBounded(ms + ms')
  {
  }

  lemma {:induction false} OnNames(b: Buf, n: nat)
    requires b.Ok()
    ensures AllNamesBounded(DecodeOn(b, n).msgs)
    decreases n
  {
    var d := Decode(b);
    DecodedNames(b);
    if n == 0 {
    } else if d.outcome == Backward {
      OnNames(Rewound(d.b), n - 1);
      NamesBoth(d.msgs, DecodeOn(Rewound(d.b), n - 1).msgs);
    }
  }

  // ---------------------------------------------------------------- what such hits do

  /** A move back makes as many consumed bytes readable again as the length is below zero. */
  lemma RewindsBy(b: Buf, start: int, len: int)
    requires b.Ok() && Scan(b.data, b.w, b.r) == FoundFrame(start, len) && len < 1 && !ReadMoveRefused(b, len)
    ensures Rewound(b).View() == b.data[b.r + len..b.r] + b.View()
  {
    assert b.data[b.r..b.r] + b.View() == b.View();
  }

  /** Seven bytes in a fresh buffer: the length reads -1, the move is refused, and the loop never ends. */
  lemma StuckExample(b: Buf, n: nat)
    requires Roomed(b) && b.r == 0 && b.View() == [3, 0, 2, 255, 255, 255, 255]
    ensures DecodeOn(b, n) == Decoding([], b, Stuck)
  {
    var v := b.View();
    assert forall k | 0 <= k < 7 :: b.data[k] == v[k];
    IntAtIs(b.data, 3);
    assert Probe(b.data, b.w, 2) == Hit(-1);
    assert Probe(b.data, b.w, 0) == Skip && Probe(b.data, b.w, 1) == Skip;
    assert Scan(b.data, b.w, 1) == Scan(b.data, b.w, 2) == FoundFrame(2, -1);
    OnStops(b, n);
  }

  /** Five bytes behind forty consumed ones: the move by -15 is granted, and twenty bytes are readable. */
  lemma RewindExample(b: Buf)
    requires Roomed(b) && |b.data| == 128 && b.r == 40 && b.w == 45 && b.data[24] == PB_END
    requires b.View() == [2, 255, 255, 255, 241]
    ensures Decode(b) == Decoding([], b, Backward) && |Rewound(b).View()| == 20 > |b.View()|
  {
    var v := b.View();
    assert forall k | 0 <= k < 5 :: b.data[40 + k] == v[k];
    IntAtIs(b.data, 41);
    assert Probe(b.data, b.w, 40) == Hit(-15);
    DecodeHalts(b, 40, -15);
    RewindsBy(b, 40, -15);
  }

  /** A start byte and at most three bytes of a short length field, with nothing but zeros behind them. */
  ghost predicate Torn(b: Buf) {
    && Roomed(b) && 2 <= b.w - b.r <= 4 && b.data[b.r] == PB_START
    && (forall k :: b.r < k < |b.data| ==> b.data[k] == 0)
  }

  /** The length field lies inside the array, and so does the byte before the header, which is no end byte. */
  ghost predicate Passable(b: Buf)
    requires b.Ok()
  {
    0 < b.r && b.r + 5 <= |b.data| && b.data[b.r - 1] != PB_END
  }

  lemma TornProbe(b: Buf)
    requires Torn(b)
    ensures Scan(b.data, b.w, b.r) == if b.r == 0 || b.r + 5 > |b.data| then ScanFault
                                      else if Passable(b) then NoFrame else FoundFrame(b.r, 0)
  {
    if b.r + 5 <= |b.data| {
      IntAtIs(b.data, b.r + 1);
    }
    ScanIsFirst(b.data, b.w, b.r + 1);
  }

  lemma TornStays(b: Buf)
    requires Torn(b) && 0 < b.r && b.data[b.r - 1] == PB_END
    ensures var b' := MoveRead(b, 0); Torn(b') && !Passable(b')
  {
    var b' := MoveRead(b, 0);
    assert forall k | 0 <= k < b.w - b.r :: b'.View()[k] == b.View()[k];
    assert b'.data[b'.r] == b'.View()[0] == b.View()[0] == b.data[b.r];
  }

  /** No message comes of a torn header, and decoding returns exactly when it can be passed. */
  ghost predicate EndsTorn(d: Decoding, passable: bool) {
    && d.msgs == [] && (d.outcome == Done <==> passable)
    && (d.outcome == Done || d.outcome == Faulted || d.outcome == Backward)
  }

  /** A turn at a torn header ends the loop, or moves on the spot behind an end byte. */
  lemma TornTurn(b: Buf, n: nat)
    requires Torn(b)
    ensures || EndsTorn(DecodeOn(b, n), Passable(b))
            || (n > 0 && 0 < b.r && b.data[b.r - 1] == PB_END && DecodeOn(b, n) == DecodeOn(MoveRead(b, 0), n - 1))
  {
    TornProbe(b);
    if b.r == 0 || b.r + 5 > |b.data| || Passable(b) {
      OnStops(b, n);
    } else {
      OnMovesBack(b, n, b.r, 0);
    }
  }

  lemma {:induction false} TornOn(b: Buf, n: nat)
    requires Torn(b)
    ensures EndsTorn(DecodeOn(b, n), Passable(b))
    decreases n
  {
    TornTurn(b, n);
    if n > 0 && 0 < b.r && b.data[b.r - 1] == PB_END {
      TornStays(b);
      TornOn(MoveRead(b, 0), n - 1);
    }
  }

  /**
   * A short frame cut inside its length field, arriving in zeroed space: the length reads zero.  No
   * message comes of it, and decoding returns if and only if the length field lies inside the array and
   * behind a byte that is no end byte.  Otherwise it leaves the array, or moves by zero bytes for ever.
   */
  lemma TornHeaderReturnsIff(b: Buf, m: Message, cut: int, n: nat)
    requires Roomed(b) && Sizable(m) && m.errInfo == [] && Seal(m).pkLen < 256
    requires 2 <= cut <= 4 && b.View() == Frame(m)[..cut]
    requires forall k :: b.w <= k < |b.data| ==> b.data[k] == 0
    ensures var d := DecodeOn(b, n);
            && d.msgs == [] && (d.outcome == Done <==> Passable(b))
            && (d.outcome == Done || d.outcome == Faulted || d.outcome == Backward)
  {
    ShortHeader(m);
    TornBytes(b, Frame(m), cut);
    TornOn(b, n);
  }

  /** Behind the start byte there are only zeros, of the length field and of the array. */
  lemma TornBytes(b: Buf, f: seq<byte>, cut: int)
    requires b.Ok() && 2 <= cut <= 4 <= |f| && b.View() == f[..cut]
    requires f[0] == PB_START && f[1] == f[2] == f[3] == 0
    requires forall k :: b.w <= k < |b.data| ==> b.data[k] == 0
    ensures b.data[b.r] == PB_START && forall k :: b.r < k < |b.data| ==> b.data[k] == 0
  {
    assert forall k :: b.r <= k < b.w ==> b.data[k] == b.View()[k - b.r] == f[k - b.r];
  }

  /** The readable bytes begin at the start of the array or behind an end byte, and zeros are behind them. */
  ghost predicate Aligned(b: Buf) {
    && Roomed(b) && (b.r == 0 || b.data[b.r - 1] == PB_END)
    && forall k :: b.w <= k < |b.data| ==> b.data[k] == 0
  }

  lemma FrameAligned(b: Buf, m: Message, rest: seq<byte>)
    requires Aligned(b) && Sizable(m) && m.errInfo == [] && b.View() == Frame(m) + rest
    ensures Aligned(MoveRead(b, Seal(m).pkLen))
  {
    FrameStands(b, m, rest);
    FrameOffsets(b.data, b.r, Seal(m));
  }

  lemma {:induction false} FramesAligned(b: Buf, ms: seq<Message>, t: seq<byte>)
    requires Aligned(b) && AllDeliverable(ms) && AllSizable(ms) && b.View() == EncodeAll(ms) + t
    ensures Aligned(Taken(b, ms))
    decreases |ms|
  {
    if ms == [] {
    } else {
      AllDeliverableTail(ms);
      EncodeAllHead(ms, t);
      FrameDecodes(b, ms[0], EncodeAll(ms[1..]) + t);
      FrameAligned(b, ms[0], EncodeAll(ms[1..]) + t);
      FramesAligned(MoveRead(b, Seal(ms[0]).pkLen), ms[1..], t);
    }
  }

  /** What decoding leads to is where it goes on with moves back followed, too. */
  lemma LeadsFollowed(b: Buf, rs: seq<Message>, b': Buf, n: nat)
    requires b.Ok() && b'.Ok() && Leads(b, rs, b')
    ensures DecodeOn(b, n) == Prepend(rs, DecodeOn(b', n))
  {
    FollowPrepended(rs, Decode(b'), n);
  }

  /**
   * Behind whole frames, which is where a torn header stands in a stream, decoding never returns: it yields
   * the messages of the frames, and then leaves the array or moves by zero bytes however often it may.
   */
  lemma TornStreamNeverReturns(b: Buf, ms: seq<Message>, m: Message, cut: int, n: nat)
    requires Aligned(b) && AllDeliverable(ms) && AllSizable(ms)
    requires Sizable(m) && m.errInfo == [] && Seal(m).pkLen < 256
    requires 2 <= cut <= 4 && b.View() == EncodeAll(ms) + Frame(m)[..cut]
    ensures var d := DecodeOn(b, n);
            d.msgs == ReceivedAll(ms) && (d.outcome == Faulted || d.outcome == Backward)
  {
    var t := Frame(m)[..cut];
    FramesDecode(b, ms, t);
    FramesAligned(b, ms, t);
    LeadsFollowed(b, ReceivedAll(ms), Taken(b, ms), n);
    TornHeaderReturnsIff(Taken(b, ms), m, cut, n);
  }
}
