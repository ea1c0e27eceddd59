// The TinyPB wire format of hl/net/coder/tinypb_coder.cc: what the encoder lays out, and what the
// scanning decoder makes of ANY buffer content, with the undefined and non-terminating runs of the
// C++ code as explicit outcomes instead of preconditions.

module TinyPB {
  import opened Bytes
  import opened Buffers

  const PB_START: byte := 2
  const PB_END: byte := 3

  /** The value of a TinyPBProtocol object (hl/net/coder/tinypb_protocol.h). */
  datatype Message = Message(
    msgId: seq<byte>,
    methodName: seq<byte>,
    errCode: int32,
    errInfo: seq<byte>,
    pbData: seq<byte>,
    pkLen: int,
    msgIdLen: int,
    methodNameLen: int,
    errInfoLen: int,
    parseSuccess: bool
  )

  // ---------------------------------------------------------------- encoder

  /** "123456789", the id an empty one is replaced by. */
  const DEFAULT_ID: seq<byte> := [49, 50, 51, 52, 53, 54, 55, 56, 57]

  function WithId(m: Message): Message {
    if m.msgId == [] then m.(msgId := DEFAULT_ID) else m
  }

  /** `pk_len` as the encoder computes it: the length of `errInfo` is not part of the sum. */
  function PkLen(m: Message): int {
    2 + 24 + |m.msgId| + |m.methodName| + |m.pbData|
  }

  /** All lengths fit the encoder's `int`s. */
  predicate Sizable(m: Message) {
    PkLen(WithId(m)) <= INT_MAX && |m.errInfo| <= INT_MAX
  }

  /** The length fields say what the strings hold. */
  ghost predicate Sealed(s: Message) {
    && s.msgId != [] && s.parseSuccess
    && s.pkLen == PkLen(s) <= INT_MAX
    && s.msgIdLen == |s.msgId|
    && s.methodNameLen == |s.methodName|
    && s.errInfoLen == |s.errInfo| <= INT_MAX
  }

  /** The object as the encoder leaves it: default id filled in, length fields set. */
  function Seal(m: Message): (s: Message)
    requires Sizable(m)
    ensures Sealed(s) && s.errInfo == m.errInfo
  {
    var w := WithId(m);
    w.(pkLen := PkLen(w), msgIdLen := |w.msgId|, methodNameLen := |w.methodName|,
       errInfoLen := |w.errInfo|, parseSuccess := true)
  }

  /** `r` carries what `m` carries, under the id of `m` or, when that is empty, under "123456789". */
  predicate SameContent(m: Message, r: Message) {
    && r.errCode == m.errCode && r.methodName == m.methodName && r.pbData == m.pbData && r.errInfo == m.errInfo
    && r.msgId == if m.msgId == [] then [49, 50, 51, 52, 53, 54, 55, 56, 57] else m.msgId
  }

  /** Encoding changes nothing of what a message carries, and its length fields say how long it is. */
  lemma SealKeeps(m: Message)
    requires Sizable(m)
    ensures var s := Seal(m);
            && SameContent(m, s) && s.parseSuccess
            && s.pkLen == 26 + |s.msgId| + |m.methodName| + |m.pbData|
            && s.msgIdLen == |s.msgId| && s.methodNameLen == |m.methodName| && s.errInfoLen == |m.errInfo|
  {
  }

  /** A length-prefixed string, then `rest`. */
  function Prefixed(n: seq<byte>, text: seq<byte>, rest: seq<byte>): seq<byte> {
    n + (text + rest)
  }

  /** The encoder's cursor walk: each argument is copied behind the one before it. */
  function Walk(pk: seq<byte>, idLen: seq<byte>, id: seq<byte>, nameLen: seq<byte>, name: seq<byte>,
                err: seq<byte>, infoLen: seq<byte>, info: seq<byte>, pb: seq<byte>, check: seq<byte>): seq<byte>
  {
    [PB_START] + (pk + Prefixed(idLen, id, Prefixed(nameLen, name,
      err + Prefixed(infoLen, info, pb + (check + [PB_END])))))
  }

  /** The walk over a sealed object, with `net` for the layout of integers. */
  function LayoutWith(net: int32 -> seq<byte>, s: Message): seq<byte>
    requires Sealed(s)
  {
    Walk(net(s.pkLen), net(s.msgIdLen), s.msgId, net(s.methodNameLen), s.methodName,
         net(s.errCode), net(s.errInfoLen), s.errInfo, s.pbData, net(1))
  }

  /** Everything the encoder writes for a sealed object, in the order it writes it. */
  function Layout(s: Message): (img: seq<byte>)
    requires Sealed(s)
    ensures |img| == s.pkLen + s.errInfoLen
  {
    LayoutWith(ToNet, s)
  }

  function Image(m: Message): (img: seq<byte>)
    requires Sizable(m)
    ensures |img| == Seal(m).pkLen + |m.errInfo|
  {
    Layout(Seal(m))
  }

  /** What reaches the out-buffer: `pk_len` bytes, whatever was written beyond them. */
  function Frame(m: Message): (f: seq<byte>)
    requires Sizable(m)
    ensures |f| == Seal(m).pkLen >= 26
  {
    Image(m)[..Seal(m).pkLen]
  }

  ghost predicate AllSizable(ms: seq<Message>) {
    forall m | m in ms :: Sizable(m)
  }

  function EncodeAll(ms: seq<Message>): seq<byte>
    requires AllSizable(ms)
  {
    if ms == [] then [] else Frame(ms[0]) + EncodeAll(ms[1..])
  }

  /** Some message has an error text, for which the encoder allocates no space. */
  predicate Overruns(ms: seq<Message>) {
    exists k :: 0 <= k < |ms| && ms[k].errInfo != []
  }

  // ---------------------------------------------------------------- scan

  datatype Verdict = Skip | Hit(len: int) | Fault

  /**
   * One turn of the inner `for` loop at index `i`: four length bytes are read after checking only
   * one of them against the write index, and the length is used without a lower bound.  Fault
   * stands for a read outside the array or an overflowing index sum.  A length below one is a hit
   * when there is an end byte that far back; a positive one is never below six, because it would
   * put the end byte inside the header, where none can be.
   */
  function Probe(data: seq<byte>, w: int, i: int): (v: Verdict)
    requires 0 <= i < w <= |data|
    ensures v.Hit? ==> v.len <= w - i && 0 <= i + v.len - 1 && (1 <= v.len ==> 6 <= v.len)
    ensures v.Hit? ==> data[i] == PB_START && data[i + v.len - 1] == PB_END
  {
    if data[i] != PB_START || i + 1 >= w then Skip
    else if i + 5 > |data| then Fault
    else
      var len := IntAt(data, i + 1);
      var j := i + len - 1;
      if i + len > INT_MAX then Fault
      else if j >= w then Skip
      else if j < 0 then Fault
      else if data[j] != PB_END then Skip
      else
        IntAtIs(data, i + 1);
        Hit(len)
  }

  /** A hit is exactly a start byte, a length that is read inside the array, and an end byte where it says. */
  lemma HitIff(data: seq<byte>, w: int, i: int, len: int)
    requires 0 <= i < w <= |data|
    ensures Probe(data, w, i) == Hit(len)
       <==> && data[i] == 2 && i + 1 < w && i + 5 <= |data| && len == IntAt(data, i + 1)
            && 0 <= i + len - 1 < w && i + len <= 2147483647 && data[i + len - 1] == 3
  {
  }

  /** What makes a probe leave the array, or the range of an `int`. */
  lemma FaultIff(data: seq<byte>, w: int, i: int)
    requires 0 <= i < w <= |data|
    ensures Probe(data, w, i) == Fault
       <==> && data[i] == 2 && i + 1 < w
            && (i + 5 > |data| || i + IntAt(data, i + 1) <= 0 || i + IntAt(data, i + 1) > 2147483647)
  {
  }

  datatype Found = NoFrame | FoundFrame(start: int, len: int) | ScanFault

  /** The inner `for` loop from index `i` to the write index. */
  function Scan(data: seq<byte>, w: int, i: int): (f: Found)
    requires 0 <= i <= w <= |data|
    ensures f.FoundFrame? ==> i <= f.start < w && Probe(data, w, f.start) == Hit(f.len)
    decreases w - i
  {
    if i == w then NoFrame
    else
      match Probe(data, w, i)
      case Skip => Scan(data, w, i + 1)
      case Hit(len) => FoundFrame(i, len)
      case Fault => ScanFault
  }

  // ---------------------------------------------------------------- parse

  datatype Field = Missing | Broken | Field(text: seq<byte>, len: int, next: int)

  /** A copy of `f` into a zeroed C array of `cap` bytes stays inside it and leaves a terminator. */
  predicate CStringSafe(f: seq<byte>, cap: int) {
    |f| < cap || (|f| == cap && 0 in f)
  }

  /**
   * A length-prefixed string copied through a zeroed C array of `cap` bytes.  Missing is the
   * decoder's own bounds check; Broken is a copy outside either array or an unterminated string.
   */
  function StringField(data: seq<byte>, at: int, end: int, cap: int): (f: Field)
    requires 0 <= at && end < |data|
    ensures f.Field? ==> 0 <= f.len <= cap && f.next == at + 4 + f.len <= |data| && |f.text| <= f.len
  {
    if at >= end then Missing
    else if at + 4 > |data| then Broken
    else
      var n := IntAt(data, at);
      if n < 0 || at + 4 + n > |data| then Broken
      else
        var raw := data[at + 4..at + 4 + n];
        if !CStringSafe(raw, cap) then Broken
        else Field(CString(raw), n, at + 4 + n)
  }

  datatype Parse = Malformed | ParseFault | Parsed(msg: Message)

  /** The payload, once id, method name and error text have been read; `at` is where it starts. */
  function Payload(data: seq<byte>, at: int, len: int32, id: Field, name: Field, info: Field): (p: Parse)
    requires id.Field? && name.Field? && info.Field? && 0 <= at && 0 <= name.next && name.next + 4 <= |data|
    ensures p.Parsed? ==> p.msg.pkLen == len && p.msg.msgId == id.text && p.msg.methodName == name.text
    ensures p.Parsed? ==> p.msg.errInfo == info.text && |p.msg.pbData| == len - name.len - id.len - info.len - 26
  {
    var pbLen := len - name.len - id.len - info.len - 2 - 24;
    if pbLen < 0 || at + pbLen > |data| then ParseFault
    else
      Parsed(Message(id.text, name.text, IntAt(data, name.next), info.text, data[at..at + pbLen],
                     len, id.len, name.len, info.len, true))
  }

  /** The string fields read so far, the second of which tells where the error code stands. */
  ghost predicate FieldsRead(data: seq<byte>, at: int, got: seq<Field>) {
    && 0 <= at && |got| <= 3
    && (forall f | f in got :: f.Field? && |f.text| <= f.len)
    && (|got| >= 2 ==> 0 <= got[1].next <= at)
    && (|got| == 2 ==> got[1].next == at)
    && (|got| == 3 ==> got[1].next + 4 <= |data|)
  }

  /**
   * The string fields of one frame in order: id, method name, error text.  Each read starts with
   * the bounds check of its own length field; the error code stands in front of the error text.
   */
  function ParseFields(data: seq<byte>, at: int, end: int, len: int32, got: seq<Field>): (p: Parse)
    requires FieldsRead(data, at, got) && end < |data|
    ensures p.Parsed? ==> p.msg.pkLen == len && ContentSize(p.msg) <= len - 26
    decreases 3 - |got|
  {
    if |got| == 3 then Payload(data, at, len, got[0], got[1], got[2])
    else if at >= end then Malformed
    else
      var skip := if |got| == 2 then 4 else 0;
      if at + skip > |data| then ParseFault
      else
        var f := StringField(data, at + skip, end, if |got| == 0 then 100 else 512);
        match f
        case Missing => Malformed
        case Broken => ParseFault
        case Field(_, _, next) => ParseFields(data, next, end, len, got + [f])
  }

  function ContentSize(m: Message): int {
    |m.msgId| + |m.methodName| + |m.errInfo| + |m.pbData|
  }

  /** The field reads of one accepted frame. */
  function ParseFrame(data: seq<byte>, start: int, len: int32): (p: Parse)
    requires 0 <= start && 6 <= len && start + len <= |data|
    ensures p.Parsed? ==> p.msg.pkLen == len && ContentSize(p.msg) <= len - 26
  {
    ParseFields(data, start + 5, start + len - 1, len, [])
  }

  // ---------------------------------------------------------------- the decode loop

  /**
   * Done: the loop returned.  Faulted: undefined behaviour.  Stuck: `moveReadIndex` refused the move
   * by an accepted length, so the loop meets the same hit again for ever.  Backward: the accepted
   * length is below one, and the loop is about to move the read index back by it, or not at all.
   * Overrun is what encoding the replies can end in.
   */
  datatype Outcome = Done | Faulted | Stuck | Backward | Overrun

  /** A hit of this length ends the loop, as far as it only moves forward. */
  predicate Halts(b: Buf, len: int) {
    ReadMoveRefused(b, len) || len < 1
  }

  datatype Decoding = Decoding(msgs: seq<Message>, b: Buf, outcome: Outcome)

  function Prepend(rs: seq<Message>, d: Decoding): Decoding {
    Decoding(rs + d.msgs, d.b, d.outcome)
  }

  /** `decode` on any physical buffer state, up to its first move back. */
  function Decode(b: Buf): (d: Decoding)
    requires b.Ok()
    ensures d.b.Ok() && |d.b.data| == |b.data| && d.b.w <= b.w
    decreases b.w - b.r, 1
  {
    TakeFound(b, Scan(b.data, b.w, b.r))
  }

  /** After the scan: consume the frame it found. */
  function TakeFound(b: Buf, found: Found): (d: Decoding)
    requires b.Ok() && found == Scan(b.data, b.w, b.r)
    ensures d.b.Ok() && |d.b.data| == |b.data| && d.b.w <= b.w
    decreases b.w - b.r, 0
  {
    match found
    case NoFrame => Decoding([], b, Done)
    case ScanFault => Decoding([], b, Faulted)
    case FoundFrame(start, len) =>
      if Halts(b, len) then Decoding([], b, if ReadMoveRefused(b, len) then Stuck else Backward)
      else Push(MoveRead(b, len), ParseFrame(b.data, start, len))
  }

  /** After the parse: push the message, if there is one, and go round again. */
  function Push(b: Buf, p: Parse): (d: Decoding)
    requires b.Ok()
    ensures d.b.Ok() && |d.b.data| == |b.data| && d.b.w <= b.w
    decreases b.w - b.r, 2
  {
    match p
    case ParseFault => Decoding([], b, Faulted)
    case Malformed => Decode(b)
    case Parsed(m) => Prepend([m], Decode(b))
  }
}
