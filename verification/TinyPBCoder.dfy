// hl/net/coder/tinypb_coder.cc: TinyPBCoder's three methods over arrays, buffers and message
// objects, each proved equal to the format of module TinyPB.

module TinyPBCoder {
  import opened Bytes
  import opened Buffers
  import opened TinyPB
  import opened TinyPBStream
  import opened TinyPBDecode
  import opened TinyPBBackward

  /** hl/net/coder/tinypb_protocol.h. */
  class TinyPBProtocol {
    var msgId: seq<byte>
    var methodName: seq<byte>
    var errCode: int32
    var errInfo: seq<byte>
    var pbData: seq<byte>
    var pkLen: int
    var msgIdLen: int
    var methodNameLen: int
    var errInfoLen: int
    var parseSuccess: bool

    constructor ()
      ensures Value() == Message([], [], 0, [], [], 0, 0, 0, 0, false)
    {
      msgId, methodName, errCode, errInfo, pbData := [], [], 0, [], [];
      pkLen, msgIdLen, methodNameLen, errInfoLen, parseSuccess := 0, 0, 0, 0, false;
    }

    ghost function Value(): Message
      reads this
    {
      Message(msgId, methodName, errCode, errInfo, pbData, pkLen, msgIdLen, methodNameLen, errInfoLen, parseSuccess)
    }
  }

  ghost function Values(ms: seq<TinyPBProtocol>): (vs: seq<Message>)
    reads ms
    ensures |vs| == |ms| && forall k :: 0 <= k < |ms| ==> vs[k] == ms[k].Value()
  {
    seq(|ms|, k requires 0 <= k < |ms| reads ms => ms[k].Value())
  }

  // ---------------------------------------------------------------- encode

  /** The first `n` bytes of `image`, as far as the allocation reaches, are in the array. */
  ghost predicate Carries(buf: array<byte>, image: seq<byte>, n: int)
    reads buf
  {
    n <= |image| && forall k :: 0 <= k < n && k < buf.Length ==> buf[k] == image[k]
  }

  /**
   * One `memcpy` at the cursor.  Bytes past the end of the allocation, where the C++ code would
   * overrun it, are dropped.
   */
  method Put(buf: array<byte>, ghost image: seq<byte>, tmp: nat, src: seq<byte>) returns (tmp': nat)
    requires Carries(buf, image, tmp) && At(image, tmp, src)
    modifies buf
    ensures tmp' == tmp + |src| && Carries(buf, image, tmp')
  {
    assert forall k :: 0 <= k < |src| ==> image[tmp..tmp + |src|][k] == src[k];
    forall k | 0 <= k < |src| && tmp + k < buf.Length {
      buf[tmp + k] := src[k];
    }
    tmp' := tmp + |src|;
  }

  lemma LayoutStands(s: Message)
    requires Sealed(s)
    ensures Heads(ToNet, Layout(s), 0, s) && Tails(ToNet, Layout(s), 13 + |s.msgId| + |s.methodName|, s)
  {
    NetReadsBack();
    LayoutPieces(ToNet, Layout(s), 0, s);
  }

  /** Start byte, package length, id and method name. */
  method PutHead(buf: array<byte>, msg: TinyPBProtocol, pkLen: int32, ghost s: Message) returns (tmp: nat)
    requires Sealed(s) && s.pkLen == pkLen && s.msgId == msg.msgId && s.methodName == msg.methodName
    requires Heads(ToNet, Layout(s), 0, s)
    modifies buf
    ensures tmp == 13 + |s.msgId| + |s.methodName| && Carries(buf, Layout(s), tmp)
  {
    ghost var image := Layout(s);
    tmp := Put(buf, image, 0, [PB_START]);
    tmp := Put(buf, image, tmp, ToNet(pkLen));
    tmp := Put(buf, image, tmp, ToNet(|msg.msgId|));
    tmp := Put(buf, image, tmp, msg.msgId);
    tmp := Put(buf, image, tmp, ToNet(|msg.methodName|));
    tmp := Put(buf, image, tmp, msg.methodName);
  }

  /** Error code, error text, payload, checksum and end byte. */
  method PutTail(buf: array<byte>, msg: TinyPBProtocol, at: nat, ghost s: Message) returns (tmp: nat)
    requires Sealed(s) && s.errCode == msg.errCode && s.errInfo == msg.errInfo && s.pbData == msg.pbData
    requires at == 13 + |s.msgId| + |s.methodName| && Carries(buf, Layout(s), at)
    requires Tails(ToNet, Layout(s), at, s)
    modifies buf
    ensures tmp == |Layout(s)| && Carries(buf, Layout(s), tmp)
  {
    ghost var image := Layout(s);
    tmp := Put(buf, image, at, ToNet(msg.errCode));
    tmp := Put(buf, image, tmp, ToNet(|msg.errInfo|));
    tmp := Put(buf, image, tmp, msg.errInfo);
    tmp := Put(buf, image, tmp, msg.pbData);
    tmp := Put(buf, image, tmp, ToNet(1));
    tmp := Put(buf, image, tmp, [PB_END]);
  }

  /** The `malloc` and the cursor walk. */
  method PutAll(msg: TinyPBProtocol, pkLen: int32, ghost s: Message) returns (buf: array<byte>, overflow: bool)
    requires Sealed(s) && s.pkLen == pkLen && s.msgId == msg.msgId && s.methodName == msg.methodName
    requires s.errCode == msg.errCode && s.errInfo == msg.errInfo && s.pbData == msg.pbData
    ensures fresh(buf) && buf[..] == Layout(s)[..pkLen]
    ensures overflow <==> s.errInfo != []
  {
    LayoutStands(s);
    buf := new byte[pkLen](_ => 0);
    var tmp := PutHead(buf, msg, pkLen, s);
    tmp := PutTail(buf, msg, tmp, s);
    overflow := tmp > pkLen;
  }

  /** `overflow` reports that the cursor ran past the allocation. */
  method EncodeTinyPB(msg: TinyPBProtocol) returns (buf: array<byte>, overflow: bool)
    requires Sizable(msg.Value())
    modifies msg
    ensures fresh(buf) && buf[..] == Frame(old(msg.Value()))
    ensures msg.Value() == Seal(old(msg.Value()))
    ensures SameContent(old(msg.Value()), msg.Value()) && msg.errCode == old(msg.errCode)
    ensures overflow <==> msg.errInfo != []
  {
    if msg.msgId == [] {
      msg.msgId := DEFAULT_ID;
    }
    var pkLen := 2 + 24 + |msg.msgId| + |msg.methodName| + |msg.pbData|;
    buf, overflow := PutAll(msg, pkLen, Seal(old(msg.Value())));
    msg.pkLen, msg.msgIdLen, msg.methodNameLen := pkLen, |msg.msgId|, |msg.methodName|;
    msg.errInfoLen, msg.parseSuccess := |msg.errInfo|, true;
  }

  // ---------------------------------------------------------------- encode a batch

  lemma SealTwice(m: Message)
    requires Sizable(m)
    ensures Seal(Seal(m)) == Seal(m) && Frame(Seal(m)) == Frame(m)
  {
  }

  lemma {:induction false} EncodeAllSnoc(ms: seq<Message>, m: Message)
    requires AllSizable(ms) && Sizable(m)
    ensures AllSizable(ms + [m]) && EncodeAll(ms + [m]) == EncodeAll(ms) + Frame(m)
  {
    if ms == [] {
      assert EncodeAll([m]) == Frame(m) + EncodeAll([]);
    } else {
      assert forall x | x in ms[1..] :: x in ms;
      assert ms[0] in ms && (ms + [m])[1..] == ms[1..] + [m];
      EncodeAllSnoc(ms[1..], m);
      Assoc(Frame(ms[0]), EncodeAll(ms[1..]), Frame(m));
    }
  }

  /** `v` is what `m` was, or is sealed already because the same object came earlier in the batch. */
  ghost predicate MaybeSealed(m: Message, v: Message) {
    Sizable(m) && (v == m || v == Seal(m))
  }

  ghost predicate Progress(was: seq<Message>, now: seq<Message>, i: int) {
    && |was| == |now| && 0 <= i <= |was|
    && (forall k :: 0 <= k < |was| ==> MaybeSealed(was[k], now[k]))
    && (forall k :: 0 <= k < i ==> now[k] == Seal(was[k]))
  }

  /** An entry that is sealed, or left as it is, or changed like entry `i`, with which it was equal. */
  lemma SealedOnce(was: Message, now: Message, now': Message)
    requires MaybeSealed(was, now) && (now' == now || (Sizable(now) && now' == Seal(now)))
    ensures MaybeSealed(was, now') && (Sizable(now) && now' == Seal(now) ==> now' == Seal(was))
  {
    if Sizable(was) {
      SealTwice(was);
    }
  }

  /** Sealing entry `i`, and with it every entry that is the same object, is progress. */
  lemma ProgressStep(was: seq<Message>, now: seq<Message>, now': seq<Message>, i: int)
    requires Progress(was, now, i) && i < |was| && |now'| == |now|
    requires Sizable(now[i]) && now'[i] == Seal(now[i])
    requires forall k :: 0 <= k < |now| ==> now'[k] == now[k] || (now[k] == now[i] && now'[k] == now'[i])
    ensures Progress(was, now', i + 1)
  {
    forall k | 0 <= k < |was|
      ensures MaybeSealed(was[k], now'[k])
    {
      SealedOnce(was[k], now[k], now'[k]);
    }
    forall k | 0 <= k <= i
      ensures now'[k] == Seal(was[k])
    {
      SealedAgain(was[k], now[k], now'[k], k == i);
    }
  }

  lemma SealedAgain(was: Message, now: Message, now': Message, first: bool)
    requires MaybeSealed(was, now) && Sizable(now) && (first || now == Seal(was))
    requires now' == now || now' == Seal(now)
    requires first ==> now' == Seal(now)
    ensures now' == Seal(was)
  {
    SealTwice(was);
  }

  lemma ProgressFrame(was: seq<Message>, now: seq<Message>, i: int)
    requires Progress(was, now, i) && i < |was|
    ensures Sizable(was[i]) && Sizable(now[i]) && Frame(now[i]) == Frame(was[i])
    ensures now[i].errInfo == was[i].errInfo
  {
    assert MaybeSealed(was[i], now[i]);
    SealTwice(was[i]);
  }

  /** The buffer holds `view` and behind it the frames of the first `i` messages. */
  ghost predicate Appended(b: Buf, view: seq<byte>, was: seq<Message>, i: int) {
    && 0 <= i <= |was| && AllSizable(was[..i])
    && b.Ok() && b.View() == view + EncodeAll(was[..i])
  }

  lemma AppendedStep(b: Buf, b': Buf, view: seq<byte>, was: seq<Message>, i: int)
    requires Appended(b, view, was, i) && i < |was| && Sizable(was[i])
    requires b'.Ok() && b'.View() == b.View() + Frame(was[i])
    ensures Appended(b', view, was, i + 1)
  {
    EncodeAllSnoc(was[..i], was[i]);
    Assoc(view, EncodeAll(was[..i]), Frame(was[i]));
    assert was[..i] + [was[i]] == was[..i + 1];
  }

  method SealOne(messages: seq<TinyPBProtocol>, i: nat) returns (buf: array<byte>, overflow: bool)
    requires i < |messages| && Sizable(Values(messages)[i])
    modifies messages
    ensures fresh(buf) && buf[..] == Frame(old(Values(messages))[i])
    ensures Values(messages)[i] == Seal(old(Values(messages))[i])
    ensures overflow <==> old(Values(messages))[i].errInfo != []
    ensures forall k :: 0 <= k < |messages| ==>
              || Values(messages)[k] == old(Values(messages))[k]
              || (old(Values(messages))[k] == old(Values(messages))[i] && Values(messages)[k] == Values(messages)[i])
  {
    buf, overflow := EncodeTinyPB(messages[i]);
    assert forall k :: 0 <= k < |messages| && messages[k] != messages[i] ==>
             messages[k].Value() == old(messages[k].Value());
  }

  method SealNext(messages: seq<TinyPBProtocol>, i: nat, ghost was: seq<Message>)
    returns (buf: array<byte>, overflow: bool)
    requires i < |messages| && Progress(was, Values(messages), i)
    modifies messages
    ensures Progress(was, Values(messages), i + 1)
    ensures fresh(buf) && Sizable(was[i]) && buf[..] == Frame(was[i])
    ensures overflow <==> was[i].errInfo != []
  {
    ghost var now := Values(messages);
    ProgressFrame(was, now, i);
    buf, overflow := SealOne(messages, i);
    ProgressStep(was, now, Values(messages), i);
  }

  /** One turn of the loop of `encode`. */
  method EncodeOne(messages: seq<TinyPBProtocol>, i: nat, outBuffer: TcpBuffer,
                   ghost view: seq<byte>, ghost was: seq<Message>)
    returns (overflow: bool)
    requires i < |messages| && Progress(was, Values(messages), i)
    requires Appended(outBuffer.State(), view, was, i)
    modifies messages, outBuffer, outBuffer.buffer
    ensures Progress(was, Values(messages), i + 1)
    ensures Appended(outBuffer.State(), view, was, i + 1)
    ensures overflow <==> was[i].errInfo != []
    ensures outBuffer.buffer == old(outBuffer.buffer) || fresh(outBuffer.buffer)
  {
    ghost var b := outBuffer.State();
    var buf;
    buf, overflow := SealNext(messages, i, was);
    outBuffer.WriteToBuffer(buf[..]);
    AppendedStep(b, outBuffer.State(), view, was, i);
  }

  /**
   * `encode`: every frame in turn is appended to the out-buffer; every message ends up sealed.  `overflow`
   * reports that one of them was written past its allocation; what else is said then holds if that
   * damaged nothing.
   */
  method Encode(messages: seq<TinyPBProtocol>, outBuffer: TcpBuffer) returns (overflow: bool)
    requires outBuffer.Valid() && AllSizable(Values(messages))
    modifies messages, outBuffer, outBuffer.buffer
    ensures outBuffer.Valid()
    ensures outBuffer.State().View() == old(outBuffer.State().View()) + EncodeAll(old(Values(messages)))
    ensures forall k :: 0 <= k < |messages| ==> Values(messages)[k] == Seal(old(Values(messages))[k])
    ensures overflow == Overruns(old(Values(messages)))
    ensures outBuffer.buffer == old(outBuffer.buffer) || fresh(outBuffer.buffer)
  {
    ghost var was := Values(messages);
    ghost var view := outBuffer.State().View();
    overflow := false;
    for i := 0 to |messages|
      invariant outBuffer.buffer == old(outBuffer.buffer) || fresh(outBuffer.buffer)
      invariant Progress(was, Values(messages), i)
      invariant Appended(outBuffer.State(), view, was, i)
      invariant overflow == Overruns(was[..i])
    {
      var over := EncodeOne(messages, i, outBuffer, view, was);
      OverrunsSnoc(was, i);
      overflow := overflow || over;
    }
    AppendedAll(outBuffer.State(), view, was);
  }

  lemma OverrunsSnoc(was: seq<Message>, i: nat)
    requires i < |was|
    ensures Overruns(was[..i + 1]) <==> Overruns(was[..i]) || was[i].errInfo != []
  {
    if Overruns(was[..i]) {
      var k :| 0 <= k < i && was[..i][k].errInfo != [];
      assert was[..i + 1][k] == was[..i][k];
    }
    if was[i].errInfo != [] {
      assert was[..i + 1][i] == was[i];
    }
  }

  lemma AppendedAll(b: Buf, view: seq<byte>, was: seq<Message>)
    requires Appended(b, view, was, |was|) && AllSizable(was)
    ensures b.Ok() && b.View() == view + EncodeAll(was) && was[..|was|] == was
  {
    assert was[..|was|] == was;
  }

  // ---------------------------------------------------------------- decode

  /** The inner `for` loop over the copied vector. */
  method FindFrame(tmp: seq<byte>, readIndex: int, writeIndex: int) returns (found: Found)
    requires 0 <= readIndex <= writeIndex <= |tmp|
    ensures found == Scan(tmp, writeIndex, readIndex)
  {
    var i := readIndex;
    while i < writeIndex
      invariant readIndex <= i <= writeIndex
      invariant Scan(tmp, writeIndex, readIndex) == Scan(tmp, writeIndex, i)
    {
      if tmp[i] == PB_START {
        if i + 1 < writeIndex {
          if i + 5 > |tmp| {
            return ScanFault;
          }
          var pkLen := IntAt(tmp, i + 1);
          var j := i + pkLen - 1;
          if i + pkLen > INT_MAX {
            return ScanFault;
          }
          if j < writeIndex {
            if j < 0 {
              return ScanFault;
            }
            if tmp[j] == PB_END {
              return FoundFrame(i, pkLen);
            }
          }
        }
      }
      i := i + 1;
    }
    return NoFrame;
  }

  /** One length-prefixed string, copied through a C array of `cap` bytes. */
  method ReadString(tmp: seq<byte>, at: int, end: int, cap: int) returns (f: Field)
    requires 0 <= at && end < |tmp|
    ensures f == StringField(tmp, at, end, cap)
  {
    if at >= end {
      return Missing;
    }
    if at + 4 > |tmp| {
      return Broken;
    }
    var n := IntAt(tmp, at);
    if n < 0 || at + 4 + n > |tmp| {
      return Broken;
    }
    var raw := tmp[at + 4..at + 4 + n];
    if !CStringSafe(raw, cap) {
      return Broken;
    }
    var text := ReadCString(raw);
    f := Field(text, n, at + 4 + n);
  }

  /** `std::string(const char*)`: scan for the terminator. */
  method ReadCString(raw: seq<byte>) returns (text: seq<byte>)
    ensures text == CString(raw)
  {
    var k := 0;
    while k < |raw| && raw[k] != 0
      invariant 0 <= k <= |raw| && CString(raw) == raw[..k] + CString(raw[k..])
    {
      assert raw[k..][1..] == raw[k + 1..] && raw[..k] + [raw[k]] == raw[..k + 1];
      k := k + 1;
    }
    text := raw[..k];
  }

  lemma NextField(data: seq<byte>, at: int, end: int, len: int32, got: seq<Field>, f: Field)
    requires FieldsRead(data, at, got) && |got| < 3 && at < end < |data|
    requires |got| == 2 ==> at + 4 <= |data|
    requires f == StringField(data, if |got| == 2 then at + 4 else at, end, if |got| == 0 then 100 else 512)
    ensures f == Missing ==> ParseFields(data, at, end, len, got) == Malformed
    ensures f == Broken ==> ParseFields(data, at, end, len, got) == ParseFault
    ensures f.Field? ==>
              FieldsRead(data, f.next, got + [f])
              && ParseFields(data, at, end, len, got) == ParseFields(data, f.next, end, len, got + [f])
  {
  }

  /** The field reads of an accepted frame. */
  method ReadFrame(tmp: seq<byte>, start: int, len: int32) returns (p: Parse)
    requires 0 <= start && 6 <= len && start + len <= |tmp|
    ensures p == ParseFrame(tmp, start, len)
  {
    p := ReadIdOn(tmp, start + 5, start + len - 1, len);
  }

  /** From the id on. */
  method ReadIdOn(tmp: seq<byte>, at: int, end: int, len: int32) returns (p: Parse)
    requires 0 <= at && end < |tmp|
    ensures p == ParseFields(tmp, at, end, len, [])
  {
    if at >= end {
      return Malformed;
    }
    var id := ReadString(tmp, at, end, 100);
    NextField(tmp, at, end, len, [], id);
    if !id.Field? {
      return if id == Missing then Malformed else ParseFault;
    }
    assert [] + [id] == [id];
    p := ReadNameOn(tmp, id.next, end, len, id);
  }

  /** From the method name on. */
  method ReadNameOn(tmp: seq<byte>, at: int, end: int, len: int32, id: Field) returns (p: Parse)
    requires 0 <= at && end < |tmp| && id.Field? && |id.text| <= id.len
    ensures p == ParseFields(tmp, at, end, len, [id])
  {
    if at >= end {
      return Malformed;
    }
    var name := ReadString(tmp, at, end, 512);
    NextField(tmp, at, end, len, [id], name);
    if !name.Field? {
      return if name == Missing then Malformed else ParseFault;
    }
    assert [id] + [name] == [id, name];
    p := ReadErrorOn(tmp, end, len, id, name);
  }

  /** From the error code on. */
  method ReadErrorOn(tmp: seq<byte>, end: int, len: int32, id: Field, name: Field) returns (p: Parse)
    requires end < |tmp| && id.Field? && |id.text| <= id.len && name.Field? && |name.text| <= name.len
    requires 0 <= name.next
    ensures p == ParseFields(tmp, name.next, end, len, [id, name])
  {
    var at := name.next;
    if at >= end {
      return Malformed;
    }
    if at + 4 > |tmp| {
      return ParseFault;
    }
    var info := ReadString(tmp, at + 4, end, 512);
    NextField(tmp, at, end, len, [id, name], info);
    if !info.Field? {
      return if info == Missing then Malformed else ParseFault;
    }
    assert [id, name] + [info] == [id, name, info];
    p := Payload(tmp, info.next, len, id, name, info);
  }

  method NewMessage(m: Message) returns (message: TinyPBProtocol)
    ensures fresh(message) && message.Value() == m
  {
    message := new TinyPBProtocol();
    message.msgId, message.methodName, message.errCode := m.msgId, m.methodName, m.errCode;
    message.errInfo, message.pbData, message.pkLen := m.errInfo, m.pbData, m.pkLen;
    message.msgIdLen, message.methodNameLen, message.errInfoLen := m.msgIdLen, m.methodNameLen, m.errInfoLen;
    message.parseSuccess := m.parseSuccess;
  }

  /** Consume an accepted frame and read its fields from the copied vector. */
  method TakeFrame(buffer: TcpBuffer, start: int, len: int) returns (p: Parse)
    requires buffer.Valid() && buffer.readIndex <= start && 6 <= len && start + len <= buffer.writeIndex
    requires buffer.readIndex + len < buffer.buffer.Length && len <= INT_MAX
    modifies buffer
    ensures buffer.Valid() && buffer.State() == MoveRead(old(buffer.State()), len)
    ensures p == ParseFrame(old(buffer.State()).data, start, len)
    ensures buffer.buffer == old(buffer.buffer) || fresh(buffer.buffer)
  {
    var tmp := buffer.buffer[..];
    var astray := buffer.MoveReadIndex(len);
    p := ReadFrame(tmp, start, len);
  }

  method Append(out: seq<TinyPBProtocol>, m: Message) returns (out': seq<TinyPBProtocol>)
    ensures forall m | m in out' :: m in out || fresh(m)
    ensures Values(out') == Values(out) + [m]
  {
    var message := NewMessage(m);
    out' := out + [message];
  }

  /** Of the whole decoding, `rs` is done; the rest is decoding from `b` with `n` moves back to go. */
  ghost predicate Under(whole: Decoding, rs: seq<Message>, b: Buf, n: nat) {
    b.Ok() && whole == Prepend(rs, DecodeOn(b, n))
  }

  lemma UnderEnd(whole: Decoding, rs: seq<Message>, b: Buf, n: nat, b': Buf, outcome: Outcome)
    requires Under(whole, rs, b, n) && DecodeOn(b, n) == Decoding([], b', outcome)
    ensures whole == Decoding(rs, b', outcome)
  {
    assert rs + [] == rs;
  }

  lemma AcceptLeads(whole: Decoding, rs: seq<Message>, b: Buf, n: nat, start: int, len: int, b': Buf, rs': seq<Message>)
    requires Under(whole, rs, b, n) && !Halts(b, len)
    requires Scan(b.data, b.w, b.r) == FoundFrame(start, len)
    requires b' == MoveRead(b, len) && rs' == rs + Pushed(ParseFrame(b.data, start, len))
    ensures b'.Ok() && |b'.View()| < |b.View()|
    ensures ParseFrame(b.data, start, len) == ParseFault ==> whole == Decoding(rs', b', Faulted)
    ensures ParseFrame(b.data, start, len) != ParseFault ==> Under(whole, rs', b', n)
  {
    OnTakes(b, n, start, len);
    assert rs + [] == rs;
    match ParseFrame(b.data, start, len)
    case Malformed =>
    case ParseFault => UnderEnd(whole, rs, b, n, b', Faulted);
    case Parsed(m) => PrependTwice(rs, [m], DecodeOn(b', n));
  }

  /** The messages pushed for one accepted frame. */
  function Pushed(p: Parse): seq<Message> {
    if p.Parsed? then [p.msg] else []
  }

  /** One accepted frame: consumed, parsed, and its message pushed when the parse succeeded. */
  method AcceptFrame(buffer: TcpBuffer, out: seq<TinyPBProtocol>, start: int, len: int)
    returns (out': seq<TinyPBProtocol>, faulted: bool)
    requires buffer.Valid() && buffer.readIndex <= start && 6 <= len && start + len <= buffer.writeIndex
    requires buffer.readIndex + len < buffer.buffer.Length && len <= INT_MAX
    modifies buffer
    ensures buffer.Valid() && buffer.State() == MoveRead(old(buffer.State()), len)
    ensures buffer.buffer == old(buffer.buffer) || fresh(buffer.buffer)
    ensures forall m | m in out' :: m in out || fresh(m)
    ensures var p := ParseFrame(old(buffer.State()).data, start, len);
            Values(out') == Values(out) + Pushed(p) && faulted == (p == ParseFault)
  {
    var p := TakeFrame(buffer, start, len);
    faulted := p == ParseFault;
    out' := out;
    if p.Parsed? {
      out' := Append(out, p.msg);
    }
  }

  /** Why the loop ends at what the scan found. */
  function Ending(found: Found): Outcome {
    match found
    case NoFrame => Done
    case ScanFault => Faulted
    case FoundFrame(_, len) => Stuck
  }

  lemma StopsHere(whole: Decoding, rs: seq<Message>, b: Buf, n: nat, found: Found)
    requires Under(whole, rs, b, n) && found == Scan(b.data, b.w, b.r)
    requires found.FoundFrame? ==> ReadMoveRefused(b, found.len)
    ensures whole == Decoding(rs, b, Ending(found))
  {
    OnStops(b, n);
    UnderEnd(whole, rs, b, n, b, Ending(found));
  }

  /** The turn of the outer loop that found a frame it can consume. */
  method AcceptTurn(buffer: TcpBuffer, out: seq<TinyPBProtocol>, start: int, len: int,
                    ghost whole: Decoding, ghost n: nat)
    returns (out': seq<TinyPBProtocol>, stop: bool)
    requires Under(whole, Values(out), buffer.State(), n) && !Halts(buffer.State(), len)
    requires Scan(buffer.buffer[..], buffer.writeIndex, buffer.readIndex) == FoundFrame(start, len)
    modifies buffer
    ensures buffer.Valid() && (buffer.buffer == old(buffer.buffer) || fresh(buffer.buffer))
    ensures forall m | m in out' :: m in out || fresh(m)
    ensures buffer.ReadAble() < old(buffer.ReadAble())
    ensures !stop ==> Under(whole, Values(out'), buffer.State(), n)
    ensures stop ==> whole == Decoding(Values(out'), buffer.State(), Faulted)
  {
    ghost var b, rs := buffer.State(), Values(out);
    out', stop := AcceptFrame(buffer, out, start, len);
    AcceptLeads(whole, rs, b, n, start, len, buffer.State(), Values(out'));
  }

  /** The turn that found a hit of length below one and may move back: no message comes of it. */
  method BackTurn(buffer: TcpBuffer, ghost rs: seq<Message>, start: int, len: int, ghost whole: Decoding, ghost n: nat)
    requires 0 < n && Under(whole, rs, buffer.State(), n) && len < 1 && !ReadMoveRefused(buffer.State(), len)
    requires Scan(buffer.buffer[..], buffer.writeIndex, buffer.readIndex) == FoundFrame(start, len)
    modifies buffer
    ensures buffer.Valid() && (buffer.buffer == old(buffer.buffer) || fresh(buffer.buffer))
    ensures Under(whole, rs, buffer.State(), n - 1)
  {
    OnMovesBack(buffer.State(), n, start, len);
    var astray := buffer.MoveReadIndex(len);
  }

  /** One turn of the outer loop; `n` is how many moves back are still followed. */
  method Turn(buffer: TcpBuffer, out: seq<TinyPBProtocol>, n: nat, ghost whole: Decoding)
    returns (out': seq<TinyPBProtocol>, n': nat, stop: bool, outcome: Outcome)
    requires Under(whole, Values(out), buffer.State(), n)
    modifies buffer
    ensures buffer.Valid() && (buffer.buffer == old(buffer.buffer) || fresh(buffer.buffer))
    ensures forall m | m in out' :: m in out || fresh(m)
    ensures !stop ==> n' < n || (n' == n && buffer.ReadAble() < old(buffer.ReadAble()))
    ensures !stop ==> Under(whole, Values(out'), buffer.State(), n')
    ensures stop ==> whole == Decoding(Values(out'), buffer.State(), outcome)
  {
    var found := FindFrame(buffer.buffer[..], buffer.readIndex, buffer.writeIndex);
    out', n', stop := out, n, true;
    if !found.FoundFrame? || buffer.readIndex + found.len < 0
       || buffer.readIndex + found.len >= buffer.buffer.Length {
      outcome := Ending(found);
      StopsHere(whole, Values(out), buffer.State(), n, found);
    } else if found.len >= 1 {
      outcome := Faulted;
      out', stop := AcceptTurn(buffer, out, found.start, found.len, whole, n);
    } else if n == 0 {
      outcome := Backward;
      OnMovesBack(buffer.State(), 0, found.start, found.len);
      UnderEnd(whole, Values(out), buffer.State(), 0, buffer.State(), Backward);
    } else {
      outcome := Backward;
      BackTurn(buffer, Values(out), found.start, found.len, whole, n);
      n', stop := n - 1, false;
    }
  }

  /**
   * `decode`: consume frames until the scan finds none.  Where the C++ loop would leave its arrays
   * or repeat one turn for ever, the method stops and says so in `outcome`; so it does when the read
   * index has moved back more than `patience` times, which the source does not count.
   */
  method DecodeBuffer(buffer: TcpBuffer, patience: nat) returns (out: seq<TinyPBProtocol>, outcome: Outcome)
    requires buffer.Valid()
    modifies buffer
    ensures buffer.Valid() && (forall m | m in out :: fresh(m))
    ensures DecodeOn(old(buffer.State()), patience) == Decoding(Values(out), buffer.State(), outcome)
    ensures buffer.buffer == old(buffer.buffer) || fresh(buffer.buffer)
  {
    ghost var whole := DecodeOn(buffer.State(), patience);
    PrependNone(whole);
    out, outcome := [], Done;
    var stop, n := false, patience;
    while !stop
      invariant buffer.Valid() && (buffer.buffer == old(buffer.buffer) || fresh(buffer.buffer))
      invariant forall m | m in out :: fresh(m)
      invariant !stop ==> Under(whole, Values(out), buffer.State(), n)
      invariant stop ==> whole == Decoding(Values(out), buffer.State(), outcome)
      decreases !stop, n, buffer.ReadAble()
    {
      out, n, stop, outcome := Turn(buffer, out, n, whole);
    }
  }
}
