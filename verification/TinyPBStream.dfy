// What decoding does to encoded streams: one frame, then any number of frames and a tail.

module TinyPBStream {
  import opened Bytes
  import opened TinyPB

  // ---------------------------------------------------------------- reading what was laid out

  ghost predicate At(data: seq<byte>, p: int, s: seq<byte>) {
    0 <= p && p + |s| <= |data| && data[p..p + |s|] == s
  }

  lemma AtSplit(data: seq<byte>, p: int, s: seq<byte>, rest: seq<byte>)
    requires At(data, p, s + rest)
    ensures At(data, p, s) && At(data, p + |s|, rest)
  {
    var x := data[p..p + |s + rest|];
    assert x[..|s|] == s && x[|s|..] == rest;
  }

  // ---------------------------------------------------------------- one frame

  /** A length-prefixed string stands at `at`. */
  ghost predicate HoldsString(data: seq<byte>, at: int, f: seq<byte>) {
    && 0 <= at && at + 4 <= |data|
    && var n := IntAt(data, at);
    n == |f| && at + 4 + n <= |data| && data[at + 4..at + 4 + n] == f
  }

  ghost predicate HoldsInt(data: seq<byte>, at: int, n: int) {
    0 <= at && at + 4 <= |data| && IntAt(data, at) == n
  }

  /** The length and both names stand where the decoder looks for them. */
  ghost predicate HoldsNames(data: seq<byte>, i: int, s: Message) {
    && HoldsInt(data, i + 1, s.pkLen)
    && HoldsString(data, i + 5, s.msgId)
    && HoldsString(data, i + 9 + |s.msgId|, s.methodName)
  }

  /** So do the error fields and the payload. */
  ghost predicate HoldsRest(data: seq<byte>, at: int, s: Message) {
    && HoldsInt(data, at, s.errCode)
    && HoldsString(data, at + 4, s.errInfo)
    && At(data, at + 8 + |s.errInfo|, s.pbData)
  }

  ghost predicate HoldsFields(data: seq<byte>, i: int, s: Message) {
    && HoldsNames(data, i, s)
    && HoldsRest(data, i + 13 + |s.msgId| + |s.methodName|, s)
  }

  lemma AtPrefixed(data: seq<byte>, at: int, n: seq<byte>, text: seq<byte>, rest: seq<byte>)
    requires At(data, at, Prefixed(n, text, rest))
    ensures At(data, at, n) && At(data, at + |n|, text) && At(data, at + |n| + |text|, rest)
  {
    AtSplit(data, at, n, text + rest);
    AtSplit(data, at + |n|, text, rest);
  }

  /** The header, the length and both names, each at the offset the decoder computes. */
  ghost predicate HeadPieces(data: seq<byte>, i: int, pk: seq<byte>, idLen: seq<byte>, id: seq<byte>,
                             nameLen: seq<byte>, name: seq<byte>)
  {
    && At(data, i, [PB_START]) && At(data, i + 1, pk)
    && At(data, i + 5, idLen) && At(data, i + 9, id)
    && At(data, i + 9 + |id|, nameLen) && At(data, i + 13 + |id|, name)
  }

  /** The error fields, the payload and the end byte, from the error code on. */
  ghost predicate TailPieces(data: seq<byte>, at: int, err: seq<byte>, infoLen: seq<byte>,
                             info: seq<byte>, pb: seq<byte>, check: seq<byte>)
  {
    && At(data, at, err) && At(data, at + 4, infoLen) && At(data, at + 8, info)
    && At(data, at + 8 + |info|, pb) && At(data, at + 8 + |info| + |pb|, check)
    && At(data, at + 12 + |info| + |pb|, [PB_END])
  }

  lemma WalkOffsets(data: seq<byte>, i: int, pk: seq<byte>, idLen: seq<byte>, id: seq<byte>,
                    nameLen: seq<byte>, name: seq<byte>, err: seq<byte>, infoLen: seq<byte>,
                    info: seq<byte>, pb: seq<byte>, check: seq<byte>)
    requires |pk| == |idLen| == |nameLen| == |err| == |infoLen| == |check| == 4
    requires At(data, i, Walk(pk, idLen, id, nameLen, name, err, infoLen, info, pb, check))
    ensures HeadPieces(data, i, pk, idLen, id, nameLen, name)
    ensures TailPieces(data, i + 13 + |id| + |name|, err, infoLen, info, pb, check)
  {
    var p5 := pb + (check + [PB_END]);
    var p4 := err + Prefixed(infoLen, info, p5);
    var p3 := Prefixed(nameLen, name, p4);
    var p1 := pk + Prefixed(idLen, id, p3);
    AtSplit(data, i, [PB_START], p1);
    AtSplit(data, i + 1, pk, Prefixed(idLen, id, p3));
    AtPrefixed(data, i + 5, idLen, id, p3);
    AtPrefixed(data, i + 9 + |id|, nameLen, name, p4);
    var at := i + 13 + |id| + |name|;
    AtSplit(data, at, err, Prefixed(infoLen, info, p5));
    AtPrefixed(data, at + 4, infoLen, info, p5);
    AtSplit(data, at + 8 + |info|, pb, check + [PB_END]);
    AtSplit(data, at + 8 + |info| + |pb|, check, [PB_END]);
  }

  ghost predicate Heads(net: int32 -> seq<byte>, data: seq<byte>, i: int, s: Message)
    requires Sealed(s)
  {
    HeadPieces(data, i, net(s.pkLen), net(s.msgIdLen), s.msgId, net(s.methodNameLen), s.methodName)
  }

  ghost predicate Tails(net: int32 -> seq<byte>, data: seq<byte>, at: int, s: Message)
    requires Sealed(s)
  {
    TailPieces(data, at, net(s.errCode), net(s.errInfoLen), s.errInfo, s.pbData, net(1))
  }

  lemma LayoutPieces(net: int32 -> seq<byte>, data: seq<byte>, i: int, s: Message)
    requires ReadsBack(net) && Sealed(s) && At(data, i, LayoutWith(net, s))
    ensures Heads(net, data, i, s) && Tails(net, data, i + 13 + |s.msgId| + |s.methodName|, s)
  {
    WalkOffsets(data, i, net(s.pkLen), net(s.msgIdLen), s.msgId, net(s.methodNameLen), s.methodName,
                net(s.errCode), net(s.errInfoLen), s.errInfo, s.pbData, net(1));
  }

  lemma IntHeld(net: int32 -> seq<byte>, data: seq<byte>, p: int, n: int32)
    requires ReadsBack(net) && At(data, p, net(n))
    ensures HoldsInt(data, p, n)
  {
    assert data[p..p + 4] == net(n)[0..0 + 4];
    SameInt(data, p, net(n), 0);
  }

  lemma StringHeld(net: int32 -> seq<byte>, data: seq<byte>, at: int, f: seq<byte>)
    requires ReadsBack(net) && |f| <= INT_MAX && At(data, at, net(|f|)) && At(data, at + 4, f)
    ensures HoldsString(data, at, f)
  {
    IntHeld(net, data, at, |f|);
  }

  lemma ByteHeld(data: seq<byte>, p: int, b: byte)
    requires At(data, p, [b])
    ensures data[p] == b
  {
    assert data[p..p + 1][0] == b;
  }

  lemma NamesHeld(net: int32 -> seq<byte>, data: seq<byte>, i: int, s: Message)
    requires ReadsBack(net) && Sealed(s) && Heads(net, data, i, s)
    ensures HoldsNames(data, i, s) && data[i] == PB_START
  {
    IntHeld(net, data, i + 1, s.pkLen);
    StringHeld(net, data, i + 5, s.msgId);
    StringHeld(net, data, i + 9 + |s.msgId|, s.methodName);
    ByteHeld(data, i, PB_START);
  }

  lemma RestHeld(net: int32 -> seq<byte>, data: seq<byte>, at: int, s: Message)
    requires ReadsBack(net) && Sealed(s) && Tails(net, data, at, s)
    ensures HoldsRest(data, at, s)
  {
    IntHeld(net, data, at, s.errCode);
    StringHeld(net, data, at + 4, s.errInfo);
  }

  lemma EndHeld(net: int32 -> seq<byte>, data: seq<byte>, at: int, s: Message)
    requires Sealed(s) && Tails(net, data, at, s)
    ensures var last := at + 12 + |s.errInfo| + |s.pbData|; last < |data| && data[last] == PB_END
  {
    ByteHeld(data, at + 12 + |s.errInfo| + |s.pbData|, PB_END);
  }

  lemma HeadHeld(net: int32 -> seq<byte>, data: seq<byte>, i: int, s: Message)
    requires ReadsBack(net) && Sealed(s) && At(data, i, LayoutWith(net, s))
    ensures HoldsNames(data, i, s) && data[i] == PB_START
  {
    LayoutPieces(net, data, i, s);
    NamesHeld(net, data, i, s);
  }

  lemma TailHeld(net: int32 -> seq<byte>, data: seq<byte>, i: int, s: Message)
    requires ReadsBack(net) && Sealed(s) && At(data, i, LayoutWith(net, s))
    ensures HoldsRest(data, i + 13 + |s.msgId| + |s.methodName|, s)
  {
    LayoutPieces(net, data, i, s);
    RestHeld(net, data, i + 13 + |s.msgId| + |s.methodName|, s);
  }

  lemma LastHeld(net: int32 -> seq<byte>, data: seq<byte>, i: int, s: Message)
    requires Sealed(s) && 0 <= i && Tails(net, data, i + 13 + |s.msgId| + |s.methodName|, s)
    ensures i + s.pkLen + s.errInfoLen <= |data| && data[i + s.pkLen + s.errInfoLen - 1] == PB_END
  {
    EndHeld(net, data, i + 13 + |s.msgId| + |s.methodName|, s);
    EndIs(i, i + 13 + |s.msgId| + |s.methodName|, s);
  }

  lemma FieldsHeld(net: int32 -> seq<byte>, data: seq<byte>, i: int, s: Message)
    requires ReadsBack(net) && Sealed(s) && At(data, i, LayoutWith(net, s))
    ensures HoldsFields(data, i, s) && data[i] == PB_START
    ensures i + s.pkLen + s.errInfoLen <= |data| && data[i + s.pkLen + s.errInfoLen - 1] == PB_END
  {
    HeadHeld(net, data, i, s);
    TailHeld(net, data, i, s);
    LayoutPieces(net, data, i, s);
    LastHeld(net, data, i, s);
  }

  /** Where the end byte stands, counted from either end of the frame. */
  lemma EndIs(i: int, at: int, s: Message)
    requires Sealed(s) && at == i + 13 + |s.msgId| + |s.methodName|
    ensures at + 12 + |s.errInfo| + |s.pbData| == i + s.pkLen + s.errInfoLen - 1
  {
  }

  /** The encoder's cursor puts each field where the decoder looks for it. */
  lemma FrameOffsets(data: seq<byte>, i: int, s: Message)
    requires Sealed(s) && At(data, i, Layout(s))
    ensures HoldsFields(data, i, s) && data[i] == PB_START
    ensures data[i + s.pkLen + s.errInfoLen - 1] == PB_END
  {
    NetReadsBack();
    FieldsHeld(ToNet, data, i, s);
  }

  /** The field a string read yields, component by component. */
  ghost predicate Reads(r: Field, f: seq<byte>, next: int) {
    r.Field? && r.text == CString(f) && r.len == |f| && r.next == next
  }

  lemma FieldRead(data: seq<byte>, at: int, end: int, cap: int, f: seq<byte>)
    requires HoldsString(data, at, f) && at < end < |data|
    ensures CStringSafe(f, cap) ==> Reads(StringField(data, at, end, cap), f, at + 4 + |f|)
    ensures !CStringSafe(f, cap) ==> StringField(data, at, end, cap) == Broken
  {
  }

  /** Neither name overflows or fills up the decoder's C array for it. */
  ghost predicate NamesSafe(s: Message) {
    CStringSafe(s.msgId, 100) && CStringSafe(s.methodName, 512)
  }

  /** Both names as C strings. */
  function Truncated(s: Message): Message {
    s.(msgId := CString(s.msgId), methodName := CString(s.methodName))
  }

  lemma PayloadIs(data: seq<byte>, at: int, s: Message, id: Field, name: Field, info: Field)
    requires Sealed(s) && s.errInfo == []
    requires id.Field? && Reads(id, s.msgId, id.next)
    requires Reads(name, s.methodName, at - 8) && Reads(info, [], at)
    requires HoldsInt(data, at - 8, s.errCode) && At(data, at, s.pbData)
    ensures Payload(data, at, s.pkLen, id, name, info) == Parsed(Truncated(s))
  {
  }

  /** From the error code on, when both names have been read. */
  lemma ErrorParses(data: seq<byte>, at: int, end: int, s: Message, id: Field, name: Field)
    requires Sealed(s) && s.errInfo == [] && at + 8 < end < |data|
    requires id.Field? && Reads(id, s.msgId, id.next) && Reads(name, s.methodName, at)
    requires HoldsRest(data, at, s)
    ensures ParseFields(data, at, end, s.pkLen, [id, name]) == Parsed(Truncated(s))
  {
    FieldRead(data, at + 4, end, 512, []);
    var info := StringField(data, at + 4, end, 512);
    PayloadIs(data, at + 8, s, id, name, info);
    assert [id, name] + [info] == [id, name, info];
  }

  /** From the method name on, when the id has been read. */
  lemma NameParses(data: seq<byte>, at: int, rest: int, end: int, s: Message, id: Field)
    requires Sealed(s) && s.errInfo == [] && rest == at + 4 + |s.methodName| && rest + 8 < end < |data|
    requires Reads(id, s.msgId, at)
    requires HoldsString(data, at, s.methodName) && HoldsRest(data, rest, s)
    ensures ParseFields(data, at, end, s.pkLen, [id])
         == if CStringSafe(s.methodName, 512) then Parsed(Truncated(s)) else ParseFault
  {
    FieldRead(data, at, end, 512, s.methodName);
    if CStringSafe(s.methodName, 512) {
      var name := StringField(data, at, end, 512);
      ErrorParses(data, rest, end, s, id, name);
      assert [id] + [name] == [id, name];
    }
  }

  /** What comes of a frame, by what reading its id comes to. */
  ghost predicate GoesOn(data: seq<byte>, end: int, len: int32, id: Field, p: Parse)
    requires end < |data| && (id.Field? ==> 0 <= id.next && |id.text| <= id.len)
  {
    p == if id == Missing then Malformed
         else if id == Broken then ParseFault
         else ParseFields(data, id.next, end, len, [id])
  }

  lemma IdFirst(data: seq<byte>, start: int, len: int32)
    requires 0 <= start && 6 <= len && start + len <= |data|
    ensures var end := start + len - 1;
            GoesOn(data, end, len, StringField(data, start + 5, end, 100), ParseFrame(data, start, len))
  {
    var id := StringField(data, start + 5, start + len - 1, 100);
    assert [] + [id] == [id];
  }

  ghost predicate ParsesAs(p: Parse, s: Message) {
    p == if NamesSafe(s) then Parsed(Truncated(s)) else ParseFault
  }

  /** From the id on. */
  lemma IdParses(data: seq<byte>, i: int, s: Message, p: Parse)
    requires Sealed(s) && s.errInfo == [] && 0 <= i && i + s.pkLen <= |data|
    requires HoldsString(data, i + 5, s.msgId) && HoldsString(data, i + 9 + |s.msgId|, s.methodName)
    requires HoldsRest(data, i + 13 + |s.msgId| + |s.methodName|, s)
    requires var end := i + s.pkLen - 1; GoesOn(data, end, s.pkLen, StringField(data, i + 5, end, 100), p)
    ensures ParsesAs(p, s)
  {
    var end := i + s.pkLen - 1;
    FieldRead(data, i + 5, end, 100, s.msgId);
    if CStringSafe(s.msgId, 100) {
      var rest := i + 13 + |s.msgId| + |s.methodName|;
      NameParses(data, i + 9 + |s.msgId|, rest, end, s, StringField(data, i + 5, end, 100));
    }
  }

  lemma NamesParse(data: seq<byte>, i: int, s: Message)
    requires Sealed(s) && s.errInfo == [] && 0 <= i && i + s.pkLen <= |data|
    requires HoldsString(data, i + 5, s.msgId) && HoldsString(data, i + 9 + |s.msgId|, s.methodName)
    requires HoldsRest(data, i + 13 + |s.msgId| + |s.methodName|, s)
    ensures ParsesAs(ParseFrame(data, i, s.pkLen), s)
  {
    IdFirst(data, i, s.pkLen);
    IdParses(data, i, s, ParseFrame(data, i, s.pkLen));
  }

  /** A whole frame is rebuilt, with the names as C strings. */
  lemma FrameParses(data: seq<byte>, i: int, s: Message)
    requires Sealed(s) && s.errInfo == [] && HoldsFields(data, i, s)
    requires 0 <= i && i + s.pkLen <= |data|
    ensures ParsesAs(ParseFrame(data, i, s.pkLen), s)
  {
    NamesParse(data, i, s);
  }

  lemma FrameIsHit(data: seq<byte>, w: int, i: int, s: Message)
    requires Sealed(s) && s.errInfo == [] && At(data, i, Layout(s))
    requires i + s.pkLen <= w <= |data| <= INT_MAX
    ensures Probe(data, w, i) == Hit(s.pkLen)
  {
    FrameOffsets(data, i, s);
  }
}
