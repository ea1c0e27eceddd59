// What the decoder's field reads make of any accepted frame: which reads fail, what a parsed message
// holds, and when encoding it gives the bytes back.

module TinyPBParse {
  import opened Bytes
  import opened TinyPB
  import opened TinyPBStream

  // ---------------------------------------------------------------- one string

  /** A string of `len` bytes stands behind its length at `at`; `text` is what is in front of its first NUL. */
  ghost predicate TextAt(data: seq<byte>, at: int, len: int, text: seq<byte>) {
    && 0 <= at && 0 <= len && at + 4 + len <= |data|
    && len == IntAt(data, at) && text == CString(data[at + 4..at + 4 + len])
  }

  /** The copy of such a string stays inside the frame's array and inside a C array of `cap` bytes. */
  ghost predicate Copyable(data: seq<byte>, at: int, cap: int) {
    && 0 <= at && at + 4 <= |data|
    && var n := IntAt(data, at);
       && 0 <= n && at + 4 + n <= |data|
       && (n < cap || (n == cap && 0 in data[at + 4..at + 4 + n]))
  }

  lemma StringFates(data: seq<byte>, at: int, end: int, cap: int)
    requires 0 <= at && end < |data|
    ensures var f := StringField(data, at, end, cap);
            && (f == Missing <==> at >= end)
            && (f == Broken <==> at < end && !Copyable(data, at, cap))
            && (f.Field? ==> TextAt(data, at, f.len, f.text) && f.next == at + 4 + f.len)
  {
  }

  // ---------------------------------------------------------------- one frame

  /** The offsets of a frame's length fields, given the lengths in front of them. */
  function NameAt(start: int, idLen: int): int { start + 9 + idLen }

  function CodeAt(start: int, idLen: int, nameLen: int): int { start + 13 + idLen + nameLen }

  function DataAt(start: int, idLen: int, nameLen: int, infoLen: int): int { start + 21 + idLen + nameLen + infoLen }

  /** Every part of `m` stands at its offset in the frame. */
  ghost predicate Holds(data: seq<byte>, start: int, len: int, m: Message) {
    var code := CodeAt(start, m.msgIdLen, m.methodNameLen);
    var pb := DataAt(start, m.msgIdLen, m.methodNameLen, m.errInfoLen);
    var n := len - 26 - m.msgIdLen - m.methodNameLen - m.errInfoLen;
    && m.pkLen == len && m.parseSuccess
    && TextAt(data, start + 5, m.msgIdLen, m.msgId)
    && TextAt(data, NameAt(start, m.msgIdLen), m.methodNameLen, m.methodName)
    && 0 <= code && code + 4 <= |data| && m.errCode == IntAt(data, code)
    && TextAt(data, code + 4, m.errInfoLen, m.errInfo)
    && 0 <= pb && 0 <= n && pb + n <= |data| && m.pbData == data[pb..pb + n]
  }

  lemma NameNext(data: seq<byte>, end: int, len: int32, id: Field)
    requires id.Field? && 0 <= id.next && |id.text| <= id.len && end < |data|
    ensures var name := StringField(data, id.next, end, 512);
            ParseFields(data, id.next, end, len, [id])
            == if name == Missing then Malformed
               else if name == Broken then ParseFault
               else ParseFields(data, name.next, end, len, [id, name])
  {
    var name := StringField(data, id.next, end, 512);
    assert [id] + [name] == [id, name];
  }

  lemma InfoLast(data: seq<byte>, end: int, len: int32, id: Field, name: Field)
    requires id.Field? && |id.text| <= id.len && name.Field? && |name.text| <= name.len && 0 <= name.next <= |data|
    requires end < |data|
    ensures ParseFields(data, name.next, end, len, [id, name])
         == if name.next >= end then Malformed
            else if name.next + 4 > |data| then ParseFault
            else
              var info := StringField(data, name.next + 4, end, 512);
              if info == Missing then Malformed
              else if info == Broken then ParseFault
              else Payload(data, info.next, len, id, name, info)
  {
    if name.next < end && name.next + 4 <= |data| {
      var info := StringField(data, name.next + 4, end, 512);
      assert [id, name] + [info] == [id, name, info];
    }
  }

  lemma IdParsed(data: seq<byte>, start: int, len: int32) returns (id: Field)
    requires 0 <= start && 6 <= len && start + len <= |data| && ParseFrame(data, start, len).Parsed?
    ensures id.Field? && TextAt(data, start + 5, id.len, id.text) && id.next == NameAt(start, id.len)
    ensures |id.text| <= id.len
    ensures ParseFrame(data, start, len) == ParseFields(data, id.next, start + len - 1, len, [id])
  {
    id := StringField(data, start + 5, start + len - 1, 100);
    IdFirst(data, start, len);
    StringFates(data, start + 5, start + len - 1, 100);
  }

  lemma NameParsed(data: seq<byte>, end: int, len: int32, id: Field) returns (name: Field)
    requires id.Field? && 0 <= id.next && |id.text| <= id.len && end < |data|
    requires ParseFields(data, id.next, end, len, [id]).Parsed?
    ensures name.Field? && TextAt(data, id.next, name.len, name.text) && name.next == id.next + 4 + name.len
    ensures |name.text| <= name.len && name.next <= |data|
    ensures ParseFields(data, id.next, end, len, [id]) == ParseFields(data, name.next, end, len, [id, name])
  {
    name := StringField(data, id.next, end, 512);
    NameNext(data, end, len, id);
    StringFates(data, id.next, end, 512);
  }

  lemma InfoParsed(data: seq<byte>, end: int, len: int32, id: Field, name: Field) returns (info: Field)
    requires id.Field? && |id.text| <= id.len && name.Field? && |name.text| <= name.len && 0 <= name.next <= |data|
    requires end < |data| && ParseFields(data, name.next, end, len, [id, name]).Parsed?
    ensures info.Field? && name.next + 4 <= |data|
    ensures TextAt(data, name.next + 4, info.len, info.text) && info.next == name.next + 8 + info.len
    ensures ParseFields(data, name.next, end, len, [id, name]) == Payload(data, info.next, len, id, name, info)
  {
    info := StringField(data, name.next + 4, end, 512);
    InfoLast(data, end, len, id, name);
    StringFates(data, name.next + 4, end, 512);
  }

  lemma PayloadHolds(data: seq<byte>, start: int, len: int32, id: Field, name: Field, info: Field, m: Message)
    requires 0 <= start && id.Field? && name.Field? && info.Field?
    requires TextAt(data, start + 5, id.len, id.text) && id.next == NameAt(start, id.len)
    requires TextAt(data, id.next, name.len, name.text) && name.next == id.next + 4 + name.len
    requires TextAt(data, name.next + 4, info.len, info.text) && info.next == name.next + 8 + info.len
    requires Payload(data, info.next, len, id, name, info) == Parsed(m)
    ensures Holds(data, start, len, m)
  {
  }

  /** A parsed message holds exactly what stands at the offsets that its lengths lead to. */
  lemma ParsedHolds(data: seq<byte>, start: int, len: int32, m: Message)
    requires 0 <= start && 6 <= len && start + len <= |data| && ParseFrame(data, start, len) == Parsed(m)
    ensures Holds(data, start, len, m)
  {
    var end := start + len - 1;
    var id := IdParsed(data, start, len);
    var name := NameParsed(data, end, len, id);
    var info := InfoParsed(data, end, len, id, name);
    PayloadHolds(data, start, len, id, name, info, m);
  }

  /** Behind both names: the error code must begin, and the length of the error text, in front of the end byte. */
  ghost predicate StopsAtInfo(data: seq<byte>, at: int, end: int) {
    at >= end || (at + 4 <= |data| && at + 4 >= end)
  }

  /** Behind the id: the length of the method name must, and the name be copyable for the frame to go on. */
  ghost predicate StopsAtName(data: seq<byte>, at: int, end: int) {
    || at >= end
    || (Copyable(data, at, 512) && StopsAtInfo(data, at + 4 + IntAt(data, at), end))
  }

  ghost predicate StopsAtId(data: seq<byte>, at: int, end: int) {
    || at >= end
    || (Copyable(data, at, 100) && StopsAtName(data, at + 4 + IntAt(data, at), end))
  }

  lemma InfoStops(data: seq<byte>, end: int, len: int32, id: Field, name: Field)
    requires id.Field? && |id.text| <= id.len && name.Field? && |name.text| <= name.len && 0 <= name.next <= |data|
    requires end < |data|
    ensures ParseFields(data, name.next, end, len, [id, name]) == Malformed <==> StopsAtInfo(data, name.next, end)
  {
    InfoLast(data, end, len, id, name);
    if name.next + 4 <= |data| {
      StringFates(data, name.next + 4, end, 512);
    }
  }

  lemma NameStops(data: seq<byte>, end: int, len: int32, id: Field)
    requires id.Field? && 0 <= id.next && |id.text| <= id.len && end < |data|
    ensures ParseFields(data, id.next, end, len, [id]) == Malformed <==> StopsAtName(data, id.next, end)
  {
    var name := StringField(data, id.next, end, 512);
    NameNext(data, end, len, id);
    StringFates(data, id.next, end, 512);
    if name.Field? {
      InfoStops(data, end, len, id, name);
    }
  }

  lemma IdStops(data: seq<byte>, at: int, end: int, len: int32, p: Parse)
    requires 0 <= at <= end < |data| && GoesOn(data, end, len, StringField(data, at, end, 100), p)
    ensures p == Malformed <==> StopsAtId(data, at, end)
  {
    var id := StringField(data, at, end, 100);
    StringFates(data, at, end, 100);
    if id.Field? {
      NameStops(data, end, len, id);
    }
  }

  /**
   * A frame is passed over without a message exactly when, with every string in front of it copyable, a
   * length field or the error code begins at the end byte or behind it.
   */
  lemma MalformedIff(data: seq<byte>, start: int, len: int32)
    requires 0 <= start && 6 <= len && start + len <= |data|
    ensures ParseFrame(data, start, len) == Malformed <==> StopsAtId(data, start + 5, start + len - 1)
  {
    IdFirst(data, start, len);
    IdStops(data, start + 5, start + len - 1, len, ParseFrame(data, start, len));
  }

  // ---------------------------------------------------------------- encoding what was parsed

  lemma AtJoin(data: seq<byte>, p: int, s: seq<byte>, rest: seq<byte>)
    requires At(data, p, s) && At(data, p + |s|, rest)
    ensures At(data, p, s + rest)
  {
    assert data[p..p + |s + rest|] == data[p..p + |s|] + data[p + |s|..p + |s + rest|];
  }

  lemma PrefixedJoin(data: seq<byte>, p: int, n: seq<byte>, text: seq<byte>, rest: seq<byte>)
    requires At(data, p, n) && At(data, p + |n|, text) && At(data, p + |n| + |text|, rest)
    ensures At(data, p, Prefixed(n, text, rest))
  {
    AtJoin(data, p + |n|, text, rest);
    AtJoin(data, p, n, text + rest);
  }

  lemma TailJoin(data: seq<byte>, at: int, err: seq<byte>, infoLen: seq<byte>, info: seq<byte>,
                 pb: seq<byte>, check: seq<byte>)
    requires |err| == |infoLen| == |check| == 4 && TailPieces(data, at, err, infoLen, info, pb, check)
    ensures At(data, at, err + Prefixed(infoLen, info, pb + (check + [PB_END])))
  {
    var p5 := pb + (check + [PB_END]);
    AtJoin(data, at + 8 + |info| + |pb|, check, [PB_END]);
    AtJoin(data, at + 8 + |info|, pb, check + [PB_END]);
    PrefixedJoin(data, at + 4, infoLen, info, p5);
    AtJoin(data, at, err, Prefixed(infoLen, info, p5));
  }

  lemma HeadJoin(data: seq<byte>, i: int, pk: seq<byte>, idLen: seq<byte>, id: seq<byte>,
                 nameLen: seq<byte>, name: seq<byte>, rest: seq<byte>)
    requires |pk| == |idLen| == |nameLen| == 4 && HeadPieces(data, i, pk, idLen, id, nameLen, name)
    requires At(data, i + 13 + |id| + |name|, rest)
    ensures At(data, i, [PB_START] + (pk + Prefixed(idLen, id, Prefixed(nameLen, name, rest))))
  {
    PrefixedJoin(data, i + 9 + |id|, nameLen, name, rest);
    var p3 := Prefixed(nameLen, name, rest);
    PrefixedJoin(data, i + 5, idLen, id, p3);
    AtJoin(data, i + 1, pk, Prefixed(idLen, id, p3));
    AtJoin(data, i, [PB_START], pk + Prefixed(idLen, id, p3));
  }

  /** The inverse of the encoder's walk: pieces that stand one behind the other are the walk. */
  lemma WalkJoin(data: seq<byte>, i: int, pk: seq<byte>, idLen: seq<byte>, id: seq<byte>,
                 nameLen: seq<byte>, name: seq<byte>, err: seq<byte>, infoLen: seq<byte>,
                 info: seq<byte>, pb: seq<byte>, check: seq<byte>)
    requires |pk| == |idLen| == |nameLen| == |err| == |infoLen| == |check| == 4
    requires HeadPieces(data, i, pk, idLen, id, nameLen, name)
    requires TailPieces(data, i + 13 + |id| + |name|, err, infoLen, info, pb, check)
    ensures At(data, i, Walk(pk, idLen, id, nameLen, name, err, infoLen, info, pb, check))
  {
    TailJoin(data, i + 13 + |id| + |name|, err, infoLen, info, pb, check);
    HeadJoin(data, i, pk, idLen, id, nameLen, name, err + Prefixed(infoLen, info, pb + (check + [PB_END])));
  }

  /** A frame whose names have no NUL, without error text, and with the checksum and end byte of the encoder. */
  ghost predicate Canonical(data: seq<byte>, start: int, len: int, m: Message) {
    && 0 <= start && start + len <= |data| && 26 <= len && data[start] == PB_START
    && IntAt(data, start + 1) == len
    && m.msgId != [] && |m.msgId| == m.msgIdLen && |m.methodName| == m.methodNameLen
    && m.errInfo == [] && m.errInfoLen == 0
    && data[start + len - 5..start + len] == [0, 0, 0, 1, PB_END]
  }

  /** An integer that was read stands where it was read. */
  lemma IntStands(data: seq<byte>, at: int, n: int32)
    requires 0 <= at && at + 4 <= |data| && IntAt(data, at) == n
    ensures At(data, at, ToNet(n))
  {
    NetSurjective(data[at..at + 4]);
    SameInt(data, at, data[at..at + 4], 0);
  }

  lemma TextStands(data: seq<byte>, at: int, len: int32, text: seq<byte>)
    requires TextAt(data, at, len, text) && |text| == len
    ensures At(data, at, ToNet(len)) && At(data, at + 4, text)
  {
    IntStands(data, at, len);
    CStringIs(data[at + 4..at + 4 + len]);
  }

  lemma CanonicalSealed(data: seq<byte>, start: int, len: int32, m: Message)
    requires Holds(data, start, len, m) && Canonical(data, start, len, m)
    ensures Sealed(m) && |m.pbData| == len - 26 - |m.msgId| - |m.methodName|
  {
  }

  lemma HeadStands(data: seq<byte>, start: int, len: int32, m: Message)
    requires Holds(data, start, len, m) && Canonical(data, start, len, m) && Sealed(m)
    ensures Heads(ToNet, data, start, m)
  {
    assert data[start..start + 1] == [PB_START];
    IntStands(data, start + 1, len);
    TextStands(data, start + 5, m.msgIdLen, m.msgId);
    TextStands(data, NameAt(start, m.msgIdLen), m.methodNameLen, m.methodName);
  }

  lemma CheckStands(data: seq<byte>, end: int)
    requires 5 <= end <= |data| && data[end - 5..end] == [0, 0, 0, 1, PB_END]
    ensures At(data, end - 5, ToNet(1)) && At(data, end - 1, [PB_END])
  {
    var s := data[end - 5..end];
    assert data[end - 5..end - 1] == s[..4] == [0, 0, 0, 1] && data[end - 1..end] == s[4..] == [PB_END];
    IntAtIs(data, end - 5);
    assert data[end - 5] == s[0] && data[end - 4] == s[1] && data[end - 3] == s[2] && data[end - 2] == s[3];
    IntStands(data, end - 5, 1);
  }

  lemma TailStands(data: seq<byte>, start: int, len: int32, m: Message)
    requires Holds(data, start, len, m) && Canonical(data, start, len, m) && Sealed(m)
    ensures Tails(ToNet, data, start + 13 + |m.msgId| + |m.methodName|, m)
  {
    CanonicalSealed(data, start, len, m);
    var at := start + 13 + |m.msgId| + |m.methodName|;
    IntStands(data, at, m.errCode);
    TextStands(data, at + 4, m.errInfoLen, m.errInfo);
    CheckStands(data, start + len);
  }

  lemma PiecesStand(data: seq<byte>, start: int, m: Message)
    requires Sealed(m) && Heads(ToNet, data, start, m)
    requires Tails(ToNet, data, start + 13 + |m.msgId| + |m.methodName|, m)
    ensures At(data, start, Layout(m))
  {
    WalkJoin(data, start, ToNet(m.pkLen), ToNet(m.msgIdLen), m.msgId, ToNet(m.methodNameLen), m.methodName,
             ToNet(m.errCode), ToNet(m.errInfoLen), m.errInfo, m.pbData, ToNet(1));
  }

  lemma CanonicalStands(data: seq<byte>, start: int, len: int32, m: Message)
    requires Holds(data, start, len, m) && Canonical(data, start, len, m)
    ensures Sealed(m) && At(data, start, Layout(m))
  {
    CanonicalSealed(data, start, len, m);
    HeadStands(data, start, len, m);
    TailStands(data, start, len, m);
    PiecesStand(data, start, m);
  }

  /** Encoding a sealed object seals it again and lays it out. */
  lemma SealedFrame(m: Message)
    requires Sealed(m) && m.errInfo == []
    ensures Sizable(m) && Seal(m) == m && Frame(m) == Layout(m) && |Layout(m)| == m.pkLen
  {
  }

  /**
   * Decoding loses nothing of a canonical frame: encoding what was parsed gives its bytes back.  So two
   * such frames that parse to the same message are the same bytes.
   */
  lemma ParseInverts(data: seq<byte>, start: int, len: int32, m: Message)
    requires 0 <= start && 6 <= len && start + len <= |data| && ParseFrame(data, start, len) == Parsed(m)
    requires Canonical(data, start, len, m)
    ensures Sizable(m) && Seal(m) == m && Frame(m) == data[start..start + len]
  {
    ParsedHolds(data, start, len, m);
    CanonicalStands(data, start, len, m);
    SealedFrame(m);
  }
}
