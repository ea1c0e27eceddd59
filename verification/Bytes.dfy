// Byte strings and 32-bit integers in network byte order (hl/common/util.cc and the
// htonl calls of hl/net/coder/tinypb_coder.cc).

module Bytes {
  type byte = x: int | 0 <= x < 256

  const INT_MAX: int := 0x7fff_ffff

  type int32 = x: int | -0x8000_0000 <= x <= 0x7fff_ffff

  /** The four bytes that `htonl` followed by `memcpy` lays down, most significant first. */
  function ToNet(n: int32): (s: seq<byte>)
    ensures |s| == 4
  {
    var u := if n < 0 then n + 0x1_0000_0000 else n;
    [u / 0x100_0000, u / 0x1_0000 % 0x100, u / 0x100 % 0x100, u % 0x100]
  }

  /** The bytes from `lo` up to `hi` as a signed big-endian integer: the top byte carries the sign. */
  function Signed(data: seq<byte>, lo: int, hi: int): (n: int)
    requires 0 <= lo < hi <= |data| && hi - lo <= 4
    ensures hi - lo == 1 ==> -0x80 <= n < 0x80
    ensures hi - lo == 2 ==> -0x8000 <= n < 0x8000
    ensures hi - lo == 3 ==> -0x80_0000 <= n < 0x80_0000
    ensures hi - lo == 4 ==> -0x8000_0000 <= n < 0x8000_0000
    decreases hi - lo
  {
    var x: int := data[hi - 1];
    if hi == lo + 1 then (if x >= 128 then x - 256 else x) else Signed(data, lo, hi - 1) * 0x100 + x
  }

  /** `getInt32FromNetByte` at an address inside `data`. */
  function IntAt(data: seq<byte>, at: int): (n: int32)
    requires 0 <= at && at + 4 <= |data|
  {
    Signed(data, at, at + 4)
  }

  lemma IntAtIs(data: seq<byte>, at: int)
    requires 0 <= at && at + 4 <= |data|
    ensures var a: int, b: int, c: int, d: int := data[at], data[at + 1], data[at + 2], data[at + 3];
            IntAt(data, at) == (((if a >= 128 then a - 256 else a) * 0x100 + b) * 0x100 + c) * 0x100 + d
  {
    assert Signed(data, at, at + 2) == Signed(data, at, at + 1) * 0x100 + data[at + 1];
    assert Signed(data, at, at + 3) == Signed(data, at, at + 2) * 0x100 + data[at + 2];
  }

  lemma SameInt(data: seq<byte>, at: int, data': seq<byte>, at': int)
    requires 0 <= at && at + 4 <= |data| && 0 <= at' && at' + 4 <= |data'|
    requires data[at..at + 4] == data'[at'..at' + 4]
    ensures IntAt(data, at) == IntAt(data', at')
  {
    IntAtIs(data, at);
    IntAtIs(data', at');
    var s, s' := data[at..at + 4], data'[at'..at' + 4];
    assert s[0] == s'[0] && s[1] == s'[1] && s[2] == s'[2] && s[3] == s'[3];
  }

  lemma NetRoundTrip(n: int32)
    ensures IntAt(ToNet(n), 0) == n
  {
    var u := if n < 0 then n + 0x1_0000_0000 else n;
    assert u / 0x1_0000 == (u / 0x100_0000) * 0x100 + u / 0x1_0000 % 0x100;
    assert u / 0x100 == (u / 0x1_0000) * 0x100 + u / 0x100 % 0x100;
    IntAtIs(ToNet(n), 0);
  }

  lemma Quotients(a: int, b: int, c: int, d: int)
    requires 0 <= a < 256 && 0 <= b < 256 && 0 <= c < 256 && 0 <= d < 256
    ensures var u := ((a * 0x100 + b) * 0x100 + c) * 0x100 + d;
            u / 0x100_0000 == a && u / 0x1_0000 % 0x100 == b && u / 0x100 % 0x100 == c && u % 0x100 == d
  {
    var u := ((a * 0x100 + b) * 0x100 + c) * 0x100 + d;
    assert u / 0x100 == (a * 0x100 + b) * 0x100 + c;
    assert u / 0x1_0000 == a * 0x100 + b;
  }

  /** Every four bytes are the layout of the integer they read as, so the two are inverse both ways. */
  lemma NetSurjective(s: seq<byte>)
    requires |s| == 4
    ensures ToNet(IntAt(s, 0)) == s
  {
    IntAtIs(s, 0);
    Quotients(s[0], s[1], s[2], s[3]);
  }

  /** A four-byte integer layout that `getInt32FromNetByte` reads back. */
  ghost predicate ReadsBack(net: int32 -> seq<byte>) {
    forall n: int32 :: |net(n)| == 4 && IntAt(net(n), 0) == n
  }

  lemma NetReadsBack()
    ensures ReadsBack(ToNet)
  {
    forall n: int32
      ensures |ToNet(n)| == 4 && IntAt(ToNet(n), 0) == n
    {
      NetRoundTrip(n);
    }
  }

  function Zeros(n: nat): (s: seq<byte>)
    ensures |s| == n
  {
    seq(n, _ => 0)
  }

  function Min(a: int, b: int): int {
    if a <= b then a else b
  }

  /** What `std::string(const char*)` keeps of a character buffer: everything before the first NUL. */
  function CString(s: seq<byte>): (t: seq<byte>)
    ensures |t| <= |s|
  {
    if s == [] || s[0] == 0 then [] else [s[0]] + CString(s[1..])
  }

  /** It is the longest prefix without a NUL, so it is all of `s` exactly when `s` holds none. */
  lemma {:induction false} CStringIs(s: seq<byte>)
    ensures CString(s) <= s && 0 !in CString(s)
    ensures |CString(s)| < |s| ==> s[|CString(s)|] == 0
    ensures 0 !in s <==> CString(s) == s
  {
    if s == [] {
    } else if s[0] != 0 {
      CStringIs(s[1..]);
      assert s == [s[0]] + s[1..];
    }
  }

  lemma Assoc<T>(a: seq<T>, b: seq<T>, c: seq<T>)
    ensures a + (b + c) == (a + b) + c
  {
  }

  /** A run of byte strings laid end to end. */
  function Flatten(parts: seq<seq<byte>>): (s: seq<byte>) {
    if parts == [] then [] else parts[0] + Flatten(parts[1..])
  }

  lemma {:induction false} FlattenConcat(a: seq<seq<byte>>, b: seq<seq<byte>>)
    ensures Flatten(a + b) == Flatten(a) + Flatten(b)
  {
    if a == [] {
      assert a + b == b;
    } else {
      assert (a + b)[1..] == a[1..] + b;
      FlattenConcat(a[1..], b);
    }
  }
}
