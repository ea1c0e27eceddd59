// hl/common/msg_id_util.cc: request ids are a decimal counter kept as a digit string, seeded at random.

module MsgIds {
  import opened Bytes
  import opened TinyPB
  import opened TinyPBDecode

  const ID_LENGTH := 20
  const ZERO: byte := 48
  const NINE: byte := 57

  /** The thread's two strings: the last id and the string it is compared with before it is raised. */
  datatype Gen = Gen(id: seq<byte>, max: seq<byte>)

  ghost predicate Digits(s: seq<byte>) {
    forall k | 0 <= k < |s| :: ZERO <= s[k] <= NINE
  }

  predicate AllNines(s: seq<byte>) {
    forall k | 0 <= k < |s| :: s[k] == NINE
  }

  function Nines(n: nat): (s: seq<byte>)
    ensures |s| == n && AllNines(s)
  {
    seq(n, _ => NINE)
  }

  /** The digits of twenty random bytes. */
  function Seeded(random: seq<byte>): (s: seq<byte>)
    ensures |s| == |random| && Digits(s) && forall k | 0 <= k < |s| :: s[k] - 48 == random[k] % 10
  {
    seq(|random|, k requires 0 <= k < |random| => (random[k] % 10 + ZERO) as byte)
  }

  /** Add one: trailing nines become zeros and the digit before them goes up; all nines stay. */
  function Bump(s: seq<byte>): (r: seq<byte>)
    requires Digits(s)
    ensures |r| == |s|
  {
    if AllNines(s) then s
    else
      var n := |s| - 1;
      if s[n] != NINE then s[..n] + [s[n] + 1] else Bump(s[..n]) + [ZERO]
  }

  /** What a call returns when the random device delivers `random`, or nothing. */
  function Next(g: Gen, random: seq<byte>): (g': Gen)
    requires Digits(g.id)
  {
    if g.id == [] || g.id == g.max then
      if |random| != ID_LENGTH then g else Gen(Seeded(random), g.max + Nines(ID_LENGTH))
    else Gen(Bump(g.id), g.max)
  }

  class MsgIDUtil {
    var msgIdNo: seq<byte>
    var maxMsgIdNo: seq<byte>

    constructor ()
      ensures State() == Gen([], [])
    {
      msgIdNo, maxMsgIdNo := [], [];
    }

    function State(): Gen
      reads this
    {
      Gen(msgIdNo, maxMsgIdNo)
    }

    /** The seeding loop, which also lengthens the string of nines. */
    method Seed(random: seq<byte>)
      requires |random| == ID_LENGTH
      modifies this
      ensures State() == Gen(Seeded(random), old(maxMsgIdNo) + Nines(ID_LENGTH))
    {
      var res := random;
      for i := 0 to ID_LENGTH
        invariant |res| == ID_LENGTH && maxMsgIdNo == old(maxMsgIdNo) + Nines(i)
        invariant forall k :: 0 <= k < i ==> res[k] == Seeded(random)[k]
        invariant forall k :: i <= k < ID_LENGTH ==> res[k] == random[k]
      {
        var x := res[i] % 10;
        res := res[i := x + ZERO];
        maxMsgIdNo := maxMsgIdNo + [NINE];
        assert Nines(i + 1) == Nines(i) + [NINE];
      }
      assert res == Seeded(random);
      msgIdNo := res;
    }

    /** The carry loop and the loop that zeroes what it passed. */
    method Increment()
      requires Digits(msgIdNo)
      modifies this`msgIdNo
      ensures msgIdNo == Bump(old(msgIdNo))
    {
      ghost var s := msgIdNo;
      var i := |msgIdNo| - 1;
      while i >= 0 && msgIdNo[i] == NINE
        invariant -1 <= i < |s| && forall k :: i < k < |s| ==> s[k] == NINE
      {
        i := i - 1;
      }
      if i >= 0 {
        msgIdNo := msgIdNo[i := msgIdNo[i] + 1];
        var j := i + 1;
        while j < |msgIdNo|
          invariant i < j <= |s| && |msgIdNo| == |s|
          invariant msgIdNo[..i] == s[..i] && msgIdNo[i] == s[i] + 1
          invariant forall k :: i < k < j ==> msgIdNo[k] == ZERO
          invariant forall k :: j <= k < |s| ==> msgIdNo[k] == s[k]
        {
          msgIdNo := msgIdNo[j := ZERO];
          j := j + 1;
        }
        BumpAt(s, i);
        assert msgIdNo == s[..i] + [s[i] + 1] + seq(|s| - i - 1, _ => ZERO);
      } else {
        assert AllNines(s);
      }
    }

    method GenMsgID(random: seq<byte>) returns (id: seq<byte>)
      requires Digits(msgIdNo)
      modifies this
      ensures State() == Next(old(State()), random)
      ensures id == if (old(msgIdNo) == [] || old(msgIdNo == maxMsgIdNo)) && |random| != ID_LENGTH then [] else msgIdNo
    {
      if msgIdNo == [] || msgIdNo == maxMsgIdNo {
        if |random| != ID_LENGTH {
          return [];
        }
        Seed(random);
      } else {
        Increment();
      }
      id := msgIdNo;
    }
  }

  /** Position `i` is the last one that is not a nine. */
  lemma {:induction false} BumpAt(s: seq<byte>, i: nat)
    requires Digits(s) && i < |s| && s[i] != NINE && forall k :: i < k < |s| ==> s[k] == NINE
    ensures s[i] < NINE && Bump(s) == s[..i] + [s[i] + 1] + seq(|s| - i - 1, _ => ZERO)
    decreases |s|
  {
    var n := |s| - 1;
    if i == n {
    } else {
      BumpAt(s[..n], i);
      assert s[..n][..i] == s[..i];
      assert seq(n - i - 1, _ => ZERO) + [ZERO] == seq(|s| - i - 1, _ => ZERO);
    }
  }

  // ---------------------------------------------------------------- the number a string stands for

  function Value(s: seq<byte>): int {
    if s == [] then 0 else 10 * Value(s[..|s| - 1]) + (s[|s| - 1] - ZERO)
  }

  function Pow10(n: nat): (p: nat)
    ensures p > 0
  {
    if n == 0 then 1 else 10 * Pow10(n - 1)
  }

  lemma DigitsInit(s: seq<byte>)
    requires Digits(s) && s != []
    ensures Digits(s[..|s| - 1]) && ZERO <= s[|s| - 1] <= NINE
  {
  }

  lemma NinesInit(s: seq<byte>)
    requires s != []
    ensures AllNines(s) <==> AllNines(s[..|s| - 1]) && s[|s| - 1] == NINE
  {
  }

  /** A digit string is below its power of ten, and one below it exactly when it is all nines. */
  lemma {:induction false} ValueBound(s: seq<byte>)
    requires Digits(s)
    ensures 0 <= Value(s) < Pow10(|s|)
    ensures Value(s) == Pow10(|s|) - 1 <==> AllNines(s)
  {
    if s == [] {
    } else {
      DigitsInit(s);
      NinesInit(s);
      ValueBound(s[..|s| - 1]);
    }
  }

  /** The carry loop adds one, whatever the number of nines it crosses. */
  lemma {:induction false} BumpAddsOne(s: seq<byte>)
    requires Digits(s) && !AllNines(s)
    ensures Digits(Bump(s)) && Value(Bump(s)) == Value(s) + 1
  {
    var n := |s| - 1;
    DigitsInit(s);
    NinesInit(s);
    if s[n] == NINE {
      BumpAddsOne(s[..n]);
      assert (Bump(s[..n]) + [ZERO])[..n] == Bump(s[..n]);
    } else {
      assert (s[..n] + [s[n] + 1])[..n] == s[..n];
    }
  }

  /** `std::string` order. */
  predicate LexLess(a: seq<byte>, b: seq<byte>) {
    b != [] && (a == [] || a[0] < b[0] || (a[0] == b[0] && LexLess(a[1..], b[1..])))
  }

  lemma {:induction false} ValueHead(s: seq<byte>)
    requires s != []
    ensures Value(s) == (s[0] - ZERO) * Pow10(|s| - 1) + Value(s[1..])
  {
    var n := |s| - 1;
    if n == 0 {
    } else {
      ValueHead(s[..n]);
      assert s[..n][1..] == s[1..][..n - 1];
      Distribute(s[0] - ZERO, Pow10(n - 1), Value(s[1..][..n - 1]));
    }
  }

  lemma Distribute(d: int, p: int, v: int)
    ensures 10 * (d * p + v) == d * (10 * p) + 10 * v
  {
  }

  lemma NoLess(k: int, p: int)
    requires 1 <= k && 0 <= p
    ensures k * p >= p
  {
  }

  lemma MoreThanTail(d: int, e: int, p: int, v: int, w: int)
    requires d < e && 0 <= v < p && 0 <= w
    ensures d * p + v < e * p + w
  {
    NoLess(e - d, p);
    assert e * p == d * p + (e - d) * p;
  }

  /** Ids of one length sort as strings the way they sort as numbers. */
  lemma {:induction false} LexIsNumeric(a: seq<byte>, b: seq<byte>)
    requires Digits(a) && Digits(b) && |a| == |b|
    ensures LexLess(a, b) <==> Value(a) < Value(b)
    ensures Value(a) == Value(b) <==> a == b
  {
    if a == [] {
    } else {
      ValueHead(a);
      ValueHead(b);
      LexIsNumeric(a[1..], b[1..]);
      ValueBound(a[1..]);
      ValueBound(b[1..]);
      if a[0] < b[0] {
        MoreThanTail(a[0] - ZERO, b[0] - ZERO, Pow10(|a| - 1), Value(a[1..]), Value(b[1..]));
      } else if b[0] < a[0] {
        MoreThanTail(b[0] - ZERO, a[0] - ZERO, Pow10(|a| - 1), Value(b[1..]), Value(a[1..]));
      } else {
        assert a == [a[0]] + a[1..] && b == [b[0]] + b[1..];
      }
    }
  }

  // ---------------------------------------------------------------- the ids of a thread

  /** The state after `k` more calls, call `i` of which finds `random(i)` in the device. */
  ghost function Calls(g: Gen, k: nat, random: nat -> seq<byte>): (g': Gen)
    requires Digits(g.id)
    ensures Digits(g'.id)
    decreases k
  {
    if k == 0 then g
    else
      var before := Calls(g, k - 1, random);
      NextDigits(before, random(k - 1));
      Next(before, random(k - 1))
  }

  lemma NextDigits(g: Gen, random: seq<byte>)
    requires Digits(g.id)
    ensures Digits(Next(g, random).id)
  {
    if !AllNines(g.id) {
      BumpAddsOne(g.id);
    }
  }

  /** Just seeded for the `epochs`th time. */
  ghost predicate Fresh(g: Gen, epochs: nat) {
    |g.id| == ID_LENGTH && Digits(g.id) && g.max == Nines(ID_LENGTH * epochs)
  }

  /** Before it runs out, the `k`th id after a seed is the seed plus `k`, in twenty digits. */
  lemma {:induction false} CountsUp(g: Gen, epochs: nat, k: nat, random: nat -> seq<byte>)
    requires Fresh(g, epochs) && epochs > 0 && Value(g.id) + k < Pow10(ID_LENGTH)
    ensures Fresh(Calls(g, k, random), epochs) && Value(Calls(g, k, random).id) == Value(g.id) + k
    decreases k
  {
    if k == 0 {
    } else {
      CountsUp(g, epochs, k - 1, random);
      NextCounts(Calls(g, k - 1, random), epochs, random(k - 1));
    }
  }

  lemma NextCounts(g: Gen, epochs: nat, random: seq<byte>)
    requires Fresh(g, epochs) && epochs > 0 && Value(g.id) + 1 < Pow10(ID_LENGTH)
    ensures Fresh(Next(g, random), epochs) && Value(Next(g, random).id) == Value(g.id) + 1
  {
    ValueBound(g.id);
    BumpAddsOne(g.id);
    assert AllNines(g.max);
  }

  /** So the ids of a run are pairwise distinct, and increase both as numbers and as strings. */
  lemma IdsIncrease(g: Gen, epochs: nat, j: nat, k: nat, random: nat -> seq<byte>)
    requires Fresh(g, epochs) && epochs > 0 && Value(g.id) + k < Pow10(ID_LENGTH)
    requires j <= k
    ensures var a, b := Calls(g, j, random).id, Calls(g, k, random).id;
            && (a == b <==> j == k) && (j < k <==> LexLess(a, b))
            && Value(b) == Value(a) + (k - j)
  {
    CountsUp(g, epochs, j, random);
    CountsUp(g, epochs, k, random);
    LexIsNumeric(Calls(g, j, random).id, Calls(g, k, random).id);
  }

  /** The first call of a thread. */
  lemma FirstCall(random: seq<byte>)
    requires |random| == ID_LENGTH
    ensures Fresh(Next(Gen([], []), random), 1)
  {
    assert [] + Nines(ID_LENGTH) == Nines(ID_LENGTH);
  }

  /** When a thread's first run is used up the next call seeds again, into an unbounded second run. */
  lemma SecondSeed(g: Gen, random: seq<byte>)
    requires Fresh(g, 1) && AllNines(g.id) && |random| == ID_LENGTH
    ensures Fresh(Next(g, random), 2)
  {
    assert g.id == g.max;
    assert Nines(ID_LENGTH) + Nines(ID_LENGTH) == Nines(ID_LENGTH * 2);
  }

  /**
   * From the second run on the string of nines is longer than an id, so the comparison that should
   * seed again never succeeds: once the id is all nines, every later call returns the same id.
   */
  lemma {:induction false} StuckAtNines(g: Gen, epochs: nat, k: nat, random: nat -> seq<byte>)
    requires Fresh(g, epochs) && epochs > 1 && AllNines(g.id)
    ensures Calls(g, k, random) == g
    decreases k
  {
    if k == 0 {
    } else {
      StuckAtNines(g, epochs, k - 1, random);
    }
  }

  /** A call repeats the id of the call before it exactly when the run is used up and is not the first. */
  lemma RepeatsIff(g: Gen, epochs: nat, random: seq<byte>)
    requires Fresh(g, epochs) && epochs > 1
    ensures Next(g, random).id == g.id <==> Value(g.id) == Pow10(ID_LENGTH) - 1
  {
    ValueBound(g.id);
    if !AllNines(g.id) {
      BumpAddsOne(g.id);
    }
  }

  lemma NextRun(g: Gen, epochs: nat, random: seq<byte>) returns (epochs': nat)
    requires Fresh(g, epochs) && 1 <= epochs <= 2 && |random| == ID_LENGTH
    ensures 1 <= epochs' <= 2 && Fresh(Next(g, random), epochs')
    ensures epochs' == if epochs == 1 && AllNines(g.id) then 2 else epochs
  {
    epochs' := epochs;
    if AllNines(g.id) {
      if epochs == 1 {
        SecondSeed(g, random);
        epochs' := 2;
      }
    } else {
      ValueBound(g.id);
      NextCounts(g, epochs, random);
    }
  }

  /** While the random device delivers, a thread is in its first or second run after any number of calls. */
  lemma {:induction false} TwoRunsAtMost(k: nat, random: nat -> seq<byte>) returns (epochs: nat)
    requires 0 < k && forall i: nat :: |random(i)| == ID_LENGTH
    ensures 1 <= epochs <= 2 && Fresh(Calls(Gen([], []), k, random), epochs)
    decreases k
  {
    if k == 1 {
      FirstCall(random(0));
      epochs := 1;
    } else {
      epochs := TwoRunsAtMost(k - 1, random);
      epochs := NextRun(Calls(Gen([], []), k - 1, random), epochs, random(k - 1));
    }
  }

  /** When the device delivers too little, nothing changes, and only a thread that needs a seed notices. */
  lemma FailedReadIs(g: Gen, random: seq<byte>)
    requires Digits(g.id) && |random| != ID_LENGTH
    ensures g.id == [] || g.id == g.max ==> Next(g, random) == g
    ensures g.id != [] && g.id != g.max ==> Next(g, random).id == Bump(g.id)
  {
  }

  /** Every string of twenty digits can be a seed. */
  lemma AnySeed(digits: seq<byte>)
    requires |digits| == ID_LENGTH && Digits(digits)
    ensures exists random: seq<byte> :: |random| == ID_LENGTH && Next(Gen([], []), random).id == digits
  {
    var random: seq<byte> := seq(ID_LENGTH, k requires 0 <= k < |digits| => digits[k] - ZERO);
    assert Seeded(random) == digits;
    assert Next(Gen([], []), random).id == digits;
  }

  /** A generated id passes through the wire format unharmed. */
  lemma GeneratedIdIsWireSafe(g: Gen, epochs: nat, m: Message)
    requires Fresh(g, epochs) && m.msgId == g.id
    requires m.errInfo == [] && 0 !in m.methodName && |m.methodName| < 512
    ensures WireSafe(m) && WithId(m) == m
  {
  }
}
