// hl/net/io_thread_group.cc: connections are handed to the IO threads round robin.

module IOThreadGroups {
  /** The position that a call hands out; `unset` says that `m_size` is -1. */
  function Turn(index: nat, n: nat, unset: bool): nat {
    if index == n || unset then 0 else index
  }

  /** The positions handed out by `m` calls. */
  function Turns(index: nat, n: nat, m: nat): (ts: seq<nat>)
    ensures |ts| == m
    decreases m
  {
    if m == 0 then [] else [Turn(index, n, false)] + Turns(Turn(index, n, false) + 1, n, m - 1)
  }

  /** Call `k` gets thread `k` modulo the number of threads. */
  lemma {:induction false} RoundRobin(index: nat, n: nat, m: nat, k: nat)
    requires 0 < n && index <= n && k < m
    ensures Turns(index, n, m)[k] == (index + k) % n
    decreases m
  {
    var t := Turn(index, n, false);
    if k > 0 {
      RoundRobin(t + 1, n, m - 1, k - 1);
      if index == n {
        WrapAround(n, k);
      }
    } else if index == n {
      WrapAround(n, 0);
    }
  }

  lemma WrapAround(n: nat, k: nat)
    requires 0 < n
    ensures (n + k) % n == k % n
  {
    var q, r := k / n, k % n;
    assert n + k == n * (q + 1) + r;
    Unique(n, q + 1, r);
  }

  lemma AtLeast(n: nat, d: nat)
    requires 1 <= d
    ensures n <= n * d
  {
  }

  /** Quotient and remainder are the only ones. */
  lemma Unique(n: nat, q: nat, r: nat)
    requires r < n
    ensures (n * q + r) % n == r && (n * q + r) / n == q
  {
    var x := n * q + r;
    var q', r' := x / n, x % n;
    var d := q - q';
    assert n * d == n * q - n * q' == r' - r;
    if d >= 1 {
      AtLeast(n, d);
    }
  }

  function Count(ts: seq<nat>, j: nat): nat {
    multiset(ts)[j]
  }

  /** The first `m` numbers modulo `n`. */
  function Residues(n: nat, m: nat): (rs: seq<nat>)
    requires 0 < n
    ensures |rs| == m && forall k | 0 <= k < m :: rs[k] == k % n
  {
    seq(m, k requires 0 <= k < m => k % n)
  }

  lemma NextQuotient(n: nat, m: nat)
    requires 0 < n
    ensures if m % n == n - 1 then (m + 1) / n == m / n + 1 && (m + 1) % n == 0
            else (m + 1) / n == m / n && (m + 1) % n == m % n + 1
  {
    var q, r := m / n, m % n;
    assert m == n * q + r;
    if r == n - 1 {
      assert m + 1 == n * (q + 1) + 0;
      Unique(n, q + 1, 0);
    } else {
      Unique(n, q, r + 1);
    }
  }

  lemma {:induction false} ResiduesBalanced(n: nat, m: nat, j: nat)
    requires j < n
    ensures Count(Residues(n, m), j) == m / n + if j < m % n then 1 else 0
    decreases m
  {
    if m == 0 {
      Unique(n, 0, 0);
    } else {
      ResiduesBalanced(n, m - 1, j);
      NextQuotient(n, m - 1);
      assert Residues(n, m) == Residues(n, m - 1) + [(m - 1) % n];
    }
  }

  /** After any number of calls, every thread was handed out the rounded-down or the rounded-up share. */
  lemma Balanced(n: nat, m: nat, j: nat)
    requires j < n
    ensures Count(Turns(0, n, m), j) == m / n + if j < m % n then 1 else 0
  {
    forall k | 0 <= k < m
      ensures Turns(0, n, m)[k] == Residues(n, m)[k]
    {
      RoundRobin(0, n, m, k);
    }
    assert Turns(0, n, m) == Residues(n, m);
    ResiduesBalanced(n, m, j);
  }

  class IOThread {
    const id: nat

    constructor (id: nat)
      ensures this.id == id
    {
      this.id := id;
    }
  }

  class IOThreadGroup {
    const size: int
    var groups: seq<IOThread>
    var index: nat

    /** A group without threads never wraps its index. */
    ghost predicate Valid()
      reads this
    {
      |groups| == size && (0 < size ==> index <= size)
    }

    constructor (size: nat)
      ensures Valid() && this.size == size && index == 0
      ensures forall k :: 0 <= k < size ==> groups[k].id == k
    {
      this.size, index := size, 0;
      var made: seq<IOThread> := [];
      for i := 0 to size
        invariant |made| == i && forall k :: 0 <= k < i ==> made[k].id == k
      {
        var thread := new IOThread(i);
        made := made + [thread];
      }
      groups := made;
    }

    /** `getIOThread`; null stands for the read beyond the end that a group without threads makes. */
    method GetIOThread() returns (thread: IOThread?)
      requires Valid()
      modifies this`index
      ensures Valid() && index == Turn(old(index), |groups|, size == -1) + 1
      ensures thread != null <==> groups != []
      ensures thread != null ==> thread == groups[Turn(old(index), |groups|, size == -1)]
    {
      if index == |groups| || size == -1 {
        index := 0;
      }
      thread := if index < |groups| then groups[index] else null;
      index := index + 1;
    }
  }
}
