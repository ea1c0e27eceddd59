// hl/net/fd_event_group.cc: one FdEvent per descriptor number, in a table that grows on demand.

module FdEventGroups {
  import opened EventLoops

  /** The table's size after a request: 1.5 times the number when it does not fit. */
  function Grown(size: nat, fd: nat): (n: nat)
    ensures size <= n
  {
    if fd < size || 3 * fd / 2 < size then size else 3 * fd / 2
  }

  /** The table grows to one and a half times the number asked for, and only when that is beyond its end. */
  lemma GrownIs(size: nat, fd: nat)
    ensures var n := Grown(size, fd);
            && size <= n && (n != size ==> size <= fd && 2 * n <= 3 * fd)
            && (size <= fd ==> 3 * fd < 2 * n + 2)
  {
  }

  /** The request is served exactly when the number fits or is at least 2, because 1.5 * 1 is 1. */
  lemma ServedIff(size: nat, fd: nat)
    ensures fd < Grown(size, fd) <==> fd < size || 2 <= fd
  {
  }

  /** The size after a run of requests. */
  function GrownAll(size: nat, fds: seq<nat>): (n: nat)
    decreases |fds|
  {
    if fds == [] then size else GrownAll(Grown(size, fds[0]), fds[1..])
  }

  /** From a table of 2 or more, every request of every run is served, and stays served. */
  lemma {:induction false} AllServed(size: nat, fds: seq<nat>)
    requires 2 <= size
    ensures size <= GrownAll(size, fds) && forall fd | fd in fds :: fd < GrownAll(size, fds)
    decreases |fds|
  {
    if fds == [] {
    } else {
      ServedIff(size, fds[0]);
      AllServed(Grown(size, fds[0]), fds[1..]);
      assert forall fd | fd in fds :: fd == fds[0] || fd in fds[1..];
    }
  }

  class FdEventGroup {
    var fdGroup: seq<FdEvent>

    /** Slot `i` belongs to descriptor `i`, so no two slots hold the same event. */
    ghost predicate Valid()
      reads this
    {
      forall i :: 0 <= i < |fdGroup| ==> fdGroup[i].fd == i
    }

    constructor (size: nat)
      ensures Valid() && |fdGroup| == size && forall i :: 0 <= i < size ==> fresh(fdGroup[i])
    {
      var group: seq<FdEvent> := [];
      for i := 0 to size
        invariant |group| == i && forall k :: 0 <= k < i ==> group[k].fd == k && fresh(group[k])
      {
        var event := new FdEvent(i);
        group := group + [event];
      }
      fdGroup := group;
    }

    /** `getFdEvent`; null stands for a read outside the table: below it for a negative number, or beyond it. */
    method GetFdEvent(fd: int) returns (event: FdEvent?)
      requires Valid()
      modifies this
      ensures Valid() && old(fdGroup) <= fdGroup
      ensures |fdGroup| == if fd < 0 then |old(fdGroup)| else Grown(|old(fdGroup)|, fd)
      ensures forall i :: |old(fdGroup)| <= i < |fdGroup| ==> fresh(fdGroup[i])
      ensures event != null <==> 0 <= fd && (fd < |old(fdGroup)| || 2 <= fd)
      ensures event != null ==> fd < |fdGroup| && event == fdGroup[fd] && event.fd == fd
    {
      if fd < |fdGroup| {
        return if 0 <= fd then fdGroup[fd] else null;
      }
      var newSize := 3 * fd / 2;
      ghost var was := fdGroup;
      while |fdGroup| < newSize
        invariant Valid() && was <= fdGroup && |fdGroup| <= if newSize < |was| then |was| else newSize
        invariant forall i :: |was| <= i < |fdGroup| ==> fresh(fdGroup[i])
      {
        var more := new FdEvent(|fdGroup|);
        fdGroup := fdGroup + [more];
      }
      event := if fd < |fdGroup| then fdGroup[fd] else null;
    }
  }
}
