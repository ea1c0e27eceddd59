// hl/net/timer.cc and hl/net/timer_event.cc: a multimap of events by arrival time and a one-shot
// alarm.
//
// The state is a value over an opaque type E of event identities; the class Timer holds TimerEvent
// objects and every method is proved equal to one function on that value.  A method reads the clock
// once (`now`), and the callbacks that `onTimer` runs at its end are returned as a list.

module Timers {
  type Task = nat

  /** A TimerEvent. */
  datatype Info = Info(arrive: int, interval: int, repeated: bool, cancelled: bool, task: Task)

  /** A multimap entry: the key it was inserted under and the event it points to. */
  datatype Entry<E> = Entry(key: int, ev: E, info: Info)

  /** The timer descriptor: disarmed, or due at a time, and readable from then on until it is read. */
  datatype Alarm = Disarmed | DueAt(at: int)

  datatype State<E> = State(pending: seq<Entry<E>>, alarm: Alarm)

  // ---------------------------------------------------------------- the multimap

  /** `std::multimap::emplace`: behind every entry whose key is not greater. */
  function Insert<E>(pending: seq<Entry<E>>, e: Entry<E>): (p: seq<Entry<E>>)
    ensures |p| == |pending| + 1
  {
    if pending == [] || e.key < pending[0].key then [e] + pending
    else [pending[0]] + Insert(pending[1..], e)
  }

  /** Erase the first entry with this key and event. */
  function Remove<E(==)>(pending: seq<Entry<E>>, key: int, ev: E): (p: seq<Entry<E>>)
    ensures |p| <= |pending|
  {
    if pending == [] then []
    else if pending[0].key == key && pending[0].ev == ev then pending[1..]
    else [pending[0]] + Remove(pending[1..], key, ev)
  }

  /** `setCancle(true)` on an event, as seen through every entry that points to it. */
  function Flagged<E(==)>(pending: seq<Entry<E>>, ev: E): (p: seq<Entry<E>>)
    ensures |p| == |pending|
    ensures forall k | 0 <= k < |p| :: p[k].key == pending[k].key && p[k].ev == pending[k].ev
    ensures forall k | 0 <= k < |p| ::
              p[k].info == if p[k].ev == ev then pending[k].info.(cancelled := true) else pending[k].info
  {
    seq(|pending|, k requires 0 <= k < |pending| =>
      if pending[k].ev == ev then pending[k].(info := pending[k].info.(cancelled := true)) else pending[k])
  }

  // ---------------------------------------------------------------- the alarm

  /** Milliseconds until the event, or 100 when it is due already. */
  function Interval(arrive: int, now: int): (i: int)
    ensures 0 < i && now + i <= if arrive > now + 100 then arrive else now + 100
  {
    if arrive > now then arrive - now else 100
  }

  /** The `timespec` an interval is split into. */
  function Seconds(interval: int): int { interval / 1000 }

  function Nanoseconds(interval: int): int { interval % 1000 * 1000000 }

  /** The split is exact and normalised, so `timerfd_settime` neither rejects nor disarms. */
  lemma SplitIsExact(arrive: int, now: int)
    ensures var i := Interval(arrive, now);
            && Seconds(i) * 1000000000 + Nanoseconds(i) == i * 1000000
            && 0 <= Seconds(i) && 0 <= Nanoseconds(i) < 1000000000
            && (Seconds(i) != 0 || Nanoseconds(i) != 0)
  {
  }

  /** `resetArriveTime` of the timer: armed for the first event, or left alone when there is none. */
  function Arm<E>(s: State<E>, now: int): (s': State<E>)
    ensures s'.pending == s.pending
  {
    if s.pending == [] then s
    else s.(alarm := DueAt(now + Interval(s.pending[0].info.arrive, now)))
  }

  // ---------------------------------------------------------------- operations

  /** `addTimerEvent`. */
  function Add<E>(s: State<E>, ev: E, info: Info, now: int): (s': State<E>)
    ensures s'.pending == Insert(s.pending, Entry(info.arrive, ev, info))
  {
    var reset := s.pending == [] || s.pending[0].info.arrive > info.arrive;
    var s' := s.(pending := Insert(s.pending, Entry(info.arrive, ev, info)));
    if reset then Arm(s', now) else s'
  }

  /** `deleteTimerEvent` of an event whose arrival time is `arrive`. */
  function Delete<E(==)>(s: State<E>, ev: E, arrive: int): State<E> {
    s.(pending := Remove(Flagged(s.pending, ev), arrive, ev))
  }

  /** `setCancle(true)` called on the event itself. */
  function Cancel<E(==)>(s: State<E>, ev: E): State<E> {
    s.(pending := Flagged(s.pending, ev))
  }

  predicate Due<E>(e: Entry<E>, now: int) {
    e.key <= now
  }

  /**
   * Where the loop of `onTimer` ends: at the first entry that is due and cancelled, otherwise at
   * the end of the map, because an entry that is not due does not stop it.
   */
  function Cut<E>(pending: seq<Entry<E>>, now: int): (k: nat)
    ensures k <= |pending|
  {
    if pending == [] || (Due(pending[0], now) && pending[0].info.cancelled) then 0
    else 1 + Cut(pending[1..], now)
  }

  /** The due entries among those the loop passed. */
  function Ripe<E>(passed: seq<Entry<E>>, now: int): seq<Entry<E>> {
    if passed == [] then []
    else RipeOne(passed[0], now) + Ripe(passed[1..], now)
  }

  function RipeOne<E>(e: Entry<E>, now: int): seq<Entry<E>> {
    if Due(e, now) then [e] else []
  }

  function Tasks<E>(es: seq<Entry<E>>): (ts: seq<Task>)
    ensures |ts| == |es| && forall k | 0 <= k < |es| :: ts[k] == es[k].info.task
  {
    seq(|es|, k requires 0 <= k < |es| => es[k].info.task)
  }

  /** The event with its arrival time set to one interval from now. */
  function Renewed(info: Info, now: int): Info {
    info.(arrive := now + info.interval)
  }

  /** The second loop of `onTimer`: repeating events get a new arrival time and are added again. */
  function Readd<E>(s: State<E>, ripe: seq<Entry<E>>, now: int): State<E>
    decreases |ripe|
  {
    if ripe == [] then s
    else
      var e := ripe[0];
      Readd(if e.info.repeated then Add(s, e.ev, Renewed(e.info, now), now) else s, ripe[1..], now)
  }

  datatype Firing<E> = Firing(s: State<E>, tasks: seq<Task>)

  /** `onTimer`: the descriptor is read, the passed entries are erased, the alarm is set again. */
  function Fired<E>(s: State<E>, now: int): Firing<E> {
    var k := Cut(s.pending, now);
    var ripe := Ripe(s.pending[..k], now);
    Firing(Arm(Readd(State(s.pending[k..], Disarmed), ripe, now), now), Tasks(ripe))
  }

  // ---------------------------------------------------------------- the objects

  class TimerEvent {
    var arriveTime: int
    var interval: int
    var isRepeated: bool
    var isCancelled: bool
    var task: Task

    ghost function Value(): Info
      reads this
    {
      Info(arriveTime, interval, isRepeated, isCancelled, task)
    }

    constructor (interval: int, isRepeated: bool, cb: Task, now: int)
      ensures Value() == Info(now + interval, interval, isRepeated, false, cb)
    {
      this.interval, this.isRepeated, task, isCancelled := interval, isRepeated, cb, false;
      arriveTime := now + interval;
    }

    method SetCancel(value: bool)
      modifies this
      ensures Value() == old(Value()).(cancelled := value)
    {
      isCancelled := value;
    }

    method ResetArriveTime(now: int)
      modifies this
      ensures Value() == Renewed(old(Value()), now)
    {
      arriveTime := now + interval;
    }
  }

  type Pending = seq<(int, TimerEvent)>

  function Events(pending: Pending): (es: seq<TimerEvent>)
    ensures |es| == |pending| && forall k | 0 <= k < |es| :: es[k] == pending[k].1
  {
    seq(|pending|, k requires 0 <= k < |pending| => pending[k].1)
  }

  /** The map's entries with what the events hold now. */
  ghost function Entries(pending: Pending): (es: seq<Entry<TimerEvent>>)
    reads Events(pending)
    ensures |es| == |pending|
    ensures forall k | 0 <= k < |es| :: es[k] == Entry(pending[k].0, pending[k].1, pending[k].1.Value())
  {
    seq(|pending|, k requires 0 <= k < |pending| reads Events(pending) =>
      assert Events(pending)[k] == pending[k].1;
      Entry(pending[k].0, pending[k].1, pending[k].1.Value()))
  }

  ghost predicate Sorted<E>(es: seq<Entry<E>>) {
    forall i, j :: 0 <= i < j < |es| ==> es[i].key <= es[j].key
  }

  ghost predicate Distinct<E>(es: seq<Entry<E>>) {
    forall i, j :: 0 <= i < j < |es| ==> es[i].ev != es[j].ev
  }

  lemma {:induction false} InsertAt<E>(p: seq<Entry<E>>, e: Entry<E>, i: nat)
    requires i <= |p| && (forall k | 0 <= k < i :: p[k].key <= e.key) && (i < |p| ==> e.key < p[i].key)
    ensures Insert(p, e) == p[..i] + [e] + p[i..]
  {
    if i == 0 {
    } else {
      InsertAt(p[1..], e, i - 1);
    }
  }

  /** No entry before the `i`th has this key and event. */
  ghost predicate Lacks<E>(p: seq<Entry<E>>, key: int, ev: E, i: int) {
    forall k | 0 <= k < i && k < |p| :: p[k].key != key || p[k].ev != ev
  }

  /** The loop of `onTimer` passes the first `k` entries. */
  ghost predicate Passed<E>(p: seq<Entry<E>>, now: int, k: int) {
    forall j | 0 <= j < k && j < |p| :: !(Due(p[j], now) && p[j].info.cancelled)
  }

  /** Erasing the entry at `i` when no earlier entry has this key and event, or none when `i` is the end. */
  lemma {:induction false} RemoveAt<E>(p: seq<Entry<E>>, key: int, ev: E, i: nat)
    requires i <= |p| && Lacks(p, key, ev, i)
    requires i < |p| ==> p[i].key == key && p[i].ev == ev
    ensures Remove(p, key, ev) == if i < |p| then p[..i] + p[i + 1..] else p
  {
    if i == 0 {
    } else {
      RemoveAt(p[1..], key, ev, i - 1);
    }
  }

  lemma {:induction false} CutAt<E>(p: seq<Entry<E>>, now: int, k: nat)
    requires k <= |p| && Passed(p, now, k)
    requires k < |p| ==> Due(p[k], now) && p[k].info.cancelled
    ensures Cut(p, now) == k
  {
    if k == 0 {
    } else {
      CutAt(p[1..], now, k - 1);
    }
  }

  lemma {:induction false} RipeSnoc<E>(p: seq<Entry<E>>, e: Entry<E>, now: int)
    ensures Ripe(p + [e], now) == Ripe(p, now) + RipeOne(e, now)
  {
    if p == [] {
      assert p + [e] == [e] && [e][1..] == [];
    } else {
      assert (p + [e])[1..] == p[1..] + [e];
      RipeSnoc(p[1..], e, now);
    }
  }

  ghost predicate Absent<E>(es: seq<Entry<E>>, ev: E) {
    forall k | 0 <= k < |es| :: es[k].ev != ev
  }

  lemma {:induction false} InsertAbsent<E>(p: seq<Entry<E>>, e: Entry<E>, ev: E)
    requires Absent(p, ev) && e.ev != ev
    ensures Absent(Insert(p, e), ev)
  {
    if p == [] {
    } else if e.key >= p[0].key {
      InsertAbsent(p[1..], e, ev);
    }
  }

  lemma {:induction false} RipeWithin<E>(p: seq<Entry<E>>, now: int)
    ensures forall e | e in Ripe(p, now) :: e in p
  {
    if p == [] {
    } else {
      RipeWithin(p[1..], now);
    }
  }

  lemma DistinctTail<E>(p: seq<Entry<E>>)
    requires p != [] && Distinct(p)
    ensures Distinct(p[1..]) && forall e | e in p[1..] :: e.ev != p[0].ev
  {
    forall e | e in p[1..]
      ensures e.ev != p[0].ev
    {
      var j :| 0 <= j < |p[1..]| && p[1..][j] == e;
      assert p[j + 1] == e;
    }
  }

  lemma {:induction false} RipeDistinct<E>(p: seq<Entry<E>>, now: int)
    requires Distinct(p)
    ensures Distinct(Ripe(p, now))
  {
    if p == [] {
    } else {
      DistinctTail(p);
      RipeDistinct(p[1..], now);
      RipeWithin(p[1..], now);
    }
  }

  /** The ripe entries of a prefix are distinct from each other and from the entries that stay. */
  lemma RipeApart<E>(p: seq<Entry<E>>, k: nat, now: int)
    requires Distinct(p) && k <= |p|
    ensures Distinct(Ripe(p[..k], now))
    ensures forall e | e in Ripe(p[..k], now) :: e in p && Absent(p[k..], e.ev)
  {
    RipeDistinct(p[..k], now);
    RipeWithin(p[..k], now);
  }

  class Timer {
    var pendingEvents: Pending
    var alarm: Alarm

    ghost function Value(): State<TimerEvent>
      reads this, Events(pendingEvents)
    {
      State(Entries(pendingEvents), alarm)
    }

    constructor ()
      ensures Value() == State([], Disarmed)
    {
      pendingEvents, alarm := [], Disarmed;
    }

    /** `resetArriveTime`. */
    method ResetArriveTime(now: int)
      modifies this`alarm
      ensures Value() == Arm(old(Value()), now)
    {
      if |pendingEvents| == 0 {
        return;
      }
      var first := pendingEvents[0].1;
      assert first == Events(pendingEvents)[0];
      var interval := if first.arriveTime > now then first.arriveTime - now else 100;
      alarm := DueAt(now + interval);
    }

    /** `m_pending_events.emplace`. */
    method Emplace(key: int, event: TimerEvent)
      modifies this`pendingEvents
      ensures Entries(pendingEvents) == Insert(old(Entries(pendingEvents)), Entry(key, event, event.Value()))
      ensures alarm == old(alarm)
    {
      ghost var es := Entries(pendingEvents);
      var i := 0;
      while i < |pendingEvents| && pendingEvents[i].0 <= key
        invariant i <= |pendingEvents| && forall k | 0 <= k < i :: es[k].key <= key
      {
        i := i + 1;
      }
      InsertAt(es, Entry(key, event, event.Value()), i);
      pendingEvents := pendingEvents[..i] + [(key, event)] + pendingEvents[i..];
      assert Entries(pendingEvents) == es[..i] + [Entry(key, event, event.Value())] + es[i..];
    }

    /** `addTimerEvent`. */
    method AddTimerEvent(event: TimerEvent, now: int)
      modifies this
      ensures Value() == Add(old(Value()), event, event.Value(), now)
    {
      var isReset := |pendingEvents| == 0 || pendingEvents[0].1.arriveTime > event.arriveTime;
      Emplace(event.arriveTime, event);
      if isReset {
        ResetArriveTime(now);
      }
    }

    /** `deleteTimerEvent`. */
    method DeleteTimerEvent(event: TimerEvent)
      requires Sorted(Entries(pendingEvents))
      modifies this`pendingEvents, event
      ensures Value() == Delete(old(Value()), event, event.arriveTime)
      ensures event.Value() == old(event.Value()).(cancelled := true)
    {
      ghost var was := Entries(pendingEvents);
      event.SetCancel(true);
      assert Entries(pendingEvents) == Flagged(was, event);
      EraseEvent(event);
    }

    /** Search between the bounds of the event's arrival time and erase what is found. */
    method EraseEvent(event: TimerEvent)
      requires Sorted(Entries(pendingEvents))
      modifies this`pendingEvents
      ensures Entries(pendingEvents) == Remove(old(Entries(pendingEvents)), event.arriveTime, event)
    {
      ghost var es, key := Entries(pendingEvents), event.arriveTime;
      var it := FindEvent(event);
      RemoveAt(es, key, event, it);
      if it < |pendingEvents| {
        EraseAt(it);
        assert Entries(pendingEvents) == Remove(es, key, event);
      } else {
        assert Entries(pendingEvents) == es == Remove(es, key, event);
      }
    }

    /** `m_pending_events.erase`. */
    method EraseAt(it: nat)
      requires it < |pendingEvents|
      modifies this`pendingEvents
      ensures Entries(pendingEvents) == old(Entries(pendingEvents)[..it]) + old(Entries(pendingEvents)[it + 1..])
    {
      ghost var es := Entries(pendingEvents);
      pendingEvents := pendingEvents[..it] + pendingEvents[it + 1..];
      assert Entries(pendingEvents) == es[..it] + es[it + 1..];
    }

    /** The position of the event among the entries with its arrival time, or the end of the map. */
    method FindEvent(event: TimerEvent) returns (it: nat)
      requires Sorted(Entries(pendingEvents))
      ensures it <= |pendingEvents|
      ensures it < |pendingEvents| ==>
                Entries(pendingEvents)[it].key == event.arriveTime && Entries(pendingEvents)[it].ev == event
      ensures Lacks(Entries(pendingEvents), event.arriveTime, event, it)
    {
      ghost var es := Entries(pendingEvents);
      it := 0;
      while it < |pendingEvents| && pendingEvents[it].0 < event.arriveTime
        invariant it <= |pendingEvents| && forall k | 0 <= k < it :: es[k].key < event.arriveTime
      {
        it := it + 1;
      }
      while it < |pendingEvents| && pendingEvents[it].0 == event.arriveTime
        invariant it <= |pendingEvents|
        invariant Lacks(es, event.arriveTime, event, it)
      {
        if pendingEvents[it].1 == event {
          return;
        }
        it := it + 1;
      }
      assert forall k | it <= k < |pendingEvents| :: es[k].key >= es[it].key;
      it := |pendingEvents|;
    }

    /** The first loop of `onTimer`: the due events it passes, their callbacks, and where it stops. */
    method Collect(now: int) returns (it: nat, tmps: seq<TimerEvent>, tasks: seq<Task>)
      ensures it == Cut(Entries(pendingEvents), now)
      ensures var ripe := Ripe(Entries(pendingEvents)[..it], now);
              |tmps| == |ripe| && tasks == Tasks(ripe)
              && forall k :: 0 <= k < |tmps| ==> tmps[k] == ripe[k].ev && tmps[k].Value() == ripe[k].info
    {
      ghost var es := Entries(pendingEvents);
      it, tmps, tasks := 0, [], [];
      ghost var ripe: seq<Entry<TimerEvent>> := [];
      while it < |pendingEvents|
        invariant es == Entries(pendingEvents) && it <= |pendingEvents| && ripe == Ripe(es[..it], now)
        invariant |tmps| == |ripe| && tasks == Tasks(ripe)
        invariant forall k :: 0 <= k < |tmps| ==> tmps[k] == ripe[k].ev && tmps[k].Value() == ripe[k].info
        invariant Passed(es, now, it)
      {
        var (key, event) := pendingEvents[it];
        assert es[it] == Entry(key, event, event.Value());
        if key <= now {
          if event.isCancelled {
            break;
          }
          tmps, tasks := tmps + [event], tasks + [event.task];
          ripe := ripe + [es[it]];
        }
        RipeSnoc(es[..it], es[it], now);
        assert es[..it + 1] == es[..it] + [es[it]];
        it := it + 1;
      }
      CutAt(es, now, it);
    }
  
    /** One turn of the second loop of `onTimer`. */
    method Renew(event: TimerEvent, now: int)
      requires Absent(Entries(pendingEvents), event)
      modifies this, event
      ensures Value() == if old(event.isRepeated) then Add(old(Value()), event, Renewed(old(event.Value()), now), now)
                         else old(Value())
    {
      if event.isRepeated {
        ghost var s := Value();
        event.ResetArriveTime(now);
        assert Value() == s;
        AddTimerEvent(event, now);
      }
    }
  
    /** The second loop of `onTimer`. */
    method RenewAll(tmps: seq<TimerEvent>, now: int, ghost ripe: seq<Entry<TimerEvent>>)
      requires |tmps| == |ripe| && Distinct(ripe)
      requires forall k :: 0 <= k < |tmps| ==> tmps[k] == ripe[k].ev && tmps[k].Value() == ripe[k].info
      requires forall k :: 0 <= k < |tmps| ==> Absent(Entries(pendingEvents), tmps[k])
      modifies this, tmps
      ensures Value() == Readd(old(Value()), ripe, now)
    {
      ghost var all := Readd(Value(), ripe, now);
      assert ripe[0..] == ripe;
      for i := 0 to |tmps|
        invariant Readd(Value(), ripe[i..], now) == all
        invariant forall k :: i <= k < |tmps| ==> tmps[k].Value() == ripe[k].info
        invariant forall k :: i <= k < |tmps| ==> Absent(Entries(pendingEvents), tmps[k])
      {
        ghost var p := Entries(pendingEvents);
        assert ripe[i..][0] == ripe[i] && ripe[i..][1..] == ripe[i + 1..];
        Renew(tmps[i], now);
        ghost var info := Renewed(ripe[i].info, now);
        forall k | i < k < |tmps|
          ensures Absent(Entries(pendingEvents), tmps[k])
        {
          InsertAbsent(p, Entry(info.arrive, tmps[i], info), tmps[k]);
        }
      }
    }

    /** `onTimer`; what it returns are the callbacks it then runs, in order. */
    method OnTimer(now: int) returns (tasks: seq<Task>)
      requires Distinct(Entries(pendingEvents))
      modifies this, Events(pendingEvents)
      ensures Firing(Value(), tasks) == Fired(old(Value()), now)
    {
      ghost var es := Entries(pendingEvents);
      var it, tmps;
      it, tmps, tasks := Collect(now);
      alarm := Disarmed;
      pendingEvents := pendingEvents[it..];
      assert Entries(pendingEvents) == es[it..];
      ghost var ripe := Ripe(es[..it], now);
      RipeApart(es, it, now);
      forall k | 0 <= k < |tmps|
        ensures Absent(es[it..], tmps[k]) && tmps[k] in Events(old(pendingEvents))
      {
        assert ripe[k] in ripe;
      }
      RenewAll(tmps, now, ripe);
      ResetArriveTime(now);
    }
  }
}
