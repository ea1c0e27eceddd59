// Runs of timer operations: the alarm is always set for pending events, which callbacks a pass of
// `onTimer` runs and what it leaves, and how a cancelled event stops the timer.

module TimerRuns {
  import opened Timers

  // ---------------------------------------------------------------- what every operation keeps

  /** Every entry stands under the arrival time of its event. */
  ghost predicate Keyed<E>(p: seq<Entry<E>>) {
    forall k | 0 <= k < |p| :: p[k].key == p[k].info.arrive
  }

  ghost predicate Wellformed<E>(p: seq<Entry<E>>) {
    Sorted(p) && Keyed(p) && Distinct(p)
  }

  function Max(a: int, b: int): int {
    if a >= b then a else b
  }

  /**
   * While events are pending the alarm is set: it has expired already, or will no later than the
   * first event is due or 100 ms from now.
   */
  ghost predicate Armed<E>(s: State<E>, now: int) {
    s.pending != [] ==> s.alarm.DueAt? && s.alarm.at <= Max(s.pending[0].key, now + 100)
  }

  ghost predicate Sound<E>(s: State<E>, now: int) {
    Wellformed(s.pending) && Armed(s, now)
  }

  lemma {:induction false} InsertIs<E>(p: seq<Entry<E>>, e: Entry<E>) returns (i: nat)
    requires Sorted(p)
    ensures i <= |p| && Insert(p, e) == p[..i] + [e] + p[i..]
    ensures (forall k | 0 <= k < i :: p[k].key <= e.key) && (forall k | i <= k < |p| :: e.key < p[k].key)
  {
    i := 0;
    while i < |p| && p[i].key <= e.key
      invariant i <= |p| && forall k | 0 <= k < i :: p[k].key <= e.key
    {
      i := i + 1;
    }
    InsertAt(p, e, i);
  }

  lemma {:induction false} InsertAdds<E>(p: seq<Entry<E>>, e: Entry<E>)
    ensures multiset(Insert(p, e)) == multiset(p) + multiset{e}
  {
    if p == [] || e.key < p[0].key {
      assert Insert(p, e) == [e] + p;
    } else {
      InsertAdds(p[1..], e);
      assert p == [p[0]] + p[1..];
      assert Insert(p, e) == [p[0]] + Insert(p[1..], e);
    }
  }

  lemma InsertKeeps<E>(p: seq<Entry<E>>, e: Entry<E>)
    requires Wellformed(p) && Absent(p, e.ev) && e.key == e.info.arrive
    ensures Wellformed(Insert(p, e))
    ensures Insert(p, e)[0] == if p != [] && p[0].key <= e.key then p[0] else e
  {
    var i := InsertIs(p, e);
  }

  lemma {:induction false} RemoveIs<E>(p: seq<Entry<E>>, key: int, ev: E) returns (i: nat)
    ensures i <= |p| && Remove(p, key, ev) == if i < |p| then p[..i] + p[i + 1..] else p
    ensures Lacks(p, key, ev, i) && (i < |p| ==> p[i].key == key && p[i].ev == ev)
  {
    i := 0;
    while i < |p| && !(p[i].key == key && p[i].ev == ev)
      invariant i <= |p| && Lacks(p, key, ev, i)
    {
      i := i + 1;
    }
    RemoveAt(p, key, ev, i);
  }

  lemma FlaggedKeeps<E>(p: seq<Entry<E>>, ev: E)
    requires Wellformed(p)
    ensures Wellformed(Flagged(p, ev))
  {
  }

  lemma RemoveKeeps<E>(p: seq<Entry<E>>, key: int, ev: E)
    requires Wellformed(p)
    ensures var p' := Remove(p, key, ev); Wellformed(p') && (p' != [] ==> p != [] && p[0].key <= p'[0].key)
  {
    var i := RemoveIs(p, key, ev);
  }

  lemma ArmIsSound<E>(s: State<E>, now: int)
    requires Wellformed(s.pending)
    ensures Sound(Arm(s, now), now)
  {
  }

  lemma AddIsSound<E>(s: State<E>, ev: E, info: Info, now: int)
    requires Sound(s, now) && Absent(s.pending, ev)
    ensures Sound(Add(s, ev, info, now), now)
  {
    InsertKeeps(s.pending, Entry(info.arrive, ev, info));
  }

  lemma DeleteIsSound<E>(s: State<E>, ev: E, arrive: int, now: int)
    requires Sound(s, now)
    ensures Sound(Delete(s, ev, arrive), now) && Sound(Cancel(s, ev), now)
  {
    FlaggedKeeps(s.pending, ev);
    RemoveKeeps(Flagged(s.pending, ev), arrive, ev);
  }

  // ---------------------------------------------------------------- what the operations do

  /** Adding an event adds its entry, and sets the alarm exactly when it becomes the first. */
  lemma AddIs<E>(s: State<E>, ev: E, info: Info, now: int)
    requires Wellformed(s.pending) && Absent(s.pending, ev)
    ensures var s' := Add(s, ev, info, now);
            && multiset(s'.pending) == multiset(s.pending) + multiset{Entry(info.arrive, ev, info)}
            && s'.alarm == if s.pending == [] || info.arrive < s.pending[0].info.arrive
                           then DueAt(if info.arrive > now then info.arrive else now + 100)
                           else s.alarm
  {
    InsertAdds(s.pending, Entry(info.arrive, ev, info));
    InsertKeeps(s.pending, Entry(info.arrive, ev, info));
  }

  /** The alarm is set for exactly the time the first event arrives, or 100 ms from now when it is due. */
  lemma ArmIs<E>(s: State<E>, now: int)
    ensures s.pending == [] ==> Arm(s, now).alarm == s.alarm
    ensures s.pending != [] ==>
              var first := s.pending[0].info.arrive;
              Arm(s, now).alarm == DueAt(if first > now then first else now + 100)
  {
  }

  /** Deleting an event that stands under `arrive` erases its entry and nothing else. */
  lemma DeleteErases<E>(s: State<E>, ev: E, arrive: int, i: nat)
    requires Distinct(s.pending) && i < |s.pending| && s.pending[i].ev == ev && s.pending[i].key == arrive
    ensures var s' := Delete(s, ev, arrive);
            && s'.pending == s.pending[..i] + s.pending[i + 1..] && Absent(s'.pending, ev)
            && multiset(s'.pending) == multiset(s.pending) - multiset{s.pending[i]}
            && s'.alarm == s.alarm
  {
    var p, f := s.pending, Flagged(s.pending, ev);
    RemoveAt(f, arrive, ev, i);
    assert f[..i] == p[..i] && f[i + 1..] == p[i + 1..];
    assert p == p[..i] + [p[i]] + p[i + 1..];
  }

  /** Deleting one that does not stand there erases nothing; its entry, if it has one, is cancelled. */
  lemma DeleteMisses<E>(s: State<E>, ev: E, arrive: int)
    requires forall k | 0 <= k < |s.pending| :: s.pending[k].ev != ev || s.pending[k].key != arrive
    ensures var s' := Delete(s, ev, arrive);
            && s'.alarm == s.alarm && |s'.pending| == |s.pending|
            && forall k | 0 <= k < |s.pending| ::
                 s'.pending[k] == if s.pending[k].ev == ev
                                  then s.pending[k].(info := s.pending[k].info.(cancelled := true))
                                  else s.pending[k]
  {
    RemoveAt(Flagged(s.pending, ev), arrive, ev, |s.pending|);
  }

  // ---------------------------------------------------------------- one pass of onTimer

  /** What the second loop puts back for one entry. */
  function Renewal<E>(e: Entry<E>, now: int): seq<Entry<E>> {
    if e.info.repeated then [Entry(now + e.info.interval, e.ev, Renewed(e.info, now))] else []
  }

  function Renewals<E>(ripe: seq<Entry<E>>, now: int): seq<Entry<E>> {
    if ripe == [] then [] else Renewal(ripe[0], now) + Renewals(ripe[1..], now)
  }

  function ReaddOne<E>(s: State<E>, e: Entry<E>, now: int): State<E> {
    if e.info.repeated then Add(s, e.ev, Renewed(e.info, now), now) else s
  }

  /** No event of `ripe` is pending. */
  ghost predicate Apart<E>(p: seq<Entry<E>>, ripe: seq<Entry<E>>) {
    forall e | e in ripe :: Absent(p, e.ev)
  }

  lemma InsertApart<E>(p: seq<Entry<E>>, e: Entry<E>, rest: seq<Entry<E>>)
    requires Apart(p, rest) && forall r | r in rest :: r.ev != e.ev
    ensures Apart(Insert(p, e), rest)
  {
    forall r | r in rest
      ensures Absent(Insert(p, e), r.ev)
    {
      InsertAbsent(p, e, r.ev);
    }
  }

  lemma ApartTail<E>(p: seq<Entry<E>>, ripe: seq<Entry<E>>)
    requires ripe != [] && Apart(p, ripe)
    ensures Absent(p, ripe[0].ev) && Apart(p, ripe[1..])
  {
    assert ripe[0] in ripe && forall r | r in ripe[1..] :: r in ripe;
  }

  lemma ReaddOneIs<E>(s: State<E>, e: Entry<E>, rest: seq<Entry<E>>, now: int)
    requires Wellformed(s.pending) && Absent(s.pending, e.ev) && Apart(s.pending, rest)
    requires forall r | r in rest :: r.ev != e.ev
    ensures var s' := ReaddOne(s, e, now);
            && Wellformed(s'.pending) && Apart(s'.pending, rest)
            && multiset(s'.pending) == multiset(s.pending) + multiset(Renewal(e, now))
  {
    if e.info.repeated {
      var e' := Entry(now + e.info.interval, e.ev, Renewed(e.info, now));
      InsertKeeps(s.pending, e');
      InsertAdds(s.pending, e');
      InsertApart(s.pending, e', rest);
    }
  }

  lemma {:induction false} ReaddIs<E>(s: State<E>, ripe: seq<Entry<E>>, now: int)
    requires Wellformed(s.pending) && Distinct(ripe) && Apart(s.pending, ripe)
    ensures var s' := Readd(s, ripe, now);
            Wellformed(s'.pending) && multiset(s'.pending) == multiset(s.pending) + multiset(Renewals(ripe, now))
    decreases |ripe|
  {
    if ripe == [] {
    } else {
      DistinctTail(ripe);
      ApartTail(s.pending, ripe);
      ReaddOneIs(s, ripe[0], ripe[1..], now);
      ReaddIs(ReaddOne(s, ripe[0], now), ripe[1..], now);
      MultisetConcat(Renewal(ripe[0], now), Renewals(ripe[1..], now));
    }
  }

  lemma MultisetConcat<E>(a: seq<Entry<E>>, b: seq<Entry<E>>)
    ensures multiset(a + b) == multiset(a) + multiset(b)
  {
  }

  /** The length of the longest prefix of due events none of which is cancelled. */
  function Ready<E>(p: seq<Entry<E>>, now: int): (n: nat)
    ensures n <= |p|
  {
    if p == [] || !Due(p[0], now) || p[0].info.cancelled then 0 else 1 + Ready(p[1..], now)
  }

  /** A cancelled event is due right behind that prefix. */
  predicate Blocked<E>(p: seq<Entry<E>>, now: int) {
    var n := Ready(p, now);
    n < |p| && Due(p[n], now)
  }

  lemma {:induction false} NoneDue<E>(p: seq<Entry<E>>, now: int)
    requires forall k | 0 <= k < |p| :: !Due(p[k], now)
    ensures Cut(p, now) == |p| && Ripe(p, now) == [] && Ready(p, now) == 0
  {
    if p == [] {
    } else {
      NoneDue(p[1..], now);
    }
  }

  /** In a sorted map the loop collects exactly the ready prefix, and stops there or at the end. */
  lemma {:induction false} CutIs<E>(p: seq<Entry<E>>, now: int)
    requires Sorted(p)
    ensures var n := Ready(p, now);
            && Ripe(p[..Cut(p, now)], now) == p[..n]
            && Cut(p, now) == if Blocked(p, now) then n else |p|
  {
    if p == [] {
    } else {
      if !Due(p[0], now) {
        NoneDue(p, now);
        assert p[..|p|] == p;
      } else if !p[0].info.cancelled {
        CutIs(p[1..], now);
        var c := Cut(p[1..], now);
        assert p[..c + 1][1..] == p[1..][..c];
        assert p[..Ready(p, now)] == [p[0]] + p[1..][..Ready(p, now) - 1];
      }
    }
  }

  /**
   * What `onTimer` does.  It runs the callbacks of the ready prefix, in order of arrival.  It leaves
   * the entries from the first due cancelled event on if there is one, and otherwise none of the
   * entries, not even those that are not due; and it puts back the repeating events it ran, one
   * interval from now.
   */
  lemma OnTimerExact<E>(s: State<E>, now: int)
    requires Wellformed(s.pending)
    ensures var p, n, f := s.pending, Ready(s.pending, now), Fired(s, now);
            && f.tasks == Tasks(p[..n])
            && (forall i, j | 0 <= i < j < n :: p[i].info.arrive <= p[j].info.arrive)
            && multiset(f.s.pending)
               == multiset(if Blocked(p, now) then p[n..] else []) + multiset(Renewals(p[..n], now))
            && Sound(f.s, now)
  {
    var k := Cut(s.pending, now);
    CutIs(s.pending, now);
    RipeApart(s.pending, k, now);
    ReaddIs(State(s.pending[k..], Disarmed), Ripe(s.pending[..k], now), now);
    ArmIsSound(Readd(State(s.pending[k..], Disarmed), Ripe(s.pending[..k], now), now), now);
  }

  /** A repeating event that a pass runs is pending afterwards, one interval from now, and repeats again. */
  lemma RepeatsAgain<E>(s: State<E>, now: int, e: Entry<E>)
    requires Wellformed(s.pending) && e in s.pending[..Ready(s.pending, now)] && e.info.repeated
    ensures Entry(now + e.info.interval, e.ev,
                  Info(now + e.info.interval, e.info.interval, true, false, e.info.task)) in Fired(s, now).s.pending
  {
    var p, n := s.pending, Ready(s.pending, now);
    var next := now + e.info.interval;
    var e' := Entry(next, e.ev, Info(next, e.info.interval, true, false, e.info.task));
    OnTimerExact(s, now);
    ReadyIs(p, now);
    assert !e.info.cancelled;
    RenewsIn(p[..n], now, e);
    InSplit(Fired(s, now).s.pending, if Blocked(p, now) then p[n..] else [], Renewals(p[..n], now), e');
  }

  lemma {:induction false} RenewsIn<E>(ripe: seq<Entry<E>>, now: int, e: Entry<E>)
    requires e in ripe && e.info.repeated
    ensures Entry(now + e.info.interval, e.ev, e.info.(arrive := now + e.info.interval)) in Renewals(ripe, now)
  {
    if ripe[0] == e {
    } else {
      RenewsIn(ripe[1..], now, e);
    }
  }

  lemma BlockedIff<E>(p: seq<Entry<E>>, now: int)
    requires Sorted(p)
    ensures Blocked(p, now) <==> exists c :: c in p && Due(c, now) && c.info.cancelled
  {
    var n := Ready(p, now);
    ReadyIs(p, now);
    if Blocked(p, now) {
      assert p[n] in p;
    }
  }

  lemma Behind<E>(p: seq<Entry<E>>, n: nat, now: int, e: Entry<E>)
    requires n <= |p| && e in p && !Due(e, now) && forall k | 0 <= k < n :: Due(p[k], now)
    ensures e in p[n..]
  {
    var i :| 0 <= i < |p| && p[i] == e;
    assert p[n..][i - n] == e;
  }

  /** An event that is not due yet survives a pass exactly when some due event is cancelled. */
  lemma FutureSurvivesIff<E>(s: State<E>, now: int, e: Entry<E>)
    requires Wellformed(s.pending) && e in s.pending && !Due(e, now)
    ensures e in Fired(s, now).s.pending
       <==> exists c :: c in s.pending && Due(c, now) && c.info.cancelled
  {
    var p, n := s.pending, Ready(s.pending, now);
    OnTimerExact(s, now);
    ReadyIs(p, now);
    NotRenewed(p, n, now, e);
    BlockedIff(p, now);
    Behind(p, n, now, e);
    InSplit(Fired(s, now).s.pending, if Blocked(p, now) then p[n..] else [], Renewals(p[..n], now), e);
  }

  lemma InSplit<E>(p: seq<Entry<E>>, a: seq<Entry<E>>, b: seq<Entry<E>>, e: Entry<E>)
    requires multiset(p) == multiset(a) + multiset(b)
    ensures e in p <==> e in a || e in b
  {
    assert e in p <==> e in multiset(p);
    assert e in a <==> e in multiset(a);
    assert e in b <==> e in multiset(b);
  }

  lemma {:induction false} ReadyIs<E>(p: seq<Entry<E>>, now: int)
    ensures forall k | 0 <= k < Ready(p, now) :: Due(p[k], now) && !p[k].info.cancelled
    ensures Ready(p, now) < |p| ==> !Due(p[Ready(p, now)], now) || p[Ready(p, now)].info.cancelled
  {
    if p == [] {
    } else if Due(p[0], now) && !p[0].info.cancelled {
      ReadyIs(p[1..], now);
    }
  }

  /** `e` is what is put back for the repeating event of `r`. */
  ghost predicate Renews<E>(r: Entry<E>, e: Entry<E>, now: int) {
    r.info.repeated && e == Entry(now + r.info.interval, r.ev, Renewed(r.info, now))
  }

  lemma {:induction false} RenewalsFrom<E>(ripe: seq<Entry<E>>, now: int, e: Entry<E>)
    requires e in Renewals(ripe, now)
    ensures exists r :: r in ripe && Renews(r, e, now)
  {
    if e in Renewal(ripe[0], now) {
      assert ripe[0] in ripe && Renews(ripe[0], e, now);
    } else {
      RenewalsFrom(ripe[1..], now, e);
      assert forall r | r in ripe[1..] :: r in ripe;
    }
  }

  lemma NotRenewed<E>(p: seq<Entry<E>>, n: nat, now: int, e: Entry<E>)
    requires Distinct(p) && n <= |p| && e in p && !Due(e, now)
    requires forall k | 0 <= k < n :: Due(p[k], now)
    ensures e !in Renewals(p[..n], now)
  {
    if e in Renewals(p[..n], now) {
      RenewalsFrom(p[..n], now, e);
    }
  }

  // ---------------------------------------------------------------- runs

  datatype Op<E> =
    | AddEvent(ev: E, info: Info)
    | DeleteEvent(ev: E, arrive: int)
    | CancelEvent(ev: E)
    | Elapse(ms: nat)
    | Service

  datatype World<E> = World(s: State<E>, now: int, ran: seq<Task>)

  /** An event is added at most once: never while it is pending. */
  ghost predicate Legal<E>(w: World<E>, op: Op<E>) {
    op.AddEvent? ==> Absent(w.s.pending, op.ev)
  }

  ghost function Step<E>(w: World<E>, op: Op<E>): World<E> {
    match op
    case AddEvent(ev, info) => w.(s := Add(w.s, ev, info, w.now))
    case DeleteEvent(ev, arrive) => w.(s := Delete(w.s, ev, arrive))
    case CancelEvent(ev) => w.(s := Cancel(w.s, ev))
    case Elapse(ms) => w.(now := w.now + ms)
    case Service => var f := Fired(w.s, w.now); w.(s := f.s, ran := w.ran + f.tasks)
  }

  ghost predicate LegalRun<E>(w: World<E>, ops: seq<Op<E>>)
    decreases |ops|
  {
    ops == [] || (Legal(w, ops[0]) && LegalRun(Step(w, ops[0]), ops[1..]))
  }

  ghost function Run<E>(w: World<E>, ops: seq<Op<E>>): World<E>
    decreases |ops|
  {
    if ops == [] then w else Run(Step(w, ops[0]), ops[1..])
  }

  lemma StepIsSound<E>(w: World<E>, op: Op<E>)
    requires Sound(w.s, w.now) && Legal(w, op)
    ensures Sound(Step(w, op).s, Step(w, op).now)
  {
    match op
    case AddEvent(ev, info) => AddIsSound(w.s, ev, info, w.now);
    case DeleteEvent(ev, arrive) => DeleteIsSound(w.s, ev, arrive, w.now);
    case CancelEvent(ev) => DeleteIsSound(w.s, ev, 0, w.now);
    case Elapse(ms) =>
    case Service => OnTimerExact(w.s, w.now);
  }

  /** The alarm invariant: over every run, keys agree with arrival times and the alarm is armed. */
  lemma {:induction false} AlarmInvariant<E>(w: World<E>, ops: seq<Op<E>>)
    requires Sound(w.s, w.now) && LegalRun(w, ops)
    ensures Sound(Run(w, ops).s, Run(w, ops).now)
    decreases |ops|
  {
    if ops == [] {
    } else {
      StepIsSound(w, ops[0]);
      AlarmInvariant(Step(w, ops[0]), ops[1..]);
    }
  }

  // ---------------------------------------------------------------- a cancelled event at the head

  /** The first event is due and cancelled. */
  ghost predicate Jammed<E>(w: World<E>, ev: E) {
    var p := w.s.pending;
    Wellformed(p) && p != [] && p[0].ev == ev && p[0].key <= w.now && p[0].info.cancelled
  }

  /** `ev` is not deleted, and no event is added in front of the first. */
  ghost predicate Ordinary<E>(w: World<E>, op: Op<E>, ev: E) {
    && Legal(w, op)
    && (op.AddEvent? && w.s.pending != [] ==> op.info.arrive >= w.s.pending[0].key)
    && (op.DeleteEvent? ==> op.ev != ev)
  }

  ghost predicate OrdinaryRun<E>(w: World<E>, ops: seq<Op<E>>, ev: E)
    decreases |ops|
  {
    ops == [] || (Ordinary(w, ops[0], ev) && OrdinaryRun(Step(w, ops[0]), ops[1..], ev))
  }

  lemma JammedAdd<E>(w: World<E>, ev: E, info: Info, head: E)
    requires Jammed(w, head) && Absent(w.s.pending, ev) && info.arrive >= w.s.pending[0].key
    ensures Jammed(Step(w, AddEvent(ev, info)), head)
  {
    InsertKeeps(w.s.pending, Entry(info.arrive, ev, info));
  }

  lemma JammedDelete<E>(w: World<E>, ev: E, arrive: int, head: E)
    requires Jammed(w, head) && ev != head
    ensures Jammed(Step(w, DeleteEvent(ev, arrive)), head)
  {
    var p := Flagged(w.s.pending, ev);
    FlaggedKeeps(w.s.pending, ev);
    RemoveKeeps(p, arrive, ev);
  }

  lemma JammedService<E>(w: World<E>, head: E)
    requires Jammed(w, head)
    ensures Jammed(Step(w, Service), head) && Step(w, Service).ran == w.ran
  {
    var p := w.s.pending;
    assert Cut(p, w.now) == 0 && p[0..] == p;
    assert Ripe(p[..0], w.now) == [];
  }

  /**
   * Head-of-line blocking.  Once the first pending event is due and cancelled, no callback runs
   * again: not after any time, any number of passes, or any events added, deleted or cancelled,
   * unless that one event is deleted or one is added that arrives before it.
   */
  lemma {:induction false} JammedForever<E>(w: World<E>, ops: seq<Op<E>>, head: E)
    requires Jammed(w, head) && OrdinaryRun(w, ops, head)
    ensures Jammed(Run(w, ops), head) && Run(w, ops).ran == w.ran
    decreases |ops|
  {
    if ops == [] {
    } else {
      match ops[0] {
        case AddEvent(ev, info) => JammedAdd(w, ev, info, head);
        case DeleteEvent(ev, arrive) => JammedDelete(w, ev, arrive, head);
        case CancelEvent(ev) => FlaggedKeeps(w.s.pending, ev);
        case Elapse(ms) =>
        case Service => JammedService(w, head);
      }
      JammedForever(Step(w, ops[0]), ops[1..], head);
    }
  }

  /** An added event gets past the jam exactly when it arrives before the first event. */
  lemma PassesJamIff<E>(w: World<E>, ev: E, info: Info, head: E)
    requires Jammed(w, head) && Absent(w.s.pending, ev) && !info.cancelled
    ensures var ran := Step(Step(w, AddEvent(ev, info)), Service).ran;
            ran == if info.arrive >= w.s.pending[0].key then w.ran else w.ran + [info.task]
  {
    var p, e := w.s.pending, Entry(info.arrive, ev, info);
    if info.arrive >= p[0].key {
      JammedAdd(w, ev, info, head);
      JammedService(Step(w, AddEvent(ev, info)), head);
    } else {
      var p' := Step(w, AddEvent(ev, info)).s.pending;
      assert p' == [e] + p && p'[1..] == p;
      assert Cut(p, w.now) == 0 && p'[..1] == [e] && [e][1..] == [];
      assert Ripe(p'[..1], w.now) == [e];
    }
  }

  lemma ServeRuns<E>(w: World<E>)
    requires Wellformed(w.s.pending)
    ensures Step(w, Service).ran == w.ran + Tasks(w.s.pending[..Ready(w.s.pending, w.now)])
  {
    OnTimerExact(w.s, w.now);
  }

  lemma TailWellformed<E>(p: seq<Entry<E>>)
    requires Wellformed(p) && p != []
    ensures Wellformed(p[1..])
  {
  }

  lemma HeadDeleted<E>(w: World<E>, head: E)
    requires Jammed(w, head)
    ensures Step(w, DeleteEvent(head, w.s.pending[0].info.arrive)) == w.(s := State(w.s.pending[1..], w.s.alarm))
  {
    var p := w.s.pending;
    DeleteErases(w.s, head, p[0].info.arrive, 0);
    assert p[..0] + p[1..] == p[1..];
  }

  lemma FirstReady<E>(p: seq<Entry<E>>, now: int)
    requires p != [] && Due(p[0], now) && !p[0].info.cancelled
    ensures var ts := Tasks(p[..Ready(p, now)]); ts != [] && ts[0] == p[0].info.task
  {
  }

  /** Deleting the cancelled head lets the next pass run what is ready behind it. */
  lemma DeleteUnjams<E>(w: World<E>, head: E)
    requires Jammed(w, head)
    ensures var q := w.s.pending[1..];
            var ran := Step(Step(w, DeleteEvent(head, w.s.pending[0].info.arrive)), Service).ran;
            && ran == w.ran + Tasks(q[..Ready(q, w.now)])
            && (q != [] && q[0].key <= w.now && !q[0].info.cancelled ==>
                  |ran| > |w.ran| && ran[|w.ran|] == q[0].info.task)
  {
    var q := w.s.pending[1..];
    HeadDeleted(w, head);
    TailWellformed(w.s.pending);
    ServeRuns(w.(s := State(q, w.s.alarm)));
    if q != [] && q[0].key <= w.now && !q[0].info.cancelled {
      FirstReady(q, w.now);
    }
  }

  // ---------------------------------------------------------------- a repeating event

  /** The only pending event is a repeating one, due one interval or less from now. */
  ghost predicate Ticking<E>(w: World<E>, e: Entry<E>) {
    && w.s.pending == [e] && e.key == e.info.arrive && e.info.repeated && !e.info.cancelled
    && w.now <= e.key
  }

  lemma TickFires<E>(s: State<E>, e: Entry<E>)
    requires s.pending == [e] && e.key == e.info.arrive && e.info.repeated && !e.info.cancelled
    ensures Fired(s, e.key).tasks == [e.info.task]
    ensures Fired(s, e.key).s.pending == [Entry(e.key + e.info.interval, e.ev, Renewed(e.info, e.key))]
  {
    var p := s.pending;
    assert Ready(p, e.key) == 1 + Ready(p[1..], e.key) == 1 && p[..1] == [e] && p[1..] == [];
    OnTimerExact(s, e.key);
    assert Renewals([e], e.key) == Renewal(e, e.key) + Renewals([], e.key) == Renewal(e, e.key);
    OnlyOne(Fired(s, e.key).s.pending, Entry(e.key + e.info.interval, e.ev, Renewed(e.info, e.key)));
  }

  lemma Tick<E>(w: World<E>, e: Entry<E>)
    requires Ticking(w, e) && 0 <= e.info.interval
    ensures var w' := Step(Step(w, Elapse(e.key - w.now)), Service);
            && w'.now == e.key && w'.ran == w.ran + [e.info.task]
            && Ticking(w', Entry(e.key + e.info.interval, e.ev, e.info.(arrive := e.key + e.info.interval)))
  {
    TickFires(w.s, e);
  }

  lemma OnlyOne<E>(p: seq<Entry<E>>, e: Entry<E>)
    requires multiset(p) == multiset([]) + multiset([e])
    ensures p == [e]
  {
    assert |p| == |multiset(p)| == 1;
    assert p[0] in multiset(p);
  }

  /** `n` times: wait until the event is due, and serve the timer. */
  ghost function Ticks<E>(w: World<E>, e: Entry<E>, n: nat): World<E>
    requires Ticking(w, e) && 0 <= e.info.interval
    decreases n
  {
    if n == 0 then w
    else
      Tick(w, e);
      Ticks(Step(Step(w, Elapse(e.key - w.now)), Service),
            Entry(e.key + e.info.interval, e.ev, e.info.(arrive := e.key + e.info.interval)), n - 1)
  }

  function Times(task: Task, n: nat): seq<Task> {
    if n == 0 then [] else [task] + Times(task, n - 1)
  }

  lemma {:induction false} TimesSum(task: Task, n: nat)
    ensures Times(task, n + 1) == [task] + Times(task, n)
  {
  }

  /** A repeating event that is alone in the timer runs as often as it is served, once an interval. */
  lemma {:induction false} TicksForever<E>(w: World<E>, e: Entry<E>, n: nat)
    requires Ticking(w, e) && 0 <= e.info.interval && 0 < n
    ensures Ticks(w, e, n).ran == w.ran + Times(e.info.task, n)
    ensures Ticks(w, e, n).now == e.key + (n - 1) * e.info.interval
    decreases n
  {
    Tick(w, e);
    TimesSum(e.info.task, n - 1);
    if n == 1 {
      assert [e.info.task] + Times(e.info.task, 0) == [e.info.task];
    } else {
      var w1 := Step(Step(w, Elapse(e.key - w.now)), Service);
      TicksForever(w1, Entry(e.key + e.info.interval, e.ev, e.info.(arrive := e.key + e.info.interval)), n - 1);
      Joined(w.ran, [e.info.task], Times(e.info.task, n - 1));
      OneMoreInterval(n, e.info.interval);
    }
  }

  lemma Joined(a: seq<Task>, b: seq<Task>, c: seq<Task>)
    ensures (a + b) + c == a + (b + c)
  {
  }

  lemma OneMoreInterval(n: nat, interval: int)
    ensures interval + (n - 2) * interval == (n - 1) * interval
  {
  }
}
