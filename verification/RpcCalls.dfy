// Any number of calls on one event loop: every interleaving of their callbacks with the loop's timer, and
// with the timer's other events, of which the logger's periodic one is in every process.
//
// A timer event and the task it runs are both named by a number: that of its call, or another one.

module RpcCalls {
  import opened Bytes
  import opened Timers
  import opened TimerRuns
  import opened RpcDispatchers
  import opened RpcChannels

  /** `others` are the numbers of the events that do not belong to a call. */
  datatype System = System(w: World<nat>, calls: map<nat, Call>, others: set<nat>)

  datatype Event =
    | Begin(k: nat, ctl: Controller, hasClosure: bool, start: Start, generated: seq<byte>)
    | CallerCancels(k: nat)
    | ConnectDone(k: nat, errCode: int32)
    | WriteDone(k: nat)
    | Respond(k: nat, parses: bool, respCode: int32)
    | AddOther(n: nat, info: Info)
    | CancelOther(n: nat)
    | DeleteOther(n: nat, arrive: int)
    | Pass(ms: nat)
    | Fire

  /** The id of call `k` is registered on its connection. */
  predicate Awaits(s: System, k: nat) {
    k in s.calls && s.calls[k].stage == Waiting
  }

  /**
   * When each callback can come: a connection calls back once, and a request is written only on a
   * connection that came about.  Responses can come at any time, early, late or again; one whose id
   * is not registered is ignored.  A caller can cancel at any time, before CallMethod too.  Events that
   * belong to no call can be added whenever they are not pending, and cancelled or deleted at any time.
   */
  ghost predicate Possible(s: System, e: Event) {
    match e
    case Begin(k, _, _, _, _) => k !in s.calls && k !in s.others
    case AddOther(n, info) => n !in s.calls && info.task == n && Absent(s.w.s.pending, n)
    case CancelOther(n) => n in s.others
    case DeleteOther(n, _) => n in s.others
    case CallerCancels(k) => k in s.calls
    case ConnectDone(k, _) => k in s.calls && s.calls[k].stage == Connecting
    case WriteDone(k) => k in s.calls && s.calls[k].stage == Writing(true)
    case _ => true
  }

  /** What the event does to the timer, if anything. */
  function TimerOps(s: System, e: Event): seq<Op<nat>> {
    match e
    case Begin(k, ctl, _, start, _) =>
      if start == Proper then
        [AddEvent(k, Info(s.w.now + ctl.timeout, ctl.timeout, false, false, k))]
      else []
    case Respond(k, _, _) => if Awaits(s, k) then [CancelEvent(k)] else []
    case AddOther(n, info) => [AddEvent(n, info)]
    case CancelOther(n) => [CancelEvent(n)]
    case DeleteOther(n, arrive) => [DeleteEvent(n, arrive)]
    case Pass(ms) => [Elapse(ms)]
    case Fire => [Service]
    case _ => []
  }

  /** The timeout callbacks of a pass, one after another. */
  function TimeOut(calls: map<nat, Call>, tasks: seq<Task>): map<nat, Call> {
    if tasks == [] then calls
    else
      var k := tasks[0];
      TimeOut(if k in calls then calls[k := TimeoutRun(calls[k])] else calls, tasks[1..])
  }

  ghost function CallsAfter(s: System, e: Event): map<nat, Call>
    requires Possible(s, e)
  {
    match e
    case Begin(k, ctl, hasClosure, start, generated) =>
      s.calls[k := Begun(NewCall(ctl, hasClosure), start, generated)]
    case CallerCancels(k) => s.calls[k := CancelRun(s.calls[k])]
    case ConnectDone(k, errCode) => s.calls[k := Connected(s.calls[k], errCode)]
    case WriteDone(k) => s.calls[k := Written(s.calls[k])]
    case Respond(k, parses, respCode) =>
      if Awaits(s, k) then s.calls[k := ResponseRun(s.calls[k], AnswerOf(parses, respCode))] else s.calls
    case Fire => TimeOut(s.calls, Fired(s.w.s, s.w.now).tasks)
    case _ => s.calls
  }

  ghost function After(s: System, e: Event): System
    requires Possible(s, e)
  {
    System(TimerRuns.Run(s.w, TimerOps(s, e)), CallsAfter(s, e), if e.AddOther? then s.others + {e.n} else s.others)
  }

  // ---------------------------------------------------------------- the outcome of one call

  /** The error code of the last mark that is a failure, or `code` when none is. */
  function LastError(log: seq<Mark>, code: int32): int32
    decreases |log|
  {
    if log == [] then code
    else
      match log[|log| - 1]
      case TimedOut => ERROR_RPC_CALL_TIMEOUT
      case Unconnected(err) => err
      case Replied(Garbled) => ERROR_FAILED_SERIALIZE
      case Replied(Refused(err)) => err
      case _ => LastError(log[..|log| - 1], code)
  }

  /** The history without the caller's cancels. */
  function Core(log: seq<Mark>): (core: seq<Mark>)
    decreases |log|
  {
    if log == [] then []
    else Core(log[..|log| - 1]) + if log[|log| - 1] == Cancelled then [] else [log[|log| - 1]]
  }

  /** A good response came, and before it neither a cancel nor the timeout. */
  predicate GoodInTime(log: seq<Mark>)
    decreases |log|
  {
    && log != []
    && var before := log[..|log| - 1];
       GoodInTime(before)
       || (log[|log| - 1] == Replied(Good) && Cancelled !in before && TimedOut !in before)
  }

  /** All the histories a call can have, but for cancels. */
  predicate Plausible(core: seq<Mark>) {
    || core == []
    || |core| == 1
    || (|core| == 2 && core[0] == TimedOut && !core[1].TimedOut?)
    || (|core| == 2 && core[0].Unconnected? && core[1] == TimedOut)
  }

  /**
   * The outcome of a call is a function of its history.  No callback runs twice, a timeout never
   * runs after a response, and a response never comes without a connection.  The closure runs once
   * when the call times out or a good response comes before any cancel, and never otherwise; the
   * call counts as cancelled exactly when its caller cancelled it or it timed out; and the last
   * failure decides the error code.
   */
  ghost predicate Decided(c: Call) {
    && Plausible(Core(c.log))
    && (c.ctl.cancelled <==> Cancelled in c.log || TimedOut in c.log)
    && c.runs == (if c.hasClosure && (TimedOut in c.log || GoodInTime(c.log)) then 1 else 0)
    && c.ctl.code == LastError(c.log, c.ctl.code)
    && StageFits(c.stage, Core(c.log))
  }

  /** How far a call can have come with a history without cancels. */
  ghost predicate StageFits(stage: Stage, log: seq<Mark>) {
    match stage
    case Idle => log == []
    case Connecting => log == [] || log == [TimedOut]
    case Writing(up) => if up then log == [] || log == [TimedOut] else exists err :: Unconnected(err) in log
    case Waiting => log == [] || log == [TimedOut]
    case Over => exists a :: Replied(a) in log
  }

  /**
   * A pending entry of a call is that of one that has not timed out, and is cancelled once the call is
   * answered; every other entry is that of another event.
   */
  ghost predicate EntryFits(e: Entry<nat>, calls: map<nat, Call>, others: set<nat>) {
    && e.info.task == e.ev
    && if e.ev in calls then
         && !e.info.repeated && calls[e.ev].stage != Idle && TimedOut !in calls[e.ev].log
         && (e.info.cancelled <==> calls[e.ev].stage == Over)
       else e.ev in others
  }

  ghost predicate EntriesFit(p: seq<Entry<nat>>, calls: map<nat, Call>, others: set<nat>) {
    forall e | e in p :: EntryFits(e, calls, others)
  }

  ghost predicate AllDecided(calls: map<nat, Call>) {
    forall k | k in calls :: Decided(calls[k])
  }

  ghost predicate Consistent(s: System) {
    && Sound(s.w.s, s.w.now) && EntriesFit(s.w.s.pending, s.calls, s.others) && AllDecided(s.calls)
    && s.calls.Keys !! s.others
  }

  // ---------------------------------------------------------------- one event

  lemma OneOp(w: World<nat>, op: Op<nat>)
    ensures TimerRuns.Run(w, [op]) == Step(w, op)
  {
    assert [op][1..] == [];
  }

  /** What one more mark adds to a history. */
  lemma OneMore(log: seq<Mark>, m: Mark, code: int32)
    ensures var log' := log + [m];
            && Core(log') == Core(log) + (if m == Cancelled then [] else [m])
            && (GoodInTime(log') <==> GoodInTime(log) || (m == Replied(Good) && Cancelled !in log && TimedOut !in log))
            && (m == TimedOut ==> LastError(log', code) == ERROR_RPC_CALL_TIMEOUT)
            && (m.Unconnected? ==> LastError(log', code) == m.code)
            && (m == Replied(Garbled) ==> LastError(log', code) == ERROR_FAILED_SERIALIZE)
            && (m.Replied? && m.answer.Refused? ==> LastError(log', code) == m.answer.code)
            && (m == Cancelled || m == Replied(Good) ==> LastError(log', code) == LastError(log, code))
  {
    assert (log + [m])[..|log|] == log;
  }

  lemma {:induction false} CoreHas(log: seq<Mark>, m: Mark)
    requires m != Cancelled
    ensures m in log <==> m in Core(log)
    decreases |log|
  {
    if log == [] {
    } else {
      var before, last := log[..|log| - 1], log[|log| - 1];
      assert log == before + [last];
      CoreHas(before, m);
    }
  }

  lemma {:induction false} GoodIsReplied(log: seq<Mark>)
    requires GoodInTime(log)
    ensures Replied(Good) in Core(log)
    decreases |log|
  {
    var before := log[..|log| - 1];
    if !GoodInTime(before) {
    } else {
      GoodIsReplied(before);
    }
  }

  /** A call that has no answer yet: its history but for cancels, and why its closure has not run by one. */
  lemma Unanswered(c: Call)
    requires Decided(c) && c.stage != Over
    ensures !GoodInTime(c.log) && (TimedOut in c.log <==> TimedOut in Core(c.log))
  {
    CoreHas(c.log, TimedOut);
    if GoodInTime(c.log) {
      GoodIsReplied(c.log);
    }
  }

  /** A timeout that comes all the same comes behind the answer. */
  ghost predicate TimedOutLate(core: seq<Mark>) {
    exists i, j :: 0 <= i < j < |core| && core[i] == Replied(Good) && core[j] == TimedOut
  }

  lemma {:induction false} GoodComesFirst(log: seq<Mark>)
    requires GoodInTime(log) && TimedOut in log
    ensures TimedOutLate(Core(log))
    decreases |log|
  {
    var before, last := log[..|log| - 1], log[|log| - 1];
    assert log == before + [last];
    if TimedOut in before {
      GoodComesFirst(before);
      var core := Core(before);
      var i, j :| 0 <= i < j < |core| && core[i] == Replied(Good) && core[j] == TimedOut;
      assert Core(log)[i] == core[i] && Core(log)[j] == core[j];
    } else {
      GoodIsReplied(before);
      var i :| 0 <= i < |Core(before)| && Core(before)[i] == Replied(Good);
      assert Core(log)[i] == Replied(Good) && Core(log)[|Core(before)|] == TimedOut;
    }
  }

  /** A call does not both time out and get a good response in time. */
  lemma NeverBoth(c: Call)
    requires Decided(c)
    ensures !(TimedOut in c.log && GoodInTime(c.log))
  {
    if TimedOut in c.log && GoodInTime(c.log) {
      GoodComesFirst(c.log);
    }
  }

  lemma NewDecided(ctl: Controller, hasClosure: bool, start: Start, generated: seq<byte>)
    ensures Decided(Begun(NewCall(ctl, hasClosure), start, generated))
  {
    assert [Cancelled][..0] == [] && Core([Cancelled]) == Core([]) + [];
  }

  lemma CancelDecided(c: Call)
    requires Decided(c)
    ensures Decided(CancelRun(c))
  {
    OneMore(c.log, Cancelled, c.ctl.code);
  }

  lemma ConnectDecided(c: Call, errCode: int32)
    requires Decided(c) && c.stage == Connecting
    ensures Decided(Connected(c, errCode))
  {
    Unanswered(c);
    if errCode != 0 {
      OneMore(c.log, Unconnected(errCode), errCode);
      assert Unconnected(errCode) in Core(c.log) + [Unconnected(errCode)];
    }
  }

  lemma WrittenDecided(c: Call)
    requires Decided(c) && c.stage == Writing(true)
    ensures Decided(Written(c))
  {
  }

  /** An answer is plausible for a call that waits for it, and ends the call. */
  lemma AnswerFits(core: seq<Mark>, a: Answer)
    requires StageFits(Waiting, core)
    ensures Plausible(core + [Replied(a)]) && StageFits(Over, core + [Replied(a)])
  {
    assert Replied(a) in core + [Replied(a)];
  }

  /** An answer that is a failure leaves its code, and a good one the code there was. */
  lemma AnswerCode(c: Call, a: Answer)
    requires c.ctl.code == LastError(c.log, c.ctl.code)
    ensures var c' := ResponseRun(c, a); c'.ctl.code == LastError(c'.log, c'.ctl.code)
  {
    OneMore(c.log, Replied(a), ResponseRun(c, a).ctl.code);
  }

  /** The closure runs for the answer exactly when it is good and comes in time. */
  lemma AnswerRuns(c: Call, a: Answer)
    requires c.ctl.cancelled <==> Cancelled in c.log || TimedOut in c.log
    requires !GoodInTime(c.log) && c.runs == (if c.hasClosure && TimedOut in c.log then 1 else 0)
    ensures var c' := ResponseRun(c, a);
            && c'.ctl.cancelled == c.ctl.cancelled && c'.hasClosure == c.hasClosure
            && c'.runs == (if c.hasClosure && (TimedOut in c'.log || GoodInTime(c'.log)) then 1 else 0)
  {
    OneMore(c.log, Replied(a), 0);
  }

  lemma ResponseDecided(c: Call, a: Answer)
    requires Decided(c) && c.stage == Waiting
    ensures Decided(ResponseRun(c, a))
  {
    Unanswered(c);
    AnswerCode(c, a);
    AnswerRuns(c, a);
    AnswerFits(Core(c.log), a);
    OneMore(c.log, Replied(a), 0);
  }

  /** One more timeout is plausible, and fits how far the call has come. */
  lemma TimeoutFits(stage: Stage, core: seq<Mark>)
    requires StageFits(stage, core) && Plausible(core) && stage != Idle && stage != Over && TimedOut !in core
    ensures StageFits(stage, core + [TimedOut]) && Plausible(core + [TimedOut])
  {
    if stage.Writing? && !stage.up {
      var err :| Unconnected(err) in core;
      assert Unconnected(err) in core + [TimedOut];
    }
  }

  lemma TimeoutDecided(c: Call)
    requires Decided(c) && c.stage != Idle && c.stage != Over && TimedOut !in c.log
    ensures Decided(TimeoutRun(c))
  {
    Unanswered(c);
    OneMore(c.log, TimedOut, ERROR_RPC_CALL_TIMEOUT);
    TimeoutFits(c.stage, Core(c.log));
  }

  lemma InsertHolds<E>(p: seq<Entry<E>>, e: Entry<E>, x: Entry<E>)
    ensures x in Insert(p, e) <==> x == e || x in p
  {
    InsertAdds(p, e);
    assert x in Insert(p, e) <==> x in multiset(Insert(p, e));
    assert x in p <==> x in multiset(p);
  }

  /** A number that no call and no other event has yet is not in the timer. */
  lemma NewIsAbsent(s: System, k: nat)
    requires Consistent(s) && k !in s.calls && k !in s.others
    ensures Absent(s.w.s.pending, k)
  {
    forall i | 0 <= i < |s.w.s.pending|
      ensures s.w.s.pending[i].ev != k
    {
      assert s.w.s.pending[i] in s.w.s.pending;
    }
  }

  lemma BegunFits(p: seq<Entry<nat>>, calls: map<nat, Call>, others: set<nat>, k: nat, info: Info, c: Call)
    requires EntriesFit(p, calls, others) && k !in calls && Absent(p, k)
    requires info.task == k && !info.repeated && !info.cancelled && c.stage == Connecting && TimedOut !in c.log
    ensures EntriesFit(Insert(p, Entry(info.arrive, k, info)), calls[k := c], others)
  {
    forall x | x in Insert(p, Entry(info.arrive, k, info))
      ensures EntryFits(x, calls[k := c], others)
    {
      InsertHolds(p, Entry(info.arrive, k, info), x);
    }
  }

  lemma AddKeeps(s: System, k: nat, c: Call, info: Info)
    requires Consistent(s) && k !in s.calls && Absent(s.w.s.pending, k)
    requires info.task == k && !info.repeated && !info.cancelled && c.stage == Connecting && TimedOut !in c.log
    ensures var w' := TimerRuns.Run(s.w, [AddEvent(k, info)]);
            Sound(w'.s, w'.now) && EntriesFit(w'.s.pending, s.calls[k := c], s.others)
  {
    AddIsSound(s.w.s, k, info, s.w.now);
    OneOp(s.w, AddEvent(k, info));
    BegunFits(s.w.s.pending, s.calls, s.others, k, info, c);
  }

  lemma BeginKeeps(s: System, e: Event)
    requires Consistent(s) && e.Begin? && Possible(s, e)
    ensures Consistent(After(s, e))
  {
    var k, c := e.k, Begun(NewCall(e.ctl, e.hasClosure), e.start, e.generated);
    NewIsAbsent(s, k);
    NewDecided(e.ctl, e.hasClosure, e.start, e.generated);
    DecideCall(s.calls, k, c);
    if e.start == Proper {
      AddKeeps(s, k, c, Info(s.w.now + e.ctl.timeout, e.ctl.timeout, false, false, k));
    } else {
      UnbegunFits(s.w.s.pending, s.calls, s.others, k, c);
    }
  }

  lemma UnbegunFits(p: seq<Entry<nat>>, calls: map<nat, Call>, others: set<nat>, k: nat, c: Call)
    requires EntriesFit(p, calls, others) && k !in calls && Absent(p, k)
    ensures EntriesFit(p, calls[k := c], others)
  {
    forall x | x in p
      ensures EntryFits(x, calls[k := c], others)
    {
      assert x.ev != k;
    }
  }

  /** The stages and marks that the timer's entries depend on are the same. */
  predicate SameForTimer(c: Call, c': Call) {
    && (c.stage == Idle <==> c'.stage == Idle) && (c.stage == Over <==> c'.stage == Over)
    && (TimedOut in c.log <==> TimedOut in c'.log)
  }

  lemma ReplaceCall(p: seq<Entry<nat>>, calls: map<nat, Call>, others: set<nat>, k: nat, c: Call)
    requires EntriesFit(p, calls, others) && k in calls && SameForTimer(calls[k], c)
    ensures EntriesFit(p, calls[k := c], others)
  {
  }

  lemma DecideCall(calls: map<nat, Call>, k: nat, c: Call)
    requires AllDecided(calls) && Decided(c)
    ensures AllDecided(calls[k := c])
  {
  }

  lemma ConnectSame(c: Call, errCode: int32)
    requires c.stage == Connecting
    ensures SameForTimer(c, Connected(c, errCode))
  {
  }

  lemma CancelSame(c: Call)
    ensures SameForTimer(c, CancelRun(c))
  {
  }

  lemma ProgressKeeps(s: System, e: Event)
    requires Consistent(s) && (e.CallerCancels? || e.ConnectDone? || e.WriteDone?) && Possible(s, e)
    ensures Consistent(After(s, e))
  {
    var c := s.calls[e.k];
    var c' := if e.CallerCancels? then CancelRun(c) else if e.ConnectDone? then Connected(c, e.errCode) else Written(c);
    if e.CallerCancels? {
      CancelDecided(c);
      CancelSame(c);
    } else if e.ConnectDone? {
      ConnectDecided(c, e.errCode);
      ConnectSame(c, e.errCode);
    } else {
      WrittenDecided(c);
    }
    assert After(s, e).w == s.w && After(s, e).calls == s.calls[e.k := c'];
    ReplaceCall(s.w.s.pending, s.calls, s.others, e.k, c');
    DecideCall(s.calls, e.k, c');
  }

  /** The entry of an answered call is flagged, and so is the call over. */
  lemma FlaggedFits(p: seq<Entry<nat>>, calls: map<nat, Call>, others: set<nat>, k: nat, c: Call)
    requires EntriesFit(p, calls, others) && k in calls
    requires c.stage == Over && (TimedOut in c.log <==> TimedOut in calls[k].log)
    ensures EntriesFit(Flagged(p, k), calls[k := c], others)
  {
    var p' := Flagged(p, k);
    forall i | 0 <= i < |p'|
      ensures EntryFits(p'[i], calls[k := c], others)
    {
      assert p[i] in p;
    }
  }

  lemma RespondIs(s: System, e: Event)
    requires e.Respond? && Awaits(s, e.k)
    ensures After(s, e).w == s.w.(s := Cancel(s.w.s, e.k))
    ensures After(s, e).calls == s.calls[e.k := ResponseRun(s.calls[e.k], AnswerOf(e.parses, e.respCode))]
    ensures After(s, e).others == s.others
  {
    OneOp(s.w, CancelEvent(e.k));
  }

  lemma AnswerKeeps(s: System, k: nat, a: Answer)
    requires Consistent(s) && Awaits(s, k)
    ensures Consistent(System(s.w.(s := Cancel(s.w.s, k)), s.calls[k := ResponseRun(s.calls[k], a)], s.others))
  {
    var c' := ResponseRun(s.calls[k], a);
    ResponseDecided(s.calls[k], a);
    DeleteIsSound(s.w.s, k, 0, s.w.now);
    FlaggedFits(s.w.s.pending, s.calls, s.others, k, c');
    DecideCall(s.calls, k, c');
  }

  lemma RespondKeeps(s: System, e: Event)
    requires Consistent(s) && e.Respond? && Awaits(s, e.k)
    ensures Consistent(After(s, e))
  {
    RespondIs(s, e);
    AnswerKeeps(s, e.k, AnswerOf(e.parses, e.respCode));
  }

  /** A response that is not waited for changes nothing. */
  lemma StrayResponse(s: System, e: Event)
    requires e.Respond? && !Awaits(s, e.k)
    ensures After(s, e) == s
  {
  }

  ghost predicate NoneTwice(ts: seq<Task>) {
    forall i, j :: 0 <= i < j < |ts| ==> ts[i] != ts[j]
  }

  /** Each call named by a task gets one timeout, every other call is left alone. */
  lemma {:induction false} TimeOutIs(calls: map<nat, Call>, ts: seq<Task>)
    requires NoneTwice(ts)
    ensures TimeOut(calls, ts).Keys == calls.Keys
    ensures forall k | k in calls :: TimeOut(calls, ts)[k] == if k in ts then TimeoutRun(calls[k]) else calls[k]
    decreases |ts|
  {
    if ts == [] {
    } else {
      var k := ts[0];
      var calls' := if k in calls then calls[k := TimeoutRun(calls[k])] else calls;
      TimeOutIs(calls', ts[1..]);
      assert k !in ts[1..] by {
        assert forall j | 0 <= j < |ts[1..]| :: ts[1..][j] == ts[j + 1];
      }
      assert forall x | x in ts :: x == k || x in ts[1..];
    }
  }

  /** Every entry is that of a call or of another event, and no call's event repeats. */
  ghost predicate Sorts(p: seq<Entry<nat>>, calls: map<nat, Call>, others: set<nat>) {
    forall e | e in p :: e.info.task == e.ev && (if e.ev in calls then !e.info.repeated else e.ev in others)
  }

  /** An event put back belongs to no call. */
  ghost predicate PutBack(e: Entry<nat>, calls: map<nat, Call>, others: set<nat>) {
    e.info.task == e.ev && e.ev !in calls && e.ev in others
  }

  lemma RenewedOthers(ripe: seq<Entry<nat>>, now: int, e: Entry<nat>, calls: map<nat, Call>, others: set<nat>)
    requires Sorts(ripe, calls, others) && e in Renewals(ripe, now)
    ensures PutBack(e, calls, others)
  {
    RenewalsFrom(ripe, now, e);
    var r :| r in ripe && Renews(r, e, now);
  }

  /** What a pass leaves pending was there behind the ready entries, or was put back. */
  lemma LeftBehind(p: seq<Entry<nat>>, now: int, p': seq<Entry<nat>>, calls: map<nat, Call>, others: set<nat>)
    requires Sorts(p, calls, others)
    requires var n := Ready(p, now);
             multiset(p') == multiset(if Blocked(p, now) then p[n..] else []) + multiset(Renewals(p[..n], now))
    ensures forall e | e in p' :: (Blocked(p, now) && e in p[Ready(p, now)..]) || PutBack(e, calls, others)
  {
    var n := Ready(p, now);
    var kept := if Blocked(p, now) then p[n..] else [];
    forall e | e in p' && !(Blocked(p, now) && e in p[n..])
      ensures PutBack(e, calls, others)
    {
      InSplit(p', kept, Renewals(p[..n], now), e);
      RenewedOthers(p[..n], now, e, calls, others);
    }
  }

  /** The tasks of a pass are those of the ready entries, each of them once. */
  lemma ReadyTasks(p: seq<Entry<nat>>, now: int, calls: map<nat, Call>, others: set<nat>)
    requires Sorts(p, calls, others) && Distinct(p)
    ensures var n := Ready(p, now);
            && (forall i | 0 <= i < n :: p[i].ev == p[i].info.task && !p[i].info.cancelled)
            && NoneTwice(Tasks(p[..n]))
  {
    var n := Ready(p, now);
    ReadyIs(p, now);
    forall i | 0 <= i < n
      ensures p[i].ev == p[i].info.task
    {
      assert p[i] in p;
    }
  }

  /** A pass runs exactly the ready prefix and keeps only entries behind it, and other events put back. */
  lemma FireIs(s: System)
    requires Consistent(s)
    ensures var p, n, f := s.w.s.pending, Ready(s.w.s.pending, s.w.now), Fired(s.w.s, s.w.now);
            && n <= |p| && (forall i | 0 <= i < n :: p[i].ev == p[i].info.task && !p[i].info.cancelled)
            && f.tasks == Tasks(p[..n]) && NoneTwice(f.tasks)
            && (forall e | e in f.s.pending ::
                  (Blocked(p, s.w.now) && e in p[n..]) || PutBack(e, s.calls, s.others))
            && Sound(f.s, s.w.now)
  {
    var p, now := s.w.s.pending, s.w.now;
    OnTimerExact(s.w.s, now);
    ReadyTasks(p, now, s.calls, s.others);
    LeftBehind(p, now, Fired(s.w.s, now).s.pending, s.calls, s.others);
  }

  lemma TimedOutCall(s: System, k: nat)
    requires Consistent(s) && k in s.calls
    ensures var ts := Fired(s.w.s, s.w.now).tasks;
            k in ts ==> s.calls[k].stage != Idle && s.calls[k].stage != Over && TimedOut !in s.calls[k].log
  {
    FireIs(s);
    var p, ts := s.w.s.pending, Fired(s.w.s, s.w.now).tasks;
    if k in ts {
      var i :| 0 <= i < |ts| && ts[i] == k;
      assert p[i] in p;
    }
  }

  lemma FireKeeps(s: System)
    requires Consistent(s)
    ensures Consistent(After(s, Fire))
  {
    var p, ts := s.w.s.pending, Fired(s.w.s, s.w.now).tasks;
    OneOp(s.w, Service);
    FireIs(s);
    TimeOutIs(s.calls, ts);
    var s' := After(s, Fire);
    forall k | k in s.calls
      ensures Decided(s'.calls[k])
    {
      TimedOutCall(s, k);
      if k in ts {
        TimeoutDecided(s.calls[k]);
      }
    }
    forall e | e in s'.w.s.pending
      ensures EntryFits(e, s'.calls, s'.others)
    {
      if !PutBack(e, s.calls, s.others) {
        Untouched(p, Ready(p, s.w.now), e, ts);
      }
    }
  }

  lemma OtherKeeps(s: System, e: Event)
    requires Consistent(s) && (e.AddOther? || e.CancelOther? || e.DeleteOther?) && Possible(s, e)
    ensures Consistent(After(s, e))
  {
    var op := TimerOps(s, e)[0];
    var s' := After(s, e);
    OneOp(s.w, op);
    StepIsSound(s.w, op);
    forall x | x in s'.w.s.pending
      ensures EntryFits(x, s'.calls, s'.others)
    {
      OtherEntries(s.w.s.pending, e, x);
    }
  }

  /** `x` is one of the entries, or one of the event `n` with the task of the event or of an entry of it. */
  ghost predicate Descends(p: seq<Entry<nat>>, n: nat, x: Entry<nat>) {
    || x in p
    || (x.ev == n && (x.info.task == n || exists y :: y in p && y.ev == n && y.info.task == x.info.task))
  }

  /** What an event of the timer's other events makes of the entries. */
  ghost function OtherPending(p: seq<Entry<nat>>, e: Event): seq<Entry<nat>> {
    match e
    case AddOther(n, info) => Insert(p, Entry(info.arrive, n, info))
    case CancelOther(n) => Flagged(p, n)
    case DeleteOther(n, arrive) => Remove(Flagged(p, n), arrive, n)
    case _ => p
  }

  lemma OtherEntries(p: seq<Entry<nat>>, e: Event, x: Entry<nat>)
    requires e.AddOther? || e.CancelOther? || e.DeleteOther?
    requires (e.AddOther? ==> e.info.task == e.n) && x in OtherPending(p, e)
    ensures Descends(p, e.n, x)
  {
    match e
    case AddOther(n, info) => InsertHolds(p, Entry(info.arrive, n, info), x);
    case CancelOther(n) => FlaggedFrom(p, n, x);
    case DeleteOther(n, arrive) =>
      var i := RemoveIs(Flagged(p, n), arrive, n);
      FlaggedFrom(p, n, x);
    case _ =>
  }

  lemma FlaggedFrom(p: seq<Entry<nat>>, n: nat, x: Entry<nat>)
    requires x in Flagged(p, n)
    ensures Descends(p, n, x)
  {
    var i :| 0 <= i < |Flagged(p, n)| && Flagged(p, n)[i] == x;
    assert p[i] in p;
  }

  /** An entry behind the ready prefix is not one of those timed out. */
  lemma Untouched(p: seq<Entry<nat>>, n: nat, e: Entry<nat>, ts: seq<Task>)
    requires Distinct(p) && n <= |p| && e in p[n..] && ts == Tasks(p[..n])
    requires forall i | 0 <= i < n :: p[i].ev == p[i].info.task
    ensures e in p && e.ev !in ts
  {
    var j :| 0 <= j < |p[n..]| && p[n..][j] == e;
    assert p[n + j] == e;
  }

  // ---------------------------------------------------------------- runs

  ghost predicate PossibleRun(s: System, es: seq<Event>)
    decreases |es|
  {
    es == [] || (Possible(s, es[0]) && PossibleRun(After(s, es[0]), es[1..]))
  }

  ghost function Run(s: System, es: seq<Event>): System
    requires PossibleRun(s, es)
    decreases |es|
  {
    if es == [] then s else Run(After(s, es[0]), es[1..])
  }

  lemma EventKeeps(s: System, e: Event)
    requires Consistent(s) && Possible(s, e)
    ensures Consistent(After(s, e))
  {
    match e
    case Begin(_, _, _, _, _) => BeginKeeps(s, e);
    case Respond(k, _, _) =>
      if Awaits(s, k) {
        RespondKeeps(s, e);
      } else {
        StrayResponse(s, e);
      }
    case Pass(ms) => OneOp(s.w, Elapse(ms));
    case Fire => FireKeeps(s);
    case AddOther(_, _) => OtherKeeps(s, e);
    case CancelOther(_) => OtherKeeps(s, e);
    case DeleteOther(_, _) => OtherKeeps(s, e);
    case _ => ProgressKeeps(s, e);
  }

  /** In every interleaving, every call's outcome is decided by its history, and its closure runs at most once. */
  lemma {:induction false} EveryCallDecided(s: System, es: seq<Event>)
    requires Consistent(s) && PossibleRun(s, es)
    ensures Consistent(Run(s, es))
    ensures forall k | k in Run(s, es).calls :: Run(s, es).calls[k].runs <= 1
    decreases |es|
  {
    if es == [] {
    } else {
      EventKeeps(s, es[0]);
      EveryCallDecided(After(s, es[0]), es[1..]);
    }
  }

  /** A loop before its first call. */
  function NewLoop(now: int): System {
    System(World(State([], Disarmed), now, []), map[], {})
  }

  /**
   * From a new loop on, in every interleaving: a call that has a closure has run it exactly when it
   * timed out or was answered well before its timeout and any cancel; no closure runs twice.
   */
  lemma ClosureRunsIff(now: int, es: seq<Event>, k: nat)
    requires PossibleRun(NewLoop(now), es) && k in Run(NewLoop(now), es).calls
    ensures var c := Run(NewLoop(now), es).calls[k];
            && (c.runs == 1 <==> c.hasClosure && (TimedOut in c.log || GoodInTime(c.log)))
            && c.runs <= 1 && !(TimedOut in c.log && GoodInTime(c.log))
  {
    EveryCallDecided(NewLoop(now), es);
    NeverBoth(Run(NewLoop(now), es).calls[k]);
  }

  /** Call `k` has not timed out. */
  predicate Unexpired(s: System, k: nat) {
    k in s.calls && TimedOut !in s.calls[k].log
  }

  // ---------------------------------------------------------------- what events do to a call

  /** The timeout of call `k` is due, and nothing at its place in the timer or in front of it is cancelled. */
  ghost predicate Expires(s: System, k: nat) {
    exists i :: ExpiresAt(s, k, i)
  }

  ghost predicate ExpiresAt(s: System, k: nat, i: int) {
    var p := s.w.s.pending;
    && 0 <= i < |p| && p[i].ev == k && p[i].key <= s.w.now
    && forall j | 0 <= j <= i :: !p[j].info.cancelled
  }

  lemma ReadyIff(p: seq<Entry<nat>>, now: int, i: int)
    requires Sorted(p) && 0 <= i < |p|
    ensures i < Ready(p, now) <==> p[i].key <= now && forall j | 0 <= j <= i :: !p[j].info.cancelled
  {
    ReadyIs(p, now);
  }

  /** A pass runs the timeouts of just the calls that expire. */
  lemma ExpiresIff(s: System, k: nat)
    requires Consistent(s)
    ensures k in Fired(s.w.s, s.w.now).tasks <==> Expires(s, k)
  {
    var p, n, ts := s.w.s.pending, Ready(s.w.s.pending, s.w.now), Fired(s.w.s, s.w.now).tasks;
    FireIs(s);
    if k in ts {
      var i :| 0 <= i < |ts| && ts[i] == k;
      ReadyIff(p, s.w.now, i);
      assert ExpiresAt(s, k, i);
    }
    if Expires(s, k) {
      var i :| ExpiresAt(s, k, i);
      ReadyIff(p, s.w.now, i);
      assert ts[i] == p[i].ev;
    }
  }

  /**
   * What a pass does to a call: if it expires, it is cancelled and fails with the timeout's code, the
   * timeout is the newest mark, and its closure runs; if not, it stays as it is.
   */
  lemma PassIs(s: System, k: nat)
    requires Consistent(s) && k in s.calls
    ensures k in After(s, Fire).calls
    ensures var c, c' := s.calls[k], After(s, Fire).calls[k];
            && (!Expires(s, k) ==> c' == c)
            && (Expires(s, k) ==>
                  && c'.ctl == Controller(10000007, true, true, c.ctl.msgId, c.ctl.timeout)
                  && c'.log == c.log + [TimedOut] && c'.stage == c.stage && c'.hasClosure == c.hasClosure
                  && c'.runs == c.runs + if c.hasClosure then 1 else 0)
  {
    FireIs(s);
    TimeOutIs(s.calls, Fired(s.w.s, s.w.now).tasks);
    ExpiresIff(s, k);
  }

  /** What an event adds to the history of call `k`. */
  ghost function MarksOf(s: System, e: Event, k: nat): seq<Mark> {
    match e
    case CallerCancels(k') => if k' == k then [Cancelled] else []
    case ConnectDone(k', errCode) => if k' == k && errCode != 0 then [Unconnected(errCode)] else []
    case Respond(k', parses, code) =>
      if k' == k && Awaits(s, k) then
        [Replied(if !parses then Garbled else if code != 0 then Refused(code) else Good)]
      else []
    case Fire => if Expires(s, k) then [TimedOut] else []
    case _ => []
  }

  /** What a mark makes of the controller. */
  function Marked(ctl: Controller, m: Mark): Controller {
    match m
    case Unconnected(err) => ctl.(code := err, failed := true)
    case Cancelled => ctl.(cancelled := true)
    case TimedOut => ctl.(code := 10000007, failed := true, cancelled := true)
    case Replied(Garbled) => ctl.(code := 10000004, failed := true)
    case Replied(Refused(err)) => ctl.(code := err, failed := true)
    case Replied(Good) => ctl
  }

  /** A mark that runs the closure: a timeout, or a good response to a call that is not cancelled. */
  predicate Completes(ctl: Controller, m: Mark) {
    m == TimedOut || (m == Replied(Good) && !ctl.cancelled)
  }

  /** `c'` is `c` after at most one mark. */
  predicate Befalls(c: Call, c': Call, marks: seq<Mark>) {
    && |marks| <= 1 && c'.log == c.log + marks && c'.hasClosure == c.hasClosure
    && c'.ctl == (if marks == [] then c.ctl else Marked(c.ctl, marks[0]))
    && c'.runs == c.runs + if marks != [] && c.hasClosure && Completes(c.ctl, marks[0]) then 1 else 0
  }

  /** How far an event of its own takes a call. */
  function StageOf(s: System, e: Event, k: nat): Stage
    requires k in s.calls
  {
    match e
    case ConnectDone(k', errCode) => if k' == k then Writing(errCode == 0) else s.calls[k].stage
    case WriteDone(k') => if k' == k then Waiting else s.calls[k].stage
    case Respond(k', _, _) => if k' == k && Awaits(s, k) then Over else s.calls[k].stage
    case _ => s.calls[k].stage
  }

  lemma EventIs(s: System, e: Event, k: nat)
    requires Consistent(s) && Possible(s, e) && k in s.calls
    ensures k in After(s, e).calls
    ensures Befalls(s.calls[k], After(s, e).calls[k], MarksOf(s, e, k))
    ensures After(s, e).calls[k].stage == StageOf(s, e, k)
  {
    assert s.calls[k].log + [] == s.calls[k].log;
    if e == Fire {
      PassIs(s, k);
    } else {
      CalledBack(s, e, k);
    }
  }

  lemma CalledBack(s: System, e: Event, k: nat)
    requires Possible(s, e) && e != Fire && k in s.calls
    ensures k in CallsAfter(s, e) && Befalls(s.calls[k], CallsAfter(s, e)[k], MarksOf(s, e, k))
    ensures CallsAfter(s, e)[k].stage == StageOf(s, e, k)
  {
    assert s.calls[k].log + [] == s.calls[k].log;
  }

  /** How a call begins: its id and error, its place in the timer, and nothing in its history but a cancel. */
  lemma BegunIs(s: System, e: Event)
    requires Consistent(s) && e.Begin? && Possible(s, e)
    ensures e.k in After(s, e).calls
    ensures var c, p' := After(s, e).calls[e.k], After(s, e).w.s.pending;
            && c.runs == 0 && c.hasClosure == e.hasClosure && c.log == (if e.ctl.cancelled then [Cancelled] else [])
            && c.stage == (if e.start == Proper then Connecting else Idle)
            && c.ctl.cancelled == e.ctl.cancelled && c.ctl.timeout == e.ctl.timeout
            && c.ctl.msgId == (if e.ctl.msgId == [] && (e.start == Proper || e.start == Unserialisable) then e.generated
                               else e.ctl.msgId)
            && c.ctl.failed == (e.ctl.failed || e.start == Uninitialised || e.start == Unserialisable)
            && c.ctl.code == (if e.start == Uninitialised then 10000011
                              else if e.start == Unserialisable then 10000004 else e.ctl.code)
            && multiset(p') == multiset(s.w.s.pending) + Timeouts(s.w.now, e)
  {
    TimeoutBegun(s, e);
  }

  lemma TimeoutBegun(s: System, e: Event)
    requires Consistent(s) && e.Begin? && Possible(s, e)
    ensures multiset(After(s, e).w.s.pending) == multiset(s.w.s.pending) + Timeouts(s.w.now, e)
  {
    if e.start == Proper {
      var info := Info(s.w.now + e.ctl.timeout, e.ctl.timeout, false, false, e.k);
      NewIsAbsent(s, e.k);
      OneOp(s.w, AddEvent(e.k, info));
      AddIs(s.w.s, e.k, info, s.w.now);
    }
  }

  /** The timer entry of a call that begins properly: once, a timeout from now. */
  function Timeouts(now: int, e: Event): multiset<Entry<nat>>
    requires e.Begin?
  {
    var at := now + e.ctl.timeout;
    if e.start == Proper then multiset{Entry(at, e.k, Info(at, e.ctl.timeout, false, false, e.k))} else multiset{}
  }

  /** What happened to call `k` in a run, told from the events alone. */
  ghost function History(s: System, es: seq<Event>, k: nat): seq<Mark>
    requires PossibleRun(s, es)
    decreases |es|
  {
    if es == [] then [] else MarksOf(s, es[0], k) + History(After(s, es[0]), es[1..], k)
  }

  /** The log of a call is its history: so outcomes that are decided by the log are decided by what happened. */
  lemma {:induction false} LogIsHistory(s: System, es: seq<Event>, k: nat)
    requires Consistent(s) && PossibleRun(s, es) && k in s.calls
    ensures k in Run(s, es).calls && Run(s, es).calls[k].log == s.calls[k].log + History(s, es, k)
    decreases |es|
  {
    if es == [] {
      assert s.calls[k].log + [] == s.calls[k].log;
    } else {
      EventIs(s, es[0], k);
      EventKeeps(s, es[0]);
      LogIsHistory(After(s, es[0]), es[1..], k);
      Assoc(s.calls[k].log, MarksOf(s, es[0], k), History(After(s, es[0]), es[1..], k));
    }
  }

  // ---------------------------------------------------------------- calls that have ended

  /** Call `k` ended in CallMethod, or its response callback has run. */
  predicate Ended(s: System, k: nat) {
    k in s.calls && (s.calls[k].stage == Idle || s.calls[k].stage == Over)
  }

  /** But for its caller's cancels, `c'` is `c`. */
  predicate SameButCancelled(c: Call, c': Call) {
    c' == c.(ctl := c.ctl.(cancelled := c'.ctl.cancelled), log := c'.log) && Core(c'.log) == Core(c.log)
  }

  lemma EndedFire(s: System, k: nat)
    requires Consistent(s) && Ended(s, k)
    ensures k in After(s, Fire).calls && After(s, Fire).calls[k] == s.calls[k]
  {
    var ts := Fired(s.w.s, s.w.now).tasks;
    FireIs(s);
    TimeOutIs(s.calls, ts);
    TimedOutCall(s, k);
  }

  lemma EndedCancel(s: System, k': nat, k: nat)
    requires k' in s.calls && Ended(s, k)
    ensures SameButCancelled(s.calls[k], After(s, CallerCancels(k')).calls[k])
  {
    OneMore(s.calls[k].log, Cancelled, 0);
  }

  lemma EndedOther(s: System, e: Event, k: nat)
    requires Possible(s, e) && Ended(s, k) && !e.Fire? && !e.CallerCancels?
    ensures k in CallsAfter(s, e) && CallsAfter(s, e)[k] == s.calls[k]
  {
  }

  lemma EndedStays(s: System, e: Event, k: nat)
    requires Consistent(s) && Possible(s, e) && Ended(s, k)
    ensures k in After(s, e).calls && SameButCancelled(s.calls[k], After(s, e).calls[k])
  {
    match e
    case Fire => EndedFire(s, k);
    case CallerCancels(k') => EndedCancel(s, k', k);
    case _ => EndedOther(s, e, k);
  }

  /** Once a call has ended, no timeout, no response and no closure ever run for it. */
  lemma {:induction false} EndedForever(s: System, es: seq<Event>, k: nat)
    requires Consistent(s) && PossibleRun(s, es) && Ended(s, k)
    ensures k in Run(s, es).calls && SameButCancelled(s.calls[k], Run(s, es).calls[k])
    decreases |es|
  {
    if es == [] {
    } else {
      EndedStays(s, es[0], k);
      EventKeeps(s, es[0]);
      EndedForever(After(s, es[0]), es[1..], k);
    }
  }

  /**
   * A call with a foreign controller, on a channel that was not initialised, or whose request does not
   * serialise ends at once, the last two with their error set: in any run afterwards only its caller's
   * cancel touches it, and its closure never runs.
   */
  lemma UnbegunForever(s: System, e: Event, es: seq<Event>)
    requires Consistent(s) && e.Begin? && Possible(s, e) && e.start != Proper && PossibleRun(After(s, e), es)
    ensures e.k in Run(After(s, e), es).calls
    ensures var c := Run(After(s, e), es).calls[e.k];
            && c.runs == 0 && Core(c.log) == [] && c.ctl.failed == (e.ctl.failed || e.start != Foreign)
            && c.ctl.code == if e.start == Foreign then e.ctl.code
                             else if e.start == Uninitialised then 10000011
                             else 10000004
  {
    EventKeeps(s, e);
    NewDecided(e.ctl, e.hasClosure, e.start, e.generated);
    EndedForever(After(s, e), es, e.k);
  }

  /**
   * A cancelled call that is then answered in time falls silent: the good response cancels the timer
   * event and skips the closure, so the closure never runs, whatever happens afterwards.
   */
  lemma CancelThenAnswer(s: System, e: Event, es: seq<Event>)
    requires Consistent(s) && e.Respond? && Awaits(s, e.k)
    requires s.calls[e.k].ctl.cancelled && TimedOut !in s.calls[e.k].log && PossibleRun(After(s, e), es)
    ensures e.k in Run(After(s, e), es).calls && Run(After(s, e), es).calls[e.k].runs == 0
  {
    Unanswered(s.calls[e.k]);
    EventKeeps(s, e);
    EndedForever(After(s, e), es, e.k);
  }

  // ---------------------------------------------------------------- lost timeouts

  /** The call has begun and has no timer event. */
  ghost predicate Untimed(s: System, k: nat) {
    k in s.calls && Absent(s.w.s.pending, k)
  }

  /** Timeouts come only in a pass. */
  lemma UnexpiredStays(s: System, e: Event, k: nat)
    requires Possible(s, e) && e != Fire && k in s.calls
    ensures k in CallsAfter(s, e) && (TimedOut !in s.calls[k].log ==> TimedOut !in CallsAfter(s, e)[k].log)
  {
  }

  lemma StepLeavesAbsent(w: World<nat>, op: Op<nat>, n: nat)
    requires Absent(w.s.pending, n) && op != Service && (op.AddEvent? ==> op.ev != n)
    ensures Absent(Step(w, op).s.pending, n) && Step(w, op).ran == w.ran
  {
    match op
    case AddEvent(ev, info) => InsertAbsent(w.s.pending, Entry(info.arrive, ev, info), n);
    case DeleteEvent(ev, arrive) => var i := RemoveIs(Flagged(w.s.pending, ev), arrive, ev);
    case _ =>
  }

  /** Outside a pass only what is added to the timer comes into it, and nothing runs. */
  lemma EventLeavesAbsent(s: System, e: Event, n: nat)
    requires Possible(s, e) && e != Fire && Absent(s.w.s.pending, n)
    requires !(e.Begin? && e.k == n) && !(e.AddOther? && e.n == n)
    ensures Absent(After(s, e).w.s.pending, n) && After(s, e).w.ran == s.w.ran
  {
    if TimerOps(s, e) != [] {
      OneOp(s.w, TimerOps(s, e)[0]);
      StepLeavesAbsent(s.w, TimerOps(s, e)[0], n);
    }
  }

  lemma UntimedStays(s: System, e: Event, k: nat)
    requires Consistent(s) && Possible(s, e) && Untimed(s, k)
    ensures Untimed(After(s, e), k) && (Unexpired(s, k) ==> Unexpired(After(s, e), k))
  {
    if e == Fire {
      UntimedFire(s, k);
    } else {
      EventLeavesAbsent(s, e, k);
      UnexpiredStays(s, e, k);
    }
  }

  /** A pass leaves no event of `x` when none was pending. */
  lemma FireLeavesAbsent(s: System, x: nat)
    requires Consistent(s) && Absent(s.w.s.pending, x)
    ensures Absent(Fired(s.w.s, s.w.now).s.pending, x) && x !in Fired(s.w.s, s.w.now).tasks
  {
    var p, now := s.w.s.pending, s.w.now;
    var f, n := Fired(s.w.s, now), Ready(p, now);
    FireIs(s);
    forall i | 0 <= i < |f.tasks|
      ensures f.tasks[i] != x
    {
      assert p[i].ev == f.tasks[i];
    }
    forall i | 0 <= i < |f.s.pending|
      ensures f.s.pending[i].ev != x
    {
      AbsentStays(s.w.s, now, x, f.s.pending[i]);
    }
  }

  lemma AbsentStays(st: State<nat>, now: int, x: nat, e: Entry<nat>)
    requires Wellformed(st.pending) && Absent(st.pending, x) && e in Fired(st, now).s.pending
    ensures e.ev != x
  {
    var p, n := st.pending, Ready(st.pending, now);
    OnTimerExact(st, now);
    InSplit(Fired(st, now).s.pending, if Blocked(p, now) then p[n..] else [], Renewals(p[..n], now), e);
    if e in Renewals(p[..n], now) {
      RenewalsFrom(p[..n], now, e);
      var r :| r in p[..n] && Renews(r, e, now);
      assert r in p;
    } else {
      assert e in p;
    }
  }

  lemma UntimedFire(s: System, k: nat)
    requires Consistent(s) && Untimed(s, k)
    ensures Untimed(After(s, Fire), k) && (Unexpired(s, k) ==> Unexpired(After(s, Fire), k))
  {
    OneOp(s.w, Service);
    FireIs(s);
    TimeOutIs(s.calls, Fired(s.w.s, s.w.now).tasks);
    FireLeavesAbsent(s, k);
  }

  /** A call whose timer event was dropped never times out, whatever happens afterwards. */
  lemma {:induction false} DroppedForever(s: System, es: seq<Event>, k: nat)
    requires Consistent(s) && PossibleRun(s, es) && Untimed(s, k) && Unexpired(s, k)
    ensures Unexpired(Run(s, es), k)
    decreases |es|
  {
    if es == [] {
    } else {
      UntimedStays(s, es[0], k);
      EventKeeps(s, es[0]);
      DroppedForever(After(s, es[0]), es[1..], k);
    }
  }

  lemma UnblockedDrops(s: System, k: nat)
    requires Consistent(s) && !Blocked(s.w.s.pending, s.w.now) && k in After(s, Fire).calls
    ensures Untimed(After(s, Fire), k)
  {
    OneOp(s.w, Service);
    FireIs(s);
    TimeOutIs(s.calls, Fired(s.w.s, s.w.now).tasks);
    var p' := Fired(s.w.s, s.w.now).s.pending;
    forall i | 0 <= i < |p'|
      ensures p'[i].ev != k
    {
      assert p'[i] in p';
    }
  }

  /**
   * One timeout takes every later one with it.  A pass in which no answered call is due drops the
   * timer events of all the calls that are not due yet; such a call never times out, so if it is
   * not answered well, its closure never runs.
   */
  lemma PassDropsTheRest(s: System, es: seq<Event>, k: nat)
    requires Consistent(s) && !Blocked(s.w.s.pending, s.w.now) && PossibleRun(After(s, Fire), es)
    requires Unexpired(After(s, Fire), k)
    ensures Unexpired(Run(After(s, Fire), es), k)
    ensures var c := Run(After(s, Fire), es).calls[k]; c.runs > 0 ==> GoodInTime(c.log)
  {
    UnblockedDrops(s, k);
    FireKeeps(s);
    DroppedForever(After(s, Fire), es, k);
    EveryCallDecided(After(s, Fire), es);
  }

  /** How often the event numbered `n` has run. */
  function Ran(s: System, n: nat): nat {
    multiset(s.w.ran)[n]
  }

  ghost predicate NotAdded(es: seq<Event>, n: nat) {
    forall e | e in es :: !(e.AddOther? && e.n == n)
  }

  lemma OtherStays(s: System, e: Event, n: nat)
    requires Consistent(s) && Possible(s, e) && n in s.others && Absent(s.w.s.pending, n)
    requires !(e.AddOther? && e.n == n)
    ensures var s' := After(s, e); n in s'.others && Absent(s'.w.s.pending, n) && Ran(s', n) == Ran(s, n)
  {
    if e == Fire {
      OneOp(s.w, Service);
      FireLeavesAbsent(s, n);
    } else {
      EventLeavesAbsent(s, e, n);
    }
  }

  lemma {:induction false} GoneForever(s: System, es: seq<Event>, n: nat)
    requires Consistent(s) && PossibleRun(s, es) && NotAdded(es, n) && n in s.others && Absent(s.w.s.pending, n)
    ensures Ran(Run(s, es), n) == Ran(s, n)
    decreases |es|
  {
    if es == [] {
    } else {
      assert es[0] in es && forall e | e in es[1..] :: e in es;
      OtherStays(s, es[0], n);
      EventKeeps(s, es[0]);
      GoneForever(After(s, es[0]), es[1..], n);
    }
  }

  /**
   * The other events go the same way, the logger's periodic one among them: if it is not due in a pass
   * in which no answered call is, it is dropped and never runs again, unless it is added again.
   */
  lemma PassDropsOthers(s: System, es: seq<Event>, e: Entry<nat>)
    requires Consistent(s) && !Blocked(s.w.s.pending, s.w.now) && PossibleRun(After(s, Fire), es)
    requires e in s.w.s.pending && e.ev in s.others && !Due(e, s.w.now) && NotAdded(es, e.ev)
    ensures Ran(Run(After(s, Fire), es), e.ev) == Ran(s, e.ev)
  {
    OneOp(s.w, Service);
    FireKeeps(s);
    UndueDropped(s, e);
    GoneForever(After(s, Fire), es, e.ev);
  }

  lemma UndueDropped(s: System, e: Entry<nat>)
    requires Consistent(s) && !Blocked(s.w.s.pending, s.w.now) && e in s.w.s.pending && !Due(e, s.w.now)
    ensures Absent(Fired(s.w.s, s.w.now).s.pending, e.ev) && e.ev !in Fired(s.w.s, s.w.now).tasks
  {
    var p, now := s.w.s.pending, s.w.now;
    var f, n := Fired(s.w.s, now), Ready(p, now);
    FireIs(s);
    OnTimerExact(s.w.s, now);
    ReadyIs(p, now);
    var j :| 0 <= j < |p| && p[j] == e;
    forall i | 0 <= i < |f.tasks|
      ensures f.tasks[i] != e.ev
    {
      assert f.tasks[i] == p[i].ev && Due(p[i], now);
    }
    forall i | 0 <= i < |f.s.pending|
      ensures f.s.pending[i].ev != e.ev
    {
      InSplit(f.s.pending, [], Renewals(p[..n], now), f.s.pending[i]);
      RenewalsFrom(p[..n], now, f.s.pending[i]);
      var r :| r in p[..n] && Renews(r, f.s.pending[i], now);
      var k :| 0 <= k < n && p[k] == r;
      assert Due(p[k], now);
    }
  }

  // ---------------------------------------------------------------- a jammed timer

  /** Nothing is added to the timer in front of its first event, and that event is not deleted. */
  ghost predicate AllBehind(s: System, es: seq<Event>, head: nat)
    requires PossibleRun(s, es)
    decreases |es|
  {
    es == [] || (OrdinaryRun(s.w, TimerOps(s, es[0]), head) && AllBehind(After(s, es[0]), es[1..], head))
  }

  /** No call times out in `s'` that had not in `s`. */
  ghost predicate NoneExpires(s: System, s': System) {
    forall k | k in s'.calls && !Unexpired(s', k) :: k in s.calls && !Unexpired(s, k)
  }

  lemma JammedStep(s: System, e: Event, head: nat)
    requires Possible(s, e) && Jammed(s.w, head) && OrdinaryRun(s.w, TimerOps(s, e), head)
    ensures Jammed(After(s, e).w, head) && After(s, e).w.ran == s.w.ran && NoneExpires(s, After(s, e))
  {
    JammedForever(s.w, TimerOps(s, e), head);
    if e == Fire {
      OneOp(s.w, Service);
      NothingRan(s.w.ran, Fired(s.w.s, s.w.now).tasks);
    }
  }

  lemma NothingRan(ran: seq<Task>, more: seq<Task>)
    requires ran + more == ran
    ensures more == []
  {
  }

  /**
   * An answered call silences the loop.  Once the first event of the timer is that of a call that was
   * answered and whose deadline has passed, no call on the loop, old or new, ever times out, and none of
   * the other events, the logger's among them, ever runs: not until something arrives before that event.
   */
  lemma {:induction false} AnsweredSilences(s: System, es: seq<Event>, head: nat)
    requires Consistent(s) && PossibleRun(s, es) && Jammed(s.w, head) && AllBehind(s, es, head)
    ensures NoneExpires(s, Run(s, es)) && Run(s, es).w.ran == s.w.ran
    decreases |es|
  {
    if es == [] {
    } else {
      JammedStep(s, es[0], head);
      EventKeeps(s, es[0]);
      AnsweredSilences(After(s, es[0]), es[1..], head);
    }
  }

  /** Timeouts are not negative, and other events are not added with an arrival time in the past. */
  ghost predicate Patient(s: System, es: seq<Event>)
    requires PossibleRun(s, es)
    decreases |es|
  {
    || es == []
    || (&& (es[0].Begin? ==> 0 <= es[0].ctl.timeout)
        && (es[0].AddOther? ==> s.w.now <= es[0].info.arrive)
        && Patient(After(s, es[0]), es[1..]))
  }

  lemma OneOrdinary(w: World<nat>, op: Op<nat>, head: nat)
    requires Ordinary(w, op, head)
    ensures OrdinaryRun(w, [op], head)
  {
    assert [op][1..] == [];
  }

  /** Behind an answered call whose deadline has passed everything is added that is added in time. */
  lemma {:induction false} PatientIsBehind(s: System, es: seq<Event>, head: nat)
    requires Consistent(s) && PossibleRun(s, es) && Patient(s, es) && Jammed(s.w, head) && head in s.calls
    ensures AllBehind(s, es, head)
    decreases |es|
  {
    if es == [] {
    } else {
      var e := es[0];
      if e.Begin? {
        NewIsAbsent(s, e.k);
      }
      if TimerOps(s, e) != [] {
        OneOrdinary(s.w, TimerOps(s, e)[0], head);
      }
      JammedStep(s, e, head);
      EventKeeps(s, e);
      HeadStays(s, e, head);
      PatientIsBehind(After(s, e), es[1..], head);
    }
  }

  lemma HeadStays(s: System, e: Event, k: nat)
    requires Consistent(s) && Possible(s, e) && k in s.calls
    ensures k in After(s, e).calls
  {
    if e == Fire {
      FireIs(s);
      TimeOutIs(s.calls, Fired(s.w.s, s.w.now).tasks);
    }
  }

  lemma RunCons(s: System, e: Event, es: seq<Event>)
    requires Possible(s, e) && PossibleRun(After(s, e), es)
    ensures PossibleRun(s, [e] + es) && Run(s, [e] + es) == Run(After(s, e), es)
  {
    assert ([e] + es)[1..] == es;
  }

  /** One call from its beginning to a good answer. */
  function Exchange(k: nat, ctl: Controller, generated: seq<byte>): seq<Event> {
    [Begin(k, ctl, true, Proper, generated)] + ([ConnectDone(k, 0)] + ([WriteDone(k)] + ([Respond(k, true, 0)] + [])))
  }

  /** The timer after one answered call on an idle loop: its cancelled event. */
  lemma ExchangeLeaves(s: System, k: nat, ctl: Controller, generated: seq<byte>)
    requires s.w.s.pending == [] && k !in s.calls && k !in s.others && !ctl.cancelled
    ensures PossibleRun(s, Exchange(k, ctl, generated))
    ensures var s' := Run(s, Exchange(k, ctl, generated));
            && s'.w.s.pending == [Entry(s.w.now + ctl.timeout, k,
                                        Info(s.w.now + ctl.timeout, ctl.timeout, false, true, k))]
            && s'.w.now == s.w.now && k in s'.calls && s'.calls[k].log == [Replied(Good)] && s'.calls[k].runs == 1
  {
    var info := Info(s.w.now + ctl.timeout, ctl.timeout, false, false, k);
    var b, c, w, r := Begin(k, ctl, true, Proper, generated), ConnectDone(k, 0), WriteDone(k), Respond(k, true, 0);
    OneOp(s.w, AddEvent(k, info));
    var s1 := After(s, b);
    var s2 := After(s1, c);
    var s3 := After(s2, w);
    OneOp(s3.w, CancelEvent(k));
    RunCons(s3, r, []);
    RunCons(s2, w, [r] + []);
    RunCons(s1, c, [w] + ([r] + []));
    RunCons(s, b, [c] + ([w] + ([r] + [])));
    assert s1.w.s.pending == [Entry(info.arrive, k, info)];
    assert After(s3, r).w.s.pending == Flagged(s1.w.s.pending, k);
  }

  /**
   * After a single answered call on an idle loop, and the time its timeout would have taken, no call that
   * is ever begun on that loop times out, and no other event that is ever added to it runs.
   */
  lemma OneAnswerIsEnough(s: System, k: nat, ctl: Controller, generated: seq<byte>, es: seq<Event>)
    requires Consistent(s) && s.w.s.pending == [] && k !in s.calls && k !in s.others
    requires !ctl.cancelled && 0 <= ctl.timeout && PossibleRun(s, Exchange(k, ctl, generated))
    requires var s' := After(Run(s, Exchange(k, ctl, generated)), Pass(ctl.timeout));
             PossibleRun(s', es) && Patient(s', es)
    ensures var s' := After(Run(s, Exchange(k, ctl, generated)), Pass(ctl.timeout));
            NoneExpires(s', Run(s', es)) && Run(s', es).w.ran == s'.w.ran
  {
    ExchangeLeaves(s, k, ctl, generated);
    EveryCallDecided(s, Exchange(k, ctl, generated));
    var answered := Run(s, Exchange(k, ctl, generated));
    OneOp(answered.w, Elapse(ctl.timeout));
    EventKeeps(answered, Pass(ctl.timeout));
    AnswerSilences(After(answered, Pass(ctl.timeout)), es, k);
  }

  lemma AnswerSilences(s: System, es: seq<Event>, head: nat)
    requires Consistent(s) && PossibleRun(s, es) && Patient(s, es) && Jammed(s.w, head) && head in s.calls
    ensures NoneExpires(s, Run(s, es)) && Run(s, es).w.ran == s.w.ran
  {
    PatientIsBehind(s, es, head);
    AnsweredSilences(s, es, head);
  }
}
