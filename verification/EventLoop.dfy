// hl/net/eventloop.cc: the task queue, which any thread fills and the loop swaps out and drains, and
// the set of watched descriptors kept beside the kernel's epoll set.

module EventLoops {
  import opened Bytes

  // ---------------------------------------------------------------- the interest set

  /** `m_listen_fds`, the kernel's epoll set with the mask of each descriptor, and failed epoll_ctl calls. */
  datatype Interest = Interest(listen: set<int>, kernel: map<int, int>, errors: nat)

  /** ADD_TO_EPOLL: EPOLL_CTL_MOD when the set knows the descriptor, EPOLL_CTL_ADD otherwise. */
  function Watched(i: Interest, fd: int, mask: int): Interest {
    var legal := fd in i.listen <==> fd in i.kernel;
    Interest(i.listen + {fd},
             if legal then i.kernel[fd := mask] else i.kernel,
             if legal then i.errors else i.errors + 1)
  }

  /** DEL_TO_EPOLL: nothing when the set does not know the descriptor. */
  function Unwatched(i: Interest, fd: int): Interest {
    if fd !in i.listen then i
    else Interest(i.listen - {fd}, i.kernel - {fd}, if fd in i.kernel then i.errors else i.errors + 1)
  }

  /** The kernel forgets a descriptor that is closed. */
  function Closed(i: Interest, fd: int): Interest {
    i.(kernel := i.kernel - {fd})
  }

  // ---------------------------------------------------------------- tasks

  /** Other work, or an epoll operation that another thread asked for. */
  datatype Task = Work(id: nat) | Watch(fd: int) | Unwatch(fd: int)

  datatype Loop = Loop(pending: seq<Task>, local: seq<Task>, executed: seq<Task>, interest: Interest,
                       masks: map<int, int>)

  /** The mask of a descriptor's FdEvent. */
  function MaskOf(l: Loop, fd: int): int {
    if fd in l.masks then l.masks[fd] else 0
  }

  /** Running one task; an epoll operation uses the mask the event has when it runs. */
  function Effect(l: Loop, t: Task): Interest {
    match t
    case Work(_) => l.interest
    case Watch(fd) => Watched(l.interest, fd, MaskOf(l, fd))
    case Unwatch(fd) => Unwatched(l.interest, fd)
  }

  datatype Step =
    | AddTask(task: Task)              // addTask, from any thread, also from inside a task
    | Swap                             // the loop takes the whole queue
    | RunNext                          // the loop runs the next task of its batch
    | WatchHere(fd: int)               // addEpollEvent on the loop's own thread
    | UnwatchHere(fd: int)             // deleteEpollEvent on the loop's own thread
    | SetMask(fd: int, mask: int)      // FdEvent::listen and FdEvent::cancle
    | Close(fd: int)

  predicate Enabled(l: Loop, s: Step) {
    && (s.Swap? ==> l.local == [])
    && (s.RunNext? ==> l.local != [])
  }

  function After(l: Loop, s: Step): Loop
    requires Enabled(l, s)
  {
    match s
    case AddTask(t) => l.(pending := l.pending + [t])
    case Swap => l.(local := l.pending, pending := [])
    case RunNext =>
      l.(local := l.local[1..], executed := l.executed + [l.local[0]], interest := Effect(l, l.local[0]))
    case WatchHere(fd) => l.(interest := Watched(l.interest, fd, MaskOf(l, fd)))
    case UnwatchHere(fd) => l.(interest := Unwatched(l.interest, fd))
    case SetMask(fd, mask) => l.(masks := l.masks[fd := mask])
    case Close(fd) => l.(interest := Closed(l.interest, fd))
  }

  ghost predicate EnabledRun(l: Loop, ss: seq<Step>)
    decreases |ss|
  {
    ss == [] || (Enabled(l, ss[0]) && EnabledRun(After(l, ss[0]), ss[1..]))
  }

  ghost function Run(l: Loop, ss: seq<Step>): Loop
    requires EnabledRun(l, ss)
    decreases |ss|
  {
    if ss == [] then l else Run(After(l, ss[0]), ss[1..])
  }

  // ---------------------------------------------------------------- tasks run once and in order

  function Added(ss: seq<Step>): seq<Task> {
    if ss == [] then []
    else (if ss[0].AddTask? then [ss[0].task] else []) + Added(ss[1..])
  }

  lemma AddedFirst(ss: seq<Step>)
    requires ss != []
    ensures Added(ss) == Added([ss[0]]) + Added(ss[1..])
  {
    assert [ss[0]][1..] == [];
  }

  function AllTasks(l: Loop): seq<Task> {
    l.executed + l.local + l.pending
  }

  lemma StepConserves(l: Loop, s: Step)
    requires Enabled(l, s)
    ensures AllTasks(After(l, s)) == AllTasks(l) + Added([s])
  {
    assert [s][1..] == [];
    if s.RunNext? {
      assert l.executed + l.local == l.executed + [l.local[0]] + l.local[1..];
    }
  }

  /**
   * Over every run, what was executed, then the rest of the loop's batch, then the queue, is what
   * was added, in the order it was added: each task runs once, in order, and one that is added
   * while a batch runs comes after that batch.
   */
  lemma {:induction false} TasksConserved(l: Loop, ss: seq<Step>)
    requires EnabledRun(l, ss)
    ensures AllTasks(Run(l, ss)) == AllTasks(l) + Added(ss)
    decreases |ss|
  {
    if ss == [] {
    } else {
      StepConserves(l, ss[0]);
      TasksConserved(After(l, ss[0]), ss[1..]);
      AddedFirst(ss);
      Assoc(AllTasks(l), Added([ss[0]]), Added(ss[1..]));
    }
  }

  predicate NoSwap(ss: seq<Step>) {
    Swap !in ss
  }

  function RunNexts(ss: seq<Step>): (n: nat)
    ensures n <= |ss|
  {
    if ss == [] then 0 else (if ss[0] == RunNext then 1 else 0) + RunNexts(ss[1..])
  }

  /** Nothing that is added can delay the loop: a batch ends after as many runs as it has tasks. */
  lemma {:induction false} BatchShrinks(l: Loop, ss: seq<Step>)
    requires EnabledRun(l, ss) && NoSwap(ss)
    ensures RunNexts(ss) <= |l.local|
    ensures Run(l, ss).local == l.local[RunNexts(ss)..]
    ensures Run(l, ss).executed == l.executed + l.local[..RunNexts(ss)]
    decreases |ss|
  {
    if ss == [] {
    } else {
      assert ss[0] in ss && forall s | s in ss[1..] :: s in ss;
      var l' := After(l, ss[0]);
      BatchShrinks(l', ss[1..]);
      var n := RunNexts(ss[1..]);
      if ss[0] == RunNext {
        assert l.local[1..][n..] == l.local[n + 1..];
        assert l.executed + [l.local[0]] + l.local[1..][..n] == l.executed + l.local[..n + 1];
      }
    }
  }

  // ---------------------------------------------------------------- the kernel agrees

  /** Every descriptor the loop knows but the kernel does not was closed while it was watched. */
  ghost predicate Tracks(l: Loop, closed: set<int>) {
    l.interest.kernel.Keys <= l.interest.listen <= l.interest.kernel.Keys + closed
  }

  function ClosedIn(ss: seq<Step>): set<int> {
    if ss == [] then {} else (if ss[0].Close? then {ss[0].fd} else {}) + ClosedIn(ss[1..])
  }

  lemma StepTracks(l: Loop, s: Step, closed: set<int>)
    requires Enabled(l, s) && Tracks(l, closed)
    ensures Tracks(After(l, s), if s.Close? then closed + {s.fd} else closed)
  {
  }

  /** Over every run the loop knows everything the kernel watches, and nothing more but what was closed. */
  lemma {:induction false} KernelTracked(l: Loop, ss: seq<Step>, closed: set<int>)
    requires EnabledRun(l, ss) && Tracks(l, closed)
    ensures Tracks(Run(l, ss), closed + ClosedIn(ss))
    decreases |ss|
  {
    if ss == [] {
    } else {
      StepTracks(l, ss[0], closed);
      var closed' := if ss[0].Close? then closed + {ss[0].fd} else closed;
      KernelTracked(After(l, ss[0]), ss[1..], closed');
      assert closed' + ClosedIn(ss[1..]) == closed + ClosedIn(ss);
    }
    assert closed + {} == closed;
  }

  /** The sets agree, and each mask is the one its event had when it was last registered. */
  ghost predicate Agrees(l: Loop, last: map<int, int>) {
    l.interest.listen == l.interest.kernel.Keys && l.interest.kernel == last
  }

  /** The masks as last registered, which no run of the kernel is needed for. */
  function Registered(l: Loop, s: Step, last: map<int, int>): map<int, int>
    requires Enabled(l, s)
  {
    var t := if s.RunNext? then l.local[0] else Work(0);
    if s.WatchHere? then last[s.fd := MaskOf(l, s.fd)]
    else if t.Watch? then last[t.fd := MaskOf(l, t.fd)]
    else if s.UnwatchHere? then last - {s.fd}
    else if t.Unwatch? then last - {t.fd}
    else last
  }

  ghost function RegisteredRun(l: Loop, ss: seq<Step>, last: map<int, int>): map<int, int>
    requires EnabledRun(l, ss)
    decreases |ss|
  {
    if ss == [] then last else RegisteredRun(After(l, ss[0]), ss[1..], Registered(l, ss[0], last))
  }

  lemma StepAgrees(l: Loop, s: Step, last: map<int, int>)
    requires Enabled(l, s) && !s.Close? && Agrees(l, last)
    ensures Agrees(After(l, s), Registered(l, s, last))
    ensures After(l, s).interest.errors == l.interest.errors
  {
    if s.UnwatchHere? && s.fd !in last {
      assert last - {s.fd} == last;
    } else if s.RunNext? && l.local[0].Unwatch? && l.local[0].fd !in last {
      assert last - {l.local[0].fd} == last;
    }
  }

  /**
   * As long as no descriptor is closed, the loop's set is the kernel's, every mask is the last one
   * registered, whichever thread asked for it and whenever its task ran, and no epoll_ctl fails.
   */
  lemma {:induction false} KernelAgrees(l: Loop, ss: seq<Step>, last: map<int, int>)
    requires EnabledRun(l, ss) && Agrees(l, last) && forall s | s in ss :: !s.Close?
    ensures Agrees(Run(l, ss), RegisteredRun(l, ss, last))
    ensures Run(l, ss).interest.errors == l.interest.errors
    decreases |ss|
  {
    if ss == [] {
    } else {
      assert ss[0] in ss && forall s | s in ss[1..] :: s in ss;
      StepAgrees(l, ss[0], last);
      KernelAgrees(After(l, ss[0]), ss[1..], Registered(l, ss[0], last));
    }
  }

  /** `fd` is known to the loop and unknown to the kernel. */
  predicate Stale(l: Loop, fd: int) {
    fd in l.interest.listen && fd !in l.interest.kernel
  }

  predicate Unwatches(l: Loop, s: Step, fd: int)
    requires Enabled(l, s)
  {
    s == UnwatchHere(fd) || (s == RunNext && l.local[0] == Unwatch(fd))
  }

  ghost predicate NeverUnwatches(l: Loop, ss: seq<Step>, fd: int)
    requires EnabledRun(l, ss)
    decreases |ss|
  {
    ss == [] || (!Unwatches(l, ss[0], fd) && NeverUnwatches(After(l, ss[0]), ss[1..], fd))
  }

  /**
   * A descriptor that is closed while it is watched is lost to the loop: a new connection that gets
   * the same number stays unwatched however often it is added, until the number is deleted once.
   */
  lemma {:induction false} StaleForever(l: Loop, ss: seq<Step>, fd: int)
    requires EnabledRun(l, ss) && Stale(l, fd) && NeverUnwatches(l, ss, fd)
    ensures Stale(Run(l, ss), fd)
    decreases |ss|
  {
    if ss == [] {
    } else {
      StaleForever(After(l, ss[0]), ss[1..], fd);
    }
  }

  // ---------------------------------------------------------------- the object

  /** hl/net/fd_event.h, as far as the loop uses it. */
  class FdEvent {
    const fd: int
    var mask: int

    constructor (fd: int)
      ensures this.fd == fd && mask == 0
    {
      this.fd, mask := fd, 0;
    }
  }

  /** A queued closure: other work, or one of the two that the loop's own methods queue. */
  datatype Closure = Job(id: nat) | AddEvent(event: FdEvent) | DeleteEvent(event: FdEvent)

  function TaskOf(c: Closure): Task {
    match c
    case Job(id) => Work(id)
    case AddEvent(event) => Watch(event.fd)
    case DeleteEvent(event) => Unwatch(event.fd)
  }

  function TasksOf(cs: seq<Closure>): (ts: seq<Task>)
    ensures |ts| == |cs| && forall k | 0 <= k < |cs| :: ts[k] == TaskOf(cs[k])
  {
    seq(|cs|, k requires 0 <= k < |cs| => TaskOf(cs[k]))
  }

  /** The error callback of an event, which may be missing. */
  datatype Handler = Unset | Set(task: nat)

  /** What epoll_wait reports for one descriptor. */
  datatype Ready = Ready(event: FdEvent, input: bool, output: bool, error: bool,
                         readTask: nat, writeTask: nat, errorTask: Handler)

  /** The tasks that one report queues: its read, its write and its error callback, in this order. */
  function Handlers(r: Ready): seq<Task> {
    (if r.input then [Work(r.readTask)] else []) + (if r.output then [Work(r.writeTask)] else [])
    + (if r.error && r.errorTask.Set? then [Work(r.errorTask.task)] else [])
  }

  /** Which callbacks a report queues, and where: reading before writing, and the error callback last. */
  lemma HandlersAre(r: Ready)
    ensures var hs, fails := Handlers(r), r.error && r.errorTask.Set?;
            && |hs| == (if r.input then 1 else 0) + (if r.output then 1 else 0) + (if fails then 1 else 0)
            && (r.input ==> hs[0] == Work(r.readTask))
            && (r.output ==> hs[if r.input then 1 else 0] == Work(r.writeTask))
            && (fails ==> hs[|hs| - 1] == Work(r.errorTask.task))
  {
  }

  class EventLoop {
    var pendingTasks: seq<Closure>
    var listenFds: set<int>
    ghost var kernel: map<int, int>
    ghost var errors: nat
    ghost var executed: seq<Task>

    ghost function State(): Interest
      reads this
    {
      Interest(listenFds, kernel, errors)
    }

    constructor ()
      ensures State() == Interest({}, map[], 0) && pendingTasks == [] && executed == []
    {
      pendingTasks, listenFds, kernel, errors, executed := [], {}, map[], 0, [];
    }

    /** epoll_ctl with EPOLL_CTL_ADD or EPOLL_CTL_MOD: the kernel accepts one or the other. */
    ghost method Ctl(isMod: bool, fd: int, mask: int)
      modifies this`kernel, this`errors
      ensures isMod == (fd in old(kernel)) ==> kernel == old(kernel)[fd := mask] && errors == old(errors)
      ensures isMod != (fd in old(kernel)) ==> kernel == old(kernel) && errors == old(errors) + 1
    {
      if isMod == (fd in kernel) {
        kernel := kernel[fd := mask];
      } else {
        errors := errors + 1;
      }
    }

    /** ADD_TO_EPOLL. */
    method AddToEpoll(event: FdEvent)
      modifies this`listenFds, this`kernel, this`errors
      ensures State() == Watched(old(State()), event.fd, event.mask)
    {
      Ctl(event.fd in listenFds, event.fd, event.mask);
      listenFds := listenFds + {event.fd};
    }

    /** DEL_TO_EPOLL. */
    method DelFromEpoll(event: FdEvent)
      modifies this`listenFds, this`kernel, this`errors
      ensures State() == Unwatched(old(State()), event.fd)
    {
      if event.fd !in listenFds {
        return;
      }
      if event.fd !in kernel {
        errors := errors + 1;
      }
      kernel := kernel - {event.fd};
      listenFds := listenFds - {event.fd};
    }

    method AddTask(cb: Closure)
      modifies this`pendingTasks
      ensures pendingTasks == old(pendingTasks) + [cb]
    {
      pendingTasks := pendingTasks + [cb];
    }

    /** `addEpollEvent`: at once on the loop's own thread, as a task from any other. */
    method AddEpollEvent(event: FdEvent, inLoopThread: bool)
      modifies this
      ensures executed == old(executed)
      ensures inLoopThread ==>
                State() == Watched(old(State()), event.fd, event.mask) && pendingTasks == old(pendingTasks)
      ensures !inLoopThread ==> State() == old(State()) && pendingTasks == old(pendingTasks) + [AddEvent(event)]
    {
      if inLoopThread {
        AddToEpoll(event);
      } else {
        AddTask(AddEvent(event));
      }
    }

    method DeleteEpollEvent(event: FdEvent, inLoopThread: bool)
      modifies this
      ensures executed == old(executed)
      ensures inLoopThread ==>
                State() == Unwatched(old(State()), event.fd) && pendingTasks == old(pendingTasks)
      ensures !inLoopThread ==> State() == old(State()) && pendingTasks == old(pendingTasks) + [DeleteEvent(event)]
    {
      if inLoopThread {
        DelFromEpoll(event);
      } else {
        AddTask(DeleteEvent(event));
      }
    }

    /** One turn of the inner loop of `loop`; `adds` is what is queued meanwhile, by the task or others. */
    method RunTask(cb: Closure, adds: seq<Closure>)
      modifies this
      ensures pendingTasks == old(pendingTasks) + adds && executed == old(executed) + [TaskOf(cb)]
      ensures State() == if cb.Job? then old(State())
                         else if cb.AddEvent? then Watched(old(State()), cb.event.fd, cb.event.mask)
                         else Unwatched(old(State()), cb.event.fd)
    {
      match cb {
        case Job(_) =>
        case AddEvent(event) => AddToEpoll(event);
        case DeleteEvent(event) => DelFromEpoll(event);
      }
      pendingTasks := pendingTasks + adds;
      executed := executed + [TaskOf(cb)];
    }

    /**
     * The first half of a turn of `loop`: the queue is swapped out and drained.  Exactly the tasks
     * that were queued run, in order, and exactly what was added meanwhile is queued afterwards.
     */
    method RunPending(adds: seq<seq<Closure>>)
      requires |adds| == |pendingTasks|
      modifies this
      ensures executed == old(executed) + TasksOf(old(pendingTasks))
      ensures pendingTasks == Concat(adds)
    {
      var tmpTasks := pendingTasks;
      pendingTasks := [];
      ghost var all := tmpTasks;
      var i := 0;
      while |tmpTasks| > 0
        invariant i <= |all| && tmpTasks == all[i..]
        invariant executed == old(executed) + TasksOf(all[..i])
        invariant pendingTasks == Concat(adds[..i])
      {
        var cb := tmpTasks[0];
        tmpTasks := tmpTasks[1..];
        RunTask(cb, adds[i]);
        ConcatSnoc(adds[..i], adds[i]);
        assert adds[..i] + [adds[i]] == adds[..i + 1];
        assert TasksOf(all[..i + 1]) == TasksOf(all[..i]) + [TaskOf(cb)];
        i := i + 1;
      }
      assert adds[..i] == adds && all[..i] == all;
    }

    /** The second half: every report of epoll_wait queues its handlers; an error also ends the watching. */
    method QueueReady(events: seq<Ready>)
      modifies this
      ensures TasksOf(pendingTasks) == TasksOf(old(pendingTasks)) + AllHandlers(events)
      ensures State() == AfterErrors(old(State()), events) && executed == old(executed)
    {
      ghost var state, queued := State(), TasksOf(pendingTasks);
      assert events[0..] == events;
      for i := 0 to |events|
        invariant executed == old(executed)
        invariant AfterErrors(State(), events[i..]) == AfterErrors(state, events)
        invariant TasksOf(pendingTasks) + AllHandlers(events[i..]) == queued + AllHandlers(events)
      {
        assert events[i..][0] == events[i] && events[i..][1..] == events[i + 1..];
        QueueOne(events[i]);
      }
    }

    method QueueOne(r: Ready)
      modifies this
      ensures TasksOf(pendingTasks) == TasksOf(old(pendingTasks)) + Handlers(r)
      ensures State() == (if r.error then Unwatched(old(State()), r.event.fd) else old(State()))
      ensures executed == old(executed)
    {
      if r.input {
        AddTask(Job(r.readTask));
      }
      if r.output {
        AddTask(Job(r.writeTask));
      }
      if r.error {
        DeleteEpollEvent(r.event, true);
        if r.errorTask.Set? {
          AddTask(Job(r.errorTask.task));
        }
      }
    }
  }

  function AllHandlers(events: seq<Ready>): seq<Task> {
    if events == [] then [] else Handlers(events[0]) + AllHandlers(events[1..])
  }

  function AfterErrors(i: Interest, events: seq<Ready>): Interest
    decreases |events|
  {
    if events == [] then i
    else AfterErrors(if events[0].error then Unwatched(i, events[0].event.fd) else i, events[1..])
  }

  /** The reports are handled in the order in which they come. */
  lemma {:induction false} AllHandlersConcat(a: seq<Ready>, b: seq<Ready>)
    ensures AllHandlers(a + b) == AllHandlers(a) + AllHandlers(b)
    ensures |b| == 1 ==> AllHandlers(b) == Handlers(b[0])
  {
    if |b| == 1 {
      assert b[1..] == [] && Handlers(b[0]) + [] == Handlers(b[0]);
    }
    if a == [] {
      assert a + b == b;
    } else {
      assert (a + b)[1..] == a[1..] + b;
      AllHandlersConcat(a[1..], b);
      Assoc(Handlers(a[0]), AllHandlers(a[1..]), AllHandlers(b));
    }
  }

  /** A report of `fd` is an error. */
  ghost predicate Erred(events: seq<Ready>, fd: int) {
    exists r :: r in events && r.error && r.event.fd == fd
  }

  /** An error ends the watching of just the descriptor it is reported for. */
  lemma {:induction false} ErredIff(i: Interest, events: seq<Ready>, fd: int)
    requires i.kernel.Keys <= i.listen
    ensures var i' := AfterErrors(i, events);
            && (fd in i'.listen <==> fd in i.listen && !Erred(events, fd))
            && (fd in i'.kernel <==> fd in i.kernel && !Erred(events, fd))
            && (fd in i'.kernel ==> i'.kernel[fd] == i.kernel[fd])
    decreases |events|
  {
    if events == [] {
    } else {
      var r := events[0];
      ErredIff(if r.error then Unwatched(i, r.event.fd) else i, events[1..], fd);
      assert Erred(events, fd) <==> (r.error && r.event.fd == fd) || Erred(events[1..], fd) by {
        assert forall x | x in events :: x == r || x in events[1..];
      }
    }
  }

  function Concat(parts: seq<seq<Closure>>): seq<Closure> {
    if parts == [] then [] else parts[0] + Concat(parts[1..])
  }

  lemma {:induction false} ConcatSnoc(parts: seq<seq<Closure>>, last: seq<Closure>)
    ensures Concat(parts + [last]) == Concat(parts) + last
  {
    if parts == [] {
      assert [last][1..] == [];
    } else {
      assert (parts + [last])[1..] == parts[1..] + [last];
      ConcatSnoc(parts[1..], last);
    }
  }
}
