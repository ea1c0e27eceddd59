// hl/net/rpc/rpc_channel.cc and hl/net/rpc/rpc_contorller.cc: one call, from CallMethod to the race
// between its timeout callback and its response callback.

module RpcChannels {
  import opened Bytes
  import opened Timers
  import opened RpcDispatchers

  const ERROR_RPC_CALL_TIMEOUT: int32 := 10000007
  const ERROR_RPC_CHANNEL_INIT: int32 := 10000011

  /** What the controller of a call tells its caller. */
  datatype Controller = Controller(code: int32, failed: bool, cancelled: bool, msgId: seq<byte>, timeout: int)

  function WithError(c: Controller, code: int32): Controller {
    c.(code := code, failed := true)
  }

  /** How a response reads: not at all, as an error, or as a result. */
  datatype Answer = Garbled | Refused(code: int32) | Good

  /** The payload is parsed before the error code is looked at. */
  function AnswerOf(parses: bool, errCode: int32): Answer {
    if !parses then Garbled else if errCode != 0 then Refused(errCode) else Good
  }

  /** What can befall a call: no connection, its caller's cancel, and the two callbacks that race for its end. */
  datatype Mark = Unconnected(code: int32) | Cancelled | TimedOut | Replied(answer: Answer)

  /** Where the chain of callbacks stands; `up` says whether the connection came about. */
  datatype Stage = Idle | Connecting | Writing(up: bool) | Waiting | Over

  /** `runs` counts the runs of the closure and `log` records what befell the call, in order. */
  datatype Call = Call(ctl: Controller, stage: Stage, hasClosure: bool, runs: nat, log: seq<Mark>)

  /** How CallMethod begins: with a controller of another class, too early, with a bad request, or properly. */
  datatype Start = Foreign | Uninitialised | Unserialisable | Proper

  function StartOf(ours: bool, isInit: bool, serialises: bool): Start {
    if !ours then Foreign else if !isInit then Uninitialised else if !serialises then Unserialisable else Proper
  }

  /** A call as its caller hands it over; the controller may be cancelled before it begins. */
  function NewCall(ctl: Controller, hasClosure: bool): Call {
    Call(ctl, Idle, hasClosure, 0, if ctl.cancelled then [Cancelled] else [])
  }

  /** `CallMethod`: three ways out before the timer event is added and the connection started. */
  function Begun(c: Call, start: Start, generated: seq<byte>): Call {
    var ctl := if c.ctl.msgId == [] then c.ctl.(msgId := generated) else c.ctl;
    match start
    case Foreign => c
    case Uninitialised => c.(ctl := WithError(c.ctl, ERROR_RPC_CHANNEL_INIT))
    case Unserialisable => c.(ctl := WithError(ctl, ERROR_FAILED_SERIALIZE))
    case Proper => c.(ctl := ctl, stage := Connecting)
  }

  /** `StartCancel`, called by the call's owner at any time. */
  function CancelRun(c: Call): Call {
    c.(ctl := c.ctl.(cancelled := true), log := c.log + [Cancelled])
  }

  /** The connect callback: an error is noted and the request queued all the same. */
  function Connected(c: Call, errCode: int32): Call {
    if errCode == 0 then c.(stage := Writing(true))
    else c.(ctl := WithError(c.ctl, errCode), stage := Writing(false), log := c.log + [Unconnected(errCode)])
  }

  /** The write callback registers the response callback. */
  function Written(c: Call): Call {
    c.(stage := Waiting)
  }

  function ClosureRun(c: Call): Call {
    if c.hasClosure then c.(runs := c.runs + 1) else c
  }

  /** The timeout callback. */
  function TimeoutRun(c: Call): Call {
    ClosureRun(c.(ctl := WithError(c.ctl.(cancelled := true), ERROR_RPC_CALL_TIMEOUT), log := c.log + [TimedOut]))
  }

  /** The response callback; it also cancels the timer event, which stays in the timer. */
  function ResponseRun(c: Call, a: Answer): Call {
    var c' := c.(stage := Over, log := c.log + [Replied(a)]);
    match a
    case Garbled => c'.(ctl := WithError(c.ctl, ERROR_FAILED_SERIALIZE))
    case Refused(code) => c'.(ctl := WithError(c.ctl, code))
    case Good => if c.ctl.cancelled then c' else ClosureRun(c')
  }

  class RpcController {
    var errorCode: int32
    var isFailed: bool
    var isCancelled: bool
    var msgId: seq<byte>
    var timeout: int

    ghost function Value(): Controller
      reads this
    {
      Controller(errorCode, isFailed, isCancelled, msgId, timeout)
    }

    constructor ()
      ensures Value() == Controller(0, false, false, [], 1000)
    {
      errorCode, isFailed, isCancelled, msgId, timeout := 0, false, false, [], 1000;
    }

    method SetError(code: int32)
      modifies this
      ensures Value() == WithError(old(Value()), code)
      ensures errorCode == code && isFailed && isCancelled == old(isCancelled)
    {
      errorCode, isFailed := code, true;
    }

    method StartCancel()
      modifies this
      ensures Value() == old(Value()).(cancelled := true)
    {
      isCancelled := true;
    }

    method SetMsgId(id: seq<byte>)
      modifies this
      ensures Value() == old(Value()).(msgId := id)
    {
      msgId := id;
    }
  }

  class RpcChannel {
    var isInit: bool
    var controller: RpcController
    var hasClosure: bool
    var timerEvent: TimerEvent?
    var stage: Stage
    ghost var runs: nat
    ghost var log: seq<Mark>

    ghost function Value(): Call
      reads this, controller
    {
      Call(controller.Value(), stage, hasClosure, runs, log)
    }

    constructor (controller: RpcController)
      ensures !isInit && this.controller == controller && timerEvent == null
      ensures Value() == Call(controller.Value(), Idle, false, 0, [])
    {
      isInit, this.controller, hasClosure, timerEvent := false, controller, false, null;
      stage, runs, log := Idle, 0, [];
    }

    method Init(controller: RpcController, hasClosure: bool)
      modifies this
      ensures isInit
      ensures old(isInit) ==> Value() == old(Value())
      ensures !old(isInit) ==> this.controller == controller && this.hasClosure == hasClosure
    {
      if isInit {
        return;
      }
      this.controller, this.hasClosure, isInit := controller, hasClosure, true;
    }

    /**
     * `CallMethod`, with what the class of the controller, serialising and the id generator yield, and
     * the loop's timer.
     */
    method CallMethod(ours: bool, serialises: bool, generated: seq<byte>, timer: Timer, now: int, id: Task)
      modifies this, controller, timer
      ensures Value() == Begun(old(Value()), StartOf(ours, isInit, serialises), generated)
      ensures controller == old(controller) && isInit == old(isInit)
      ensures !ours ==> Value() == old(Value())
      ensures ours && !isInit ==> controller.errorCode == 10000011 && controller.isFailed && stage == old(stage)
      ensures ours && isInit && !serialises ==>
                controller.errorCode == 10000004 && controller.isFailed && stage == old(stage)
      ensures ours && isInit ==>
                controller.msgId == if old(controller.msgId) == [] then generated else old(controller.msgId)
      ensures ours && isInit && serialises ==>
                && stage == Connecting && controller.errorCode == old(controller.errorCode)
                && timerEvent != null && fresh(timerEvent)
                && timerEvent.Value() == Info(now + controller.timeout, controller.timeout, false, false, id)
                && timer.Value() == Add(old(timer.Value()), timerEvent, timerEvent.Value(), now)
      ensures !(ours && isInit && serialises) ==> timer.Value() == old(timer.Value())
    {
      if !ours {
        return;
      }
      if !isInit {
        controller.SetError(ERROR_RPC_CHANNEL_INIT);
        return;
      }
      if controller.msgId == [] {
        controller.SetMsgId(generated);
      }
      if !serialises {
        controller.SetError(ERROR_FAILED_SERIALIZE);
        return;
      }
      stage := Connecting;
      assert timer.Value() == old(timer.Value());
      StartTimer(timer, now, id);
    }

    /** The caller cancels through the controller it handed over. */
    method OnCancel()
      modifies this`log, controller
      ensures Value() == CancelRun(old(Value()))
    {
      controller.StartCancel();
      log := log + [Cancelled];
    }

    /** The timeout event of the call. */
    method StartTimer(timer: Timer, now: int, id: Task)
      modifies this`timerEvent, timer
      ensures timerEvent != null && fresh(timerEvent)
      ensures timerEvent.Value() == Info(now + controller.timeout, controller.timeout, false, false, id)
      ensures timer.Value() == Add(old(timer.Value()), timerEvent, timerEvent.Value(), now)
    {
      var event := new TimerEvent(controller.timeout, false, id, now);
      timerEvent := event;
      ghost var was, info := timer.Value(), event.Value();
      assert was == old(timer.Value());
      timer.AddTimerEvent(event, now);
      assert timer.Value() == Add(was, event, info, now);
    }

    method RunClosure()
      modifies this`runs
      ensures Value() == ClosureRun(old(Value()))
    {
      if hasClosure {
        runs := runs + 1;
      }
    }

    method OnTimeout()
      modifies this, controller
      ensures Value() == TimeoutRun(old(Value())) && controller == old(controller)
      ensures controller.isCancelled && controller.isFailed && controller.errorCode == 10000007
      ensures runs == old(runs) + if hasClosure then 1 else 0
    {
      controller.StartCancel();
      controller.SetError(ERROR_RPC_CALL_TIMEOUT);
      log := log + [TimedOut];
      RunClosure();
    }

    method OnConnect(errCode: int32)
      modifies this, controller
      ensures Value() == Connected(old(Value()), errCode) && controller == old(controller)
      ensures stage == Writing(errCode == 0)
      ensures errCode != 0 ==> controller.isFailed && controller.errorCode == errCode
    {
      if errCode != 0 {
        controller.SetError(errCode);
        log := log + [Unconnected(errCode)];
      }
      stage := Writing(errCode == 0);
    }

    method OnWritten()
      modifies this`stage
      ensures Value() == Written(old(Value()))
    {
      stage := Waiting;
    }

    method OnResponse(parses: bool, errCode: int32)
      requires timerEvent != null
      modifies this, controller, timerEvent
      ensures Value() == ResponseRun(old(Value()), AnswerOf(parses, errCode)) && controller == old(controller)
      ensures !parses ==> controller.isFailed && controller.errorCode == 10000004
      ensures parses && errCode != 0 ==> controller.isFailed && controller.errorCode == errCode
      ensures runs == old(runs) + if parses && errCode == 0 && hasClosure && !old(controller.isCancelled) then 1 else 0
      ensures timerEvent == old(timerEvent)
      ensures timerEvent.Value() == old(timerEvent.Value()).(cancelled := true)
    {
      log := log + [Replied(AnswerOf(parses, errCode))];
      stage := Over;
      timerEvent.SetCancel(true);
      if !parses {
        controller.SetError(ERROR_FAILED_SERIALIZE);
        return;
      }
      if errCode != 0 {
        controller.SetError(errCode);
        return;
      }
      if !controller.isCancelled {
        RunClosure();
      }
    }
  }
}
