// hl/net/rpc/rpc_dispatcher.cc: full-name parsing and request dispatch.

module RpcDispatchers {
  import opened Bytes
  import opened TinyPB
  import opened TinyPBCoder

  const DOT: byte := 46

  const ERROR_FAILED_DESERIALIZE: int32 := 10000003
  const ERROR_FAILED_SERIALIZE: int32 := 10000004
  const ERROR_SERVICE_NOT_FOUND: int32 := 10000008
  const ERROR_PARSE_SERVICE_NAME: int32 := 10000010

  /** What a service method makes of a serialised request. */
  datatype Handled = Unparsable | Unserializable | Response(payload: seq<byte>)

  type Service = map<seq<byte>, seq<byte> -> Handled>

  /** The bytes of a C string literal. */
  function Text(s: string): (t: seq<byte>)
    ensures |t| == |s| && forall i | 0 <= i < |s| && s[i] as int < 256 :: t[i] == s[i] as int
  {
    seq(|s|, i requires 0 <= i < |s| => (s[i] as int) % 256)
  }

  // ---------------------------------------------------------------- names

  datatype FullName = Nameless | FullName(service: seq<byte>, method_: seq<byte>)

  /** Index of the first dot, or the length when there is none. */
  function FirstDot(s: seq<byte>): (i: nat)
    ensures i <= |s|
  {
    if s == [] || s[0] == DOT then 0 else 1 + FirstDot(s[1..])
  }

  lemma {:induction false} FirstDotIs(s: seq<byte>)
    ensures DOT !in s[..FirstDot(s)]
    ensures FirstDot(s) < |s| ==> s[FirstDot(s)] == DOT
  {
    if s == [] {
    } else if s[0] != DOT {
      FirstDotIs(s[1..]);
      var i := FirstDot(s[1..]);
      assert s[..i + 1] == [s[0]] + s[1..][..i];
    }
  }

  lemma {:induction false} FirstDotUnique(s: seq<byte>, k: nat)
    requires k < |s| && s[k] == DOT && DOT !in s[..k]
    ensures FirstDot(s) == k
  {
    if k == 0 {
    } else {
      assert s[0] == s[..k][0] && s[1..][..k - 1] == s[..k][1..];
      FirstDotUnique(s[1..], k - 1);
    }
  }

  /** `parseServiceFullName`. */
  function ParseFullName(full: seq<byte>): FullName {
    var i := FirstDot(full);
    if i == |full| then Nameless else FullName(full[..i], full[i + 1..])
  }

  /** The service is everything before the first dot and the method everything after it. */
  lemma ParseFullNameIs(full: seq<byte>, service: seq<byte>, name: seq<byte>)
    ensures ParseFullName(full) == FullName(service, name)
       <==> full == service + [DOT] + name && DOT !in service
  {
    FirstDotIs(full);
    var i := FirstDot(full);
    if i < |full| {
      assert full == full[..i] + [DOT] + full[i + 1..];
    }
    if full == service + [DOT] + name && DOT !in service {
      assert full[..|service|] == service && full[|service| + 1..] == name;
      FirstDotUnique(full, |service|);
    }
  }

  // ---------------------------------------------------------------- dispatch

  /** What looking up and running the method of a request comes to. */
  datatype Verdict = Failed(code: int32, info: string) | Answered(payload: seq<byte>)

  function Judge(services: map<seq<byte>, Service>, methodName: seq<byte>, request: seq<byte>): Verdict {
    match ParseFullName(methodName)
    case Nameless => Failed(ERROR_PARSE_SERVICE_NAME, "parse service name error")
    case FullName(service, name) =>
      if service !in services || name !in services[service] then
        Failed(ERROR_SERVICE_NOT_FOUND, "service not found")
      else
        match services[service][name](request)
        case Unparsable => Failed(ERROR_FAILED_DESERIALIZE, "deserlise error")
        case Unserializable => Failed(ERROR_FAILED_SERIALIZE, "serilize error")
        case Response(payload) => Answered(payload)
  }

  /** The reply `dispatch` leaves in a response object that held `rsp`. */
  function Reply(services: map<seq<byte>, Service>, req: Message, rsp: Message): (r: Message)
    ensures r.msgId == req.msgId && r.methodName == req.methodName
  {
    var named := rsp.(msgId := req.msgId, methodName := req.methodName);
    match Judge(services, req.methodName, req.pbData)
    case Failed(code, info) => named.(errCode := code, errInfo := Text(info), errInfoLen := |info|)
    case Answered(payload) => named.(pbData := payload, errCode := 0)
  }

  const BLANK := Message([], [], 0, [], [], 0, 0, 0, 0, false)

  /** The method that the full name stands for, up to its first dot the service, answers with `payload`. */
  ghost predicate AnswersWith(services: map<seq<byte>, Service>, full: seq<byte>, request: seq<byte>,
                              payload: seq<byte>)
  {
    exists s, n ::
      && full == s + [DOT] + n && DOT !in s
      && s in services && n in services[s] && services[s][n](request) == Response(payload)
  }

  /** The service method of a request answers it. */
  ghost predicate IsAnswered(services: map<seq<byte>, Service>, req: Message) {
    exists p :: AnswersWith(services, req.methodName, req.pbData, p)
  }

  lemma JudgeAnswers(services: map<seq<byte>, Service>, full: seq<byte>, request: seq<byte>, payload: seq<byte>)
    ensures Judge(services, full, request) == Answered(payload) <==> AnswersWith(services, full, request, payload)
  {
    var p := ParseFullName(full);
    if p.FullName? {
      ParseFullNameIs(full, p.service, p.method_);
    }
    forall s, n | full == s + [DOT] + n && DOT !in s
      ensures p == FullName(s, n)
    {
      ParseFullNameIs(full, s, n);
    }
  }

  lemma IsAnsweredIff(services: map<seq<byte>, Service>, req: Message)
    ensures IsAnswered(services, req) <==> Judge(services, req.methodName, req.pbData).Answered?
  {
    var v := Judge(services, req.methodName, req.pbData);
    if v.Answered? {
      JudgeAnswers(services, req.methodName, req.pbData, v.payload);
    }
    forall p | AnswersWith(services, req.methodName, req.pbData, p)
      ensures v == Answered(p)
    {
      JudgeAnswers(services, req.methodName, req.pbData, p);
    }
  }

  /** A response object keeps its payload and takes over the error. */
  predicate FailsWith(rsp: Message, r: Message, code: int32, info: string) {
    r.errCode == code && r.errInfo == Text(info) && r.errInfoLen == |info| && r.pbData == rsp.pbData
  }

  /**
   * Every case of `dispatch`, for a name that is `s`, a dot and `n` with no dot in `s`: what the method
   * answers is the payload, and each failure has its code and text.
   */
  lemma ReplyIs(services: map<seq<byte>, Service>, req: Message, rsp: Message, s: seq<byte>, n: seq<byte>)
    requires req.methodName == s + [DOT] + n && DOT !in s
    ensures var r := Reply(services, req, rsp);
            if s !in services || n !in services[s] then FailsWith(rsp, r, 10000008, "service not found")
            else
              var h := services[s][n](req.pbData);
              if h == Unparsable then FailsWith(rsp, r, 10000003, "deserlise error")
              else if h == Unserializable then FailsWith(rsp, r, 10000004, "serilize error")
              else r.pbData == h.payload && r.errCode == 0 && r.errInfo == rsp.errInfo
  {
    ParseFullNameIs(req.methodName, s, n);
  }

  /** A name without a dot. */
  lemma NamelessReply(services: map<seq<byte>, Service>, req: Message, rsp: Message)
    requires DOT !in req.methodName
    ensures FailsWith(rsp, Reply(services, req, rsp), 10000010, "parse service name error")
  {
    FirstDotIs(req.methodName);
  }

  /** A request is answered exactly when its name splits at the first dot into a registered method. */
  lemma ReplyIsCleanIff(services: map<seq<byte>, Service>, req: Message)
    ensures Reply(services, req, BLANK).errInfo == []
       <==> exists s, m ::
              && req.methodName == s + [DOT] + m && DOT !in s
              && s in services && m in services[s] && services[s][m](req.pbData).Response?
  {
    var p := ParseFullName(req.methodName);
    if p.FullName? {
      ParseFullNameIs(req.methodName, p.service, p.method_);
    }
    forall s, m | req.methodName == s + [DOT] + m && DOT !in s
      ensures p == FullName(s, m)
    {
      ParseFullNameIs(req.methodName, s, m);
    }
  }

  /** A service registered under a dotted name, as a packaged protobuf service is, never answers. */
  lemma DottedServiceUnreachable(services: map<seq<byte>, Service>, dotted: seq<byte>, req: Message)
    requires DOT in dotted
    ensures Reply(services, req, BLANK) == Reply(services - {dotted}, req, BLANK)
  {
    FirstDotIs(req.methodName);
  }

  class RpcDispatcher {
    var services: map<seq<byte>, Service>

    constructor ()
      ensures services == map[]
    {
      services := map[];
    }

    method RegisterService(name: seq<byte>, service: Service)
      modifies this
      ensures services == old(services)[name := service]
    {
      services := services[name := service];
    }

    /** `find_first_of(".")`. */
    method FindFirstDot(full: seq<byte>) returns (i: nat)
      ensures i == FirstDot(full)
    {
      i := 0;
      while i < |full| && full[i] != DOT
        invariant i <= |full| && FirstDot(full) == i + FirstDot(full[i..])
      {
        assert full[i..][1..] == full[i + 1..];
        i := i + 1;
      }
    }

    method SetTinyPBError(msg: TinyPBProtocol, code: int32, info: string)
      modifies msg
      ensures msg.Value() == old(msg.Value()).(errCode := code, errInfo := Text(info), errInfoLen := |info|)
    {
      msg.errCode, msg.errInfo, msg.errInfoLen := code, Text(info), |info|;
    }

    method Dispatch(req: TinyPBProtocol, rsp: TinyPBProtocol)
      requires req != rsp
      modifies rsp
      ensures rsp.Value() == Reply(services, req.Value(), old(rsp.Value()))
    {
      rsp.msgId, rsp.methodName := req.msgId, req.methodName;
      var i := FindFirstDot(req.methodName);
      if i == |req.methodName| {
        SetTinyPBError(rsp, ERROR_PARSE_SERVICE_NAME, "parse service name error");
        return;
      }
      var service, name := req.methodName[..i], req.methodName[i + 1..];
      if service !in services || name !in services[service] {
        SetTinyPBError(rsp, ERROR_SERVICE_NOT_FOUND, "service not found");
        return;
      }
      match services[service][name](req.pbData) {
        case Unparsable => SetTinyPBError(rsp, ERROR_FAILED_DESERIALIZE, "deserlise error");
        case Unserializable => SetTinyPBError(rsp, ERROR_FAILED_SERIALIZE, "serilize error");
        case Response(payload) => rsp.pbData, rsp.errCode := payload, 0;
      }
    }
  }
}
