/**
 `proxy/src/dns-relay/relay.ts`: what the relay does with one query. Each `await` splits the handling;
 a `Request` is a query on its way, up to what it is waiting for, and a `Report` is what it waited
 for. Several requests can be in flight, and the configuration can change between their steps.
 */
module DnsRelay {
  import opened Wrappers
  import opened Text
  import opened DnsMessage
  import DM = DomainMatcher
  import BS = BypassSet

  datatype FailureMode = FailClosed | Fallback

  datatype Config = Config(
    excludedDomains: seq<string>,
    upstreamUrl: string,
    upstreamCaPem: string,
    failureMode: FailureMode,
    fallbackServers: seq<string>,
    clientNameServers: seq<string>)

  const EMPTY_CONFIG := Config([], "", "", FailClosed, [], [])

  datatype UpstreamState = Unknown | Ok | Failing

  datatype Relay = Relay(config: Config, matcher: DM.Matcher, upstreamState: UpstreamState)

  const FRESH := Relay(EMPTY_CONFIG, DM.NEVER, Unknown)

  datatype Request =
    | Intercepting(query: Buffer, question: Question)
    | Identifying(query: Buffer, question: Question)
    | AskingUpstream(query: Buffer, question: Question, config: Config)
    | AskingPlain(query: Buffer, question: Question, servers: seq<string>)
    | RegisteringRecords(records: seq<BS.ARecord>, response: Buffer)
    | Replied(reply: Option<Buffer>)
    | Abandoned                                      // the handler threw: no reply is sent

  datatype Report =
    | Intercepted(taken: bool)
    | Identified
    | Answered(response: Buffer)
    | Failed
    | Registered

  /** Calls to the relay's dependencies, in order. */
  datatype Call =
    | UpstreamStateChanged(state: UpstreamState)
    | FellBack
    | RegisterBypass(records: seq<BS.ARecord>)
    | ForgetClients                                  // the names learnt for clients are dropped

  datatype Outcome = Outcome(relay: Relay, request: Request, calls: seq<Call>)

  /** Its question was read from its query. */
  ghost predicate WellFormed(request: Request) {
    match request
    case Intercepting(query, question) => ParseQuery(query) == Some(question)
    case Identifying(query, question) => ParseQuery(query) == Some(question)
    case AskingUpstream(query, question, _) => ParseQuery(query) == Some(question)
    case AskingPlain(query, question, _) => ParseQuery(query) == Some(question)
    case _ => true
  }

  // ---------------------------------------------------------------- steps

  function Configured(relay: Relay, config: Config): Relay {
    relay.(config := config, matcher := DM.Compiled(config.excludedDomains))
  }

  /** What learnt client names are worth keeping for: the same list of servers, as text. */
  function ConfigCalls(relay: Relay, config: Config): seq<Call> {
    if Join(config.clientNameServers, ',') != Join(relay.config.clientNameServers, ',') then [ForgetClients] else []
  }

  function Begin(query: Buffer, hasInterceptor: bool): (request: Request)
    ensures WellFormed(request)
  {
    match ParseQuery(query)
    case None => Replied(None)
    case Some(question) => if hasInterceptor then Intercepting(query, question) else Identifying(query, question)
  }

  /** The records worth registering in a response to a question for `name`. */
  function ToRegister(matcher: DM.Matcher, name: string, response: Buffer): seq<BS.ARecord> {
    if !DM.Matches(matcher, name) then []
    else match AnswerOf(response)
      case None => []
      case Some(answer) => if answer.rcode == 0 then answer.aRecords else []
  }

  function OnResponse(relay: Relay, question: Question, response: Buffer, calls: seq<Call>): Outcome {
    var records := ToRegister(relay.matcher, question.name, response);
    if records == [] then Outcome(relay, Replied(Some(response)), calls)
    else Outcome(relay, RegisteringRecords(records, response), calls + [RegisterBypass(records)])
  }

  function StateCalls(relay: Relay, state: UpstreamState): seq<Call> {
    if relay.upstreamState == state then [] else [UpstreamStateChanged(state)]
  }

  function OnUpstreamFailed(relay: Relay, query: Buffer, question: Question, config: Config): Outcome
    requires HEADER_LENGTH <= question.questionEnd <= |query|
  {
    var calls := StateCalls(relay, Failing);
    var r := relay.(upstreamState := Failing);
    if config.failureMode == Fallback && config.fallbackServers != []
    then Outcome(r, AskingPlain(query, question, config.fallbackServers), calls + [FellBack])
    else Outcome(r, Replied(Some(BuildServfail(query, question))), calls)
  }

  function StartForward(relay: Relay, query: Buffer, question: Question): Request {
    if relay.config.upstreamUrl == "" then AskingPlain(query, question, relay.config.fallbackServers)
    else AskingUpstream(query, question, relay.config)
  }

  function Resume(relay: Relay, request: Request, report: Report): Outcome
    requires WellFormed(request)
  {
    match (request, report)
    case (Intercepting(query, question), Intercepted(taken)) =>
      Outcome(relay, if taken then Replied(Some(BuildNxdomain(query, question))) else Identifying(query, question), [])
    case (Intercepting(_, _), Failed) => Outcome(relay, Abandoned, [])
    case (Identifying(query, question), Identified) => Outcome(relay, StartForward(relay, query, question), [])
    case (AskingUpstream(_, question, _), Answered(response)) =>
      OnResponse(relay.(upstreamState := Ok), question, response, StateCalls(relay, Ok))
    case (AskingUpstream(query, question, config), Failed) => OnUpstreamFailed(relay, query, question, config)
    case (AskingPlain(_, question, _), Answered(response)) => OnResponse(relay, question, response, [])
    case (AskingPlain(query, question, _), Failed) =>
      Outcome(relay, Replied(Some(BuildServfail(query, question))), [])
    case (RegisteringRecords(_, response), Registered) => Outcome(relay, Replied(Some(response)), [])
    case (RegisteringRecords(_, response), Failed) => Outcome(relay, Replied(Some(response)), [])
    case _ => Outcome(relay, request, [])
  }

  lemma ResumeWellFormed(relay: Relay, request: Request, report: Report)
    requires WellFormed(request)
    ensures WellFormed(Resume(relay, request, report).request)
  {
    hide ParseQuery, ToRegister;
  }

  // ---------------------------------------------------------------- the class

  class DnsRelay {
    var config: Config
    var matcher: DM.Matcher
    var upstreamState: UpstreamState
    var calls: seq<Call>                             // calls to the dependencies so far

    function View(): Relay
      reads this
    {
      Relay(config, matcher, upstreamState)
    }

    constructor ()
      ensures View() == FRESH && calls == []
    {
      config, matcher, upstreamState, calls := EMPTY_CONFIG, DM.NEVER, Unknown, [];
    }

    method UpdateConfig(config: Config)
      modifies this
      ensures View() == Configured(old(View()), config)
      ensures calls == old(calls) + ConfigCalls(old(View()), config)
    {
      hide Join, DM.Compiled;
      if Join(config.clientNameServers, ',') != Join(this.config.clientNameServers, ',') {
        calls := calls + [ForgetClients];
      }
      this.config := config;
      matcher := DM.CreateDomainMatcher(config.excludedDomains);
    }

    /** Up to the first `await`. */
    method Handle(query: Buffer, hasInterceptor: bool) returns (request: Request)
      ensures request == Begin(query, hasInterceptor)
    {
      var question := ParseQuery(query);
      if question.None? {
        return Replied(None);
      }
      if hasInterceptor {
        return Intercepting(query, question.value);
      }
      return Identifying(query, question.value);
    }

    method AfterInterceptor(query: Buffer, question: Question, taken: bool) returns (request: Request)
      requires ParseQuery(query) == Some(question)
      ensures request == Resume(View(), Intercepting(query, question), Intercepted(taken)).request
    {
      if taken {
        return Replied(Some(BuildNxdomain(query, question)));
      }
      return Identifying(query, question);
    }

    /** The start of `forward`: the configuration is read here. */
    method Forward(query: Buffer, question: Question) returns (request: Request)
      requires ParseQuery(query) == Some(question)
      ensures Outcome(View(), request, []) == Resume(View(), Identifying(query, question), Identified)
    {
      if |config.upstreamUrl| == 0 {
        return AskingPlain(query, question, config.fallbackServers);
      }
      return AskingUpstream(query, question, config);
    }

    method UpstreamDone(query: Buffer, question: Question, cfg: Config, response: Option<Buffer>)
      returns (request: Request)
      requires ParseQuery(query) == Some(question)
      modifies this
      ensures var report := if response.Some? then Answered(response.value) else Failed;
              var o := Resume(old(View()), AskingUpstream(query, question, cfg), report);
              View() == o.relay && request == o.request && calls == old(calls) + o.calls
    {
      hide ParseQuery, ToRegister;
      if response.Some? {
        SetUpstreamState(Ok);
        request := Settle(question, response.value);
      } else {
        SetUpstreamState(Failing);
        if cfg.failureMode == Fallback && |cfg.fallbackServers| > 0 {
          calls := calls + [FellBack];
          return AskingPlain(query, question, cfg.fallbackServers);
        }
        return Replied(Some(BuildServfail(query, question)));
      }
    }

    method PlainDone(query: Buffer, question: Question, servers: seq<string>, response: Option<Buffer>)
      returns (request: Request)
      requires ParseQuery(query) == Some(question)
      modifies this
      ensures var report := if response.Some? then Answered(response.value) else Failed;
              var o := Resume(old(View()), AskingPlain(query, question, servers), report);
              View() == o.relay && request == o.request && calls == old(calls) + o.calls
    {
      hide ParseQuery, ToRegister;
      if response.Some? {
        request := Settle(question, response.value);
      } else {
        request := Replied(Some(BuildServfail(query, question)));
      }
    }

    /** A response has arrived: register the addresses of a bypassed name, or reply at once. */
    method Settle(question: Question, response: Buffer) returns (request: Request)
      modifies this`calls
      ensures var o := OnResponse(View(), question, response, old(calls));
              request == o.request && calls == o.calls
    {
      if DM.Matches(matcher, question.name) {
        var answer := ParseAnswer(response);
        if answer.Some? && answer.value.rcode == 0 && |answer.value.aRecords| > 0 {
          calls := calls + [RegisterBypass(answer.value.aRecords)];
          return RegisteringRecords(answer.value.aRecords, response);
        }
      }
      return Replied(Some(response));
    }

    /** Success and failure of the registration end alike. */
    method RegistrationDone(records: seq<BS.ARecord>, response: Buffer) returns (request: Request)
      ensures request == Resume(View(), RegisteringRecords(records, response), Registered).request
      ensures request == Resume(View(), RegisteringRecords(records, response), Failed).request
    {
      request := Replied(Some(response));
    }

    method SetUpstreamState(state: UpstreamState)
      modifies this`upstreamState, this`calls
      ensures View() == old(View()).(upstreamState := state)
      ensures calls == old(calls) + StateCalls(old(View()), state)
    {
      if upstreamState != state {
        upstreamState := state;
        calls := calls + [UpstreamStateChanged(state)];
      }
    }
  }

  // ---------------------------------------------------------------- the life of one request

  /** The relay as it was when a report came in, and the report. */
  datatype Turn = Turn(relay: Relay, report: Report)

  /**
   A query after these turns. Between them the relay may have changed in any way: other requests
   move its upstream state, updates its configuration.
   */
  function Lived(query: Buffer, hasInterceptor: bool, turns: seq<Turn>): (request: Request)
    ensures WellFormed(request)
  {
    if turns == [] then Begin(query, hasInterceptor)
    else
      var before, t := Lived(query, hasInterceptor, turns[..|turns| - 1]), turns[|turns| - 1];
      ResumeWellFormed(t.relay, before, t.report);
      Resume(t.relay, before, t.report).request
  }

  function CallsOf(query: Buffer, hasInterceptor: bool, turns: seq<Turn>): seq<Call> {
    if turns == [] then []
    else
      var front, t := turns[..|turns| - 1], turns[|turns| - 1];
      CallsOf(query, hasInterceptor, front) + Resume(t.relay, Lived(query, hasInterceptor, front), t.report).calls
  }

  /** The response is NOERROR with these A records, there are some, and the name is one to bypass. */
  ghost predicate AsksToRegister(matcher: DM.Matcher, name: string, response: Buffer, records: seq<BS.ARecord>) {
    && DM.Matches(matcher, name)
    && AnswerOf(response).Some?
    && AnswerOf(response).value.rcode == 0
    && AnswerOf(response).value.aRecords == records
    && records != []
  }

  lemma ToRegisterExactly(matcher: DM.Matcher, name: string, response: Buffer, records: seq<BS.ARecord>)
    ensures AsksToRegister(matcher, name, response, records)
            <==> ToRegister(matcher, name, response) == records && records != []
  {
    hide AnswerOf, DM.Matches;
  }

  /** Turn `k` brought `response`, which under the matcher then in force asks to register these records. */
  ghost predicate Brought(turns: seq<Turn>, k: nat, name: string, response: Buffer, records: seq<BS.ARecord>) {
    && k < |turns|
    && turns[k].report == Answered(response)
    && AsksToRegister(turns[k].relay.matcher, name, response, records)
  }

  /** Turn `k` brought `response`, and whatever it asks to register is among the calls. */
  ghost predicate BroughtAndDone(turns: seq<Turn>, k: nat, name: string, response: Buffer, calls: seq<Call>) {
    && k < |turns|
    && turns[k].report == Answered(response)
    && forall records :: AsksToRegister(turns[k].relay.matcher, name, response, records) ==> RegisterBypass(records) in calls
  }

  ghost predicate HasReport(turns: seq<Turn>, report: Report) {
    exists k :: 0 <= k < |turns| && turns[k].report == report
  }

  /** What may be sent back, and what must have been registered before it is. */
  ghost predicate JustifiedReply(query: Buffer, turns: seq<Turn>, calls: seq<Call>, reply: Option<Buffer>) {
    match ParseQuery(query)
    case None => reply == None
    case Some(question) =>
      reply.Some? &&
      (|| (reply.value == BuildNxdomain(query, question) && HasReport(turns, Intercepted(true)))
       || (reply.value == BuildServfail(query, question) && HasReport(turns, Failed))
       || (exists k: nat :: BroughtAndDone(turns, k, question.name, reply.value, calls)))
  }

  ghost predicate LifeInv(query: Buffer, turns: seq<Turn>, calls: seq<Call>, request: Request) {
    match request
    case Replied(reply) => JustifiedReply(query, turns, calls, reply)
    case RegisteringRecords(records, response) =>
      && ParseQuery(query).Some?
      && RegisterBypass(records) in calls
      && exists k: nat :: Brought(turns, k, ParseQuery(query).value.name, response, records)
    case Abandoned => true
    case Intercepting(q, _) => q == query
    case Identifying(q, _) => q == query
    case AskingUpstream(q, _, _) => q == query
    case AskingPlain(q, _, _) => q == query
  }

  /** Every registration among the calls answers a question for the name, as `Brought` says. */
  ghost predicate CallsInv(query: Buffer, turns: seq<Turn>, calls: seq<Call>) {
    forall records :: RegisterBypass(records) in calls ==>
      && ParseQuery(query).Some?
      && exists k: nat, response :: Brought(turns, k, ParseQuery(query).value.name, response, records)
  }

  lemma MoreTurns(query: Buffer, turns: seq<Turn>, t: Turn, calls: seq<Call>, more: seq<Call>, request: Request)
    ensures LifeInv(query, turns, calls, request) ==> LifeInv(query, turns + [t], calls + more, request)
    ensures CallsInv(query, turns, calls) ==> CallsInv(query, turns + [t], calls)
  {
    hide AsksToRegister, ParseQuery, BuildErrorResponse;
    var all := turns + [t];
    assert forall k :: 0 <= k < |turns| ==> all[k] == turns[k];
    assert forall k: nat, name, response ::
        BroughtAndDone(turns, k, name, response, calls) ==> BroughtAndDone(all, k, name, response, calls + more);
    assert forall k: nat, name, response, records ::
        Brought(turns, k, name, response, records) ==> Brought(all, k, name, response, records);
    assert forall report :: HasReport(turns, report) ==> HasReport(all, report);
  }

  lemma LifeResponse(relay: Relay, query: Buffer, question: Question, response: Buffer, turns: seq<Turn>, t: Turn,
                     calls: seq<Call>, earlier: seq<Call>)
    requires ParseQuery(query) == Some(question)
    requires t.report == Answered(response) && relay.matcher == t.relay.matcher
    requires CallsInv(query, turns, calls)
    requires forall c :: c in earlier ==> !c.RegisterBypass?
    ensures var o := OnResponse(relay, question, response, earlier);
            && LifeInv(query, turns + [t], calls + o.calls, o.request)
            && CallsInv(query, turns + [t], calls + o.calls)
  {
    hide ToRegister, AsksToRegister, ParseQuery, BuildErrorResponse;
    var all := turns + [t];
    var records := ToRegister(relay.matcher, question.name, response);
    assert all[|turns|] == t;
    ToRegisterExactly(relay.matcher, question.name, response, records);
    forall others ensures AsksToRegister(relay.matcher, question.name, response, others) ==> others == records && records != [] {
      ToRegisterExactly(relay.matcher, question.name, response, others);
    }
    if records == [] {
      assert BroughtAndDone(all, |turns|, question.name, response, calls + earlier);
    } else {
      assert Brought(all, |turns|, question.name, response, records);
    }
    MoreTurns(query, turns, t, calls, [], Abandoned);
  }

  lemma LifeStep(query: Buffer, turns: seq<Turn>, t: Turn, calls: seq<Call>, request: Request)
    requires WellFormed(request) && LifeInv(query, turns, calls, request) && CallsInv(query, turns, calls)
    ensures var o := Resume(t.relay, request, t.report);
            && LifeInv(query, turns + [t], calls + o.calls, o.request)
            && CallsInv(query, turns + [t], calls + o.calls)
  {
    hide ToRegister, ParseQuery, BuildErrorResponse, Brought, BroughtAndDone, OnResponse;
    var o := Resume(t.relay, request, t.report);
    MoreTurns(query, turns, t, calls, o.calls, request);
    assert (turns + [t])[|turns|] == t;
    assert HasReport(turns + [t], t.report);
    match (request, t.report)
    case (AskingUpstream(_, question, _), Answered(response)) =>
      LifeResponse(t.relay.(upstreamState := Ok), query, question, response, turns, t, calls, StateCalls(t.relay, Ok));
    case (AskingPlain(_, question, _), Answered(response)) =>
      LifeResponse(t.relay, query, question, response, turns, t, calls, []);
    case (RegisteringRecords(records, response), Registered) => Released(query, turns, t, calls, records, response);
    case (RegisteringRecords(records, response), Failed) => Released(query, turns, t, calls, records, response);
    case _ =>
  }

  lemma Released(query: Buffer, turns: seq<Turn>, t: Turn, calls: seq<Call>, records: seq<BS.ARecord>, response: Buffer)
    requires LifeInv(query, turns, calls, RegisteringRecords(records, response))
    ensures LifeInv(query, turns + [t], calls, Replied(Some(response)))
    ensures calls + [] == calls
  {
    hide AnswerOf, ParseQuery, DM.Matches, BuildErrorResponse;
    var k: nat :| Brought(turns, k, ParseQuery(query).value.name, response, records);
    assert (turns + [t])[k] == turns[k];
    assert BroughtAndDone(turns + [t], k, ParseQuery(query).value.name, response, calls);
    assert calls + [] == calls;
  }

  lemma {:induction false} LifeAlways(query: Buffer, hasInterceptor: bool, turns: seq<Turn>)
    ensures var calls := CallsOf(query, hasInterceptor, turns);
            LifeInv(query, turns, calls, Lived(query, hasInterceptor, turns)) && CallsInv(query, turns, calls)
  {
    hide ParseQuery, LifeInv, CallsInv, Resume;
    if turns == [] {
      BeginInv(query, hasInterceptor);
    } else {
      var front, t := turns[..|turns| - 1], turns[|turns| - 1];
      LifeAlways(query, hasInterceptor, front);
      LifeStep(query, front, t, CallsOf(query, hasInterceptor, front), Lived(query, hasInterceptor, front));
      assert turns == front + [t];
    }
  }

  lemma BeginInv(query: Buffer, hasInterceptor: bool)
    ensures LifeInv(query, [], [], Begin(query, hasInterceptor)) && CallsInv(query, [], [])
  {
    hide ParseQuery;
  }

  /**
   Whatever happens around it, a query is answered by NXDOMAIN only when it was intercepted, by
   SERVFAIL only after a failure, and otherwise by a response it was given; and if the name matched
   the excluded domains in force when that response came in, its A records were registered first.
   */
  lemma ReplyIsJustified(query: Buffer, hasInterceptor: bool, turns: seq<Turn>)
    requires Lived(query, hasInterceptor, turns).Replied?
    ensures JustifiedReply(query, turns, CallsOf(query, hasInterceptor, turns), Lived(query, hasInterceptor, turns).reply)
  {
    hide JustifiedReply, Lived, CallsOf;
    LifeAlways(query, hasInterceptor, turns);
  }

  /** Nothing is ever registered except the A records of a NOERROR answer for a matching name. */
  lemma OnlyMatchedAnswersRegister(query: Buffer, hasInterceptor: bool, turns: seq<Turn>, records: seq<BS.ARecord>)
    requires RegisterBypass(records) in CallsOf(query, hasInterceptor, turns)
    ensures ParseQuery(query).Some? && records != []
    ensures exists k | 0 <= k < |turns| && turns[k].report.Answered? ::
              var answer := AnswerOf(turns[k].report.response);
              && answer.Some? && answer.value.rcode == 0 && answer.value.aRecords == records
              && DM.Matches(turns[k].relay.matcher, ParseQuery(query).value.name)
  {
    hide ParseQuery, Lived, CallsOf, LifeInv, AnswerOf, DM.Matches;
    LifeAlways(query, hasInterceptor, turns);
    var k: nat, response :| Brought(turns, k, ParseQuery(query).value.name, response, records);
    assert turns[k].report == Answered(response);
  }

  // ---------------------------------------------------------------- what every answer leads to

  /** The request waits for an answer. */
  predicate IsAsking(request: Request) { request.AskingUpstream? || request.AskingPlain? }

  lemma LivedStep(query: Buffer, hasInterceptor: bool, turns: seq<Turn>, k: nat)
    requires k < |turns|
    ensures var o := Resume(turns[k].relay, Lived(query, hasInterceptor, turns[..k]), turns[k].report);
            && Lived(query, hasInterceptor, turns[..k + 1]) == o.request
            && CallsOf(query, hasInterceptor, turns[..k + 1]) == CallsOf(query, hasInterceptor, turns[..k]) + o.calls
  {
    hide Resume;
    var all := turns[..k + 1];
    assert all[..|all| - 1] == turns[..k] && all[|all| - 1] == turns[k];
  }

  /** Replying is final, and calls once made stay made. */
  lemma {:induction false} RepliesLast(query: Buffer, hasInterceptor: bool, turns: seq<Turn>, j: nat, n: nat)
    requires j <= n <= |turns|
    ensures Lived(query, hasInterceptor, turns[..j]).Replied? ==>
              && Lived(query, hasInterceptor, turns[..n]) == Lived(query, hasInterceptor, turns[..j])
              && CallsOf(query, hasInterceptor, turns[..n]) == CallsOf(query, hasInterceptor, turns[..j])
    ensures CallsOf(query, hasInterceptor, turns[..j]) <= CallsOf(query, hasInterceptor, turns[..n])
    decreases n - j
  {
    hide Lived, CallsOf, Resume;
    if j < n {
      RepliesLast(query, hasInterceptor, turns, j, n - 1);
      LivedStep(query, hasInterceptor, turns, n - 1);
      RepliedStays(turns[n - 1].relay, Lived(query, hasInterceptor, turns[..n - 1]), turns[n - 1].report);
      var calls := CallsOf(query, hasInterceptor, turns[..n - 1]);
      assert calls + [] == calls;
    }
  }

  lemma RepliedStays(relay: Relay, request: Request, report: Report)
    requires WellFormed(request)
    ensures request.Replied? ==> Resume(relay, request, report) == Outcome(relay, request, [])
  {
    hide ParseQuery, ToRegister;
  }

  /** How an answer is taken, given what is due to be registered. */
  lemma AnswerTaken(relay: Relay, request: Request, response: Buffer)
    requires WellFormed(request) && IsAsking(request)
    ensures ParseQuery(request.query) == Some(request.question)
    ensures var o, due := Resume(relay, request, Answered(response)), ToRegister(relay.matcher, request.question.name, response);
            if due == [] then
              o.request == Replied(Some(response))
            else
              o.request == RegisteringRecords(due, response) && |o.calls| > 0 && o.calls[|o.calls| - 1] == RegisterBypass(due)
  {
    hide ParseQuery, ToRegister;
  }

  lemma AnswerStep(relay: Relay, request: Request, response: Buffer)
    requires WellFormed(request) && IsAsking(request)
    ensures ParseQuery(request.query).Some?
    ensures var o, name := Resume(relay, request, Answered(response)), ParseQuery(request.query).value.name;
            && (forall records :: AsksToRegister(relay.matcher, name, response, records) ==>
                  o.request == RegisteringRecords(records, response) && RegisterBypass(records) in o.calls)
            && ((forall records :: !AsksToRegister(relay.matcher, name, response, records)) ==>
                  o.request == Replied(Some(response)))
  {
    hide ParseQuery, ToRegister, AsksToRegister, Resume;
    var due := ToRegister(relay.matcher, request.question.name, response);
    AnswerTaken(relay, request, response);
    ToRegisterExactly(relay.matcher, request.question.name, response, due);
    forall records
      ensures AsksToRegister(relay.matcher, request.question.name, response, records) <==> due == records && records != []
    {
      ToRegisterExactly(relay.matcher, request.question.name, response, records);
    }
    var o := Resume(relay, request, Answered(response));
    var name := ParseQuery(request.query).value.name;
    assert name == request.question.name;
    forall records | AsksToRegister(relay.matcher, name, response, records)
      ensures o.request == RegisteringRecords(records, response) && RegisterBypass(records) in o.calls
    {
      assert due == records;
      assert o.calls[|o.calls| - 1] == RegisterBypass(records);
    }
    if forall records :: !AsksToRegister(relay.matcher, name, response, records) {
      assert !AsksToRegister(relay.matcher, name, response, due);
      assert due == [];
    }
  }

  /**
   Every matched answer is registered, whole, before anything is sent: in any life, a turn that brings a
   NOERROR answer with A records for a bypassed name makes exactly these records the registration waited
   for, and no reply precedes it. Any other answer is sent on at once.
   */
  lemma AnswerHandledExactly(query: Buffer, hasInterceptor: bool, turns: seq<Turn>, k: nat, response: Buffer)
    requires k < |turns| && turns[k].report == Answered(response)
    requires IsAsking(Lived(query, hasInterceptor, turns[..k]))
    ensures ParseQuery(query).Some?
    ensures var name, matcher := ParseQuery(query).value.name, turns[k].relay.matcher;
            var after := Lived(query, hasInterceptor, turns[..k + 1]);
            && (forall j :: 0 <= j <= k ==> !Lived(query, hasInterceptor, turns[..j]).Replied?)
            && (forall records :: AsksToRegister(matcher, name, response, records) ==>
                  after == RegisteringRecords(records, response)
                  && RegisterBypass(records) in CallsOf(query, hasInterceptor, turns))
            && ((forall records :: !AsksToRegister(matcher, name, response, records)) ==> after == Replied(Some(response)))
  {
    hide Lived, CallsOf, Resume, ParseQuery, AsksToRegister, LifeInv, CallsInv;
    var request := Lived(query, hasInterceptor, turns[..k]);
    SameQuery(query, hasInterceptor, turns[..k]);
    AnswerStep(turns[k].relay, request, response);
    LivedStep(query, hasInterceptor, turns, k);
    assert turns[..|turns|] == turns;
    RepliesLast(query, hasInterceptor, turns, k + 1, |turns|);
    forall j | 0 <= j <= k ensures !Lived(query, hasInterceptor, turns[..j]).Replied? {
      RepliesLast(query, hasInterceptor, turns, j, k);
    }
    var name, matcher := ParseQuery(query).value.name, turns[k].relay.matcher;
    forall records | AsksToRegister(matcher, name, response, records)
      ensures RegisterBypass(records) in CallsOf(query, hasInterceptor, turns)
    {
      var o := Resume(turns[k].relay, request, Answered(response));
      var before := CallsOf(query, hasInterceptor, turns[..k]);
      assert RegisterBypass(records) in before + o.calls;
      InPrefix(RegisterBypass(records), before + o.calls, CallsOf(query, hasInterceptor, turns));
    }
  }

  lemma InPrefix(c: Call, part: seq<Call>, whole: seq<Call>)
    requires part <= whole && c in part
    ensures c in whole
  {
    assert whole == part + whole[|part|..];
  }

  lemma SameQuery(query: Buffer, hasInterceptor: bool, turns: seq<Turn>)
    ensures var request := Lived(query, hasInterceptor, turns);
            && (IsAsking(request) ==> request.query == query)
            && (request.Intercepting? ==> request.query == query && ParseQuery(query) == Some(request.question))
            && (request.Identifying? ==> request.query == query)
  {
    hide Lived, CallsOf, ParseQuery, JustifiedReply;
    LifeAlways(query, hasInterceptor, turns);
  }

  /** Once the registration has ended, well or not, the response is sent. */
  lemma RegistrationReleases(query: Buffer, hasInterceptor: bool, turns: seq<Turn>, t: Turn)
    requires Lived(query, hasInterceptor, turns).RegisteringRecords? && (t.report == Registered || t.report == Failed)
    ensures Lived(query, hasInterceptor, turns + [t]) == Replied(Some(Lived(query, hasInterceptor, turns).response))
  {
    hide ParseQuery, ToRegister;
    assert (turns + [t])[..|turns|] == turns;
  }

  // ---------------------------------------------------------------- interception

  /**
   An intercepted query is answered by NXDOMAIN, and that is all that ever happens to it: nobody is asked
   and nothing is registered.
   */
  lemma InterceptedExactly(query: Buffer, hasInterceptor: bool, turns: seq<Turn>, k: nat)
    requires k < |turns| && turns[k].report == Intercepted(true)
    requires Lived(query, hasInterceptor, turns[..k]).Intercepting?
    ensures ParseQuery(query).Some?
    ensures Lived(query, hasInterceptor, turns) == Replied(Some(BuildNxdomain(query, ParseQuery(query).value)))
    ensures CallsOf(query, hasInterceptor, turns) == []
  {
    hide Lived, CallsOf, Resume, ParseQuery, BuildErrorResponse;
    SameQuery(query, hasInterceptor, turns[..k]);
    NotAskedYet(query, hasInterceptor, turns[..k]);
    LivedStep(query, hasInterceptor, turns, k);
    InterceptedStep(turns[k].relay, Lived(query, hasInterceptor, turns[..k]));
    assert turns[..|turns|] == turns;
    RepliesLast(query, hasInterceptor, turns, k + 1, |turns|);
  }

  lemma InterceptedStep(relay: Relay, request: Request)
    requires WellFormed(request) && request.Intercepting?
    ensures Resume(relay, request, Intercepted(true))
            == Outcome(relay, Replied(Some(BuildNxdomain(request.query, request.question))), [])
  {
    hide ParseQuery, ToRegister, BuildErrorResponse;
  }

  /** Up to forwarding nobody is called, and nothing is forwarded before the interceptor has declined. */
  lemma {:induction false} NotAskedYet(query: Buffer, hasInterceptor: bool, turns: seq<Turn>)
    ensures var request := Lived(query, hasInterceptor, turns);
            && (request.Intercepting? || request.Identifying? ==> CallsOf(query, hasInterceptor, turns) == [])
            && (hasInterceptor && (request.Identifying? || IsAsking(request) || request.RegisteringRecords?) ==>
                  HasReport(turns, Intercepted(false)))
            && (request.Intercepting? ==> hasInterceptor)
  {
    hide ParseQuery, Resume, HasReport;
    if turns == [] {
      BeginsUnasked(query, hasInterceptor);
    } else {
      var front, t := turns[..|turns| - 1], turns[|turns| - 1];
      NotAskedYet(query, hasInterceptor, front);
      ComesFrom(t.relay, Lived(query, hasInterceptor, front), t.report);
      ReportsGrow(front, t);
      assert turns == front + [t];
    }
  }

  lemma BeginsUnasked(query: Buffer, hasInterceptor: bool)
    ensures var request := Begin(query, hasInterceptor);
            && !IsAsking(request) && !request.RegisteringRecords?
            && (request.Intercepting? ==> hasInterceptor) && (request.Identifying? ==> !hasInterceptor)
  {
    hide ParseQuery;
  }

  /** What a request can have come from, before forwarding without a call. */
  lemma ComesFrom(relay: Relay, request: Request, report: Report)
    requires WellFormed(request)
    ensures var o := Resume(relay, request, report);
            && (o.request.Intercepting? ==> request.Intercepting? && o.calls == [])
            && (o.request.Identifying? ==>
                  (request.Identifying? || (request.Intercepting? && report == Intercepted(false))) && o.calls == [])
            && (IsAsking(o.request) || o.request.RegisteringRecords? ==>
                  request.Identifying? || IsAsking(request) || request.RegisteringRecords?)
  {
    hide ParseQuery, ToRegister;
  }

  lemma ReportsGrow(turns: seq<Turn>, t: Turn)
    ensures forall report :: HasReport(turns, report) ==> HasReport(turns + [t], report)
    ensures HasReport(turns + [t], t.report)
  {
    assert (turns + [t])[|turns|] == t;
    assert forall k :: 0 <= k < |turns| ==> (turns + [t])[k] == turns[k];
  }

  // ---------------------------------------------------------------- what the relay reports of itself

  /**
   The upstream counts as working after an answer from it and as failing after a failure, and nothing
   else changes that; a change is announced, once, and only a change.
   */
  lemma UpstreamStateExactly(relay: Relay, request: Request, report: Report)
    requires WellFormed(request)
    ensures var o := Resume(relay, request, report);
            && o.relay.upstreamState
               == (if request.AskingUpstream? && report.Answered? then Ok
                   else if request.AskingUpstream? && report == Failed then Failing
                   else relay.upstreamState)
            && (forall state :: UpstreamStateChanged(state) in o.calls
                                <==> state == o.relay.upstreamState && state != relay.upstreamState)
            && (forall i, j :: 0 <= i < j < |o.calls| ==> !(o.calls[i].UpstreamStateChanged? && o.calls[j].UpstreamStateChanged?))
  {
    hide ParseQuery, ToRegister;
  }

  /** For lists of servers, none with a comma in it, client names are dropped exactly when the list changes. */
  lemma ForgetsExactly(relay: Relay, config: Config)
    requires Separable(config.clientNameServers, ',') && Separable(relay.config.clientNameServers, ',')
    requires "" !in config.clientNameServers && "" !in relay.config.clientNameServers
    ensures ForgetClients in ConfigCalls(relay, config) <==> config.clientNameServers != relay.config.clientNameServers
  {
    hide Join, Split;
    JoinDistinct(config.clientNameServers, relay.config.clientNameServers);
  }

  lemma JoinDistinct(a: seq<string>, b: seq<string>)
    requires Separable(a, ',') && Separable(b, ',') && "" !in a && "" !in b
    ensures Join(a, ',') == Join(b, ',') <==> a == b
  {
    hide Split;
    if a != [] {
      SplitJoin(a, ',');
      JoinNonempty(a);
    }
    if b != [] {
      SplitJoin(b, ',');
      JoinNonempty(b);
    }
  }

  lemma JoinNonempty(a: seq<string>)
    requires a != [] && "" !in a
    ensures Join(a, ',') != ""
  {
    assert a[0] in a;
  }

  // ---------------------------------------------------------------- who is asked

  predicate MayFallBack(config: Config) { config.failureMode == Fallback && config.fallbackServers != [] }

  /** Forwarding started at turn `k`, which read this configuration. */
  ghost predicate StartedWith(turns: seq<Turn>, k: nat, config: Config) {
    k < |turns| && turns[k].report == Identified && turns[k].relay.config == config
  }

  ghost predicate PathInv(turns: seq<Turn>, calls: seq<Call>, request: Request) {
    match request
    case AskingUpstream(_, _, config) =>
      config.upstreamUrl != "" && FellBack !in calls && exists k: nat :: StartedWith(turns, k, config)
    case AskingPlain(_, _, servers) =>
      exists k: nat, config :: StartedWith(turns, k, config) && PlainFor(config, servers, calls)
    case Intercepting(_, _) => FellBack !in calls
    case Identifying(_, _) => FellBack !in calls
    case _ => true
  }

  /** Plain DNS is asked in place of an upstream, or as the announced fallback that `config` permits. */
  ghost predicate PlainFor(config: Config, servers: seq<string>, calls: seq<Call>) {
    && servers == config.fallbackServers
    && (FellBack in calls <==> config.upstreamUrl != "")
    && (config.upstreamUrl != "" ==> MayFallBack(config))
  }

  lemma {:induction false} PathAlways(query: Buffer, hasInterceptor: bool, turns: seq<Turn>)
    ensures PathInv(turns, CallsOf(query, hasInterceptor, turns), Lived(query, hasInterceptor, turns))
  {
    hide ParseQuery, ToRegister, PathInv, Resume;
    if turns == [] {
      assert PathInv([], [], Begin(query, hasInterceptor)) by {
        BeginPath(query, hasInterceptor);
      }
    } else {
      var front, t := turns[..|turns| - 1], turns[|turns| - 1];
      PathAlways(query, hasInterceptor, front);
      PathStep(front, t, CallsOf(query, hasInterceptor, front), Lived(query, hasInterceptor, front));
      assert turns == front + [t];
    }
  }

  lemma BeginPath(query: Buffer, hasInterceptor: bool)
    ensures PathInv([], [], Begin(query, hasInterceptor))
  {
    hide ParseQuery;
  }

  lemma PathStep(turns: seq<Turn>, t: Turn, calls: seq<Call>, request: Request)
    requires WellFormed(request) && PathInv(turns, calls, request)
    ensures var o := Resume(t.relay, request, t.report);
            PathInv(turns + [t], calls + o.calls, o.request)
  {
    hide ParseQuery, ToRegister;
    var all := turns + [t];
    assert all[|turns|] == t;
    assert forall k: nat, config :: StartedWith(turns, k, config) ==> StartedWith(all, k, config);
    if request.Identifying? && t.report == Identified {
      assert StartedWith(all, |turns|, t.relay.config);
    }
  }

  /**
   Plain servers are asked exactly as the configuration read when forwarding started permits: when
   it has no upstream, or as an announced fallback.
   */
  lemma PlainOnlyAsConfigured(query: Buffer, hasInterceptor: bool, turns: seq<Turn>)
    requires Lived(query, hasInterceptor, turns).AskingPlain?
    ensures exists k: nat, config ::
              StartedWith(turns, k, config)
              && PlainFor(config, Lived(query, hasInterceptor, turns).servers, CallsOf(query, hasInterceptor, turns))
  {
    hide Lived, CallsOf;
    PathAlways(query, hasInterceptor, turns);
  }

  /** A failure ends the query with SERVFAIL exactly when nobody permitted is left to ask. */
  lemma ServfailOnlyWhenExhausted(query: Buffer, hasInterceptor: bool, turns: seq<Turn>, relay: Relay)
    requires var request := Lived(query, hasInterceptor, turns); request.AskingUpstream? || request.AskingPlain?
    ensures exists k: nat, config | StartedWith(turns, k, config) ::
              Resume(relay, Lived(query, hasInterceptor, turns), Failed).request.Replied?
              <==> config.upstreamUrl == "" || !MayFallBack(config) || FellBack in CallsOf(query, hasInterceptor, turns)
  {
    hide Lived, CallsOf, ParseQuery;
    PathAlways(query, hasInterceptor, turns);
  }

  /** With an upstream configured and no permission to fall back, no query ever leaves in plain DNS. */
  lemma FailClosedNeverAsksPlain(query: Buffer, hasInterceptor: bool, turns: seq<Turn>)
    requires forall k :: 0 <= k < |turns| ==>
               turns[k].relay.config.upstreamUrl != "" && !MayFallBack(turns[k].relay.config)
    ensures !Lived(query, hasInterceptor, turns).AskingPlain?
  {
    hide Lived, CallsOf, MayFallBack;
    PathAlways(query, hasInterceptor, turns);
  }
}
