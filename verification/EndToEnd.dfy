/**
 The relay, the controller and the kernel together (`proxy/src/server.ts`, lines 65 to 86, wires them):
 queries in flight, registrations waiting for the controller's queue, and connections whose packets
 the kernel marks and forwards.
 */
module EndToEnd {
  import opened Wrappers
  import opened Nft
  import opened Ruleset
  import opened GatewayController
  import opened ControllerSafety
  import opened ControllerAgreement
  import opened ForwardVerdict
  import opened DnsMessage
  import R = DnsRelay
  import DM = DomainMatcher
  import BS = BypassSet

  /** A request, and for one that is registering, the number of the job it waits for. */
  datatype Tracked = Tracked(request: R.Request, ticket: nat)

  datatype Net = Net(
    relay: R.Relay,
    requests: map<nat, Tracked>,
    gw: State,
    done: nat,                        // jobs the controller's queue has completed
    marks: map<nat, nat>)             // connection marks, by connection

  datatype NetEvent =
    | Gateway(e: Event)               // anything the controller sees except additions
    | Configure(config: R.Config)
    | Query(id: nat, query: Buffer, hasInterceptor: bool)
    | Reported(id: nat, report: R.Report)
    | Traverse(conn: nat, p: Packet)

  function Fresh(host: Nft.Ruleset, now: int): Net {
    Net(R.FRESH, map[], Init(host, now), 0, map[])
  }

  // ---------------------------------------------------------------- the queue's promises

  function Busy(s: State): nat { if s.phase == Idle then 0 else 1 }

  /** Jobs accepted and not completed. */
  function Pending(s: State): nat { |s.queue| + Busy(s) }

  /** Whether the event completes a job. */
  predicate Finishes(site: Site, s: State, e: Event)
    requires BS.Consistent(s.held)
  {
    match e
    case StartNext => s.phase == Idle && s.queue != [] && OnStartNext(site, s).phase == Idle
    case NftDone(_) => s.phase.Adding?
    case SyncDone => s.phase.Syncing?
    case _ => false
  }

  /** A registration whose job is completed, or whose queue is rejected, lets its reply go. */
  function Settled(t: Tracked, done: nat, rejected: bool): Tracked {
    match t.request
    case RegisteringRecords(_, response) =>
      if t.ticket <= done || rejected then t.(request := R.Replied(Some(response))) else t
    case _ => t
  }

  function SettleAll(requests: map<nat, Tracked>, done: nat, rejected: bool): map<nat, Tracked> {
    map id | id in requests :: Settled(requests[id], done, rejected)
  }

  // ---------------------------------------------------------------- steps

  ghost predicate Sound(net: Net) {
    && BS.Consistent(net.gw.held)
    && net.relay.matcher == DM.Compiled(net.relay.config.excludedDomains)
    && forall id :: id in net.requests ==> R.WellFormed(net.requests[id].request)
  }

  function OnGateway(site: Site, net: Net, e: Event): Net
    requires Sound(net)
  {
    if e.AddBypass? then net
    else
      var gw := Step(site, net.gw, e);
      var done := net.done + if Finishes(site, net.gw, e) then 1 else 0;
      net.(gw := gw, done := done, requests := SettleAll(net.requests, done, gw.rejected))
  }

  /** `registerBypass`: the request waits for its job, or for nothing when none was queued. */
  function Register(site: Site, net: Net, id: nat, records: seq<BS.ARecord>, response: Buffer): Net {
    var gw := OnAddBypass(site, net.gw, records);
    var t :=
      if gw.queue == net.gw.queue then Tracked(R.Replied(Some(response)), 0)
      else Tracked(R.RegisteringRecords(records, response), net.done + Pending(gw));
    net.(gw := gw, requests := net.requests[id := t])
  }

  function OnReported(site: Site, net: Net, id: nat, report: R.Report): Net
    requires Sound(net)
  {
    if id !in net.requests || net.requests[id].request.RegisteringRecords? then net
    else
      var o := R.Resume(net.relay, net.requests[id].request, report);
      var net1 := net.(relay := o.relay);
      match o.request
      case RegisteringRecords(records, response) => Register(site, net1, id, records, response)
      case other => net1.(requests := net.requests[id := Tracked(other, 0)])
  }

  /** The packet as it reaches the kernel: with the mark its connection has. */
  function Carrying(net: Net, conn: nat, p: Packet): Packet {
    p.(ctMark := if conn in net.marks then net.marks[conn] else 0)
  }

  function OnTraverse(net: Net, conn: nat, p: Packet): Net {
    if TABLE in net.gw.host
    then net.(marks := net.marks[conn := Marked(net.gw.host[TABLE], Carrying(net, conn, p)).ctMark]) else net
  }

  /** The table lets the packet through, after marking. */
  predicate Passes(net: Net, conn: nat, p: Packet)
    requires TABLE in net.gw.host
  {
    Forwarded(net.gw.host[TABLE], Marked(net.gw.host[TABLE], Carrying(net, conn, p)))
  }

  function NetStep(site: Site, net: Net, e: NetEvent): Net
    requires Sound(net)
  {
    match e
    case Gateway(ge) => OnGateway(site, net, ge)
    case Configure(config) => net.(relay := R.Configured(net.relay, config))
    case Query(id, query, hasInterceptor) =>
      if id in net.requests then net
      else net.(requests := net.requests[id := Tracked(R.Begin(query, hasInterceptor), 0)])
    case Reported(id, report) => OnReported(site, net, id, report)
    case Traverse(conn, p) => OnTraverse(net, conn, p)
  }

  lemma ResumeKeepsMatcher(relay: R.Relay, request: R.Request, report: R.Report)
    requires R.WellFormed(request)
    ensures var o := R.Resume(relay, request, report);
            o.relay.matcher == relay.matcher && o.relay.config == relay.config
  {
    hide ParseQuery, R.ToRegister;
  }

  lemma RegisterSound(site: Site, net: Net, id: nat, records: seq<BS.ARecord>, response: Buffer)
    requires Sound(net)
    ensures Sound(Register(site, net, id, records, response))
  {
    BS.AddAllConsistent(net.gw.held, net.gw.now, records);
    hide BS.Consistent, BS.AddAll, BS.Added, ParseQuery, DM.Compiled;
  }

  lemma StepSound(site: Site, net: Net, e: NetEvent)
    requires Sound(net)
    ensures Sound(NetStep(site, net, e))
  {
    hide Step, R.Resume, R.Begin, Register, DM.Compiled, BS.Consistent, ParseQuery, Finishes, Marked;
    match e
    case Gateway(ge) => StepConsistent(site, net.gw, ge);
    case Reported(id, report) =>
      if id in net.requests {
        var request := net.requests[id].request;
        R.ResumeWellFormed(net.relay, request, report);
        ResumeKeepsMatcher(net.relay, request, report);
        var o := R.Resume(net.relay, request, report);
        if o.request.RegisteringRecords? {
          RegisterSound(site, net.(relay := o.relay), id, o.request.records, o.request.response);
        }
      }
    case _ =>
  }

  /** The whole after any sequence of events. */
  function NetReach(site: Site, host: Nft.Ruleset, now: int, es: seq<NetEvent>): (net: Net)
    ensures Sound(net)
  {
    if es == [] then Fresh(host, now)
    else
      var before := NetReach(site, host, now, es[..|es| - 1]);
      StepSound(site, before, es[|es| - 1]);
      NetStep(site, before, es[|es| - 1])
  }

  // ---------------------------------------------------------------- the controller's share of a run

  /** What the controller sees of one event. */
  function SeenByGateway(net: Net, e: NetEvent): seq<Event>
    requires Sound(net)
  {
    match e
    case Gateway(ge) => if ge.AddBypass? then [] else [ge]
    case Reported(id, report) =>
      if id !in net.requests || net.requests[id].request.RegisteringRecords? then []
      else
        var o := R.Resume(net.relay, net.requests[id].request, report);
        if o.request.RegisteringRecords? then [AddBypass(o.request.records)] else []
    case _ => []
  }

  function GatewayEvents(site: Site, host: Nft.Ruleset, now: int, es: seq<NetEvent>): seq<Event> {
    if es == [] then []
    else
      GatewayEvents(site, host, now, es[..|es| - 1])
      + SeenByGateway(NetReach(site, host, now, es[..|es| - 1]), es[|es| - 1])
  }

  lemma GatewayShare(site: Site, net: Net, e: NetEvent)
    requires Sound(net)
    ensures var seen := SeenByGateway(net, e);
            && |seen| <= 1
            && NetStep(site, net, e).gw == if seen == [] then net.gw else Step(site, net.gw, seen[0])
  {
    hide R.Resume, R.Begin, BS.AddAll, BS.Added, DM.Compiled, OnStartNext, OnNftDone, OnSyncDone, Finishes, Marked, BS.Consistent;
  }

  lemma ReachNothing(site: Site, host: Nft.Ruleset, now: int)
    ensures Reach(site, host, now, []) == Init(host, now)
  {
  }

  /** The controller within the whole behaves as the controller alone, fed by the relay. */
  lemma {:induction false} GatewayWithin(site: Site, host: Nft.Ruleset, now: int, es: seq<NetEvent>)
    ensures NetReach(site, host, now, es).gw == Reach(site, host, now, GatewayEvents(site, host, now, es))
  {
    hide Sound, NetStep, SeenByGateway, Step, Reach;
    if es == [] {
      ReachNothing(site, host, now);
    } else {
      var front, e := es[..|es| - 1], es[|es| - 1];
      GatewayWithin(site, host, now, front);
      var net := NetReach(site, host, now, front);
      GatewayShare(site, net, e);
      var seen, before := SeenByGateway(net, e), GatewayEvents(site, host, now, front);
      if seen == [] {
        assert before + seen == before;
      } else {
        assert seen == [seen[0]];
        ReachStep(site, host, now, before, seen[0]);
      }
    }
  }
}
