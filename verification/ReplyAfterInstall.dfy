/**
 In a run where bypass, once asked for, stays asked for and every nft call succeeds, the relay sends
 the answer for an excluded domain only when every address in it is in the kernel's set.
 */
module ReplyAfterInstall {
  import opened Wrappers
  import opened Nft
  import opened Ruleset
  import opened GatewayController
  import opened ControllerSafety
  import opened ControllerAgreement
  import opened DnsMessage
  import opened ForwardVerdict
  import opened EndToEnd
  import R = DnsRelay
  import BS = BypassSet

  // ---------------------------------------------------------------- the queue moves in order

  function ElementsOf(job: Job): Option<seq<Element>> {
    match job
    case AddElementsJob(entries) => Some(entries)
    case Rebuild => None
  }

  /** The addition that is `n` jobs from completion, the running job counting as the nearest. */
  function At(s: State, n: nat): Option<seq<Element>>
    requires n < Pending(s)
  {
    if s.phase == Idle then ElementsOf(s.queue[n])
    else if n > 0 then ElementsOf(s.queue[n - 1])
    else if s.phase.Adding? then Some(s.phase.entries)
    else None
  }

  /** Nothing completed: everything keeps its place, something may have been added behind. */
  ghost predicate Stays(s: State, s': State) {
    Pending(s') >= Pending(s) && forall n :: 0 <= n < Pending(s) ==> At(s', n) == At(s, n)
  }

  /** One job completed: everything moves up by one. */
  ghost predicate Advances(s: State, s': State) {
    Pending(s') + 1 == Pending(s) && forall n :: 0 <= n < Pending(s') ==> At(s', n) == At(s, n + 1)
  }

  lemma QueueGrows(s: State, s': State)
    requires s.queue <= s'.queue && s'.phase == s.phase
    ensures Stays(s, s')
  {
  }

  lemma QueueStarts(site: Site, s: State)
    requires BS.Consistent(s.held) && !OnStartNext(site, s).rejected
    ensures var s' := OnStartNext(site, s);
            if Finishes(site, s, StartNext) then Advances(s, s') else Stays(s, s')
  {
    hide StartRebuild, NeedsTable;
    var s' := OnStartNext(site, s);
    if s.phase == Idle && s.queue != [] {
      var s1 := s.(queue := s.queue[1..]);
      if s.queue[0] == Rebuild {
        StartPhase(site, s1);
        StartLeavesHost(site, s1);
      }
      assert forall n :: 0 <= n < |s1.queue| ==> s1.queue[n] == s.queue[n + 1];
    }
  }

  lemma QueueMoves(site: Site, s: State, e: Event)
    requires BS.Consistent(s.held) && !Step(site, s, e).rejected
    ensures var s' := Step(site, s, e);
            if Finishes(site, s, e) then Advances(s, s') else Stays(s, s')
  {
    hide BS.Consistent, OnStartNext, OnApplySettings, OnUpdateVpnInterface, OnAddBypass, AfterNft, ExitsZero, TakesEffect, At;
    match e
    case StartNext => QueueStarts(site, s);
    case NftDone(report) => QueueNftDone(s, report);
    case SyncDone => QueueSynced(s);
    case _ =>
      QuietFrame(site, s, e);
      QueueGrows(s, Step(site, s, e));
  }

  lemma QueueNftDone(s: State, report: NftReport)
    ensures if s.phase.Adding? then Advances(s, OnNftDone(s, report)) else Stays(s, OnNftDone(s, report))
  {
    hide AfterNft, ExitsZero, TakesEffect, GatewayScript;
  }

  lemma QueueSynced(s: State)
    ensures if s.phase.Syncing? then Advances(s, OnSyncDone(s)) else Stays(s, OnSyncDone(s))
  {
  }

  lemma FinishedIsCompleted(site: Site, s: State, e: Event)
    requires BS.Consistent(s.held) && Finishes(site, s, e) && !Step(site, s, e).rejected
    requires Pending(s) > 0 && At(s, 0).Some?
    ensures Completes(site, s, e) == At(s, 0)
  {
    hide BS.Consistent, StartRebuild, AfterNft, ExitsZero, TakesEffect;
  }

  // ---------------------------------------------------------------- tickets

  /** A registering request waits for exactly the job that adds its addresses. */
  ghost predicate Waiting(net: Net, t: Tracked) {
    t.request.RegisteringRecords? ==>
      && !net.gw.rejected
      && net.done < t.ticket <= net.done + Pending(net.gw)
      && At(net.gw, t.ticket - net.done - 1) == Some(BS.Added(t.request.records))
  }

  ghost predicate TicketInv(net: Net) {
    forall id :: id in net.requests ==> Waiting(net, net.requests[id])
  }

  lemma TicketGateway(site: Site, net: Net, e: Event)
    requires Sound(net) && TicketInv(net)
    ensures TicketInv(OnGateway(site, net, e))
  {
    hide BS.Consistent, Step, At, Finishes, BS.Added;
    if !e.AddBypass? {
      var net' := OnGateway(site, net, e);
      if !net'.gw.rejected {
        QueueMoves(site, net.gw, e);
      }
      forall id | id in net'.requests ensures Waiting(net', net'.requests[id]) {
        assert Waiting(net, net.requests[id]);
      }
    }
  }

  /** What `OnAddBypass` queues comes last. */
  lemma AddedComesLast(site: Site, s: State, records: seq<BS.ARecord>)
    ensures var s' := OnAddBypass(site, s, records);
            && Stays(s, s') && s'.rejected == s.rejected
            && (s'.queue != s.queue ==>
                  !s.rejected && Pending(s') > 0 && At(s', Pending(s') - 1) == Some(BS.Added(records)))
  {
    hide BS.AddAll, BS.Added;
    QueueGrows(s, OnAddBypass(site, s, records));
  }

  lemma TicketRegister(site: Site, net: Net, id: nat, records: seq<BS.ARecord>, response: Buffer)
    requires TicketInv(net)
    ensures TicketInv(Register(site, net, id, records, response))
  {
    hide At, BS.Added, OnAddBypass;
    AddedComesLast(site, net.gw, records);
    var net' := Register(site, net, id, records, response);
    forall other | other in net'.requests && other != id ensures Waiting(net', net'.requests[other]) {
      assert Waiting(net, net.requests[other]);
    }
  }

  lemma TicketReported(site: Site, net: Net, id: nat, report: R.Report)
    requires Sound(net) && TicketInv(net)
    ensures TicketInv(OnReported(site, net, id, report))
  {
    hide R.Resume, Register, At, BS.Added, BS.Consistent, ParseQuery;
    if id in net.requests && !net.requests[id].request.RegisteringRecords? {
      var o := R.Resume(net.relay, net.requests[id].request, report);
      var net1 := net.(relay := o.relay);
      assert TicketInv(net1) by {
        forall other | other in net1.requests ensures Waiting(net1, net1.requests[other]) {
          assert Waiting(net, net.requests[other]);
        }
      }
      if o.request.RegisteringRecords? {
        TicketRegister(site, net1, id, o.request.records, o.request.response);
      } else {
        SameController(net1, OnReported(site, net, id, report), id);
      }
    }
  }

  lemma SameController(net: Net, net': Net, id: nat)
    requires TicketInv(net) && net'.gw == net.gw && net'.done == net.done
    requires forall other :: other in net'.requests && other != id ==>
               other in net.requests && net'.requests[other] == net.requests[other]
    requires id in net'.requests ==> !net'.requests[id].request.RegisteringRecords? || (id in net.requests && net'.requests[id] == net.requests[id])
    ensures TicketInv(net')
  {
    forall other | other in net'.requests ensures Waiting(net', net'.requests[other]) {
      if other in net.requests {
        assert Waiting(net, net.requests[other]);
      }
    }
  }

  lemma BeginDoesNotRegister(query: Buffer, hasInterceptor: bool)
    ensures !R.Begin(query, hasInterceptor).RegisteringRecords?
  {
    hide ParseQuery;
  }

  lemma TicketStep(site: Site, net: Net, e: NetEvent)
    requires Sound(net) && TicketInv(net)
    ensures TicketInv(NetStep(site, net, e))
  {
    hide TicketInv, OnGateway, OnReported, R.Begin, Sound;
    match e
    case Gateway(ge) => TicketGateway(site, net, ge);
    case Reported(id, report) => TicketReported(site, net, id, report);
    case Query(id, query, hasInterceptor) =>
      BeginDoesNotRegister(query, hasInterceptor);
      SameController(net, NetStep(site, net, e), id);
    case _ => SameController(net, NetStep(site, net, e), 0);
  }

  lemma {:induction false} TicketsAlways(site: Site, host: Nft.Ruleset, now: int, es: seq<NetEvent>)
    ensures TicketInv(NetReach(site, host, now, es))
  {
    if es != [] {
      hide TicketInv, NetStep, Sound;
      TicketsAlways(site, host, now, es[..|es| - 1]);
      TicketStep(site, NetReach(site, host, now, es[..|es| - 1]), es[|es| - 1]);
    }
  }

  // ---------------------------------------------------------------- replies

  /** Just before `e`, the request holds back `response` for these records, or `e` brings both. */
  ghost predicate AboutToReply(net: Net, e: NetEvent, id: nat, records: seq<BS.ARecord>, response: Buffer)
    requires Sound(net)
  {
    && id in net.requests
    && var request := net.requests[id].request;
       || request == R.RegisteringRecords(records, response)
       || (&& e == Reported(id, R.Answered(response))
           && (request.AskingUpstream? || request.AskingPlain?)
           && ParseQuery(request.query).Some?
           && R.AsksToRegister(net.relay.matcher, ParseQuery(request.query).value.name, response, records))
  }

  /** The reply goes out at this event. */
  ghost predicate Replies(net: Net, net': Net, id: nat, response: Buffer) {
    && id in net.requests && id in net'.requests
    && !net.requests[id].request.Replied?
    && net'.requests[id].request == R.Replied(Some(response))
  }

  lemma RepliesWhenFinished(site: Site, net: Net, e: NetEvent, id: nat, records: seq<BS.ARecord>, response: Buffer)
    requires Sound(net) && TicketInv(net)
    requires id in net.requests && net.requests[id].request == R.RegisteringRecords(records, response)
    requires Replies(net, NetStep(site, net, e), id, response)
    requires !NetStep(site, net, e).gw.rejected
    ensures e.Gateway? && !e.e.AddBypass? && Finishes(site, net.gw, e.e) && !Step(site, net.gw, e.e).rejected
    ensures Pending(net.gw) > 0 && At(net.gw, 0) == Some(BS.Added(records))
  {
    hide Step, BS.Consistent, Finishes, At, R.Resume, R.Begin, BS.Added, BS.AddAll, OnAddBypass, ParseQuery, Register, Marked, R.Configured;
    assert Waiting(net, net.requests[id]);
    if e.Reported? && e.id != id {
      OthersUntouched(site, net, e.id, e.report, id);
    }
  }

  lemma OthersUntouched(site: Site, net: Net, id: nat, report: R.Report, other: nat)
    requires Sound(net) && other != id && other in net.requests
    ensures var net' := OnReported(site, net, id, report);
            other in net'.requests && net'.requests[other] == net.requests[other]
  {
    hide R.Resume, OnAddBypass, BS.Consistent, ParseQuery;
  }

  /** Answering at once means that nothing was queued. */
  lemma RepliesAtOnce(site: Site, net: Net, id: nat, records: seq<BS.ARecord>, response: Buffer)
    requires Sound(net) && AboutToReply(net, Reported(id, R.Answered(response)), id, records, response)
    requires !net.requests[id].request.RegisteringRecords?
    requires Replies(net, OnReported(site, net, id, R.Answered(response)), id, response)
    ensures OnAddBypass(site, net.gw, records).queue == net.gw.queue
  {
    hide R.Resume, OnAddBypass, BS.Consistent, ParseQuery, R.AsksToRegister;
    R.AnswerStep(net.relay, net.requests[id].request, response);
  }

  /**
   The event at which a matched answer is sent finds every address of it that can be bypassed in the
   kernel's set, provided that the queue was never rejected and bypass is active.
   */
  lemma MatchedReplyIsInstalled(site: Site, host: Nft.Ruleset, now: int, es: seq<NetEvent>, e: NetEvent,
                                id: nat, records: seq<BS.ARecord>, response: Buffer)
    requires Steady(GatewayEvents(site, host, now, es + [e])) && site.lanIface.Some?
    requires var net := NetReach(site, host, now, es);
             && IsBypassActive(site, net.gw.settings)
             && AboutToReply(net, e, id, records, response)
             && Replies(net, NetReach(site, host, now, es + [e]), id, response)
             && !NetReach(site, host, now, es + [e]).gw.rejected && !net.gw.rejected
    ensures forall j :: 0 <= j < |records| && BS.IsBypassableAddress(records[j].address) ==>
              records[j].address in InstalledElements(NetReach(site, host, now, es + [e]).gw.host)
  {
    hide Sound, NetStep, AboutToReply, Replies, BS.IsBypassableAddress, Step, BS.Added, Addresses, InstalledElements, Steady,
         GatewayEvents, IsBypassActive, At;
    var net := NetReach(site, host, now, es);
    NetReachStep(site, host, now, es, e);
    TicketsAlways(site, host, now, es);
    AboutCases(net, e, id, records, response);
    if net.requests[id].request.RegisteringRecords? {
      RepliesWhenFinished(site, net, e, id, records, response);
      InstalledWhenFinished(site, host, now, es, e.e, records);
      AddedMembers(records);
    } else {
      NetStepReported(site, net, id, R.Answered(response));
      RepliesAtOnce(site, net, id, records, response);
      RegistrationIsQueued(site, net.gw, records);
    }
  }

  lemma NetStepReported(site: Site, net: Net, id: nat, report: R.Report)
    requires Sound(net)
    ensures NetStep(site, net, Reported(id, report)) == OnReported(site, net, id, report)
  {
    hide OnReported, Sound;
  }

  lemma AboutCases(net: Net, e: NetEvent, id: nat, records: seq<BS.ARecord>, response: Buffer)
    requires Sound(net) && AboutToReply(net, e, id, records, response)
    ensures id in net.requests
    ensures net.requests[id].request.RegisteringRecords? ==> net.requests[id].request == R.RegisteringRecords(records, response)
    ensures !net.requests[id].request.RegisteringRecords? ==> e == Reported(id, R.Answered(response))
  {
    hide Sound, ParseQuery, R.AsksToRegister;
  }

  lemma NetReachStep(site: Site, host: Nft.Ruleset, now: int, es: seq<NetEvent>, e: NetEvent)
    ensures NetReach(site, host, now, es + [e]) == NetStep(site, NetReach(site, host, now, es), e)
    ensures GatewayEvents(site, host, now, es + [e])
            == GatewayEvents(site, host, now, es) + SeenByGateway(NetReach(site, host, now, es), e)
  {
    hide NetStep, SeenByGateway, Sound;
    assert (es + [e])[..|es + [e]| - 1] == es;
  }

  lemma InstalledWhenFinished(site: Site, host: Nft.Ruleset, now: int, es: seq<NetEvent>, ge: Event, records: seq<BS.ARecord>)
    requires Steady(GatewayEvents(site, host, now, es + [Gateway(ge)])) && site.lanIface.Some? && !ge.AddBypass?
    requires var net := NetReach(site, host, now, es);
             && Finishes(site, net.gw, ge) && Pending(net.gw) > 0 && At(net.gw, 0) == Some(BS.Added(records))
             && !net.gw.rejected && !Step(site, net.gw, ge).rejected
    ensures Addresses(BS.Added(records)) <= InstalledElements(NetReach(site, host, now, es + [Gateway(ge)]).gw.host)
  {
    hide Sound, NetStep, Step, BS.Added, Addresses, InstalledElements, Steady, At, Reach, NetReach, Finishes, GatewayEvents, Completes;
    GatewayWithin(site, host, now, es);
    GatewayWithin(site, host, now, es + [Gateway(ge)]);
    NetReachStep(site, host, now, es, Gateway(ge));
    var net, ges := NetReach(site, host, now, es), GatewayEvents(site, host, now, es);
    assert SeenByGateway(net, Gateway(ge)) == [ge];
    FinishedIsCompleted(site, net.gw, ge);
    CompletedIsInstalled(site, host, now, ges, ge);
  }
}
