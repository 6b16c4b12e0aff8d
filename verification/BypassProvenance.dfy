/**
 Where bypassed addresses and bypass marks come from: every address in memory, on its way, or in the
 kernel's set was in an answer to a query for an excluded domain, and every connection let past the
 kill switch was bound for such an address.
 */
module BypassProvenance {
  import opened Wrappers
  import opened Nft
  import opened Ruleset
  import opened GatewayController
  import opened ControllerSafety
  import opened ControllerAgreement
  import opened ForwardVerdict
  import opened DnsMessage
  import opened EndToEnd
  import R = DnsRelay
  import DM = DomainMatcher
  import BS = BypassSet

  // ---------------------------------------------------------------- inside the controller

  ghost predicate CarriedBy(phase: Phase, a: string) {
    match phase
    case Rebuilding(input) => input.bypass.Some? && a in Addresses(input.bypass.value.entries)
    case Adding(entries) => a in Addresses(entries)
    case _ => false
  }

  /** The address is in memory, in the kernel's set, or in a job queued or running. */
  ghost predicate InUse(s: State, a: string) {
    || a in s.held.expiresAt
    || a in InstalledElements(s.host)
    || InQueuedAdd(s.queue, a)
    || CarriedBy(s.phase, a)
  }

  ghost predicate Adds(e: Event, a: string) {
    e.AddBypass? && a in Addresses(BS.Added(e.records))
  }

  lemma QueuedAddShrinks(queue: seq<Job>, a: string)
    requires queue != []
    ensures InQueuedAdd(queue[1..], a) ==> InQueuedAdd(queue, a)
  {
    if InQueuedAdd(queue[1..], a) {
      var k :| 0 <= k < |queue[1..]| && queue[1..][k].AddElementsJob? && a in Addresses(queue[1..][k].entries);
      assert queue[k + 1] == queue[1..][k];
    }
  }

  lemma QueuedAddBackwards(queue: seq<Job>, job: Job, a: string)
    requires InQueuedAdd(queue + [job], a)
    ensures InQueuedAdd(queue, a) || (job.AddElementsJob? && a in Addresses(job.entries))
  {
    hide Addresses;
    var all := queue + [job];
    var k :| 0 <= k < |all| && all[k].AddElementsJob? && a in Addresses(all[k].entries);
    if k < |queue| {
      assert queue[k] == all[k];
    }
  }

  lemma HeldAfterAdding(h: BS.Held, now: int, records: seq<BS.ARecord>, a: string)
    ensures a in BS.AddAll(h, now, records).expiresAt <==> a in h.expiresAt || a in Addresses(BS.Added(records))
  {
    hide BS.AddAll, BS.Added, Addresses;
    AddAllKeys(h, now, records);
    assert a in BS.AddAll(h, now, records).expiresAt.Keys <==> a in h.expiresAt.Keys + Addresses(BS.Added(records));
  }

  lemma InUseAdded(site: Site, s: State, records: seq<BS.ARecord>, a: string)
    requires InUse(OnAddBypass(site, s, records), a)
    ensures InUse(s, a) || a in Addresses(BS.Added(records))
  {
    hide BS.AddAll, BS.Added, Addresses, InstalledElements, CarriedBy, InQueuedAdd, IsBypassActive, BS.IsBypassableAddress;
    HeldAfterAdding(s.held, s.now, records, a);
    var s' := OnAddBypass(site, s, records);
    if s'.queue != s.queue && InQueuedAdd(s'.queue, a) {
      QueuedAddBackwards(s.queue, AddElementsJob(BS.Added(records)), a);
    }
  }

  lemma InUseReconciled(s: State, s': State, a: string)
    requires s' == Reconcile(s) || s' == s
    requires InUse(s', a)
    ensures InUse(s, a)
  {
    hide Addresses, InstalledElements, CarriedBy, InQueuedAdd;
    if s'.queue != s.queue && InQueuedAdd(s'.queue, a) {
      QueuedAddBackwards(s.queue, Rebuild, a);
    }
  }

  lemma LaunchInUse(s: State, held: BS.Held, input: Input, a: string)
    requires InUse(Launch(s, held, input), a)
    requires s.phase == Idle
    ensures || InUse(s.(held := held), a)
            || (input.bypass.Some? && a in Addresses(input.bypass.value.entries))
  {
    hide Addresses, InstalledElements, ValidInput;
  }

  lemma InUseRebuildStarted(site: Site, s: State, a: string)
    requires BS.Consistent(s.held) && s.phase == Idle
    requires InUse(StartRebuild(site, s), a)
    ensures InUse(s, a)
  {
    hide Addresses, InstalledElements, BS.LiveOf, Launch, InQueuedAdd;
    LiveCoversHeld(s.held, s.now);
    if NeedsTable(site, s.settings) {
      var s1 := s.(lastRead := Some((s.settings, s.vpnIface)));
      var enabled := BypassEnabled(s.settings);
      var entries := if enabled then BS.LiveOf(s.held, s.now) else [];
      var held := if enabled then BS.Pruned(s.held, s.now) else BS.NOTHING_HELD;
      var input := InputOf(site, s.settings, s.vpnIface, entries);
      LaunchInUse(s1, held, input, a);
    }
  }

  lemma InUseStarted(site: Site, s: State, a: string)
    requires BS.Consistent(s.held)
    requires InUse(OnStartNext(site, s), a)
    ensures InUse(s, a)
  {
    hide Addresses, InstalledElements, StartRebuild;
    if s.phase == Idle && s.queue != [] {
      QueuedAddShrinks(s.queue, a);
      if s.queue[0] == Rebuild {
        InUseRebuildStarted(site, s.(queue := s.queue[1..]), a);
      } else if InUse(s.(queue := s.queue[1..]), a) {
      } else {
        assert a in Addresses(s.queue[0].entries);
      }
    }
  }

  lemma InUseRebuilt(s: State, input: Input, report: NftReport, a: string)
    requires s.phase == Rebuilding(input)
    requires InUse(RebuildDone(s, input, GatewayScript(input), report), a)
    ensures InUse(s, a)
  {
    hide Addresses, AfterNft, TakesEffect, ExitsZero, GatewayScript, InstalledElements, InQueuedAdd;
    NoEffect(GatewayScript(input), s.host, report);
    RebuildEffect(input, s.host, report);
  }

  lemma InUseNftDone(s: State, report: NftReport, a: string)
    requires InUse(OnNftDone(s, report), a)
    ensures InUse(s, a)
  {
    hide Addresses, AfterNft, TakesEffect, ExitsZero, GatewayScript, TeardownScript, AddScript, InstalledElements, InQueuedAdd, RebuildDone;
    match s.phase
    case Rebuilding(input) => InUseRebuilt(s, input, report, a);
    case TearingDown => TeardownEmpties(s.host, report);
    case Adding(entries) => AddEffect(entries, s.host, report);
    case _ =>
  }

  lemma TeardownEmpties(host: Nft.Ruleset, report: NftReport)
    ensures InstalledElements(AfterNft(TeardownScript(), host, report)) <= InstalledElements(host)
  {
    TeardownRemovesTable(host);
  }

  lemma InUseStep(site: Site, s: State, e: Event, a: string)
    requires BS.Consistent(s.held)
    requires InUse(Step(site, s, e), a)
    ensures InUse(s, a) || Adds(e, a)
  {
    hide InUse, OnNftDone, OnStartNext, OnAddBypass, BS.Consistent, Addresses, BS.Added;
    match e
    case AddBypass(records) => InUseAdded(site, s, records, a);
    case StartNext => InUseStarted(site, s, a);
    case NftDone(report) => InUseNftDone(s, report, a);
    case ApplySettings(settings) =>
      InUseReconciled(s.(settings := settings), OnApplySettings(s, settings), a);
      InUseSame(s.(settings := settings), s, a);
    case UpdateVpnInterface(v) =>
      InUseReconciled(s.(vpnIface := v), OnUpdateVpnInterface(s, v), a);
      InUseSame(s.(vpnIface := v), s, a);
    case Tick(ms) => InUseSame(s.(now := s.now + ms), s, a);
    case CountEntries => InUseCounted(site, s, a);
    case SyncDone => InUseSynced(s, a);
  }

  lemma InUseCounted(site: Site, s: State, a: string)
    requires BS.Consistent(s.held)
    ensures InUse(Step(site, s, CountEntries), a) ==> InUse(s, a)
  {
    hide BS.Consistent, InQueuedAdd, InstalledElements, CarriedBy;
  }

  lemma InUseSame(s: State, t: State, a: string)
    requires s.held == t.held && s.host == t.host && s.queue == t.queue && s.phase == t.phase
    ensures InUse(s, a) <==> InUse(t, a)
  {
  }

  lemma InUseSynced(s: State, a: string)
    ensures InUse(OnSyncDone(s), a) ==> InUse(s, a)
  {
    hide InQueuedAdd, InstalledElements;
  }

  /** Whatever the controller holds, carries or has installed was once registered with it. */
  lemma {:induction false} InUseWasAdded(site: Site, host: Nft.Ruleset, now: int, es: seq<Event>, a: string)
    requires InUse(Reach(site, host, now, es), a)
    ensures a in InstalledElements(host) || exists k :: 0 <= k < |es| && Adds(es[k], a)
  {
    if es == [] {
    } else {
      hide InUse, Step, Adds;
      var front, e := es[..|es| - 1], es[|es| - 1];
      InUseStep(site, Reach(site, host, now, front), e, a);
      if InUse(Reach(site, host, now, front), a) {
        InUseWasAdded(site, host, now, front, a);
        assert forall k :: 0 <= k < |front| ==> front[k] == es[k];
      }
    }
  }

  // ---------------------------------------------------------------- back to the answers

  /**
   The event brings a NOERROR answer with an A record for `a`, which may be bypassed, to a query whose
   name matches the domains excluded at that moment.
   */
  ghost predicate Vouches(net: Net, e: NetEvent, a: string) {
    && e.Reported? && e.report.Answered?
    && e.id in net.requests
    && var request := net.requests[e.id].request;
       && (request.AskingUpstream? || request.AskingPlain?)
       && ParseQuery(request.query).Some?
       && DM.SomeMatch(net.relay.config.excludedDomains, ParseQuery(request.query).value.name)
       && AnswerOf(e.report.response).Some?
       && AnswerOf(e.report.response).value.rcode == 0
       && BS.IsBypassableAddress(a)
       && exists j :: 0 <= j < |AnswerOf(e.report.response).value.aRecords|
                      && AnswerOf(e.report.response).value.aRecords[j].address == a
  }

  lemma {:induction false} AddedFromRecords(records: seq<BS.ARecord>, a: string)
    requires a in Addresses(BS.Added(records))
    ensures BS.IsBypassableAddress(a) && exists j :: 0 <= j < |records| && records[j].address == a
  {
    if records != [] {
      hide BS.IsBypassableAddress, BS.Timeout;
      var front, r := records[..|records| - 1], records[|records| - 1];
      var tail := if BS.IsBypassableAddress(r.address) then [Element(r.address, BS.Timeout(r.ttl))] else [];
      assert BS.Added(records) == BS.Added(front) + tail;
      AddressesAppend(BS.Added(front), tail);
      if a in Addresses(BS.Added(front)) {
        AddedFromRecords(front, a);
        assert forall j :: 0 <= j < |front| ==> front[j] == records[j];
      } else {
        assert a in Addresses(tail);
        assert r.address == a;
      }
    }
  }

  /** Only an answer makes a request register, and only the records the relay is to register. */
  lemma RegistersOnAnswer(relay: R.Relay, request: R.Request, report: R.Report)
    requires R.WellFormed(request) && !request.RegisteringRecords?
    requires R.Resume(relay, request, report).request.RegisteringRecords?
    ensures report.Answered? && (request.AskingUpstream? || request.AskingPlain?)
    ensures var records := R.Resume(relay, request, report).request.records;
            && records != []
            && records == R.ToRegister(relay.matcher, ParseQuery(request.query).value.name, report.response)
  {
    hide ParseQuery, R.ToRegister;
  }

  lemma SeenIsVouched(net: Net, e: NetEvent, a: string)
    requires Sound(net)
    requires SeenByGateway(net, e) != [] && Adds(SeenByGateway(net, e)[0], a)
    ensures Vouches(net, e, a)
  {
    hide R.Resume, BS.Consistent, DM.Compiled, DM.Matches, ParseQuery, AnswerOf, BS.Added, Addresses, DM.SomeMatch, BS.IsBypassableAddress;
    var request := net.requests[e.id].request;
    RegistersOnAnswer(net.relay, request, e.report);
    DM.MatchesExactly(net.relay.config.excludedDomains, ParseQuery(request.query).value.name);
    AddedFromRecords(R.Resume(net.relay, request, e.report).request.records, a);
  }

  /** Some earlier event of the run vouches for the address. */
  ghost predicate Vouched(site: Site, host: Nft.Ruleset, now: int, es: seq<NetEvent>, a: string) {
    exists m :: 0 <= m < |es| && Vouches(NetReach(site, host, now, es[..m]), es[m], a)
  }

  lemma VouchedLater(site: Site, host: Nft.Ruleset, now: int, es: seq<NetEvent>, n: nat, a: string)
    requires n <= |es| && Vouched(site, host, now, es[..n], a)
    ensures Vouched(site, host, now, es, a)
  {
    hide NetReach, Vouches;
    var front := es[..n];
    var m :| 0 <= m < |front| && Vouches(NetReach(site, host, now, front[..m]), front[m], a);
    assert front[..m] == es[..m] && front[m] == es[m];
  }

  lemma VouchedNow(site: Site, host: Nft.Ruleset, now: int, es: seq<NetEvent>, a: string)
    requires es != [] && Vouches(NetReach(site, host, now, es[..|es| - 1]), es[|es| - 1], a)
    ensures Vouched(site, host, now, es, a)
  {
    hide NetReach, Vouches;
  }

  lemma {:induction false} GatewayEventSource(site: Site, host: Nft.Ruleset, now: int, es: seq<NetEvent>, k: nat, a: string)
    requires k < |GatewayEvents(site, host, now, es)| && Adds(GatewayEvents(site, host, now, es)[k], a)
    ensures Vouched(site, host, now, es, a)
  {
    hide Sound, NetStep, NetReach, SeenByGateway, Vouches, Adds, Vouched, Step;
    if es != [] {
      var front, e := es[..|es| - 1], es[|es| - 1];
      var net := NetReach(site, host, now, front);
      var before, seen := GatewayEvents(site, host, now, front), SeenByGateway(net, e);
      assert GatewayEvents(site, host, now, es) == before + seen;
      if k < |before| {
        GatewayEventSource(site, host, now, front, k, a);
        VouchedLater(site, host, now, es, |es| - 1, a);
      } else {
        GatewayShare(site, net, e);
        SeenIsVouched(net, e, a);
        VouchedNow(site, host, now, es, a);
      }
    }
  }

  /**
   Provenance of every bypassed address: unless it was in the kernel's set before start-up, an answer
   seen earlier in the run vouches for it.
   */
  lemma InstalledIsVouched(site: Site, host: Nft.Ruleset, now: int, es: seq<NetEvent>, a: string)
    requires InUse(NetReach(site, host, now, es).gw, a) && a !in InstalledElements(host)
    ensures Vouched(site, host, now, es, a)
  {
    hide InUse, NetReach, Reach, GatewayEvents, Vouched, Adds;
    GatewayWithin(site, host, now, es);
    var ges := GatewayEvents(site, host, now, es);
    InUseWasAdded(site, host, now, ges, a);
    var k: nat :| k < |ges| && Adds(ges[k], a);
    GatewayEventSource(site, host, now, es, k, a);
  }

  // ---------------------------------------------------------------- every table is one compiled for the LAN

  /** The kernel's table was compiled from `i`, for this site's LAN; its sets may have grown since. */
  ghost predicate CompiledTable(site: Site, host: Nft.Ruleset, i: Input) {
    TableBuiltFrom(host, i) && site.lanIface == Some(i.lanIface)
  }

  /** A table of this name, if there is one, is a compiled one: by this process or by one before it. */
  ghost predicate OnlyCompiled(site: Site, host: Nft.Ruleset) {
    TABLE in host ==> exists i :: CompiledTable(site, host, i)
  }

  ghost predicate OwnedTable(site: Site, s: State) {
    && OnlyCompiled(site, s.host)
    && (s.phase.Rebuilding? ==> site.lanIface == Some(s.phase.input.lanIface))
  }

  lemma SameShape(site: Site, host: Nft.Ruleset, host': Nft.Ruleset)
    requires OnlyCompiled(site, host)
    requires TABLE in host' <==> TABLE in host
    requires TABLE in host ==>
               host'[TABLE].chains == host[TABLE].chains && host'[TABLE].sets.Keys == host[TABLE].sets.Keys
    ensures OnlyCompiled(site, host')
  {
    if TABLE in host {
      var i :| CompiledTable(site, host, i);
      assert CompiledTable(site, host', i);
    }
  }

  lemma JustCompiled(site: Site, host: Nft.Ruleset, input: Input)
    requires site.lanIface == Some(input.lanIface)
    ensures OnlyCompiled(site, host[TABLE := TableOf(input)])
  {
    assert CompiledTable(site, host[TABLE := TableOf(input)], input);
  }

  lemma OwnedRebuilt(site: Site, s: State, input: Input, report: NftReport)
    requires OwnedTable(site, s) && site.lanIface == Some(input.lanIface)
    ensures OwnedTable(site, RebuildDone(s, input, GatewayScript(input), report))
  {
    hide AfterNft, TakesEffect, ExitsZero, GatewayScript, OnlyCompiled, TableOf;
    NoEffect(GatewayScript(input), s.host, report);
    RebuildEffect(input, s.host, report);
    JustCompiled(site, s.host, input);
  }

  lemma OwnedAdded(site: Site, s: State, entries: seq<Element>, report: NftReport)
    requires OwnedTable(site, s)
    ensures OwnedTable(site, AddDone(s, AddScript(entries), report))
  {
    hide AfterNft, TakesEffect, ExitsZero, AddScript, OnlyCompiled;
    AddEffect(entries, s.host, report);
    SameShape(site, s.host, AfterNft(AddScript(entries), s.host, report));
  }

  lemma NoTableIsFine(site: Site, host: Nft.Ruleset)
    ensures TABLE !in host ==> OnlyCompiled(site, host)
  {
  }

  lemma OwnedNft(site: Site, s: State, report: NftReport)
    requires OwnedTable(site, s)
    ensures OwnedTable(site, OnNftDone(s, report))
  {
    hide AfterNft, TakesEffect, GatewayScript, TeardownScript, AddScript, RebuildDone, AddDone, OnlyCompiled;
    match s.phase
    case Rebuilding(input) => OwnedRebuilt(site, s, input, report);
    case TearingDown =>
      TeardownTakesTable(s.host, report);
      NoTableIsFine(site, AfterNft(TeardownScript(), s.host, report));
    case Adding(entries) => OwnedAdded(site, s, entries, report);
    case _ =>
  }

  lemma TeardownTakesTable(host: Nft.Ruleset, report: NftReport)
    ensures TakesEffect(TeardownScript(), host, report) ==> TABLE !in AfterNft(TeardownScript(), host, report)
    ensures !TakesEffect(TeardownScript(), host, report) ==> AfterNft(TeardownScript(), host, report) == host
  {
    TeardownRemovesTable(host);
  }

  lemma OwnedStart(site: Site, s: State)
    requires BS.Consistent(s.held) && OwnedTable(site, s)
    ensures OwnedTable(site, OnStartNext(site, s))
  {
    hide StartRebuild, CompiledFrom, NeedsTable, BS.Consistent, OnlyCompiled;
    if s.phase == Idle && s.queue != [] {
      var s1 := s.(queue := s.queue[1..]);
      StartLeavesHost(site, s1);
      StartPhase(site, s1);
      if StartRebuild(site, s1).phase.Rebuilding? {
        CompiledForLan(site, StartRebuild(site, s1).phase.input, (s.settings, s.vpnIface));
      }
    }
  }

  lemma CompiledForLan(site: Site, i: Input, read: (Settings, Option<string>))
    requires CompiledFrom(site, i, read)
    ensures site.lanIface == Some(i.lanIface)
  {
  }

  lemma OwnedStep(site: Site, s: State, e: Event)
    requires BS.Consistent(s.held) && OwnedTable(site, s)
    ensures OwnedTable(site, Step(site, s, e))
  {
    hide BS.AddAll, BS.Added, BS.Pruned, BS.Consistent, OnStartNext, OnNftDone, OnlyCompiled;
    match e
    case StartNext => OwnedStart(site, s);
    case NftDone(report) => OwnedNft(site, s, report);
    case _ =>
  }

  lemma {:induction false} OwnedAlways(site: Site, host: Nft.Ruleset, now: int, es: seq<Event>)
    requires OnlyCompiled(site, host)
    ensures OwnedTable(site, Reach(site, host, now, es))
  {
    hide OwnedTable, OnlyCompiled, Step;
    if es == [] {
      OwnedInit(site, host, now);
    } else {
      OwnedAlways(site, host, now, es[..|es| - 1]);
      OwnedStep(site, Reach(site, host, now, es[..|es| - 1]), es[|es| - 1]);
    }
  }

  lemma OwnedInit(site: Site, host: Nft.Ruleset, now: int)
    requires OnlyCompiled(site, host)
    ensures OwnedTable(site, Init(host, now))
  {
  }

  /** The same within the whole. */
  lemma NetTable(site: Site, host: Nft.Ruleset, now: int, es: seq<NetEvent>)
    requires OnlyCompiled(site, host)
    ensures OnlyCompiled(site, NetReach(site, host, now, es).gw.host)
  {
    hide NetReach, Reach, GatewayEvents, OnlyCompiled;
    GatewayWithin(site, host, now, es);
    OwnedAlways(site, host, now, GatewayEvents(site, host, now, es));
  }

  // ---------------------------------------------------------------- connection marks

  /** The event is a packet of the connection, from the LAN, to an address in the kernel's bypass set. */
  ghost predicate BoundForBypassed(site: Site, net: Net, e: NetEvent, conn: nat) {
    && e.Traverse? && e.conn == conn
    && site.lanIface == Some(e.p.iif)
    && e.p.daddr in InstalledElements(net.gw.host)
  }

  ghost predicate WasBoundForBypassed(site: Site, host: Nft.Ruleset, now: int, es: seq<NetEvent>, conn: nat) {
    exists j :: 0 <= j < |es| && BoundForBypassed(site, NetReach(site, host, now, es[..j]), es[j], conn)
  }

  lemma MarkOf(site: Site, net: Net, i: Input, conn: nat, p: Packet)
    requires CompiledTable(site, net.gw.host, i)
    ensures Marked(net.gw.host[TABLE], Carrying(net, conn, p)).ctMark
            == if i.bypass.Some? && BoundForBypassed(site, net, Traverse(conn, p), conn)
               then BYPASS_FWMARK else Carrying(net, conn, p).ctMark
  {
    MarkExactly(net.gw.host[TABLE], i, Carrying(net, conn, p));
  }

  lemma MarksStep(site: Site, net: Net, e: NetEvent)
    requires Sound(net)
    ensures e.Traverse? || NetStep(site, net, e).marks == net.marks
  {
    hide Step, R.Resume, R.Begin, DM.Compiled, BS.Consistent, ParseQuery, Finishes, BS.AddAll, BS.Added;
  }

  /** A mark other than zero has its cause among the earlier packets of the connection. */
  lemma {:induction false} MarkHasCause(site: Site, host: Nft.Ruleset, now: int, es: seq<NetEvent>, conn: nat)
    requires OnlyCompiled(site, host)
    requires var net := NetReach(site, host, now, es); conn in net.marks && net.marks[conn] != 0
    ensures WasBoundForBypassed(site, host, now, es, conn)
  {
    hide Sound, NetStep, OnlyCompiled, BoundForBypassed, Marked;
    if es != [] {
      var front, e := es[..|es| - 1], es[|es| - 1];
      var net := NetReach(site, host, now, front);
      MarksStep(site, net, e);
      NetTable(site, host, now, front);
      CauseLater(site, host, now, es, conn);
      if conn in net.marks && net.marks[conn] != 0 {
        MarkHasCause(site, host, now, front, conn);
      } else {
        TraverseMarks(site, net, e, conn);
      }
    }
  }

  lemma CauseLater(site: Site, host: Nft.Ruleset, now: int, es: seq<NetEvent>, conn: nat)
    requires es != []
    ensures WasBoundForBypassed(site, host, now, es[..|es| - 1], conn) ==> WasBoundForBypassed(site, host, now, es, conn)
  {
    hide NetReach, BoundForBypassed;
    var front := es[..|es| - 1];
    if WasBoundForBypassed(site, host, now, front, conn) {
      var j :| 0 <= j < |front| && BoundForBypassed(site, NetReach(site, host, now, front[..j]), front[j], conn);
      assert front[..j] == es[..j] && front[j] == es[j];
    }
  }

  lemma TraverseMarks(site: Site, net: Net, e: NetEvent, conn: nat)
    requires Sound(net) && OnlyCompiled(site, net.gw.host)
    requires conn !in net.marks || net.marks[conn] == 0
    requires var net' := NetStep(site, net, e); conn in net'.marks && net'.marks[conn] != 0
    ensures BoundForBypassed(site, net, e, conn)
  {
    hide CompiledTable, BoundForBypassed, Marked, Step, R.Resume, R.Begin, R.Configured, DM.Compiled, BS.Consistent, ParseQuery, Finishes;
    MarksStep(site, net, e);
    if e.Traverse? && TABLE in net.gw.host {
      var i :| CompiledTable(site, net.gw.host, i);
      MarkOf(site, net, i, e.conn, e.p);
    }
  }

  /** The installed table was built to stop what comes from the LAN, and `p` has no leave of its own. */
  ghost predicate Blocked(i: Input, p: Packet) {
    && i.transparentGateway
    && (i.killSwitch || i.vpnIface.Some?)
    && i.vpnIface != Some(i.lanIface)
    && i.vpnIface != Some(p.oif)
    && p.iif == i.lanIface
    && !p.dnat
    && !(p.reply && p.established && p.oif != i.lanIface)
  }

  lemma PassedOnlyByMark(site: Site, net: Net, i: Input, conn: nat, p: Packet)
    requires CompiledTable(site, net.gw.host, i) && Blocked(i, p) && Passes(net, conn, p)
    ensures BoundForBypassed(site, net, Traverse(conn, p), conn) || (conn in net.marks && net.marks[conn] != 0)
  {
    var t := net.gw.host[TABLE];
    MarkExactly(t, i, Carrying(net, conn, p));
    ForwardExactly(t, i, Marked(t, Carrying(net, conn, p)));
  }

  /** The address was in the kernel's set when the process started, or an answer has vouched for it since. */
  ghost predicate Accounted(site: Site, host: Nft.Ruleset, now: int, es: seq<NetEvent>, a: string) {
    a in InstalledElements(host) || Vouched(site, host, now, es, a)
  }

  /**
   Bypass provenance, end to end: a LAN packet that the table was built to stop passes only if some
   LAN packet of its connection, itself perhaps, was bound for an address in the kernel's bypass set
   at that time; and every such address was vouched for, before that, by an answer to a query whose
   name matched the domains excluded when the answer came in, or was in the set of a table left by an
   earlier process.
   */
  lemma PassedMeansExcluded(site: Site, host: Nft.Ruleset, now: int, es: seq<NetEvent>, i: Input, conn: nat, p: Packet)
    requires OnlyCompiled(site, host)
    requires var net := NetReach(site, host, now, es);
             CompiledTable(site, net.gw.host, i) && Blocked(i, p) && Passes(net, conn, p)
    ensures exists j | 0 <= j <= |es| ::
              var run := es + [Traverse(conn, p)];
              && BoundForBypassed(site, NetReach(site, host, now, run[..j]), run[j], conn)
              && Accounted(site, host, now, run[..j], run[j].p.daddr)
  {
    hide NetReach, OnlyCompiled, CompiledTable, Accounted, BoundForBypassed, Passes, Blocked;
    var net, run := NetReach(site, host, now, es), es + [Traverse(conn, p)];
    PassedOnlyByMark(site, net, i, conn, p);
    assert run[..|es|] == es;
    if !BoundForBypassed(site, net, Traverse(conn, p), conn) {
      MarkHasCause(site, host, now, es, conn);
      var j :| 0 <= j < |es| && BoundForBypassed(site, NetReach(site, host, now, es[..j]), es[j], conn);
      assert run[..j] == es[..j] && run[j] == es[j];
      BoundIsAccounted(site, host, now, es[..j], es[j], conn);
    } else {
      BoundIsAccounted(site, host, now, es, Traverse(conn, p), conn);
      assert run[|es|] == Traverse(conn, p);
    }
  }

  lemma BoundIsAccounted(site: Site, host: Nft.Ruleset, now: int, es: seq<NetEvent>, e: NetEvent, conn: nat)
    requires BoundForBypassed(site, NetReach(site, host, now, es), e, conn)
    ensures e.Traverse? && Accounted(site, host, now, es, e.p.daddr)
  {
    hide NetReach, Vouched, InstalledElements;
    if e.p.daddr !in InstalledElements(host) {
      InstalledIsVouched(site, host, now, es, e.p.daddr);
    }
  }

  /** From the first install on, the installed input is one the kernel's table is compiled from. */
  lemma InstalledIsCompiled(site: Site, host: Nft.Ruleset, now: int, es: seq<NetEvent>)
    requires NetReach(site, host, now, es).gw.installed.Some?
    ensures var gw := NetReach(site, host, now, es).gw; CompiledTable(site, gw.host, gw.installed.value)
  {
    hide NetReach, Reach, GatewayEvents, KernelInv, InstalledForLan;
    GatewayWithin(site, host, now, es);
    KernelAlways(site, host, now, GatewayEvents(site, host, now, es));
    InstalledForLanAlways(site, host, now, GatewayEvents(site, host, now, es));
    KernelGives(NetReach(site, host, now, es).gw);
    InstalledLan(site, NetReach(site, host, now, es).gw);
  }

  lemma KernelGives(s: State)
    requires KernelInv(s) && s.installed.Some?
    ensures TableBuiltFrom(s.host, s.installed.value)
  {
  }

  ghost predicate InstalledForLan(site: Site, s: State) {
    && (s.installed.Some? ==> site.lanIface == Some(s.installed.value.lanIface))
    && (s.phase.Rebuilding? ==> site.lanIface == Some(s.phase.input.lanIface))
  }

  lemma InstalledLan(site: Site, s: State)
    requires InstalledForLan(site, s) && s.installed.Some?
    ensures site.lanIface == Some(s.installed.value.lanIface)
  {
  }

  lemma InstalledForLanStart(site: Site, s: State)
    requires BS.Consistent(s.held) && InstalledForLan(site, s)
    ensures InstalledForLan(site, OnStartNext(site, s))
  {
    hide StartRebuild, NeedsTable, CompiledFrom, BS.Consistent;
    if s.phase == Idle && s.queue != [] && s.queue[0] == Rebuild {
      var s1 := s.(queue := s.queue[1..]);
      StartLeavesHost(site, s1);
      StartPhase(site, s1);
      if StartRebuild(site, s1).phase.Rebuilding? {
        CompiledForLan(site, StartRebuild(site, s1).phase.input, (s.settings, s.vpnIface));
      }
    }
  }

  /** What an nft call that ends can do to the input on record. */
  lemma NftDoneInstalled(s: State, report: NftReport)
    ensures var s' := OnNftDone(s, report);
            && !s'.phase.Rebuilding?
            && (s'.installed == s.installed || s'.installed == None
                || (s.phase.Rebuilding? && s'.installed == Some(s.phase.input)))
  {
    hide AfterNft, ExitsZero, TakesEffect, GatewayScript, TeardownScript, AddScript;
    match s.phase
    case _ =>
  }

  lemma InstalledForLanNft(site: Site, s: State, report: NftReport)
    requires InstalledForLan(site, s)
    ensures InstalledForLan(site, OnNftDone(s, report))
  {
    hide OnNftDone;
    NftDoneInstalled(s, report);
  }

  lemma InstalledForLanStep(site: Site, s: State, e: Event)
    requires BS.Consistent(s.held) && InstalledForLan(site, s)
    ensures InstalledForLan(site, Step(site, s, e))
  {
    hide BS.AddAll, BS.Added, BS.Pruned, BS.Consistent, OnStartNext, OnNftDone;
    match e
    case StartNext => InstalledForLanStart(site, s);
    case NftDone(report) => InstalledForLanNft(site, s, report);
    case _ =>
  }

  lemma {:induction false} InstalledForLanAlways(site: Site, host: Nft.Ruleset, now: int, es: seq<Event>)
    ensures InstalledForLan(site, Reach(site, host, now, es))
  {
    if es != [] {
      hide InstalledForLan, Step;
      InstalledForLanAlways(site, host, now, es[..|es| - 1]);
      InstalledForLanStep(site, Reach(site, host, now, es[..|es| - 1]), es[|es| - 1]);
    }
  }
}
