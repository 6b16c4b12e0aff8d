/**
 The memory of bypassed addresses against the kernel's set, the completion of registrations, and
 what happens when the builder rejects a rebuild.
 */
module ControllerAgreement {
  import opened Wrappers
  import opened Nft
  import opened Ruleset
  import opened GatewayController
  import opened ControllerSafety
  import opened ForwardVerdict
  import BS = BypassSet

  // ---------------------------------------------------------------- what is held

  lemma {:induction false} AddAllKeys(h: BS.Held, now: int, records: seq<BS.ARecord>)
    ensures BS.AddAll(h, now, records).expiresAt.Keys == h.expiresAt.Keys + Addresses(BS.Added(records))
  {
    if records == [] {
      assert Addresses(BS.Added(records)) == {};
    } else {
      var front, r := records[..|records| - 1], records[|records| - 1];
      AddAllKeys(h, now, front);
      var tail := AddedOne(r);
      AddedSnoc(records);
      AddressesAppend(BS.Added(front), tail);
      assert Addresses(tail) == if BS.IsBypassableAddress(r.address) then {r.address} else {} by {
        if BS.IsBypassableAddress(r.address) {
          assert tail[0] in tail;
        }
      }
    }
  }

  lemma AddressesAppend(a: seq<Element>, b: seq<Element>)
    ensures Addresses(a + b) == Addresses(a) + Addresses(b)
  {
    forall x ensures x in Addresses(a + b) <==> x in Addresses(a) + Addresses(b) {
      if x in Addresses(a + b) {
        var e :| e in a + b && e.address == x;
        assert e in a || e in b;
      }
      if x in Addresses(a) {
        var e :| e in a && e.address == x;
        assert e in a + b;
      }
      if x in Addresses(b) {
        var e :| e in b && e.address == x;
        assert e in a + b;
      }
    }
  }

  /** The entries handed to a rebuild are exactly the addresses that remain held. */
  lemma LiveCoversHeld(h: BS.Held, now: int)
    requires BS.Consistent(h)
    ensures Addresses(BS.LiveOf(h, now)) == BS.Pruned(h, now).expiresAt.Keys
  {
    forall a ensures a in Addresses(BS.LiveOf(h, now)) <==> a in BS.Pruned(h, now).expiresAt {
      if a in BS.Pruned(h, now).expiresAt {
        var e := Element(a, BS.Remaining(h.expiresAt[a], now));
        BS.LiveEntriesFromOrder(h.order, h.expiresAt, now, e);
        assert e in BS.LiveOf(h, now);
      }
      if a in Addresses(BS.LiveOf(h, now)) {
        var e :| e in BS.LiveOf(h, now) && e.address == a;
        BS.LiveEntriesFromOrder(h.order, h.expiresAt, now, e);
      }
    }
  }

  // ---------------------------------------------------------------- map/table agreement

  ghost predicate InQueuedAdd(queue: seq<Job>, a: string) {
    exists k :: 0 <= k < |queue| && queue[k].AddElementsJob? && a in Addresses(queue[k].entries)
  }

  /** The address is in the kernel's set, or something already under way will put it there. */
  ghost predicate Covered(s: State, a: string) {
    || Rebuild in s.queue
    || InQueuedAdd(s.queue, a)
    || match s.phase
       case Rebuilding(input) => input.bypass.Some? && a in Addresses(input.bypass.value.entries)
       case TearingDown => false
       case Adding(entries) => a in Addresses(entries) || a in InstalledElements(s.host)
       case Idle => a in InstalledElements(s.host) || !s.lastReconcileSucceeded
       case Syncing(afterTeardown) =>
         !afterTeardown && (a in InstalledElements(s.host) || !s.lastReconcileSucceeded)
  }

  ghost predicate AgreementDue(site: Site, s: State) {
    IsBypassActive(site, s.settings) && !s.rejected && (!s.addFailed || s.phase.Rebuilding?)
  }

  ghost predicate AgreeInv(site: Site, s: State) {
    AgreementDue(site, s) ==> forall a :: a in s.held.expiresAt ==> Covered(s, a)
  }

  lemma QueuedAddGrows(queue: seq<Job>, job: Job, a: string)
    ensures InQueuedAdd(queue, a) ==> InQueuedAdd(queue + [job], a)
    ensures job.AddElementsJob? && a in Addresses(job.entries) ==> InQueuedAdd(queue + [job], a)
    ensures Rebuild in queue ==> Rebuild in queue + [job]
  {
    if InQueuedAdd(queue, a) {
      var k :| 0 <= k < |queue| && queue[k].AddElementsJob? && a in Addresses(queue[k].entries);
      assert (queue + [job])[k] == queue[k];
    }
    assert (queue + [job])[|queue|] == job;
  }

  /** Growing the queue by one job keeps what was covered and covers what the job carries. */
  lemma CoveredGrows(s: State, s': State, job: Job, a: string)
    requires s'.queue == s.queue + [job] && s'.phase == s.phase && s'.host == s.host
    requires s'.lastReconcileSucceeded == s.lastReconcileSucceeded
    ensures Covered(s, a) ==> Covered(s', a)
    ensures job.AddElementsJob? && a in Addresses(job.entries) ==> Covered(s', a)
  {
    hide InstalledElements, Addresses;
    QueuedAddGrows(s.queue, job, a);
  }

  lemma AgreeAdd(site: Site, s: State, records: seq<BS.ARecord>)
    requires BS.Consistent(s.held) && AgreeInv(site, s)
    ensures AgreeInv(site, OnAddBypass(site, s, records))
  {
    hide BS.Consistent, InstalledElements, Addresses, BS.AddAll, BS.Added, InQueuedAdd;
    AddAllKeys(s.held, s.now, records);
    QuietAdd(site, s, records);
    var s' := OnAddBypass(site, s, records);
    var added := BS.Added(records);
    if AgreementDue(site, s') {
      forall a | a in s'.held.expiresAt ensures Covered(s', a) {
        assert a in s'.held.expiresAt.Keys;
        if |added| == 0 {
          NoAddresses(added);
          assert Covered(s, a);
        } else {
          hide Covered;
          CoveredGrows(s, s', AddElementsJob(added), a);
          assert a in s.held.expiresAt ==> Covered(s, a);
        }
      }
    }
  }

  lemma NoAddresses(entries: seq<Element>)
    requires |entries| == 0
    ensures Addresses(entries) == {}
  {
  }

  lemma AgreeQuiet(site: Site, s: State, e: Event)
    requires BS.Consistent(s.held) && AgreeInv(site, s)
    requires e.ApplySettings? || e.UpdateVpnInterface? || e.Tick? || e.CountEntries?
    ensures AgreeInv(site, Step(site, s, e))
  {
    hide InstalledElements, Addresses;
    QuietFrame(site, s, e);
    NothingNewHeld(site, s, e);
    hide BS.Consistent, Step;
    var s' := Step(site, s, e);
    if s'.queue == s.queue + [Rebuild] {
      assert Rebuild in s'.queue;
    }
  }

  lemma NothingNewHeld(site: Site, s: State, e: Event)
    requires BS.Consistent(s.held)
    requires e.ApplySettings? || e.UpdateVpnInterface? || e.Tick? || e.CountEntries?
    ensures var s' := Step(site, s, e);
            s'.held.expiresAt.Keys <= s.held.expiresAt.Keys && (s'.queue == s.queue || s'.queue == s.queue + [Rebuild])
  {
    hide BS.Consistent;
  }

  lemma AgreeStart(site: Site, s: State)
    requires BS.Consistent(s.held) && ReadInv(site, s) && AgreeInv(site, s)
    ensures AgreeInv(site, OnStartNext(site, s))
  {
    if s.phase == Idle && s.queue != [] {
      var s1 := s.(queue := s.queue[1..]);
      var s' := OnStartNext(site, s);
      assert s.queue == [s.queue[0]] + s1.queue;
      match s.queue[0]
      case Rebuild => AgreeStartRebuild(site, s1);
      case AddElementsJob(entries) =>
        hide BS.Consistent, ReadInv;
        if AgreementDue(site, s') {
          forall a | a in s'.held.expiresAt ensures Covered(s', a) {
            assert Covered(s, a);
            if InQueuedAdd(s.queue, a) {
              var k :| 0 <= k < |s.queue| && s.queue[k].AddElementsJob? && a in Addresses(s.queue[k].entries);
              if k > 0 {
                assert s1.queue[k - 1] == s.queue[k];
              }
            }
          }
        }
    }
  }

  lemma AgreeLaunch(site: Site, s: State, held: BS.Held, input: Input)
    requires IsBypassActive(site, s.settings) ==>
               input.bypass.Some? && held.expiresAt.Keys == Addresses(input.bypass.value.entries)
    ensures AgreeInv(site, Launch(s, held, input))
  {
    hide ValidInput, InstalledElements, Addresses, InQueuedAdd;
    var s' := Launch(s, held, input);
    if s'.phase == Rebuilding(input) {
      assert IsBypassActive(site, s.settings) ==>
          forall a :: a in held.expiresAt ==> a in Addresses(input.bypass.value.entries) by {
        assert forall a :: a in held.expiresAt <==> a in held.expiresAt.Keys;
      }
    }
  }

  lemma AgreeStartRebuild(site: Site, s: State)
    requires BS.Consistent(s.held)
    ensures AgreeInv(site, StartRebuild(site, s))
  {
    LiveCoversHeld(s.held, s.now);
    if NeedsTable(site, s.settings) {
      var s1 := s.(lastRead := Some((s.settings, s.vpnIface)));
      var entries := if BypassEnabled(s.settings) then BS.LiveOf(s.held, s.now) else [];
      var held := if BypassEnabled(s.settings) then BS.Pruned(s.held, s.now) else BS.NOTHING_HELD;
      AgreeLaunch(site, s1, held, InputOf(site, s.settings, s.vpnIface, entries));
      hide AgreeInv, Launch, BS.Pruned, BS.LiveOf, InputOf, Addresses;
    }
  }

  lemma AgreeRebuilt(site: Site, s: State, report: NftReport)
    requires s.phase.Rebuilding? && AgreeInv(site, s)
    ensures AgreeInv(site, RebuildDone(s, s.phase.input, GatewayScript(s.phase.input), report))
  {
    hide AfterNft, ExitsZero, TakesEffect, InstalledElements, Addresses, GatewayScript, InQueuedAdd;
    RebuildEffect(s.phase.input, s.host, report);
  }

  lemma AgreeAdded(site: Site, s: State, report: NftReport)
    requires s.phase.Adding? && AgreeInv(site, s)
    ensures AgreeInv(site, AddDone(s, AddScript(s.phase.entries), report))
  {
    hide AfterNft, ExitsZero, TakesEffect, InstalledElements, Addresses, AddScript, InQueuedAdd;
    AddEffect(s.phase.entries, s.host, report);
  }

  lemma AgreeTornDown(site: Site, s: State, report: NftReport)
    ensures AgreeInv(site, TeardownDone(s, TeardownScript(), report))
  {
    hide AfterNft, ExitsZero, TakesEffect, InstalledElements, Covered;
  }

  lemma AgreeNft(site: Site, s: State, report: NftReport)
    requires AgreeInv(site, s)
    ensures AgreeInv(site, OnNftDone(s, report))
  {
    hide AgreeInv, RebuildDone, AddDone, TeardownDone;
    match s.phase
    case Rebuilding(input) => AgreeRebuilt(site, s, report);
    case TearingDown => AgreeTornDown(site, s, report);
    case Adding(entries) => AgreeAdded(site, s, report);
    case _ =>
  }

  /** A teardown in progress was asked for by settings without bypass; newer ones have a rebuild queued. */
  lemma AgreeSync(site: Site, s: State)
    requires BS.Consistent(s.held) && ReadInv(site, s) && AgreeInv(site, s)
    ensures AgreeInv(site, OnSyncDone(s))
  {
    hide BS.Consistent, InstalledElements, Addresses, CompiledFrom;
    if s.phase == Syncing(true) && AgreementDue(site, OnSyncDone(s)) {
      assert Rebuild in s.queue;
    }
  }

  lemma AgreeStep(site: Site, s: State, e: Event)
    requires BS.Consistent(s.held) && ReadInv(site, s) && AgreeInv(site, s)
    ensures AgreeInv(site, Step(site, s, e))
  {
    hide BS.Consistent, ReadInv, AgreeInv, OnStartNext, OnNftDone, OnSyncDone, OnAddBypass, OnApplySettings, OnUpdateVpnInterface;
    match e
    case AddBypass(records) => AgreeAdd(site, s, records);
    case StartNext => AgreeStart(site, s);
    case NftDone(report) => AgreeNft(site, s, report);
    case SyncDone => AgreeSync(site, s);
    case _ => AgreeQuiet(site, s, e);
  }

  lemma {:induction false} AgreeAlways(site: Site, host: Nft.Ruleset, now: int, es: seq<Event>)
    ensures AgreeInv(site, Reach(site, host, now, es))
  {
    if es != [] {
      hide AgreeInv, ReadInv, Step;
      var front := es[..|es| - 1];
      AgreeAlways(site, host, now, front);
      ReadAlways(site, host, now, front);
      AgreeStep(site, Reach(site, host, now, front), es[|es| - 1]);
    }
  }

  /**
   Map/table agreement: whenever the queue is idle, bypass is enabled, the last rebuild succeeded and
   no addition has failed since, every address held in memory is in the kernel's set.
   */
  lemma HeldIsInstalled(site: Site, host: Nft.Ruleset, now: int, es: seq<Event>)
    requires var s := Reach(site, host, now, es);
             && QueueIdle(s) && IsBypassActive(site, s.settings)
             && s.lastReconcileSucceeded && !s.addFailed
    ensures var s := Reach(site, host, now, es);
            s.held.expiresAt.Keys <= InstalledElements(s.host)
  {
    AgreeAlways(site, host, now, es);
    var s := Reach(site, host, now, es);
    forall a | a in s.held.expiresAt ensures a in InstalledElements(s.host) {
      assert Covered(s, a);
      assert !InQueuedAdd(s.queue, a);
    }
  }

  // ---------------------------------------------------------------- registrations complete installed

  /** A run in which bypass, once asked for, stays asked for, and every nft call succeeds. */
  ghost predicate SteadyEvent(e: Event) {
    && (e.ApplySettings? ==> BypassEnabled(e.settings))
    && (e.NftDone? ==> e.report == Succeeded)
  }

  ghost predicate Steady(es: seq<Event>) {
    forall k :: 0 <= k < |es| ==> SteadyEvent(es[k])
  }

  /** A table with the bypass set is in place, and the controller knows it. */
  ghost predicate SetInPlace(s: State) {
    && s.installed.Some? && s.installed.value.bypass.Some?
    && s.lastReconcileSucceeded
    && !s.phase.TearingDown? && !s.phase.Rebuilding?
  }

  ghost predicate SteadyInv(site: Site, s: State) {
    && (IsBypassActive(site, s.settings) || s.settings == DEFAULT_SETTINGS)
    && (!IsBypassActive(site, s.settings) ==>
          (forall k :: 0 <= k < |s.queue| ==> s.queue[k] == Rebuild) && !s.phase.Adding?)
    && (IsBypassActive(site, s.settings) && !s.rejected ==>
          || (s.queue != [] && s.queue[0] == Rebuild)
          || (s.phase.Rebuilding? && s.phase.input.bypass.Some?)
          || SetInPlace(s))
    && (s.phase.Adding? ==> SetInPlace(s))
  }

  lemma SteadyQuiet(site: Site, s: State, e: Event)
    requires BS.Consistent(s.held) && SteadyInv(site, s) && SteadyEvent(e) && site.lanIface.Some?
    requires s.rejected ==> s.queue == []
    requires !e.StartNext? && !e.NftDone? && !e.SyncDone?
    ensures SteadyInv(site, Step(site, s, e))
  {
    QuietFrame(site, s, e);
    SettingsAfter(site, s, e);
    hide Step, BS.Consistent, NeedsTable;
    var s' := Step(site, s, e);
    assert forall k :: 0 <= k < |s.queue| ==> s'.queue[k] == s.queue[k];
    assert s'.queue == s.queue + [Rebuild] ==> s'.queue[|s.queue|] == Rebuild;
  }

  /** Settings change only by request; additions are queued only while bypass is active. */
  lemma SettingsAfter(site: Site, s: State, e: Event)
    requires BS.Consistent(s.held)
    requires !e.StartNext? && !e.NftDone? && !e.SyncDone?
    ensures var s' := Step(site, s, e);
            && s'.settings == (if e.ApplySettings? then e.settings else s.settings)
            && (!IsBypassActive(site, s.settings) ==> s'.queue == s.queue || s'.queue == s.queue + [Rebuild])
  {
    hide BS.Consistent, BS.AddAll, BS.Added;
    match e
    case AddBypass(records) =>
    case _ =>
      hide IsBypassActive, NeedsTable;
  }

  lemma SteadyStart(site: Site, s: State)
    requires BS.Consistent(s.held) && SteadyInv(site, s) && site.lanIface.Some?
    requires s.rejected ==> s.queue == []
    ensures SteadyInv(site, OnStartNext(site, s))
  {
    hide StartRebuild;
    if s.phase == Idle && s.queue != [] {
      var s1 := s.(queue := s.queue[1..]);
      StartLeavesHost(site, s1);
      StartPhase(site, s1);
      if s.queue[0] == Rebuild && IsBypassActive(site, s.settings) {
        StartPhase(site, s1);
      }
      assert forall k :: 0 <= k < |s1.queue| ==> s1.queue[k] == s.queue[k + 1];
    }
  }

  lemma SteadyNft(site: Site, s: State)
    requires SteadyInv(site, s)
    ensures SteadyInv(site, OnNftDone(s, Succeeded))
  {
    hide AfterNft, ExitsZero, TakesEffect, GatewayScript;
    match s.phase
    case Rebuilding(input) => RebuildEffect(input, s.host, Succeeded);
    case _ =>
  }

  lemma {:induction false} SteadyAlways(site: Site, host: Nft.Ruleset, now: int, es: seq<Event>)
    requires Steady(es) && site.lanIface.Some?
    ensures SteadyInv(site, Reach(site, host, now, es))
  {
    if es != [] {
      hide SteadyInv, SteadyEvent, OnStartNext, OnNftDone;
      var front, e := es[..|es| - 1], es[|es| - 1];
      assert Steady(front) by {
        forall k | 0 <= k < |front| ensures SteadyEvent(front[k]) {
          assert front[k] == es[k];
        }
      }
      SteadyAlways(site, host, now, front);
      ReadAlways(site, host, now, front);
      SteadyStep(site, Reach(site, host, now, front), e);
    }
  }

  lemma SteadyStep(site: Site, s: State, e: Event)
    requires BS.Consistent(s.held) && SteadyInv(site, s) && SteadyEvent(e) && site.lanIface.Some?
    requires ReadInv(site, s)
    ensures SteadyInv(site, Step(site, s, e))
  {
    hide OnStartNext, OnNftDone, OnAddBypass, OnApplySettings, OnUpdateVpnInterface, StartedInv, BS.Consistent;
    match e
    case StartNext => SteadyStart(site, s);
    case NftDone(report) => SteadyNft(site, s);
    case SyncDone =>
    case _ => SteadyQuiet(site, s, e);
  }

  /** The addition that an event completes, that is, whose promise it resolves. */
  function Completes(site: Site, s: State, e: Event): Option<seq<Element>> {
    match e
    case StartNext =>
      if s.phase == Idle && s.queue != [] && s.queue[0].AddElementsJob?
         && !(s.lastReconcileSucceeded && IsBypassActive(site, s.settings))
      then Some(s.queue[0].entries) else None
    case NftDone(_) => if s.phase.Adding? then Some(s.phase.entries) else None
    case _ => None
  }

  /**
   In a steady run the promise of a registration resolves only when all its addresses are in the
   kernel's set: no addition is skipped and none fails.
   */
  lemma CompletedIsInstalled(site: Site, host: Nft.Ruleset, now: int, es: seq<Event>, e: Event)
    requires Steady(es + [e]) && site.lanIface.Some?
    requires Completes(site, Reach(site, host, now, es), e).Some?
    requires !Reach(site, host, now, es).rejected
    ensures Addresses(Completes(site, Reach(site, host, now, es), e).value)
            <= InstalledElements(Reach(site, host, now, es + [e]).host)
  {
    assert Steady(es) by {
      forall k | 0 <= k < |es| ensures SteadyEvent(es[k]) {
        assert (es + [e])[k] == es[k];
      }
    }
    assert SteadyEvent(e) by {
      assert (es + [e])[|es|] == e;
    }
    SteadyAlways(site, host, now, es);
    KernelAlways(site, host, now, es);
    ReachStep(site, host, now, es, e);
    var s := Reach(site, host, now, es);
    if e.NftDone? {
      AddEffect(s.phase.entries, s.host, Succeeded);
    }
  }

  /** While bypass is active a registration is queued unless nothing in it can be bypassed. */
  lemma RegistrationIsQueued(site: Site, s: State, records: seq<BS.ARecord>)
    requires IsBypassActive(site, s.settings) && !s.rejected
    ensures var s' := OnAddBypass(site, s, records);
            && (s'.queue == s.queue <==> forall j :: 0 <= j < |records| ==> !BS.IsBypassableAddress(records[j].address))
            && (s'.queue != s.queue ==>
                  && s'.queue == s.queue + [AddElementsJob(BS.Added(records))]
                  && forall j :: 0 <= j < |records| && BS.IsBypassableAddress(records[j].address) ==>
                       records[j].address in Addresses(BS.Added(records)))
  {
    AddedMembers(records);
    assert |s.queue + [AddElementsJob(BS.Added(records))]| == |s.queue| + 1;
  }

  /** What one record contributes. */
  function AddedOne(r: BS.ARecord): seq<Element> {
    if BS.IsBypassableAddress(r.address) then [Element(r.address, BS.Timeout(r.ttl))] else []
  }

  lemma AddedOneMember(r: BS.ARecord)
    ensures |AddedOne(r)| == 0 <==> !BS.IsBypassableAddress(r.address)
    ensures BS.IsBypassableAddress(r.address) ==> r.address in Addresses(AddedOne(r))
  {
    hide BS.IsBypassableAddress, BS.Timeout;
    if BS.IsBypassableAddress(r.address) {
      assert AddedOne(r)[0] in AddedOne(r);
    }
  }

  lemma AddedSnoc(records: seq<BS.ARecord>)
    requires records != []
    ensures BS.Added(records) == BS.Added(records[..|records| - 1]) + AddedOne(records[|records| - 1])
  {
    hide BS.IsBypassableAddress, BS.Timeout;
  }

  lemma {:induction false} AddedMembers(records: seq<BS.ARecord>)
    ensures |BS.Added(records)| == 0
            <==> forall j :: 0 <= j < |records| ==> !BS.IsBypassableAddress(records[j].address)
    ensures forall j :: 0 <= j < |records| && BS.IsBypassableAddress(records[j].address) ==>
              records[j].address in Addresses(BS.Added(records))
  {
    hide BS.IsBypassableAddress, BS.Added, Addresses, AddedOne;
    if records == [] {
      assert BS.Added([]) == [] by {
        AddedNothing();
      }
    } else {
      var front, r := records[..|records| - 1], records[|records| - 1];
      AddedMembers(front);
      AddedSnoc(records);
      AddedOneMember(r);
      AddressesAppend(BS.Added(front), AddedOne(r));
      assert forall j :: 0 <= j < |front| ==> records[j] == front[j];
    }
  }

  lemma AddedNothing()
    ensures BS.Added([]) == []
  {
  }
}
