/**
 When a rebuild's script cannot be built the promise queue is rejected, and a rejected queue runs
 nothing ever again. This module says exactly when that happens and what it costs, and where the
 reported status stops describing the kernel.
 */
module ControllerRejection {
  import opened Wrappers
  import opened Nft
  import opened Ruleset
  import opened GatewayController
  import opened ControllerSafety
  import opened ControllerIdle
  import opened ForwardVerdict
  import BS = BypassSet

  // ---------------------------------------------------------------- held addresses are always valid

  ghost predicate HeldValid(s: State) {
    forall a :: a in s.held.expiresAt ==> BS.IsBypassableAddress(a)
  }

  lemma {:induction false} AddAllKeepsValid(h: BS.Held, now: int, records: seq<BS.ARecord>)
    requires forall a :: a in h.expiresAt ==> BS.IsBypassableAddress(a)
    ensures forall a :: a in BS.AddAll(h, now, records).expiresAt ==> BS.IsBypassableAddress(a)
  {
    if records != [] {
      AddAllKeepsValid(h, now, records[..|records| - 1]);
    }
  }

  lemma HeldStartValid(site: Site, s: State)
    requires BS.Consistent(s.held) && HeldValid(s)
    ensures HeldValid(StartRebuild(site, s))
  {
    hide BS.IsBypassableAddress, BS.LiveOf, InputOf, Launch;
    if NeedsTable(site, s.settings) {
      var s1 := s.(lastRead := Some((s.settings, s.vpnIface)));
      var entries := if BypassEnabled(s.settings) then BS.LiveOf(s.held, s.now) else [];
      var held := if BypassEnabled(s.settings) then BS.Pruned(s.held, s.now) else BS.NOTHING_HELD;
      LaunchHolds(s1, held, InputOf(site, s.settings, s.vpnIface, entries));
    }
  }

  lemma HeldCountedValid(site: Site, s: State)
    requires BS.Consistent(s.held) && HeldValid(s)
    ensures HeldValid(Step(site, s, CountEntries))
  {
    hide BS.IsBypassableAddress, BS.Consistent;
  }

  lemma HeldStepValid(site: Site, s: State, e: Event)
    requires BS.Consistent(s.held) && HeldValid(s)
    ensures HeldValid(Step(site, s, e))
  {
    hide BS.IsBypassableAddress, BS.Consistent, StartRebuild, AfterNft, ExitsZero, TakesEffect, BS.Added, BS.AddAll, BS.Pruned;
    match e
    case AddBypass(records) => AddAllKeepsValid(s.held, s.now, records);
    case StartNext =>
      if s.queue != [] {
        HeldStartValid(site, s.(queue := s.queue[1..]));
      }
    case CountEntries => HeldCountedValid(site, s);
    case _ =>
  }

  lemma {:induction false} HeldAlwaysValid(site: Site, host: Nft.Ruleset, now: int, es: seq<Event>)
    ensures HeldValid(Reach(site, host, now, es))
  {
    if es != [] {
      hide HeldValid, Step;
      HeldAlwaysValid(site, host, now, es[..|es| - 1]);
      HeldStepValid(site, Reach(site, host, now, es[..|es| - 1]), es[|es| - 1]);
    }
  }

  lemma LiveEntriesValid(h: BS.Held, now: int)
    requires BS.Consistent(h) && forall a :: a in h.expiresAt ==> BS.IsBypassableAddress(a)
    ensures forall k :: 0 <= k < |BS.LiveOf(h, now)| ==> IsValidEntry(BS.LiveOf(h, now)[k])
  {
    var entries := BS.LiveOf(h, now);
    forall k | 0 <= k < |entries| ensures IsValidEntry(entries[k]) {
      assert entries[k] in entries;
      BS.LiveEntriesFromOrder(h.order, h.expiresAt, now, entries[k]);
      assert BS.IsBypassableAddress(entries[k].address);
    }
  }

  // ---------------------------------------------------------------- exactly when a rebuild is rejected

  lemma EntriesDoNotMatter(site: Site, settings: Settings, vpn: Option<string>, entries: seq<Element>)
    requires site.lanIface.Some?
    requires forall k :: 0 <= k < |entries| ==> IsValidEntry(entries[k])
    ensures ValidInput(InputOf(site, settings, vpn, entries)) <==> ValidInput(InputOf(site, settings, vpn, []))
  {
    hide IsValidEntry, IsValidInterfaceName, ValidRedirect;
  }

  /**
   A rebuild rejects the queue exactly when a table is called for and the names, uid or redirect it
   reads are malformed. What is held in memory never causes it.
   */
  lemma RejectedExactly(site: Site, host: Nft.Ruleset, now: int, es: seq<Event>)
    requires var s := Reach(site, host, now, es);
             s.phase == Idle && s.queue != [] && s.queue[0] == Rebuild && !s.rejected
    ensures var s := Reach(site, host, now, es);
            OnStartNext(site, s).rejected
            <==> NeedsTable(site, s.settings) && !ValidInput(InputOf(site, s.settings, s.vpnIface, []))
  {
    var s := Reach(site, host, now, es);
    HeldAlwaysValid(site, host, now, es);
    if NeedsTable(site, s.settings) {
      LiveEntriesValid(s.held, s.now);
      var entries := if BypassEnabled(s.settings) then BS.LiveOf(s.held, s.now) else [];
      EntriesDoNotMatter(site, s.settings, s.vpnIface, entries);
      hide ValidInput;
    }
  }

  // ---------------------------------------------------------------- rejection is final

  lemma RejectedStep(site: Site, s: State, e: Event)
    requires BS.Consistent(s.held)
    requires s.rejected && s.queue == [] && s.phase == Idle
    ensures var s' := Step(site, s, e);
            && s'.rejected && s'.queue == [] && s'.phase == Idle && s'.host == s.host
            && s'.lastReconcileSucceeded == s.lastReconcileSucceeded
  {
    hide BS.Consistent, BS.AddAll, BS.Added;
  }

  ghost predicate RejectedShape(s: State) {
    s.rejected ==> s.queue == [] && s.phase == Idle
  }

  lemma RejectedShapeStep(site: Site, s: State, e: Event)
    requires BS.Consistent(s.held) && RejectedShape(s)
    ensures RejectedShape(Step(site, s, e))
  {
    hide BS.Consistent, BS.AddAll, BS.Added, StartRebuild;
    if s.rejected {
      RejectedStep(site, s, e);
    } else if e.StartNext? && s.phase == Idle && s.queue != [] {
      StartPhase(site, s.(queue := s.queue[1..]));
      StartRejects(site, s.(queue := s.queue[1..]));
    }
  }

  lemma StartRejects(site: Site, s: State)
    requires BS.Consistent(s.held) && s.phase == Idle && !s.rejected
    ensures StartRebuild(site, s).rejected ==> StartRebuild(site, s).phase == Idle
  {
    hide ValidInput, BS.Consistent;
  }

  lemma {:induction false} RejectedShapeAlways(site: Site, host: Nft.Ruleset, now: int, es: seq<Event>)
    ensures RejectedShape(Reach(site, host, now, es))
  {
    if es != [] {
      hide RejectedShape, Step;
      RejectedShapeAlways(site, host, now, es[..|es| - 1]);
      RejectedShapeStep(site, Reach(site, host, now, es[..|es| - 1]), es[|es| - 1]);
    }
  }

  /** Once rejected, no later event of any kind changes the kernel's tables again. */
  lemma {:induction false} RejectionIsFinal(site: Site, host: Nft.Ruleset, now: int, es: seq<Event>, n: nat)
    requires n <= |es| && Reach(site, host, now, es[..n]).rejected
    ensures var s := Reach(site, host, now, es);
            s.rejected && s.host == Reach(site, host, now, es[..n]).host
    decreases |es|
  {
    if n == |es| {
      assert es[..n] == es;
    } else {
      var front := es[..|es| - 1];
      assert front[..n] == es[..n];
      RejectionIsFinal(site, host, now, front, n);
      RejectedShapeAlways(site, host, now, front);
      RejectedStep(site, Reach(site, host, now, front), es[|es| - 1]);
    }
  }

  // ---------------------------------------------------------------- where the status misleads

  const LAN_SITE := Site(Some("eth0"), Some("eth1"), None)
  const NO_DNS := Some(DnsSettings(false, None))
  const OPEN := Settings(true, false, NO_DNS)
  const CLOSED := Settings(true, true, NO_DNS)
  const OFF := Settings(false, true, NO_DNS)

  /** A packet from the LAN, bound straight for the WAN, with no permission of its own. */
  const DIRECT := Packet("eth0", "eth1", "", "", Tcp, 443, None, false, false, false, 0, 0)

  function FailOpenInput(): Input {
    InputOf(LAN_SITE, OPEN, None, [])
  }

  lemma FailOpenForwards(host: Nft.Ruleset)
    ensures ValidInput(FailOpenInput())
    ensures Forwarded(TableOf(FailOpenInput()), DIRECT)
  {
    var i := FailOpenInput();
    assert BuiltFrom(TableOf(i), i);
    assert MayForward(i, DIRECT);
    assert ValidInput(i);
    hide BuiltFrom, TableOf, MayForward, ValidInput, FailOpenInput, Forwarded;
    ForwardExactly(TableOf(i), i, DIRECT);
  }

  const OPENING := [ApplySettings(OPEN), StartNext, NftDone(Succeeded), SyncDone]

  function Opened(host: Nft.Ruleset, now: int): State {
    Init(host, now).(settings := OPEN, hasReconciled := true, lastReconcileSucceeded := true,
                     host := host[TABLE := TableOf(FailOpenInput())],
                     lastRead := Some((OPEN, None)), installed := Some(FailOpenInput()))
  }

  lemma StartWithoutBypass(site: Site, s: State)
    requires BS.Consistent(s.held) && NeedsTable(site, s.settings) && !BypassEnabled(s.settings)
    requires ValidInput(InputOf(site, s.settings, s.vpnIface, []))
    ensures StartRebuild(site, s)
            == s.(lastRead := Some((s.settings, s.vpnIface)), held := BS.NOTHING_HELD,
                  phase := Rebuilding(InputOf(site, s.settings, s.vpnIface, [])))
  {
    hide ValidInput, InputOf, BS.Consistent;
  }

  lemma OpeningStarts(host: Nft.Ruleset, now: int)
    ensures var s := Step(LAN_SITE, Step(LAN_SITE, Init(host, now), ApplySettings(OPEN)), StartNext);
            s == Init(host, now).(settings := OPEN, hasReconciled := true, phase := Rebuilding(FailOpenInput()),
                                  lastRead := Some((OPEN, None)))
  {
    FailOpenForwards(host);
    hide ValidInput, InputOf, StartRebuild;
    var s1 := Step(LAN_SITE, Init(host, now), ApplySettings(OPEN));
    assert s1.queue == [] + [Rebuild];
    assert s1.queue[1..] == [];
    StartWithoutBypass(LAN_SITE, s1.(queue := []));
  }

  lemma OpeningFinishes(s: State)
    requires s.phase == Rebuilding(FailOpenInput()) && BS.Consistent(s.held) && !s.addFailed
    ensures Step(LAN_SITE, Step(LAN_SITE, s, NftDone(Succeeded)), SyncDone)
            == s.(lastReconcileSucceeded := true, phase := Idle, installed := Some(FailOpenInput()),
                  host := s.host[TABLE := TableOf(FailOpenInput())])
  {
    RebuildEffect(FailOpenInput(), s.host, Succeeded);
    hide AfterNft, ExitsZero, TakesEffect, GatewayScript, TableOf, FailOpenInput;
  }

  /** Fail-open settings, applied and in force. */
  lemma OpeningReaches(host: Nft.Ruleset, now: int)
    ensures Reach(LAN_SITE, host, now, OPENING) == Opened(host, now)
  {
    var e1, e2, e3, e4 := ApplySettings(OPEN), StartNext, NftDone(Succeeded), SyncDone;
    assert [] + [e1] == [e1] && [e1] + [e2] == [e1, e2] && [e1, e2] + [e3] == [e1, e2, e3];
    assert [e1, e2, e3] + [e4] == OPENING;
    hide Step, TableOf, FailOpenInput;
    ReachStep(LAN_SITE, host, now, [], e1);
    ReachStep(LAN_SITE, host, now, [e1], e2);
    ReachStep(LAN_SITE, host, now, [e1, e2], e3);
    ReachStep(LAN_SITE, host, now, [e1, e2, e3], e4);
    OpeningStarts(host, now);
    OpeningFinishes(Reach(LAN_SITE, host, now, [e1, e2]));
  }

  /**
   The status is not exact while a rebuild is queued: right after the kill switch is turned on it
   reports blocking, and the kernel still forwards the LAN's traffic straight to the WAN.
   */
  lemma StatusRunsAheadOfRebuild(host: Nft.Ruleset, now: int)
    ensures var s := Reach(LAN_SITE, host, now, OPENING + [ApplySettings(CLOSED)]);
            && StatusOf(LAN_SITE, s).killSwitchBlocking
            && TABLE in s.host && Forwarded(s.host[TABLE], DIRECT)
  {
    OpeningReaches(host, now);
    FailOpenForwards(host);
    ReachStep(LAN_SITE, host, now, OPENING, ApplySettings(CLOSED));
    hide TableOf, Forwarded;
  }

  /**
   Nor is it exact once the queue is rejected: one tunnel name that Linux allows and the builder does not, and from then on the
   controller reports blocking over a kernel that fails open, with nothing left in the queue.
   */
  lemma StatusAfterRejection(host: Nft.Ruleset, now: int)
    ensures var s := Reach(LAN_SITE, host, now, REJECTING);
            && s.queue == [] && s.phase == Idle
            && StatusOf(LAN_SITE, s).killSwitchBlocking
            && TABLE in s.host && Forwarded(s.host[TABLE], DIRECT)
  {
    OpeningReaches(host, now);
    FailOpenForwards(host);
    RejectingRun(host, now);
    hide ValidInput, TableOf, Forwarded, FailOpenInput, Step;
  }

  /** A name Linux allows and the builder does not. */
  const BAD_TUNNEL := Some("wg+1")

  const REJECTING := OPENING + [UpdateVpnInterface(BAD_TUNNEL)] + [StartNext]
                     + [UpdateVpnInterface(None)] + [ApplySettings(CLOSED)]

  lemma RejectingStart(s: State)
    requires s.phase == Idle && s.queue == [Rebuild] && s.settings == OPEN && s.vpnIface == BAD_TUNNEL
    requires BS.Consistent(s.held)
    ensures OnStartNext(LAN_SITE, s)
            == s.(lastRead := Some((OPEN, BAD_TUNNEL)), held := BS.NOTHING_HELD, rejected := true, queue := [])
  {
    assert s.queue[1..] == [];
    assert !IsValidInterfaceName("wg+1") by {
      assert "wg+1"[2] == '+';
    }
    var input := InputOf(LAN_SITE, OPEN, BAD_TUNNEL, []);
    assert !ValidInput(input);
    hide ValidInput, BS.Pruned, BS.LiveOf;
    assert Launch(s.(lastRead := Some((OPEN, BAD_TUNNEL)), queue := []), BS.NOTHING_HELD, input)
        == s.(lastRead := Some((OPEN, BAD_TUNNEL)), held := BS.NOTHING_HELD, rejected := true, queue := []);
    hide InputOf, Launch, BS.Consistent;
  }

  lemma RejectingRun(host: Nft.Ruleset, now: int)
    ensures Reach(LAN_SITE, host, now, REJECTING)
            == Opened(host, now).(settings := CLOSED, lastRead := Some((OPEN, BAD_TUNNEL)), rejected := true)
  {
    var es1 := OPENING + [UpdateVpnInterface(BAD_TUNNEL)];
    var es2 := es1 + [StartNext];
    var es3 := es2 + [UpdateVpnInterface(None)];
    OpeningReaches(host, now);
    hide Step, Opened, TableOf, FailOpenInput, OnStartNext;
    ReachStep(LAN_SITE, host, now, OPENING, UpdateVpnInterface(BAD_TUNNEL));
    ReachStep(LAN_SITE, host, now, es1, StartNext);
    ReachStep(LAN_SITE, host, now, es2, UpdateVpnInterface(None));
    ReachStep(LAN_SITE, host, now, es3, ApplySettings(CLOSED));
    var s0 := Opened(host, now);
    var s1 := s0.(vpnIface := BAD_TUNNEL, queue := [Rebuild]);
    var s2 := s1.(lastRead := Some((OPEN, BAD_TUNNEL)), held := BS.NOTHING_HELD, rejected := true, queue := []);
    var s3 := s2.(vpnIface := None);
    RejectingRequests(host, now, s1, s2, s3);
    RejectingStart(s1) by {
      OpenedShape(host, now);
    }
    StepIsStart(s1);
  }

  lemma StepIsStart(s: State)
    requires BS.Consistent(s.held)
    ensures Step(LAN_SITE, s, StartNext) == OnStartNext(LAN_SITE, s)
  {
  }

  lemma OpenedShape(host: Nft.Ruleset, now: int)
    ensures var s := Opened(host, now);
            && s.phase == Idle && s.queue == [] && s.settings == OPEN && s.vpnIface == None && s.hasReconciled
            && s.lastReconcileSucceeded && !s.rejected && s.held == BS.NOTHING_HELD && BS.Consistent(s.held)
  {
    hide TableOf, FailOpenInput;
  }

  lemma RejectingRequests(host: Nft.Ruleset, now: int, s1: State, s2: State, s3: State)
    requires var s0 := Opened(host, now);
             && s1 == s0.(vpnIface := BAD_TUNNEL, queue := [Rebuild])
             && s2 == s1.(lastRead := Some((OPEN, BAD_TUNNEL)), held := BS.NOTHING_HELD, rejected := true, queue := [])
             && s3 == s2.(vpnIface := None)
    ensures BS.Consistent(s1.held)
    ensures BS.Consistent(Opened(host, now).held)
    ensures Step(LAN_SITE, Opened(host, now), UpdateVpnInterface(BAD_TUNNEL)) == s1
    ensures Step(LAN_SITE, s2, UpdateVpnInterface(None)) == s3
    ensures Step(LAN_SITE, s3, ApplySettings(CLOSED))
            == Opened(host, now).(settings := CLOSED, lastRead := Some((OPEN, BAD_TUNNEL)), rejected := true)
  {
    OpenedShape(host, now);
    hide Opened, OnStartNext, OnNftDone;
    assert [] + [Rebuild] == [Rebuild];
    assert BAD_TUNNEL != None;
    assert OPEN != CLOSED;
  }

  const FAILED_TEARDOWN := OPENING + [ApplySettings(OFF)] + [StartNext] + [NftDone(FailedWithoutEffect)] + [SyncDone]

  /**
   Nor is "stopped" the truth after a teardown whose nft call failed: the controller is at rest and
   content, the old table is still there, and the same settings sent again change nothing.
   */
  lemma StoppedOverLeftTable(host: Nft.Ruleset, now: int)
    ensures var s := Reach(LAN_SITE, host, now, FAILED_TEARDOWN);
            && QueueIdle(s) && s.lastReconcileSucceeded
            && StatusOf(LAN_SITE, s).state == Stopped
            && TABLE in s.host && s.host[TABLE] == TableOf(FailOpenInput())
            && Reach(LAN_SITE, host, now, FAILED_TEARDOWN + [ApplySettings(OFF)]) == s
  {
    var es1 := OPENING + [ApplySettings(OFF)];
    var es2 := es1 + [StartNext];
    var es3 := es2 + [NftDone(FailedWithoutEffect)];
    hide Opened, TableOf, FailOpenInput, OnStartNext, OnNftDone, OnSyncDone, OnApplySettings, OnUpdateVpnInterface, OnAddBypass, Reach;
    ReachStep(LAN_SITE, host, now, OPENING, ApplySettings(OFF));
    ReachStep(LAN_SITE, host, now, es1, StartNext);
    ReachStep(LAN_SITE, host, now, es2, NftDone(FailedWithoutEffect));
    ReachStep(LAN_SITE, host, now, es3, SyncDone);
    ReachStep(LAN_SITE, host, now, FAILED_TEARDOWN, ApplySettings(OFF));
    OpeningReaches(host, now);
    OpenedShape(host, now);
    OpenedHost(host, now);
    FailedTeardownIsForgotten(LAN_SITE, Opened(host, now), OFF);
    OffIsReportedStopped(LAN_SITE, Opened(host, now), OFF);
  }

  lemma OpenedHost(host: Nft.Ruleset, now: int)
    ensures var s := Opened(host, now); TABLE in s.host && s.host[TABLE] == TableOf(FailOpenInput())
  {
    hide TableOf, FailOpenInput;
  }
}
