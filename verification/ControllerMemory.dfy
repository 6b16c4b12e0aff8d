/**
 The controller's memory of bypassed addresses over whole runs: what has been registered stays, with
 its latest deadline, and every rebuild carries it into the new table.
 */
module ControllerMemory {
  import opened Wrappers
  import opened Nft
  import opened Ruleset
  import opened GatewayController
  import opened ControllerSafety
  import opened ControllerAgreement
  import opened ControllerRequests
  import BS = BypassSet
  import Ipv4

  // ---------------------------------------------------------------- registrations, in terms of the run

  function Clock(now: int, es: seq<Event>): int {
    if es == [] then now
    else Clock(now, es[..|es| - 1]) + if es[|es| - 1].Tick? then es[|es| - 1].ms else 0
  }

  /** The deadline a record gets: its time to live, up to an hour, and a minute's grace, in milliseconds. */
  function DeadlineOf(clock: int, ttl: int): int {
    clock + 60_000 + if ttl <= 0 then 0 else if ttl >= 3600 then 3_600_000 else 1000 * ttl
  }

  /** The event empties the memory: a teardown's nft call ends, or a table without bypass is begun. */
  predicate Forgets(site: Site, s: State, e: Event) {
    || (e.NftDone? && s.phase.TearingDown?)
    || (StartsRebuild(s, e) && AskForTable(site, s.settings) && !Bypassing(s.settings))
  }

  /** Nothing has emptied the memory since event `k`. */
  ghost predicate KeptSince(site: Site, host: Nft.Ruleset, now: int, es: seq<Event>, k: nat) {
    forall l :: k < l < |es| ==> !Forgets(site, Reach(site, host, now, es[..l]), es[l])
  }

  /** Event `k` registered `a` with deadline `x`, and nothing has emptied the memory since. */
  ghost predicate Registered(site: Site, host: Nft.Ruleset, now: int, es: seq<Event>, k: nat, j: nat, a: string, x: int) {
    && k < |es| && es[k].AddBypass? && j < |es[k].records|
    && es[k].records[j].address == a && BS.IsBypassableAddress(a)
    && x == DeadlineOf(Clock(now, es[..k]), es[k].records[j].ttl)
    && KeptSince(site, host, now, es, k)
  }

  ghost predicate IsLatest(site: Site, host: Nft.Ruleset, now: int, es: seq<Event>, a: string, x: int) {
    && (exists k, j :: Registered(site, host, now, es, k, j, a, x))
    && (forall k, j, y :: Registered(site, host, now, es, k, j, a, y) ==> y <= x)
  }

  ghost predicate Unexpired(site: Site, host: Nft.Ruleset, now: int, es: seq<Event>, a: string) {
    exists k, j, x :: Registered(site, host, now, es, k, j, a, x) && x > Clock(now, es)
  }

  // ---------------------------------------------------------------- the memory as a history of its operations

  /** What one event means to the memory. */
  function OpOf(site: Site, s: State, e: Event): BS.Op {
    match e
    case AddBypass(records) => BS.Add(records)
    case Tick(ms) => BS.Tick(ms)
    case CountEntries => BS.Rebuild
    case _ =>
      if Forgets(site, s, e) then BS.Clear
      else if StartsRebuild(s, e) && AskForTable(site, s.settings) then BS.Rebuild
      else BS.Tick(0)
  }

  function History(site: Site, host: Nft.Ruleset, now: int, es: seq<Event>): (ops: seq<BS.Op>)
    ensures |ops| == |es|
  {
    if es == [] then []
    else History(site, host, now, es[..|es| - 1]) + [OpOf(site, Reach(site, host, now, es[..|es| - 1]), es[|es| - 1])]
  }

  lemma {:induction false} HistoryAt(site: Site, host: Nft.Ruleset, now: int, es: seq<Event>, k: nat)
    requires k <= |es|
    ensures History(site, host, now, es)[..k] == History(site, host, now, es[..k])
    ensures k < |es| ==> History(site, host, now, es)[k] == OpOf(site, Reach(site, host, now, es[..k]), es[k])
    decreases |es|
  {
    hide Reach, OpOf;
    if k == |es| {
      assert es[..k] == es;
      assert History(site, host, now, es)[..k] == History(site, host, now, es);
    } else {
      var front := es[..|es| - 1];
      HistoryAt(site, host, now, front, k);
      assert front[..k] == es[..k];
      if k < |front| {
        assert front[k] == es[k];
      }
    }
  }

  lemma StartMemory(site: Site, s: State)
    requires BS.Consistent(s.held)
    ensures StartRebuild(site, s).now == s.now
    ensures StartRebuild(site, s).held
            == if !AskForTable(site, s.settings) then s.held
               else if Bypassing(s.settings) then BS.Pruned(s.held, s.now) else BS.NOTHING_HELD
  {
    hide BS.Pruned, BS.LiveOf, InputOf, Launch;
    if NeedsTable(site, s.settings) {
      var s1 := s.(lastRead := Some((s.settings, s.vpnIface)));
      var entries := if BypassEnabled(s.settings) then BS.LiveOf(s.held, s.now) else [];
      var held := if BypassEnabled(s.settings) then BS.Pruned(s.held, s.now) else BS.NOTHING_HELD;
      LaunchHolds(s1, held, InputOf(site, s.settings, s.vpnIface, entries));
      LaunchClock(s1, held, InputOf(site, s.settings, s.vpnIface, entries));
    }
  }

  lemma LaunchClock(s: State, held: BS.Held, input: Input)
    ensures Launch(s, held, input).now == s.now
  {
    hide ValidInput;
  }

  lemma NftMemory(s: State, report: NftReport)
    ensures var s' := OnNftDone(s, report);
            s'.now == s.now && s'.held == if s.phase.TearingDown? then BS.NOTHING_HELD else s.held
  {
    hide AfterNft, ExitsZero, TakesEffect, GatewayScript, TeardownScript, AddScript;
  }

  lemma StartNextMemory(site: Site, s: State)
    requires BS.Consistent(s.held)
    ensures var s' := OnStartNext(site, s);
            && s'.now == s.now
            && s'.held == if !StartsRebuild(s, StartNext) || !AskForTable(site, s.settings) then s.held
                          else if Bypassing(s.settings) then BS.Pruned(s.held, s.now) else BS.NOTHING_HELD
  {
    hide StartRebuild, AskForTable, BS.Pruned, BS.Consistent;
    if StartsRebuild(s, StartNext) {
      StartMemory(site, s.(queue := s.queue[1..]));
    }
  }

  lemma MemoryStep(site: Site, s: State, e: Event)
    requires BS.Consistent(s.held)
    ensures var s' := Step(site, s, e);
            BS.Step(BS.Memory(s.held, s.now), OpOf(site, s, e)) == BS.Memory(s'.held, s'.now)
  {
    hide BS.Consistent, OnStartNext, OnNftDone, AskForTable, BS.AddAll, BS.Added, BS.Pruned;
    match e
    case StartNext => StartNextMemory(site, s);
    case NftDone(report) => NftMemory(s, report);
    case _ =>
  }

  lemma {:induction false} MemoryIsHistory(site: Site, host: Nft.Ruleset, now: int, es: seq<Event>)
    ensures var s := Reach(site, host, now, es);
            BS.Run(History(site, host, now, es), now) == BS.Memory(s.held, s.now)
    ensures Reach(site, host, now, es).now == Clock(now, es)
  {
    hide Step, OpOf, BS.Step, BS.Consistent;
    if es == [] {
      FreshMemory(host, now);
    } else {
      var front, e := es[..|es| - 1], es[|es| - 1];
      MemoryIsHistory(site, host, now, front);
      MemoryStep(site, Reach(site, host, now, front), e);
      ClockStep(site, Reach(site, host, now, front), e);
      var ops := History(site, host, now, es);
      assert ops[..|ops| - 1] == History(site, host, now, front);
    }
  }

  lemma FreshMemory(host: Nft.Ruleset, now: int)
    ensures BS.Run([], now) == BS.Memory(Init(host, now).held, now) && Init(host, now).now == now
  {
  }

  lemma ClockStep(site: Site, s: State, e: Event)
    requires BS.Consistent(s.held)
    ensures Step(site, s, e).now == s.now + if e.Tick? then e.ms else 0
  {
    hide BS.Consistent, StartRebuild, OnNftDone, BS.AddAll, BS.Added, BS.Pruned;
    match e
    case StartNext =>
      if s.phase == Idle && s.queue != [] && s.queue[0] == Rebuild {
        StartLeavesHost(site, s.(queue := s.queue[1..]));
      }
    case NftDone(report) => NftMemory(s, report);
    case _ =>
  }

  lemma ClearIsForgetting(site: Site, s: State, e: Event)
    ensures OpOf(site, s, e) == BS.Clear <==> Forgets(site, s, e)
    ensures OpOf(site, s, e).Add? <==> e.AddBypass?
    ensures e.AddBypass? ==> OpOf(site, s, e) == BS.Add(e.records)
  {
    hide AskForTable;
  }

  lemma TimeoutDeadline(clock: int, ttl: int)
    ensures clock + 1000 * BS.Timeout(ttl) == DeadlineOf(clock, ttl)
  {
  }

  ghost predicate NotCleared(ops: seq<BS.Op>, k: nat) {
    forall l :: k < l < |ops| ==> !ops[l].Clear?
  }

  lemma KeptAlike(site: Site, host: Nft.Ruleset, now: int, es: seq<Event>, k: nat)
    ensures KeptSince(site, host, now, es, k) <==> NotCleared(History(site, host, now, es), k)
  {
    hide Reach, OpOf, Forgets;
    var ops := History(site, host, now, es);
    forall l | k < l < |es| ensures ops[l].Clear? <==> Forgets(site, Reach(site, host, now, es[..l]), es[l]) {
      HistoryAt(site, host, now, es, l);
      ClearIsForgetting(site, Reach(site, host, now, es[..l]), es[l]);
    }
    if NotCleared(ops, k) {
      forall l | k < l < |es| ensures !Forgets(site, Reach(site, host, now, es[..l]), es[l]) {
        assert !ops[l].Clear?;
      }
    }
    if KeptSince(site, host, now, es, k) {
      forall l | k < l < |ops| ensures !ops[l].Clear? {
        assert !Forgets(site, Reach(site, host, now, es[..l]), es[l]);
      }
    }
  }

  /** Event `k` seen as an operation of the history. */
  lemma AdditionAlike(site: Site, host: Nft.Ruleset, now: int, es: seq<Event>, k: nat)
    requires k < |es|
    ensures var ops := History(site, host, now, es);
            && (es[k].AddBypass? <==> ops[k].Add?)
            && (es[k].AddBypass? ==> ops[k].records == es[k].records)
            && BS.Run(ops[..k], now).now == Clock(now, es[..k])
  {
    hide Reach, OpOf, Clock, BS.Run;
    HistoryAt(site, host, now, es, k);
    MemoryIsHistory(site, host, now, es[..k]);
    ClearIsForgetting(site, Reach(site, host, now, es[..k]), es[k]);
  }

  /** The parts of a registration, on either side. */
  lemma RegistersParts(ops: seq<BS.Op>, start: int, k: nat, j: nat, a: string, x: int)
    ensures BS.Registers(ops, start, k, j, a, x)
            <==> && k < |ops| && ops[k].Add? && j < |ops[k].records|
                 && ops[k].records[j].address == a && BS.IsBypassableAddress(a)
                 && x == DeadlineOf(BS.Run(ops[..k], start).now, ops[k].records[j].ttl)
                 && NotCleared(ops, k)
  {
    hide BS.IsBypassableAddress, BS.Run, BS.Timeout, DeadlineOf;
    if k < |ops| && ops[k].Add? && j < |ops[k].records| {
      TimeoutDeadline(BS.Run(ops[..k], start).now, ops[k].records[j].ttl);
    }
  }

  lemma RegisteredAlike(site: Site, host: Nft.Ruleset, now: int, es: seq<Event>, k: nat, j: nat, a: string, x: int)
    ensures Registered(site, host, now, es, k, j, a, x)
            <==> BS.Registers(History(site, host, now, es), now, k, j, a, x)
  {
    hide KeptSince, NotCleared, BS.Registers, BS.IsBypassableAddress, DeadlineOf, Clock, BS.Run;
    RegistersParts(History(site, host, now, es), now, k, j, a, x);
    if k < |es| {
      AdditionAlike(site, host, now, es, k);
      KeptAlike(site, host, now, es, k);
    }
  }

  // ---------------------------------------------------------------- theorems

  lemma LatestAlike(site: Site, host: Nft.Ruleset, now: int, es: seq<Event>, a: string, x: int)
    ensures IsLatest(site, host, now, es, a, x) <==> BS.IsLatestDeadline(History(site, host, now, es), now, a, x)
  {
    hide Registered, BS.Registers, Reach, History;
    forall k: nat, j: nat, y
      ensures Registered(site, host, now, es, k, j, a, y) <==> BS.Registers(History(site, host, now, es), now, k, j, a, y)
    {
      RegisteredAlike(site, host, now, es, k, j, a, y);
    }
  }

  ghost predicate UnexpiredIn(ops: seq<BS.Op>, start: int, a: string, clock: int) {
    exists k, j, x :: BS.Registers(ops, start, k, j, a, x) && x > clock
  }

  lemma UnexpiredAlike(site: Site, host: Nft.Ruleset, now: int, es: seq<Event>, a: string)
    ensures Unexpired(site, host, now, es, a) <==> UnexpiredIn(History(site, host, now, es), now, a, Clock(now, es))
  {
    hide Registered, BS.Registers, Reach;
    var ops, clock := History(site, host, now, es), Clock(now, es);
    if Unexpired(site, host, now, es, a) {
      var k: nat, j: nat, x :| Registered(site, host, now, es, k, j, a, x) && x > clock;
      RegisteredAlike(site, host, now, es, k, j, a, x);
      assert BS.Registers(ops, now, k, j, a, x);
    }
    if UnexpiredIn(ops, now, a, clock) {
      var k: nat, j: nat, x :| BS.Registers(ops, now, k, j, a, x) && x > clock;
      RegisteredAlike(site, host, now, es, k, j, a, x);
      assert Registered(site, host, now, es, k, j, a, x);
    }
  }

  /**
   At every moment of every run, a held address has the latest deadline registered for it since the
   memory was last emptied, and every address whose deadline is still ahead is held.
   */
  lemma HeldIsLatestRegistered(site: Site, host: Nft.Ruleset, now: int, es: seq<Event>, a: string)
    ensures var held := Reach(site, host, now, es).held.expiresAt;
            && (a in held ==> IsLatest(site, host, now, es, a, held[a]))
            && (Unexpired(site, host, now, es, a) ==> a in held)
  {
    hide Reach, History, IsLatest, Unexpired, BS.IsLatestDeadline, BS.Registers, BS.Run, Clock;
    var ops, held := History(site, host, now, es), Reach(site, host, now, es).held.expiresAt;
    MemoryIsHistory(site, host, now, es);
    BS.DeadlineIsLatest(ops, now, a);
    UnexpiredAlike(site, host, now, es, a);
    if a in held {
      LatestAlike(site, host, now, es, a, held[a]);
    }
  }

  lemma StartCarries(site: Site, s: State)
    requires BS.Consistent(s.held) && s.phase == Idle && StartRebuild(site, s).phase.Rebuilding?
    ensures AskForTable(site, s.settings)
    ensures var input := StartRebuild(site, s).phase.input;
            && (input.bypass.Some? <==> Bypassing(s.settings))
            && (input.bypass.Some? ==> input.bypass.value.entries == BS.LiveOf(s.held, s.now))
  {
    hide BS.Pruned, BS.LiveOf, Launch;
    if NeedsTable(site, s.settings) {
      var s1 := s.(lastRead := Some((s.settings, s.vpnIface)));
      var entries := if BypassEnabled(s.settings) then BS.LiveOf(s.held, s.now) else [];
      var held := if BypassEnabled(s.settings) then BS.Pruned(s.held, s.now) else BS.NOTHING_HELD;
      LaunchPhase(s1, held, InputOf(site, s.settings, s.vpnIface, entries));
    }
  }

  /**
   A rebuild with bypass on carries over exactly the addresses whose deadline is still ahead, each with a
   timeout of at least a second that overshoots its latest deadline by less than one.
   */
  lemma RebuildCarriesOver(site: Site, host: Nft.Ruleset, now: int, es: seq<Event>, a: string)
    requires var s := Reach(site, host, now, es);
             StartsRebuild(s, StartNext) && Step(site, s, StartNext).phase.Rebuilding?
    ensures var input := Step(site, Reach(site, host, now, es), StartNext).phase.input;
            && (input.bypass.Some? <==> Bypassing(LastSettings(es)))
            && (input.bypass.Some? ==>
                  && (a in Addresses(input.bypass.value.entries) <==> Unexpired(site, host, now, es, a))
                  && (forall e :: e in input.bypass.value.entries && e.address == a ==>
                        exists x :: && IsLatest(site, host, now, es, a, x) && e.timeoutSeconds >= 1
                                    && x <= Clock(now, es) + 1000 * e.timeoutSeconds < x + 1000))
  {
    hide Reach, History, IsLatest, Unexpired, BS.IsLatestDeadline, BS.Registers, BS.Run, BS.LiveOf, StartRebuild, LastSettings, EverAsked, LastRebuildSucceeded, Clock, AskForTable;
    var s := Reach(site, host, now, es);
    StartCarries(site, s.(queue := s.queue[1..]));
    RemembersAlways(site, host, now, es);
    MemoryIsHistory(site, host, now, es);
    UnexpiredAlike(site, host, now, es, a);
    var ops := History(site, host, now, es);
    BS.RebuildTimeoutsDoNotDrift(ops, now, a);
    var input := Step(site, s, StartNext).phase.input;
    if input.bypass.Some? {
      forall e | e in input.bypass.value.entries && e.address == a
        ensures exists x :: && IsLatest(site, host, now, es, a, x) && e.timeoutSeconds >= 1
                            && x <= Clock(now, es) + 1000 * e.timeoutSeconds < x + 1000
      {
        var x :| && BS.IsLatestDeadline(ops, now, a, x) && e.timeoutSeconds >= 1
                 && x <= s.now + 1000 * e.timeoutSeconds < x + 1000;
        LatestAlike(site, host, now, es, a, x);
      }
    }
  }

  /**
   Registered addresses stay installed: at rest with bypass asked for, the last rebuild successful and no
   addition failed since, every address whose deadline is still ahead is in the kernel's set, through
   however many rebuilds for other reasons.
   */
  lemma RegisteredIsInstalled(site: Site, host: Nft.Ruleset, now: int, es: seq<Event>, a: string)
    requires var s := Reach(site, host, now, es); QueueIdle(s) && !s.addFailed
    requires site.lanIface.Some? && Bypassing(LastSettings(es)) && LastRebuildSucceeded(site, host, now, es)
    requires Unexpired(site, host, now, es, a)
    ensures a in InstalledElements(Reach(site, host, now, es).host)
  {
    hide Reach, Unexpired, InstalledElements, LastSettings, EverAsked, LastRebuildSucceeded, IsLatest;
    RemembersAlways(site, host, now, es);
    HeldIsLatestRegistered(site, host, now, es, a);
    HeldIsInstalled(site, host, now, es);
    assert a in Reach(site, host, now, es).held.expiresAt.Keys;
  }

  /** Which addresses can be bypassed: not 0.x.x.x, not loopback, not link-local. */
  lemma BypassableExactly(o: Ipv4.Octets)
    ensures BS.IsBypassableAddress(Ipv4.RenderIpv4(o)) <==> o[0] != 0 && o[0] != 127 && (o[0] != 169 || o[1] != 254)
  {
    hide Ipv4.ParseIpv4, Ipv4.RenderIpv4;
    Ipv4.ParseRender(o);
  }
}
