/**
 The supervisor's variables as facts about the run, and what follows: when settings act, how crashes are
 counted, what is reported, and how long restarts wait. A crash is counted by the clock at the end of a
 process and at the event that started it.
 */
module SupervisorCounts {
  import opened Wrappers
  import opened ExplicitProxy
  import opened SupervisorRuns
  import Ipv4

  // ---------------------------------------------------------------- the run so far

  function Clock(now: int, es: seq<Event>): int {
    if es == [] then now
    else Clock(now, es[..|es| - 1]) + if es[|es| - 1].Tick? then es[|es| - 1].ms else 0
  }

  function LastSettings(es: seq<Event>): Settings {
    if es == [] then INITIAL_SETTINGS
    else if es[|es| - 1].ApplySettings? then es[|es| - 1].settings
    else LastSettings(es[..|es| - 1])
  }

  predicate EverApplied(es: seq<Event>) {
    es != [] && (es[|es| - 1].ApplySettings? || EverApplied(es[..|es| - 1]))
  }

  /** The settings can be served: the proxy is wanted and somebody may use it. */
  predicate Servable(settings: Settings) { settings.enabled && settings.allowedCidrs != [] }

  /** The last settings that acted wanted a configuration that could not be built or written. */
  predicate Broken(o: Options, es: seq<Event>) {
    es != [] &&
    var front := es[..|es| - 1];
    match es[|es| - 1]
    case ApplySettings(settings, writable) =>
      && !(EverApplied(front) && !Broken(o, front) && settings == LastSettings(front))
      && Servable(settings) && (TextOf(o, settings).None? || !writable)
    case _ => Broken(o, front)
  }

  /** The settings are those in force, and they are in force. */
  predicate Repeats(o: Options, es: seq<Event>, settings: Settings) {
    EverApplied(es) && !Broken(o, es) && settings == LastSettings(es)
  }

  /** The clock when process `c` was started. */
  function BirthClock(o: Options, now: int, es: seq<Event>, c: nat): int {
    if es == [] then now
    else if c >= Reach(o, now, es[..|es| - 1]).host.nextChild then Clock(now, es[..|es| - 1])
    else BirthClock(o, now, es[..|es| - 1], c)
  }

  /** A process is running whose time to be called stable has not come since it was started. */
  predicate AwaitsStability(o: Options, now: int, es: seq<Event>) {
    es != [] &&
    var front := es[..|es| - 1];
    var before, after := Reach(o, now, front).host, Reach(o, now, es).host;
    || after.nextChild > before.nextChild
    || (!es[|es| - 1].StableFires? && after.alive != {} && AwaitsStability(o, now, front))
  }

  ghost predicate Remembers(o: Options, now: int, es: seq<Event>) {
    var s := Reach(o, now, es);
    && s.settings == LastSettings(es) && s.hasApplied == EverApplied(es) && s.configFailed == Broken(o, es)
    && s.host.now == Clock(now, es)
    && (s.child.Some? ==> s.childStartedAt == BirthClock(o, now, es, s.child.value))
    && (s.stableTimer <==> AwaitsStability(o, now, es))
  }

  lemma ServableIsRunnable(settings: Settings)
    ensures IsRunnable(settings) <==> Servable(settings)
  {
  }

  /** How one event changes the variables that settings touch. */
  lemma SettingsStep(o: Options, s: State, e: Event)
    ensures var s' := Step(o, s, e);
            && s'.settings == (if e.ApplySettings? then e.settings else s.settings)
            && (s'.hasApplied <==> s.hasApplied || e.ApplySettings?)
            && (s'.configFailed
                <==> if e.ApplySettings? && !(s.hasApplied && !s.configFailed && e.settings == s.settings)
                     then Servable(e.settings) && (TextOf(o, e.settings).None? || !e.writable)
                     else s.configFailed)
            && s'.host.now == s.host.now + (if e.Tick? then e.ms else 0)
  {
    hide TextOf, Backoff;
  }

  /** How one event changes what is known of the running process. */
  lemma ProcessStep(o: Options, s: State, e: Event)
    requires OneChild(s) && (s.stableTimer ==> s.child.Some?) && (s.restartTimer.Some? ==> s.child.None?)
    ensures var s' := Step(o, s, e);
            && s.host.nextChild <= s'.host.nextChild <= s.host.nextChild + 1
            && (s'.child.Some? ==>
                  if s'.child.value >= s.host.nextChild then s'.childStartedAt == s.host.now
                  else s'.child == s.child && s'.childStartedAt == s.childStartedAt)
            && (s'.host.nextChild > s.host.nextChild ==> s'.stableTimer)
            && (s'.host.nextChild == s.host.nextChild ==>
                  (s'.stableTimer <==> !e.StableFires? && s'.host.alive != {} && s.stableTimer))
  {
    hide TextOf, IsRunnable, Backoff;
    OneChildStep(o, s, e);
    var s' := Step(o, s, e);
    assert s'.child.Some? <==> s'.host.alive != {} by {
      assert s'.child.Some? ==> s'.child.value in s'.host.alive;
    }
  }

  lemma {:induction false} RemembersAlways(o: Options, now: int, es: seq<Event>)
    ensures Remembers(o, now, es)
  {
    if es != [] {
      hide Step, OneChild, TimersFit, ConfigFits, Ending, TextOf;
      var front, e := es[..|es| - 1], es[|es| - 1];
      RemembersAlways(o, now, front);
      InvAlways(o, now, front);
      TimersNeedNoChild(o, Reach(o, now, front));
      StableNeedsChild(o, Reach(o, now, front));
      SettingsStep(o, Reach(o, now, front), e);
      ProcessStep(o, Reach(o, now, front), e);
    }
  }

  lemma StableNeedsChild(o: Options, s: State)
    requires TimersFit(o, s)
    ensures s.stableTimer ==> s.child.Some?
  {
  }

  // ---------------------------------------------------------------- when settings act

  /** Settings sent again leave everything as it is, a running process in particular. */
  lemma RepeatedSettingsDoNothing(o: Options, now: int, es: seq<Event>, settings: Settings, writable: bool)
    requires Repeats(o, es, settings)
    ensures Reach(o, now, es + [ApplySettings(settings, writable)]) == Reach(o, now, es)
  {
    hide Reach, Broken, EverApplied, LastSettings;
    RemembersAlways(o, now, es);
    ReachStep(o, now, es, ApplySettings(settings, writable));
  }

  /**
   All other settings act: a running process is told to end, and when none is running one is started,
   from the text these settings call for, exactly if they can be served and the text built and written.
   */
  lemma NewSettingsAct(o: Options, now: int, es: seq<Event>, settings: Settings, writable: bool)
    requires !Repeats(o, es, settings)
    ensures var before, after := Reach(o, now, es).host, Reach(o, now, es + [ApplySettings(settings, writable)]).host;
            && (forall c :: c in before.alive ==> after.alive == before.alive && after.signals == before.signals + [SigTerm(c)])
            && (before.alive == {} ==>
                  if Servable(settings) && TextOf(o, settings).Some? && writable
                  then after.alive == {before.nextChild} && before.nextChild in after.startedFrom
                       && after.startedFrom[before.nextChild] == TextOf(o, settings)
                  else after.alive == {})
  {
    hide Reach, Broken, EverApplied, LastSettings, TextOf, Backoff, TimersFit, ConfigFits, Ending;
    RemembersAlways(o, now, es);
    InvAlways(o, now, es);
    ServableIsRunnable(settings);
    ReachStep(o, now, es, ApplySettings(settings, writable));
  }

  // ---------------------------------------------------------------- counting crashes

  /** What one event means for the crash history. */
  datatype Mark = Nothing | Fresh | Crash | LateCrash

  /**
   From the run alone: settings that act and the end of the wait for stability are fresh starts; the end
   of a running process that was not told to end is a crash, a late one if it had run for long enough.
   */
  function MarkOf(o: Options, now: int, es: seq<Event>, e: Event): Mark {
    match e
    case ApplySettings(settings, _) => if Repeats(o, es, settings) then Nothing else Fresh
    case StableFires => if AwaitsStability(o, now, es) then Fresh else Nothing
    case Terminated(c) =>
      var h := Reach(o, now, es).host;
      if c !in h.alive || SigTerm(c) in h.signals then Nothing
      else if Clock(now, es) - BirthClock(o, now, es, c) >= o.stableUptimeMs then LateCrash
      else Crash
    case _ => Nothing
  }

  function Marks(o: Options, now: int, es: seq<Event>): (marks: seq<Mark>)
    ensures |marks| == |es|
  {
    if es == [] then []
    else Marks(o, now, es[..|es| - 1]) + [MarkOf(o, now, es[..|es| - 1], es[|es| - 1])]
  }

  function Crashes(marks: seq<Mark>): nat {
    if marks == [] then 0
    else Crashes(marks[..|marks| - 1]) + if marks[|marks| - 1] in {Crash, LateCrash} then 1 else 0
  }

  /** Where the current streak begins: after the last fresh start, or at the crash of a stable process. */
  ghost predicate BeginsStreak(marks: seq<Mark>, n: nat) {
    && n <= |marks|
    && (n == 0 || marks[n - 1] == Fresh || (n < |marks| && marks[n] == LateCrash))
    && (forall k :: n <= k < |marks| ==> marks[k] != Fresh)
    && (forall k :: n < k < |marks| ==> marks[k] != LateCrash)
  }

  /** What the controller does to its counters. */
  lemma CountersStep(o: Options, s: State, e: Event)
    ensures var s' := Step(o, s, e);
            match e
            case ApplySettings(settings, _) =>
              && s'.restartCount == s.restartCount
              && s'.consecutiveFailures == (if s.hasApplied && !s.configFailed && settings == s.settings then s.consecutiveFailures else 0)
            case StableFires =>
              s'.restartCount == s.restartCount && s'.consecutiveFailures == (if s.stableTimer then 0 else s.consecutiveFailures)
            case Terminated(c) =>
              if s.child != Some(c) || c in s.expectedExits
              then s'.restartCount == s.restartCount && s'.consecutiveFailures == s.consecutiveFailures
              else && s'.restartCount == s.restartCount + 1
                   && s'.consecutiveFailures
                      == (if s.host.now - s.childStartedAt >= o.stableUptimeMs then 1 else s.consecutiveFailures + 1)
            case _ => s'.restartCount == s.restartCount && s'.consecutiveFailures == s.consecutiveFailures
  {
    hide TextOf, IsRunnable, Backoff;
  }

  /** The running process is the watched one, and it is expected to end exactly if it was told to. */
  lemma WatchedAndTold(s: State, c: nat)
    requires OneChild(s) && Ending(s)
    ensures c in s.host.alive <==> s.child == Some(c)
    ensures s.child == Some(c) ==> (c in s.expectedExits <==> SigTerm(c) in s.host.signals)
  {
  }

  lemma CountsStep(o: Options, now: int, es: seq<Event>, e: Event)
    ensures var s, s', mark := Reach(o, now, es), Reach(o, now, es + [e]), MarkOf(o, now, es, e);
            && s'.restartCount == s.restartCount + (if mark in {Crash, LateCrash} then 1 else 0)
            && s'.consecutiveFailures
               == match mark
                  case Nothing => s.consecutiveFailures
                  case Fresh => 0
                  case Crash => s.consecutiveFailures + 1
                  case LateCrash => 1
  {
    hide Reach, Step, OneChild, Ending, TimersFit, ConfigFits, Broken, EverApplied, LastSettings, AwaitsStability, BirthClock, Clock;
    var s := Reach(o, now, es);
    RemembersAlways(o, now, es);
    InvAlways(o, now, es);
    ReachStep(o, now, es, e);
    CountersStep(o, s, e);
    if e.Terminated? {
      WatchedAndTold(s, e.child);
    }
  }

  lemma CrashesFrom(marks: seq<Mark>, n: nat)
    requires n < |marks|
    ensures Crashes(marks[n..])
            == Crashes(marks[..|marks| - 1][n..]) + if marks[|marks| - 1] in {Crash, LateCrash} then 1 else 0
  {
    var tail := marks[n..];
    assert tail[..|tail| - 1] == marks[..|marks| - 1][n..];
  }

  /** The streak counter is the number of crashes of the current streak, the total that of all crashes. */
  lemma {:induction false} CountsAreCrashes(o: Options, now: int, es: seq<Event>, n: nat)
    requires BeginsStreak(Marks(o, now, es), n)
    ensures Reach(o, now, es).consecutiveFailures == Crashes(Marks(o, now, es)[n..])
    ensures Reach(o, now, es).restartCount == Crashes(Marks(o, now, es))
  {
    if es != [] {
      hide Step, MarkOf;
      var front, e, marks := es[..|es| - 1], es[|es| - 1], Marks(o, now, es);
      var before, mark := Marks(o, now, front), marks[|marks| - 1];
      assert marks == before + [mark] && es == front + [e];
      CountsStep(o, now, front, e);
      if n == |marks| {
        StreakExists(before);
        var m :| BeginsStreak(before, m);
        CountsAreCrashes(o, now, front, m);
      } else if mark == LateCrash {
        StreakExists(before);
        var m :| BeginsStreak(before, m);
        CountsAreCrashes(o, now, front, m);
        assert marks[n..] == [LateCrash];
        assert [LateCrash][..0] == [];
      } else {
        assert before[n..] == marks[..|marks| - 1][n..];
        CrashesFrom(marks, n);
        CountsAreCrashes(o, now, front, n);
      }
    }
  }

  /** Crashes that each come too soon, with no fresh start between them, add up. */
  lemma SoonCrashesAddUp(o: Options, now: int, es: seq<Event>, n: nat)
    requires n <= |es| && (n == 0 || Marks(o, now, es)[n - 1] == Fresh)
    requires forall k :: n <= k < |es| ==> Marks(o, now, es)[k] in {Nothing, Crash}
    ensures Reach(o, now, es).consecutiveFailures == Crashes(Marks(o, now, es)[n..])
  {
    hide Reach, Marks;
    assert BeginsStreak(Marks(o, now, es), n);
    CountsAreCrashes(o, now, es, n);
  }

  lemma {:induction false} StreakExists(marks: seq<Mark>)
    ensures exists n: nat :: BeginsStreak(marks, n)
  {
    if marks == [] {
      assert BeginsStreak(marks, 0);
    } else {
      var front, last := marks[..|marks| - 1], marks[|marks| - 1];
      StreakExists(front);
      var n: nat :| BeginsStreak(front, n);
      if last == Fresh {
        assert BeginsStreak(marks, |marks|);
      } else if last == LateCrash {
        assert BeginsStreak(marks, |marks| - 1);
      } else {
        assert BeginsStreak(marks, n);
      }
    }
  }

  /**
   What is reported after any run: stopped, unconfigured or in error as the last settings say, and
   otherwise a crash loop exactly when the current streak has reached the threshold; ports only when
   active, and the number of all crashes always.
   */
  lemma CrashLoopExactly(o: Options, now: int, es: seq<Event>, n: nat)
    requires BeginsStreak(Marks(o, now, es), n)
    ensures var status, settings := StatusOf(o, Reach(o, now, es)), LastSettings(es);
            var looping := Crashes(Marks(o, now, es)[n..]) >= o.crashLoopThreshold;
            && (status.state == Stopped <==> !settings.enabled)
            && (status.state == Unconfigured <==> settings.enabled && settings.allowedCidrs == [])
            && (status.state == ConfigError <==> Servable(settings) && Broken(o, es))
            && (status.state == CrashLoop <==> Servable(settings) && !Broken(o, es) && looping)
            && (status.state == Active <==> Servable(settings) && !Broken(o, es) && !looping)
            && status.ports == (if status.state == Active then Some((o.socksPort, o.httpPort)) else None)
            && status.restartCount == Crashes(Marks(o, now, es))
    ensures Reach(o, now, es).consecutiveFailures <= Reach(o, now, es).restartCount
  {
    hide Reach, Marks, Broken, LastSettings, EverApplied;
    RemembersAlways(o, now, es);
    CountsAreCrashes(o, now, es, n);
    CrashesInPart(Marks(o, now, es), n);
  }

  lemma {:induction false} CrashesInPart(marks: seq<Mark>, n: nat)
    requires n <= |marks|
    ensures Crashes(marks[n..]) <= Crashes(marks)
    decreases |marks|
  {
    if n < |marks| {
      CrashesInPart(marks[..|marks| - 1], n);
      CrashesFrom(marks, n);
    }
  }

  // ---------------------------------------------------------------- backoff

  lemma {:induction false} Pow2Grows(j: nat, k: nat)
    requires j <= k
    ensures 1 <= Ipv4.Pow2(j) <= Ipv4.Pow2(k)
    decreases k
  {
    if j < k {
      Pow2Grows(j, k - 1);
    } else if k > 0 {
      Pow2Grows(j - 1, k - 1);
    }
  }

  lemma ProductGrows(a: nat, x: nat, y: nat)
    requires x <= y
    ensures a * x <= a * y
  {
  }

  /** The delay starts at the base, at most doubles, never shrinks along a streak and stays in range. */
  lemma BackoffShape(o: Options, j: nat, k: nat)
    requires 1 <= j <= k && o.baseBackoffMs <= o.maxBackoffMs
    ensures Backoff(o, 1) == o.baseBackoffMs
    ensures o.baseBackoffMs <= Backoff(o, j) <= Backoff(o, k) <= o.maxBackoffMs
    ensures Backoff(o, k + 1) == if 2 * Backoff(o, k) < o.maxBackoffMs then 2 * Backoff(o, k) else o.maxBackoffMs
  {
    Pow2Grows(j - 1, k - 1);
    Pow2Grows(0, j - 1);
    ProductGrows(o.baseBackoffMs, Ipv4.Pow2(j - 1), Ipv4.Pow2(k - 1));
    ProductGrows(o.baseBackoffMs, 1, Ipv4.Pow2(j - 1));
    assert Ipv4.Pow2(0) == 1 && Ipv4.Pow2(k) == 2 * Ipv4.Pow2(k - 1);
    var p := Ipv4.Pow2(k - 1);
    assert o.baseBackoffMs * (2 * p) == 2 * (o.baseBackoffMs * p);
  }

  lemma {:induction false} StreakGrows(o: Options, now: int, es: seq<Event>, n: nat)
    requires n <= |es|
    requires forall k :: n <= k < |es| ==> Marks(o, now, es)[k] in {Nothing, Crash}
    ensures Reach(o, now, es[..n]).consecutiveFailures <= Reach(o, now, es).consecutiveFailures
    decreases |es|
  {
    hide Step, MarkOf;
    if n == |es| {
      assert es[..n] == es;
    } else {
      var front := es[..|es| - 1];
      var marks := Marks(o, now, es);
      assert marks == Marks(o, now, front) + [marks[|es| - 1]];
      assert front[..n] == es[..n];
      assert forall k :: n <= k < |front| ==> Marks(o, now, front)[k] == marks[k];
      StreakGrows(o, now, front, n);
      CountsStep(o, now, front, es[|es| - 1]);
      ReachStep(o, now, front, es[|es| - 1]);
      assert es == front + [es[|es| - 1]];
    }
  }

  /**
   Restarts are never scheduled sooner as a streak goes on, and every scheduled delay lies between
   the base and the maximum.
   */
  lemma DelaysAlongStreak(o: Options, now: int, es: seq<Event>, n: nat)
    requires n <= |es| && o.baseBackoffMs <= o.maxBackoffMs
    requires forall k :: n <= k < |es| ==> Marks(o, now, es)[k] in {Nothing, Crash}
    requires Reach(o, now, es[..n]).restartTimer.Some? && Reach(o, now, es).restartTimer.Some?
    ensures o.baseBackoffMs <= Reach(o, now, es[..n]).restartTimer.value
            <= Reach(o, now, es).restartTimer.value <= o.maxBackoffMs
  {
    hide Reach, Backoff, OneChild, ConfigFits, Ending;
    StreakGrows(o, now, es, n);
    InvAlways(o, now, es[..n]);
    InvAlways(o, now, es);
    BackoffShape(o, Reach(o, now, es[..n]).consecutiveFailures, Reach(o, now, es).consecutiveFailures);
  }
}
