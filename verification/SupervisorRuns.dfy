/**
 What the supervisor keeps over every order of settings, terminations, timers and passing time.
 */
module SupervisorRuns {
  import opened Wrappers
  import opened ExplicitProxy

  function Reach(o: Options, now: int, es: seq<Event>): State {
    if es == [] then Init(now) else Step(o, Reach(o, now, es[..|es| - 1]), es[|es| - 1])
  }

  lemma ReachStep(o: Options, now: int, es: seq<Event>, e: Event)
    ensures Reach(o, now, es + [e]) == Step(o, Reach(o, now, es), e)
  {
    assert (es + [e])[..|es + [e]| - 1] == es;
  }

  // ---------------------------------------------------------------- invariants

  /** Processes: at most one is running, and it is the one the controller knows. */
  ghost predicate OneChild(s: State) {
    && s.host.alive == (if s.child.Some? then {s.child.value} else {})
    && (s.child.Some? ==> s.child.value < s.host.nextChild && s.child.value in s.host.startedFrom)
    && (forall c :: c in s.expectedExits ==> c < s.host.nextChild)
  }

  /** Timers: each belongs to the situation it was set for. */
  ghost predicate TimersFit(o: Options, s: State) {
    && (s.restartTimer.Some? ==>
          && s.child.None? && IsRunnable(s.settings) && !s.configFailed
          && s.consecutiveFailures >= 1
          && s.restartTimer == Some(Backoff(o, s.consecutiveFailures)))
    && (s.stableTimer ==> s.child.Some?)
    && (s.killTimer.Some? ==> s.child == s.killTimer && s.child.value in s.expectedExits)
  }

  predicate Wanted(s: State) { IsRunnable(s.settings) && !s.configFailed }

  /** Configuration: what runs unmarked, and what the file holds, is what the settings call for. */
  ghost predicate ConfigFits(o: Options, s: State) {
    && (s.child.Some? && s.child.value !in s.expectedExits && s.child.value in s.host.startedFrom ==>
          Wanted(s) && s.host.startedFrom[s.child.value] == TextOf(o, s.settings))
    && (Wanted(s) ==> s.hasApplied && s.host.file == TextOf(o, s.settings) && TextOf(o, s.settings).Some?)
    && (Wanted(s) ==> s.child.Some? || s.restartTimer.Some?)
  }

  /** Marked processes are on their way out. */
  ghost predicate Ending(s: State) {
    && (s.child.Some? && s.child.value in s.expectedExits ==>
          SigTerm(s.child.value) in s.host.signals
          && (s.killTimer == s.child || SigKill(s.child.value) in s.host.signals))
    && (forall c :: SigTerm(c) in s.host.signals || SigKill(c) in s.host.signals ==> c in s.expectedExits)
  }

  ghost predicate Inv(o: Options, s: State) {
    OneChild(s) && TimersFit(o, s) && ConfigFits(o, s) && Ending(s)
  }

  lemma OneChildStep(o: Options, s: State, e: Event)
    requires OneChild(s)
    requires s.restartTimer.Some? ==> s.child.None?
    ensures OneChild(Step(o, s, e))
  {
    hide TextOf, IsRunnable, Backoff;
  }

  lemma TimersFitStep(o: Options, s: State, e: Event)
    requires TimersFit(o, s) && ConfigFits(o, s) && OneChild(s)
    ensures TimersFit(o, Step(o, s, e))
  {
    hide TextOf, IsRunnable, Backoff;
  }

  lemma ConfigFitsStep(o: Options, s: State, e: Event)
    requires TimersFit(o, s) && ConfigFits(o, s) && OneChild(s)
    ensures ConfigFits(o, Step(o, s, e))
  {
    hide TextOf, IsRunnable, Backoff;
  }

  lemma StoppingEnds(s: State)
    requires Ending(s)
    ensures Ending(Stopping(s))
  {
  }

  lemma EndingSame(s: State, s': State)
    requires Ending(s) && s'.host.signals == s.host.signals && s'.expectedExits == s.expectedExits
    requires s'.child == s.child && s'.killTimer == s.killTimer
    ensures Ending(s')
  {
  }

  lemma EndingApply(o: Options, s: State, settings: Settings, writable: bool)
    requires Ending(s) && OneChild(s)
    ensures Ending(OnApplySettings(o, s, settings, writable))
  {
    hide Ending, TextOf, IsRunnable, IsUnchanged, Stopping;
    var s1 := s.(settings := settings, hasApplied := true);
    var s2 := s1.(consecutiveFailures := 0, restartTimer := None, configFailed := false);
    var s3 := s2.(host := s2.host.(file := TextOf(o, settings)));
    EndingSame(s, s1);
    EndingSame(s, s2);
    StoppingEnds(s2);
    EndingSame(s, s2.(configFailed := true));
    StoppingEnds(s2.(configFailed := true));
    EndingSame(s, s3);
    StoppingEnds(s3);
    if s3.child.None? {
      NewChildUnmarked(s3);
    }
  }

  lemma NewChildUnmarked(s: State)
    requires Ending(s) && OneChild(s)
    ensures Ending(WithChild(s))
  {
  }

  lemma EndingStep(o: Options, s: State, e: Event)
    requires Ending(s) && OneChild(s) && TimersFit(o, s)
    ensures Ending(Step(o, s, e))
  {
    hide TextOf, IsRunnable, Backoff, OnApplySettings;
    match e
    case ApplySettings(settings, writable) => EndingApply(o, s, settings, writable);
    case _ =>
  }

  lemma {:induction false} InvAlways(o: Options, now: int, es: seq<Event>)
    ensures Inv(o, Reach(o, now, es))
  {
    if es != [] {
      hide OneChild, TimersFit, ConfigFits, Ending, Step;
      var s, e := Reach(o, now, es[..|es| - 1]), es[|es| - 1];
      InvAlways(o, now, es[..|es| - 1]);
      TimersNeedNoChild(o, s);
      OneChildStep(o, s, e);
      TimersFitStep(o, s, e);
      ConfigFitsStep(o, s, e);
      EndingStep(o, s, e);
    }
  }

  lemma TimersNeedNoChild(o: Options, s: State)
    requires TimersFit(o, s)
    ensures s.restartTimer.Some? ==> s.child.None?
  {
  }

  // ---------------------------------------------------------------- what this means

  /**
   At every moment: no second process is running; a pending restart excludes a running process and is
   certain to start one; settings that can be served have a process or a pending restart; a process
   not being stopped was started from the configuration of the current settings; and a process being
   stopped has been sent SIGTERM, and SIGKILL unless that is still due.
   */
  lemma SupervisorIsSound(o: Options, now: int, es: seq<Event>)
    ensures var s := Reach(o, now, es);
            && |s.host.alive| <= 1
            && (s.restartTimer.Some? ==>
                  s.host.alive == {} && Step(o, s, RestartFires).host.alive == {s.host.nextChild})
            && (Wanted(s) ==> s.host.alive != {} || s.restartTimer.Some?)
            && forall c :: c in s.host.alive ==>
                 if c in s.expectedExits
                 then SigTerm(c) in s.host.signals && (s.killTimer == Some(c) || SigKill(c) in s.host.signals)
                 else Wanted(s) && c in s.host.startedFrom && s.host.startedFrom[c] == TextOf(o, s.settings)
  {
    hide TextOf, IsRunnable, Backoff;
    InvAlways(o, now, es);
  }

  /** No process is ever signalled unless its end is expected, so no signal can look like a crash. */
  lemma SignalsAreExpected(o: Options, now: int, es: seq<Event>, id: nat)
    requires var s := Reach(o, now, es); SigTerm(id) in s.host.signals || SigKill(id) in s.host.signals
    ensures Step(o, Reach(o, now, es), Terminated(id)).restartCount == Reach(o, now, es).restartCount
  {
    hide Reach;
    InvAlways(o, now, es);
  }

  /** A process that the controller no longer watches never becomes the watched one again. */
  lemma {:induction false} GoneStaysGone(o: Options, now: int, es: seq<Event>, n: nat, id: nat)
    requires n <= |es|
    requires var s := Reach(o, now, es[..n]); id < s.host.nextChild && s.child != Some(id)
    ensures var s := Reach(o, now, es); id < s.host.nextChild && s.child != Some(id)
    decreases |es|
  {
    if n == |es| {
      assert es[..n] == es;
    } else {
      hide Step;
      var front := es[..|es| - 1];
      assert front[..n] == es[..n];
      GoneStaysGone(o, now, front, n, id);
      GoneStep(o, Reach(o, now, front), es[|es| - 1], id);
    }
  }

  lemma GoneStep(o: Options, s: State, e: Event, id: nat)
    requires id < s.host.nextChild && s.child != Some(id)
    ensures var s' := Step(o, s, e); id < s'.host.nextChild && s'.child != Some(id)
  {
    hide TextOf, IsRunnable, Backoff;
  }

  /**
   Late events change nothing: once a process is no longer watched, because its end was handled or it
   was replaced, any further 'exit' or 'error' of it, at any later time, leaves everything as it is.
   */
  lemma LateEventsIgnored(o: Options, now: int, es: seq<Event>, n: nat, id: nat)
    requires n <= |es|
    requires var s := Reach(o, now, es[..n]); id < s.host.nextChild && s.child != Some(id)
    ensures Step(o, Reach(o, now, es), Terminated(id)) == Reach(o, now, es)
  {
    hide Reach, TimersFit, ConfigFits, Ending;
    GoneStaysGone(o, now, es, n, id);
    InvAlways(o, now, es);
    var s := Reach(o, now, es);
    assert s.host.alive - {id} == s.host.alive;
  }
}
