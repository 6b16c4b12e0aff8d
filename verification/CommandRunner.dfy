/**
 `proxy/src/exec/command-runner.ts`: running a command and settling its promise once, whatever the
 order of output, exit, error and timers. Each callback of the source is one event; the classes hold
 the variables that the callbacks share. The completion pattern is any predicate on the output so far.
 */
module CommandRunner {
  import opened Wrappers

  type Pattern = string -> bool

  datatype Event =
    | Stdout(chunk: string)
    | Stderr(chunk: string)
    | Exit(code: Option<int>)              // None when a signal ended the process
    | Error
    | TimeoutFires
    | GraceFires
    | BackgroundFires

  /** What the promise resolves with; no exit code means that the process is still running. */
  datatype Resolution = Resolution(exitCode: Option<int>, stdout: string, stderr: string)

  datatype ExitInfo = ExitInfo(exitCode: int, killedByTimeout: bool)

  datatype Kill = Terminate | ForceKill

  function CodeOf(code: Option<int>): int {
    if code.Some? then code.value else -1
  }

  // ---------------------------------------------------------------- the detachable command

  datatype Run = Run(
    stdout: string, stderr: string, settled: bool, timer: bool,
    backgroundTimer: bool, backgroundSettled: bool, exitedCode: Option<int>,
    graces: nat,                           // grace timers pending
    resolutions: seq<Resolution>, callbacks: seq<ExitInfo>, kills: seq<Kill>)

  const STARTED := Run("", "", false, true, false, false, None, 0, [], [], [])

  function Resolve(r: Run, code: Option<int>): Run {
    r.(settled := true, timer := false, resolutions := r.resolutions + [Resolution(code, r.stdout, r.stderr)])
  }

  function OnStdout(matches: Pattern, r: Run, chunk: string): Run {
    var r1 := r.(stdout := r.stdout + chunk);
    if r.settled || !matches(r1.stdout) then r1
    else
      var r2 := Resolve(r1.(backgroundTimer := true), None);
      if r.exitedCode.None? then r2
      else
        r2.(backgroundSettled := true, backgroundTimer := false,
            callbacks := r2.callbacks + [ExitInfo(r.exitedCode.value, false)])
  }

  function OnExit(r: Run, code: Option<int>): Run {
    var r1 := r.(exitedCode := Some(CodeOf(code)));
    if !r.settled then r1.(graces := r.graces + 1)
    else if r.backgroundSettled then r1
    else r1.(backgroundSettled := true, backgroundTimer := false,
             callbacks := r.callbacks + [ExitInfo(CodeOf(code), false)])
  }

  function OnTimeout(r: Run): Run {
    if !r.timer then r
    else if r.settled then r.(timer := false)
    else Resolve(r.(kills := r.kills + [Terminate]), Some(-1))
  }

  function OnGrace(r: Run): Run {
    if r.graces == 0 then r
    else
      var r1 := r.(graces := r.graces - 1);
      if r.settled then r1 else Resolve(r1, Some(CodeOf(r.exitedCode)))
  }

  function OnBackground(r: Run): Run {
    if !r.backgroundTimer then r
    else
      var r1 := r.(backgroundTimer := false);
      if r.backgroundSettled then r1
      else r1.(backgroundSettled := true, kills := r.kills + [ForceKill],
               callbacks := r.callbacks + [ExitInfo(-1, true)])
  }

  function Step(matches: Pattern, r: Run, e: Event): Run {
    match e
    case Stdout(chunk) => OnStdout(matches, r, chunk)
    case Stderr(chunk) => r.(stderr := r.stderr + chunk)
    case Exit(code) => OnExit(r, code)
    case Error => if r.settled then r else Resolve(r, Some(-1))
    case TimeoutFires => OnTimeout(r)
    case GraceFires => OnGrace(r)
    case BackgroundFires => OnBackground(r)
  }

  class DetachableCommand {
    const matches: Pattern
    var stdout: string
    var stderr: string
    var settled: bool
    var timer: bool
    var backgroundTimer: bool
    var backgroundSettled: bool
    var exitedCode: Option<int>
    var graces: nat
    var resolutions: seq<Resolution>
    var callbacks: seq<ExitInfo>
    var kills: seq<Kill>

    function View(): Run
      reads this
    {
      Run(stdout, stderr, settled, timer, backgroundTimer, backgroundSettled, exitedCode, graces,
          resolutions, callbacks, kills)
    }

    constructor (matches: Pattern)
      ensures this.matches == matches && View() == STARTED
    {
      this.matches := matches;
      stdout, stderr, settled, timer, backgroundTimer, backgroundSettled := "", "", false, true, false, false;
      exitedCode, graces, resolutions, callbacks, kills := None, 0, [], [], [];
    }

    method Settle(code: Option<int>)
      modifies this
      ensures View() == Resolve(old(View()), code)
    {
      settled := true;
      timer := false;
      resolutions := resolutions + [Resolution(code, stdout, stderr)];
    }

    method StdoutData(chunk: string)
      modifies this
      ensures View() == OnStdout(matches, old(View()), chunk)
    {
      stdout := stdout + chunk;
      if !settled && matches(stdout) {
        backgroundTimer := true;
        Settle(None);
        if exitedCode.Some? {
          backgroundSettled := true;
          backgroundTimer := false;
          callbacks := callbacks + [ExitInfo(exitedCode.value, false)];
        }
      }
    }

    method StderrData(chunk: string)
      modifies this
      ensures View() == Step(matches, old(View()), Stderr(chunk))
    {
      stderr := stderr + chunk;
    }

    method Exited(code: Option<int>)
      modifies this
      ensures View() == OnExit(old(View()), code)
    {
      exitedCode := Some(CodeOf(code));
      if !settled {
        graces := graces + 1;
        return;
      }
      if backgroundSettled {
        return;
      }
      backgroundSettled := true;
      backgroundTimer := false;
      callbacks := callbacks + [ExitInfo(CodeOf(code), false)];
    }

    method Failed()
      modifies this
      ensures View() == Step(matches, old(View()), Error)
    {
      if !settled {
        Settle(Some(-1));
      }
    }

    method TimedOut()
      modifies this
      ensures View() == OnTimeout(old(View()))
    {
      if !timer {
        return;
      }
      timer := false;
      if !settled {
        kills := kills + [Terminate];
        Settle(Some(-1));
      }
    }

    method GraceOver()
      modifies this
      ensures View() == OnGrace(old(View()))
    {
      if graces == 0 {
        return;
      }
      graces := graces - 1;
      if !settled {
        Settle(Some(CodeOf(exitedCode)));
      }
    }

    method BackgroundTimedOut()
      modifies this
      ensures View() == OnBackground(old(View()))
    {
      if !backgroundTimer {
        return;
      }
      backgroundTimer := false;
      if !backgroundSettled {
        backgroundSettled := true;
        kills := kills + [ForceKill];
        callbacks := callbacks + [ExitInfo(-1, true)];
      }
    }
  }

  // ---------------------------------------------------------------- runs, and their meaning by position

  function Reach(matches: Pattern, es: seq<Event>): Run {
    if es == [] then STARTED else Step(matches, Reach(matches, es[..|es| - 1]), es[|es| - 1])
  }

  function StdoutOf(es: seq<Event>): string {
    if es == [] then "" else StdoutOf(es[..|es| - 1]) + if es[|es| - 1].Stdout? then es[|es| - 1].chunk else ""
  }

  function StderrOf(es: seq<Event>): string {
    if es == [] then "" else StderrOf(es[..|es| - 1]) + if es[|es| - 1].Stderr? then es[|es| - 1].chunk else ""
  }

  /** The exit code last observed. */
  function ExitOf(es: seq<Event>): Option<int> {
    if es == [] then None
    else if es[|es| - 1].Exit? then Some(CodeOf(es[|es| - 1].code))
    else ExitOf(es[..|es| - 1])
  }

  /** The last event is one that lets the promise resolve, if nothing has before. */
  predicate Decides(matches: Pattern, es: seq<Event>)
    requires es != []
  {
    match es[|es| - 1]
    case Stdout(_) => matches(StdoutOf(es))
    case Error => true
    case TimeoutFires => true
    case GraceFires => ExitOf(es).Some?
    case _ => false
  }

  /** What the last event lets the promise resolve with. */
  function Decision(es: seq<Event>): Resolution
    requires es != []
  {
    Resolution(match es[|es| - 1] case Stdout(_) => None case GraceFires => Some(CodeOf(ExitOf(es))) case _ => Some(-1),
               StdoutOf(es), StderrOf(es))
  }

  /** `n` events in, the first deciding one has just happened. */
  ghost predicate DecidedAt(matches: Pattern, es: seq<Event>, n: nat) {
    && 0 < n <= |es|
    && Decides(matches, es[..n])
    && forall k :: 0 < k < n ==> !Decides(matches, es[..k])
  }

  ghost predicate Undecided(matches: Pattern, es: seq<Event>) {
    forall k :: 0 < k <= |es| ==> !Decides(matches, es[..k])
  }

  lemma {:induction false} FirstDecision(matches: Pattern, es: seq<Event>)
    ensures Undecided(matches, es) || exists n: nat :: DecidedAt(matches, es, n)
  {
    hide Decides;
    if es != [] {
      var front := es[..|es| - 1];
      FirstDecision(matches, front);
      assert forall k :: 0 < k <= |front| ==> front[..k] == es[..k];
      if exists n: nat :: DecidedAt(matches, front, n) {
        var n: nat :| DecidedAt(matches, front, n);
        assert DecidedAt(matches, es, n);
      } else if Decides(matches, es) {
        assert es[..|es|] == es;
        assert DecidedAt(matches, es, |es|);
      } else {
        assert es[..|es|] == es;
      }
    }
  }

  // ---------------------------------------------------------------- what every run keeps

  ghost predicate TextInv(r: Run, es: seq<Event>) {
    r.stdout == StdoutOf(es) && r.stderr == StderrOf(es) && r.exitedCode == ExitOf(es)
  }

  ghost predicate TimerInv(r: Run, es: seq<Event>) {
    && (!r.settled ==> r.timer && !r.backgroundTimer && !r.backgroundSettled)
    && (!r.settled ==> (r.graces > 0 <==> ExitOf(es).Some?))
    && (r.settled ==> |r.resolutions| == 1)
    && (!r.settled ==> r.resolutions == [])
    && (r.settled && r.resolutions[0].exitCode == None ==> r.backgroundTimer == !r.backgroundSettled)
    && (r.settled && r.resolutions[0].exitCode != None ==> !r.backgroundTimer)
    && |r.callbacks| == (if r.backgroundSettled then 1 else 0)
  }

  /** One more event adds its own part to what the sequence says. */
  lemma TextAppend(es: seq<Event>, e: Event)
    ensures StdoutOf(es + [e]) == if e.Stdout? then StdoutOf(es) + e.chunk else StdoutOf(es)
    ensures StderrOf(es + [e]) == if e.Stderr? then StderrOf(es) + e.chunk else StderrOf(es)
    ensures ExitOf(es + [e]) == if e.Exit? then Some(CodeOf(e.code)) else ExitOf(es)
  {
    assert (es + [e])[..|es + [e]| - 1] == es;
    assert StdoutOf(es) + "" == StdoutOf(es) && StderrOf(es) + "" == StderrOf(es);
  }

  lemma TextStep(matches: Pattern, r: Run, es: seq<Event>, e: Event)
    requires TextInv(r, es)
    ensures TextInv(Step(matches, r, e), es + [e])
  {
    hide StdoutOf, StderrOf, ExitOf;
    TextAppend(es, e);
  }

  lemma TimerStep(matches: Pattern, r: Run, es: seq<Event>, e: Event)
    requires TextInv(r, es) && TimerInv(r, es)
    ensures TimerInv(Step(matches, r, e), es + [e])
  {
    hide StdoutOf, StderrOf, ExitOf;
    TextAppend(es, e);
  }

  lemma {:induction false} RunInv(matches: Pattern, es: seq<Event>)
    ensures TextInv(Reach(matches, es), es) && TimerInv(Reach(matches, es), es)
  {
    if es != [] {
      hide TextInv, TimerInv, Step;
      var front, e := es[..|es| - 1], es[|es| - 1];
      assert es == front + [e];
      RunInv(matches, front);
      TextStep(matches, Reach(matches, front), front, e);
      TimerStep(matches, Reach(matches, front), front, e);
    }
  }

  lemma SettlingStep(matches: Pattern, r: Run, es: seq<Event>, e: Event)
    requires TextInv(r, es) && TimerInv(r, es)
    ensures var r', all := Step(matches, r, e), es + [e];
            && (r.settled ==> r'.resolutions == r.resolutions)
            && (!r.settled ==> (r'.settled <==> Decides(matches, all))
                               && (r'.settled ==> r'.resolutions == [Decision(all)]))
  {
    hide StdoutOf, StderrOf, ExitOf;
    TextAppend(es, e);
  }

  /**
   Exactly once: after every event sequence the promise is pending if no event of it decides, and
   otherwise resolved once, with what the first deciding event calls for. Those events are an output
   that completes the pattern, an error, the timeout, and the end of the grace period after an exit.
   */
  lemma {:induction false} ResolvesExactly(matches: Pattern, es: seq<Event>)
    ensures Undecided(matches, es) ==> Reach(matches, es).resolutions == []
    ensures forall n: nat :: DecidedAt(matches, es, n) ==> Reach(matches, es).resolutions == [Decision(es[..n])]
    ensures Reach(matches, es).settled <==> !Undecided(matches, es)
  {
    hide Decides, Decision, Step, TextInv;
    if es == [] {
    } else {
      var front, e := es[..|es| - 1], es[|es| - 1];
      assert es == front + [e] && es[..|es|] == es;
      assert forall k :: 0 < k <= |front| ==> front[..k] == es[..k];
      RunInv(matches, front);
      ResolvesExactly(matches, front);
      SettlingStep(matches, Reach(matches, front), front, e);
      RunInv(matches, es);
      DecisionsOf(matches, front, e);
    }
  }

  lemma DecisionsOf(matches: Pattern, front: seq<Event>, e: Event)
    ensures var es := front + [e];
            && (Undecided(matches, es) <==> Undecided(matches, front) && !Decides(matches, es))
            && forall n: nat :: DecidedAt(matches, es, n) <==>
                 DecidedAt(matches, front, n) || (n == |es| && Undecided(matches, front) && Decides(matches, es))
  {
    hide Decides;
    var es := front + [e];
    assert es[..|es|] == es;
    assert forall k :: 0 < k <= |front| ==> front[..k] == es[..k];
  }

  /** A pending promise always has its timeout armed, and an observed exit has its grace period running. */
  lemma NeverStuck(matches: Pattern, es: seq<Event>)
    requires Reach(matches, es).resolutions == []
    ensures |Reach(matches, es + [TimeoutFires]).resolutions| == 1
    ensures ExitOf(es).Some? ==> |Reach(matches, es + [GraceFires]).resolutions| == 1
  {
    RunInv(matches, es);
    assert (es + [TimeoutFires])[..|es|] == es && (es + [GraceFires])[..|es|] == es;
  }

  // ---------------------------------------------------------------- the callback and the kills

  /** The promise resolved early, at event `n`: the process goes on in the background. */
  predicate Detached(es: seq<Event>, n: nat)
    requires 0 < n <= |es|
  {
    es[n - 1].Stdout?
  }

  /** What ends the process, as far as is known: its exit, or in the background running out of time. */
  predicate IsEnd(e: Event, detached: bool) { e.Exit? || (detached && e == BackgroundFires) }

  /** The first end from position `n` on. */
  function EndAfter(es: seq<Event>, n: nat, detached: bool): (k: Option<nat>)
    ensures k.Some? ==> n <= k.value < |es| && IsEnd(es[k.value], detached)
                        && forall j :: n <= j < k.value ==> !IsEnd(es[j], detached)
    ensures k.None? ==> forall j :: n <= j < |es| ==> !IsEnd(es[j], detached)
  {
    if |es| <= n then None
    else
      var earlier := EndAfter(es[..|es| - 1], n, detached);
      if earlier.Some? then earlier
      else if IsEnd(es[|es| - 1], detached) then Some(|es| - 1)
      else None
  }

  /**
   The callbacks of a command whose promise resolved at `n`, by position: at once with the exit code when
   a detached process had already exited, otherwise at the first end, with its exit code or with -1 and
   the remark that it was killed.
   */
  function ExpectedCallbacks(es: seq<Event>, n: nat): (r: seq<ExitInfo>)
    requires 0 < n <= |es|
    ensures |r| <= 1
  {
    var detached := Detached(es, n);
    if detached && ExitOf(es[..n]).Some? then [ExitInfo(ExitOf(es[..n]).value, false)]
    else match EndAfter(es, n, detached)
      case None => []
      case Some(k) => if es[k].Exit? then [ExitInfo(CodeOf(es[k].code), false)] else [ExitInfo(-1, true)]
  }

  /** Its kills: by the timeout that resolved it, or by the background timeout that ends it. */
  function ExpectedKills(es: seq<Event>, n: nat): (r: seq<Kill>)
    requires 0 < n <= |es|
    ensures |r| <= 1
  {
    if es[n - 1] == TimeoutFires then [Terminate]
    else if Detached(es, n) && ExitOf(es[..n]).None? && EndAfter(es, n, true).Some?
            && es[EndAfter(es, n, true).value] == BackgroundFires then [ForceKill]
    else []
  }

  ghost predicate EndsInv(r: Run, es: seq<Event>, n: nat)
    requires 0 < n <= |es|
  {
    && r.settled
    && r.callbacks == ExpectedCallbacks(es, n)
    && r.kills == ExpectedKills(es, n)
    && (r.backgroundSettled <==> r.callbacks != [])
    && (r.backgroundTimer <==> Detached(es, n) && r.callbacks == [])
  }

  ghost predicate QuietInv(r: Run) {
    !r.settled && r.callbacks == [] && r.kills == [] && !r.backgroundSettled && !r.backgroundTimer
  }

  lemma EndAppend(es: seq<Event>, e: Event, n: nat, detached: bool)
    requires n <= |es|
    ensures EndAfter(es + [e], n, detached)
            == if EndAfter(es, n, detached).Some? then EndAfter(es, n, detached)
               else if IsEnd(e, detached) then Some(|es|) else None
  {
    assert (es + [e])[..|es + [e]| - 1] == es;
  }

  /** One more event adds a callback or a kill only if it is the first end. */
  lemma ExpectedAppend(es: seq<Event>, e: Event, n: nat)
    requires 0 < n <= |es|
    ensures Detached(es + [e], n) == Detached(es, n)
    ensures ExpectedCallbacks(es + [e], n)
            == if ExpectedCallbacks(es, n) != [] then ExpectedCallbacks(es, n)
               else if e.Exit? then [ExitInfo(CodeOf(e.code), false)]
               else if e == BackgroundFires && Detached(es, n) then [ExitInfo(-1, true)]
               else []
    ensures ExpectedKills(es + [e], n)
            == if e == BackgroundFires && Detached(es, n) && ExpectedCallbacks(es, n) == [] then [ForceKill]
               else ExpectedKills(es, n)
  {
    hide EndAfter, ExitOf;
    var all := es + [e];
    assert all[..n] == es[..n] && all[n - 1] == es[n - 1] && all[|es|] == e;
    EndAppend(es, e, n, Detached(es, n));
    assert forall k :: 0 <= k < |es| ==> all[k] == es[k];
  }

  lemma EndsLater(matches: Pattern, r: Run, es: seq<Event>, e: Event, n: nat)
    requires 0 < n <= |es| && EndsInv(r, es, n)
    ensures EndsInv(Step(matches, r, e), es + [e], n)
  {
    hide ExpectedCallbacks, ExpectedKills, Detached;
    ExpectedAppend(es, e, n);
    KilledOnce(es, n);
  }

  lemma KilledOnce(es: seq<Event>, n: nat)
    requires 0 < n <= |es|
    ensures Detached(es, n) && ExpectedCallbacks(es, n) == [] ==> ExpectedKills(es, n) == []
  {
    hide EndAfter, ExitOf;
  }

  lemma EndsAtOnce(matches: Pattern, r: Run, es: seq<Event>, e: Event)
    requires TextInv(r, es) && QuietInv(r) && r.timer && Step(matches, r, e).settled
    ensures EndsInv(Step(matches, r, e), es + [e], |es| + 1)
  {
    hide EndAfter, StdoutOf, StderrOf, ExitOf;
    var all := es + [e];
    assert all[..|es| + 1] == all && all[|es|] == e;
    TextAppend(es, e);
    EndNothing(all, true);
    EndNothing(all, false);
  }

  lemma EndNothing(es: seq<Event>, detached: bool)
    ensures EndAfter(es, |es|, detached) == None
  {
  }

  lemma QuietStep(matches: Pattern, r: Run, e: Event)
    requires QuietInv(r) && !Step(matches, r, e).settled
    ensures QuietInv(Step(matches, r, e))
  {
  }

  ghost predicate EndsOf(matches: Pattern, es: seq<Event>) {
    && (Undecided(matches, es) ==> QuietInv(Reach(matches, es)))
    && (forall n: nat :: DecidedAt(matches, es, n) ==> EndsInv(Reach(matches, es), es, n))
  }

  lemma {:induction false} EndsAlways(matches: Pattern, es: seq<Event>)
    ensures EndsOf(matches, es)
  {
    hide Decides, Step, TextInv, EndsInv, QuietInv, Decision;
    if es == [] {
      QuietStart();
    } else {
      var front, e := es[..|es| - 1], es[|es| - 1];
      assert es == front + [e];
      EndsAlways(matches, front);
      RunInv(matches, front);
      ResolvesExactly(matches, front);
      ResolvesExactly(matches, es);
      DecisionsOf(matches, front, e);
      if Undecided(matches, es) {
        QuietStep(matches, Reach(matches, front), e);
      }
      forall n: nat | DecidedAt(matches, es, n) ensures EndsInv(Reach(matches, es), es, n) {
        if DecidedAt(matches, front, n) {
          EndsLater(matches, Reach(matches, front), front, e, n);
        } else {
          TimerArmed(Reach(matches, front), front);
          EndsAtOnce(matches, Reach(matches, front), front, e);
        }
      }
    }
  }

  lemma QuietStart()
    ensures QuietInv(STARTED)
  {
  }

  lemma TimerArmed(r: Run, es: seq<Event>)
    requires TimerInv(r, es)
    ensures !r.settled ==> r.timer
  {
  }

  lemma EndsGive(r: Run, es: seq<Event>, n: nat)
    requires 0 < n <= |es| && EndsInv(r, es, n)
    ensures r.callbacks == ExpectedCallbacks(es, n) && r.kills == ExpectedKills(es, n)
  {
  }

  lemma QuietGives(r: Run)
    requires QuietInv(r)
    ensures r.callbacks == [] && r.kills == []
  {
  }

  /**
   The callback fires at most once, ever, and never before the promise resolves; from then on it has fired
   exactly as the positions of exits and of the background timeout say, with the code they say.
   */
  lemma CallbackExactly(matches: Pattern, es: seq<Event>)
    ensures |Reach(matches, es).callbacks| <= 1
    ensures Undecided(matches, es) ==> Reach(matches, es).callbacks == []
    ensures forall n: nat :: DecidedAt(matches, es, n) ==> Reach(matches, es).callbacks == ExpectedCallbacks(es, n)
  {
    hide Decides, Reach, EndsInv, QuietInv, ExpectedCallbacks, ExpectedKills;
    EndsAlways(matches, es);
    FirstDecision(matches, es);
    if Undecided(matches, es) {
      QuietGives(Reach(matches, es));
    }
    forall n: nat | DecidedAt(matches, es, n) ensures Reach(matches, es).callbacks == ExpectedCallbacks(es, n) {
      EndsGive(Reach(matches, es), es, n);
    }
  }

  /** The first deciding event is the ordinary timeout. */
  ghost predicate TimedOut(matches: Pattern, es: seq<Event>) {
    exists n: nat :: DecidedAt(matches, es, n) && es[n - 1] == TimeoutFires
  }

  /** After resolving early the process has not exited, neither before nor since, when its time runs out. */
  ghost predicate RanOutInBackground(matches: Pattern, es: seq<Event>) {
    exists n: nat :: DecidedAt(matches, es, n) && es[n - 1].Stdout? && RunsOut(es, n)
  }

  ghost predicate RunsOut(es: seq<Event>, n: nat) {
    exists k: nat :: n <= k < |es| && es[k] == BackgroundFires && forall j :: 0 <= j < k ==> !es[j].Exit?
  }

  /**
   A process is sent SIGTERM exactly when the ordinary timeout decides, and SIGKILL exactly when it runs
   out of time in the background; each at most once, and never both.
   */
  lemma KillsExactly(matches: Pattern, es: seq<Event>)
    ensures var kills := Reach(matches, es).kills;
            && |kills| <= 1
            && (Terminate in kills <==> TimedOut(matches, es))
            && (ForceKill in kills <==> RanOutInBackground(matches, es))
  {
    hide Decides, Reach, EndsInv, QuietInv, ExpectedCallbacks, DecidedAt, Undecided;
    EndsAlways(matches, es);
    FirstDecision(matches, es);
    if Undecided(matches, es) {
      QuietGives(Reach(matches, es));
      forall n: nat | DecidedAt(matches, es, n) ensures false {
        DecidedNotUndecided(matches, es, n);
      }
    } else {
      var n: nat :| DecidedAt(matches, es, n);
      DecidedInRange(matches, es, n);
      EndsGive(Reach(matches, es), es, n);
      forall m: nat | DecidedAt(matches, es, m) ensures m == n {
        DecidedOnce(matches, es, n, m);
      }
      RanOutAlike(matches, es, n);
    }
  }

  lemma DecidedInRange(matches: Pattern, es: seq<Event>, n: nat)
    requires DecidedAt(matches, es, n)
    ensures 0 < n <= |es|
  {
  }

  lemma DecidedNotUndecided(matches: Pattern, es: seq<Event>, n: nat)
    requires DecidedAt(matches, es, n)
    ensures !Undecided(matches, es)
  {
    hide Decides;
  }

  lemma DecidedOnce(matches: Pattern, es: seq<Event>, n: nat, m: nat)
    requires DecidedAt(matches, es, n) && DecidedAt(matches, es, m)
    ensures m == n
  {
    hide Decides;
  }

  lemma {:induction false} ExitSeen(es: seq<Event>)
    ensures ExitOf(es).Some? <==> exists k :: 0 <= k < |es| && es[k].Exit?
  {
    if es != [] {
      ExitSeen(es[..|es| - 1]);
      assert forall k :: 0 <= k < |es| - 1 ==> es[..|es| - 1][k] == es[k];
    }
  }

  lemma RanOutAlike(matches: Pattern, es: seq<Event>, n: nat)
    requires DecidedAt(matches, es, n) && 0 < n <= |es|
    requires forall m: nat :: DecidedAt(matches, es, m) ==> m == n
    ensures ForceKill in ExpectedKills(es, n) <==> RanOutInBackground(matches, es)
  {
    hide DecidedAt, ExitOf, EndAfter;
    ExitSeen(es[..n]);
    assert forall j :: 0 <= j < n ==> es[..n][j] == es[j];
    var k := EndAfter(es, n, true);
    if RanOutInBackground(matches, es) {
      var m: nat :| DecidedAt(matches, es, m) && es[m - 1].Stdout? && RunsOut(es, m);
      var l: nat :| n <= l < |es| && es[l] == BackgroundFires && forall j :: 0 <= j < l ==> !es[j].Exit?;
      assert IsEnd(es[l], true);
      assert k.Some? && k.value <= l;
      assert IsEnd(es[k.value], true);
    }
    if ForceKill in ExpectedKills(es, n) {
      assert forall j :: n <= j < k.value ==> !IsEnd(es[j], true);
      assert es[k.value] == BackgroundFires;
      assert RunsOut(es, n);
    }
  }

  /** The callback does not mean that the promise resolved early: it also follows a plain timeout. */
  lemma CallbackAfterPlainTimeout(matches: Pattern)
    ensures var r := Reach(matches, [TimeoutFires, Exit(Some(0))]);
            r.resolutions == [Resolution(Some(-1), "", "")] && r.callbacks == [ExitInfo(0, false)]
  {
    var es := [TimeoutFires, Exit(Some(0))];
    assert es[..1] == [TimeoutFires] && es[..1][..0] == [];
    assert Reach(matches, [TimeoutFires]) == OnTimeout(STARTED);
  }

  // ---------------------------------------------------------------- the plain command

  datatype Plain = Plain(
    stdout: string, stderr: string, settled: bool, timer: bool,
    grace: Option<int>,                    // the exit code to resolve with when the grace period ends
    resolutions: seq<Resolution>, kills: seq<Kill>)

  const PLAIN_STARTED := Plain("", "", false, true, None, [], [])

  function ResolvePlain(r: Plain, code: int): Plain {
    r.(settled := true, timer := false, resolutions := r.resolutions + [Resolution(Some(code), r.stdout, r.stderr)])
  }

  function StepPlain(r: Plain, e: Event): Plain {
    match e
    case Stdout(chunk) => r.(stdout := r.stdout + chunk)
    case Stderr(chunk) => r.(stderr := r.stderr + chunk)
    case Exit(code) => if r.settled then r else r.(settled := true, timer := false, grace := Some(CodeOf(code)))
    case Error => if r.settled then r else ResolvePlain(r, -1)
    case TimeoutFires => if r.timer && !r.settled then ResolvePlain(r.(kills := r.kills + [Terminate]), -1) else r
    case GraceFires => if r.grace.Some? then ResolvePlain(r.(grace := None), r.grace.value) else r
    case BackgroundFires => r
  }

  class PlainCommand {
    var stdout: string
    var stderr: string
    var settled: bool
    var timer: bool
    var grace: Option<int>
    var resolutions: seq<Resolution>
    var kills: seq<Kill>

    function View(): Plain
      reads this
    {
      Plain(stdout, stderr, settled, timer, grace, resolutions, kills)
    }

    constructor ()
      ensures View() == PLAIN_STARTED
    {
      stdout, stderr, settled, timer, grace, resolutions, kills := "", "", false, true, None, [], [];
    }

    method Data(e: Event)
      requires e.Stdout? || e.Stderr?
      modifies this
      ensures View() == StepPlain(old(View()), e)
    {
      match e
      case Stdout(chunk) => stdout := stdout + chunk;
      case Stderr(chunk) => stderr := stderr + chunk;
    }

    method Resolve(code: int)
      modifies this
      ensures View() == ResolvePlain(old(View()), code)
    {
      settled := true;
      timer := false;
      resolutions := resolutions + [Resolution(Some(code), stdout, stderr)];
    }

    method Exited(code: Option<int>)
      modifies this
      ensures View() == StepPlain(old(View()), Exit(code))
    {
      if !settled {
        settled := true;
        timer := false;
        grace := Some(CodeOf(code));
      }
    }

    method Failed()
      modifies this
      ensures View() == StepPlain(old(View()), Error)
    {
      if !settled {
        Resolve(-1);
      }
    }

    method TimedOut()
      modifies this
      ensures View() == StepPlain(old(View()), TimeoutFires)
    {
      if timer && !settled {
        kills := kills + [Terminate];
        Resolve(-1);
      }
    }

    method GraceOver()
      modifies this
      ensures View() == StepPlain(old(View()), GraceFires)
    {
      if grace.Some? {
        var code := grace.value;
        grace := None;
        Resolve(code);
      }
    }
  }

  function ReachPlain(es: seq<Event>): Plain {
    if es == [] then PLAIN_STARTED else StepPlain(ReachPlain(es[..|es| - 1]), es[|es| - 1])
  }

  predicate Settles(e: Event) { e.Exit? || e.Error? || e.TimeoutFires? }

  /** Where the event that settles the command is, and where the promise resolves. */
  function SettledAt(es: seq<Event>): (n: Option<nat>)
    ensures n.Some? ==> n.value < |es| && Settles(es[n.value]) && forall k :: 0 <= k < n.value ==> !Settles(es[k])
    ensures n.None? ==> forall k :: 0 <= k < |es| ==> !Settles(es[k])
  {
    if es == [] then None
    else
      var earlier := SettledAt(es[..|es| - 1]);
      if earlier.Some? then earlier
      else if Settles(es[|es| - 1]) then Some(|es| - 1)
      else None
  }

  /** The first end of a grace period after position `n`. */
  function GraceAfter(es: seq<Event>, n: nat): (g: Option<nat>)
    ensures g.Some? ==> n < g.value < |es| && es[g.value] == GraceFires
                        && forall k :: n < k < g.value ==> es[k] != GraceFires
    ensures g.None? ==> forall k :: n < k < |es| ==> es[k] != GraceFires
  {
    if |es| <= n + 1 then None
    else
      var earlier := GraceAfter(es[..|es| - 1], n);
      if earlier.Some? then earlier
      else if es[|es| - 1] == GraceFires then Some(|es| - 1)
      else None
  }

  /** What the promise has resolved with after these events, by position alone. */
  function PlainResolutions(es: seq<Event>): seq<Resolution> {
    match SettledAt(es)
    case None => []
    case Some(n) =>
      if !es[n].Exit? then [Resolution(Some(-1), StdoutOf(es[..n]), StderrOf(es[..n]))]
      else match GraceAfter(es, n)
        case None => []
        case Some(g) => [Resolution(Some(CodeOf(es[n].code)), StdoutOf(es[..g]), StderrOf(es[..g]))]
  }

  /** Whether the plain command has been killed, by position alone. */
  function PlainKills(es: seq<Event>): seq<Kill> {
    match SettledAt(es)
    case None => []
    case Some(n) => if es[n] == TimeoutFires then [Terminate] else []
  }

  ghost predicate PlainInv(r: Plain, es: seq<Event>) {
    && r.stdout == StdoutOf(es) && r.stderr == StderrOf(es)
    && (r.settled <==> SettledAt(es).Some?)
    && (!r.settled ==> r.timer && r.resolutions == [])
    && r.grace == (match SettledAt(es)
                   case None => None
                   case Some(n) => if es[n].Exit? && GraceAfter(es, n).None? then Some(CodeOf(es[n].code)) else None)
    && r.resolutions == PlainResolutions(es)
    && r.kills == PlainKills(es)
  }

  lemma PositionsAppend(es: seq<Event>, e: Event)
    ensures SettledAt(es + [e]) == if SettledAt(es).Some? then SettledAt(es) else if Settles(e) then Some(|es|) else None
    ensures forall n: nat :: n < |es| ==>
              GraceAfter(es + [e], n)
              == if GraceAfter(es, n).Some? then GraceAfter(es, n) else if e == GraceFires then Some(|es|) else None
    ensures GraceAfter(es + [e], |es|) == None
  {
    assert (es + [e])[..|es + [e]| - 1] == es;
  }

  lemma PlainStep(r: Plain, es: seq<Event>, e: Event)
    requires PlainInv(r, es)
    ensures PlainInv(StepPlain(r, e), es + [e])
  {
    hide StdoutOf, StderrOf, SettledAt, GraceAfter;
    TextAppend(es, e);
    PositionsAppend(es, e);
    var all := es + [e];
    assert all[..|es|] == es && all[|es|] == e;
    if SettledAt(es).Some? {
      var n := SettledAt(es).value;
      assert all[n] == es[n] && all[..n] == es[..n];
      if GraceAfter(es, n).Some? {
        assert all[..GraceAfter(es, n).value] == es[..GraceAfter(es, n).value];
      }
    }
  }

  /**
   The plain command resolves at most once: at the first error or timeout with -1, or, when an exit
   came first, at the end of its grace period with the exit code and all output up to then. It is
   killed exactly when the timeout came first.
   */
  lemma {:induction false} PlainResolvesExactly(es: seq<Event>)
    ensures ReachPlain(es).resolutions == PlainResolutions(es)
    ensures ReachPlain(es).kills == PlainKills(es)
    ensures PlainInv(ReachPlain(es), es)
  {
    if es != [] {
      hide PlainInv, StepPlain;
      PlainResolvesExactly(es[..|es| - 1]);
      PlainStep(ReachPlain(es[..|es| - 1]), es[..|es| - 1], es[|es| - 1]);
      assert es == es[..|es| - 1] + [es[|es| - 1]];
    }
    PlainInvGives(ReachPlain(es), es);
  }

  lemma PlainInvGives(r: Plain, es: seq<Event>)
    ensures PlainInv(r, es) ==> r.resolutions == PlainResolutions(es) && r.kills == PlainKills(es)
    ensures es == [] ==> PlainInv(PLAIN_STARTED, es)
  {
  }
}
