/**
 The max-on safety machine of one actuator channel: command handlers, the auto-OFF timer
 and its callback, all of which write the same GPIO line.

 `execute` writes the line outside the manager's lock and records the value and re-arms
 the timer inside it, so these are separate steps; a stopped timer may already be running
 its callback, so fired callbacks are steps of their own too.
 */
module MaxOn {
  import opened Options

  // A handler of a command for `value`: before its GPIO write, and after it, made at `at`.
  datatype Handler = Pending(value: int) | Wrote(value: int, at: int)

  // A fired callback: due to write 0, or with the write behind it.
  datatype Callback = Due(at: int) | Cleared

  // `line` is the physical output, `armed` the instant a running timer will fire, `lastWrite`
  // when a command last drove the line high.
  datatype Channel = Channel(
    now: int,
    line: int,
    current: int,
    armed: Option<int>,
    handlers: multiset<Handler>,
    callbacks: multiset<Callback>,
    lastWrite: Option<int>)

  // What a channel runs under.
  //  - initial, maxOn: default_state and max_on_duration_sec
  //  - concurrency: how many handlers of this channel the MQTT client may run at once
  //  - latency: how long a fired callback may take to reach its write
  //  - handlerLatency: how long a handler may take from its write to arming the timer
  //  - callbackWrites, shutdownWrites: whether those GPIO writes always succeed
  datatype Params = Params(
    initial: int,
    maxOn: int,
    concurrency: nat,
    latency: nat,
    handlerLatency: nat,
    callbackWrites: bool,
    shutdownWrites: bool)

  datatype Step =
    | Start(value: int)
    | Write(value: int, ok: bool)
    | Commit(value: int, at: int)
    | Fire
    | CallbackWrite(at: int, ok: bool)
    | CallbackRecord
    | AllOff(ok: bool)
    | Sweep(ok: bool)
    | Tick

  function Initial(p: Params): Channel {
    Channel(0, p.initial, p.initial, None, multiset{}, multiset{}, None)
  }

  predicate Enabled(p: Params, c: Channel, s: Step) {
    match s
    case Start(v) => (v == 0 || v == 1) && |c.handlers| < p.concurrency
    case Write(v, ok) => Pending(v) in c.handlers
    case Commit(v, at) => Wrote(v, at) in c.handlers
    case Fire => c.armed.Some? && c.now >= c.armed.value
    case CallbackWrite(at, ok) => Due(at) in c.callbacks && (ok || !p.callbackWrites)
    case CallbackRecord => Cleared in c.callbacks
    case AllOff(ok) => ok || !p.shutdownWrites
    case Sweep(ok) => true
    // Timers fire on time; callbacks and handlers are no slower than their latencies.
    case Tick =>
      && (c.armed.Some? ==> c.now < c.armed.value)
      && (forall d | d in c.callbacks && d.Due? :: c.now < d.at + p.latency)
      && (forall h | h in c.handlers && h.Wrote? :: c.now < h.at + p.handlerLatency)
  }

  function Silenced(c: Channel, ok: bool): Channel {
    c.(armed := None, line := if ok then 0 else c.line, current := 0)
  }

  function Next(p: Params, c: Channel, s: Step): Channel
    requires Enabled(p, c, s)
  {
    match s
    case Start(v) => c.(handlers := c.handlers + multiset{Pending(v)})
    case Write(v, ok) =>
      var rest := c.handlers - multiset{Pending(v)};
      if ok then
        c.(line := v,
           lastWrite := if v == 1 then Some(c.now) else c.lastWrite,
           handlers := rest + multiset{Wrote(v, c.now)})
      else c.(handlers := rest)
    case Commit(v, at) =>
      c.(current := v,
         armed := if v == 1 && p.maxOn > 0 then Some(c.now + p.maxOn) else None,
         handlers := c.handlers - multiset{Wrote(v, at)})
    case Fire => c.(armed := None, callbacks := c.callbacks + multiset{Due(c.armed.value)})
    case CallbackWrite(at, ok) =>
      var rest := c.callbacks - multiset{Due(at)};
      if ok then c.(line := 0, callbacks := rest + multiset{Cleared}) else c.(callbacks := rest)
    case CallbackRecord => c.(current := 0, callbacks := c.callbacks - multiset{Cleared})
    case AllOff(ok) => Silenced(c, ok)
    case Sweep(ok) => c.(line := if ok then 0 else c.line)
    case Tick => c.(now := c.now + 1)
  }

  // Some(state) when every step of the run is enabled where it is taken.
  function Run(p: Params, run: seq<Step>): Option<Channel> {
    if run == [] then Some(Initial(p))
    else match Run(p, run[..|run| - 1])
      case None => None
      case Some(c) =>
        var s := run[|run| - 1];
        if Enabled(p, c, s) then Some(Next(p, c, s)) else None
  }

  // ---------------------------------------------------------------- the safety property

  // A high line has an ON command mid-flight, a running timer, or a fired callback still
  // due to write 0.
  ghost predicate Covered(c: Channel) {
    c.line == 1 ==>
      || (exists h :: h in c.handlers && h.Wrote? && h.value == 1)
      || c.armed.Some?
      || exists d :: d in c.callbacks && d.Due?
  }

  ghost predicate AlwaysCovered(p: Params) {
    forall run | Run(p, run).Some? :: Covered(Run(p, run).value)
  }

  // What a caller can check before starting the agent.
  predicate Sufficient(p: Params) {
    p.initial == 0
    && (p.concurrency == 0 || (p.concurrency == 1 && p.maxOn > 0 && p.callbackWrites && p.shutdownWrites))
  }

  // ---------------------------------------------------------------- serialised channels are safe

  // Within handlerLatency and maxOn of the latest ON write there is a timer, a due callback,
  // or a handler about to arm one.
  ghost predicate Guarded(p: Params, c: Channel) {
    c.lastWrite.Some? &&
    var limit := c.lastWrite.value + p.handlerLatency + p.maxOn;
      || Wrote(1, c.lastWrite.value) in c.handlers
      || (c.armed.Some? && c.armed.value <= limit)
      || exists d :: d in c.callbacks && d.Due? && d.at <= limit
  }

  ghost predicate HandlersInv(p: Params, c: Channel) {
    && |c.handlers| <= p.concurrency
    && (forall h | h in c.handlers :: h.value == 0 || h.value == 1)
    && (forall h | h in c.handlers && h.Wrote? :: c.now <= h.at + p.handlerLatency)
    && (forall h | h in c.handlers && h.Wrote? && h.value == 0 :: c.line == 0)
    && (forall h | h in c.handlers && h.Wrote? && h.value == 1 :: c.lastWrite == Some(h.at))
  }

  ghost predicate Inv(p: Params, c: Channel) {
    && (c.line == 0 || c.line == 1)
    && (p.concurrency == 0 ==> c.line == 0)
    && HandlersInv(p, c)
    && (c.line == 1 ==> Guarded(p, c))
    && (c.armed.Some? ==> c.now <= c.armed.value)
    && (forall d | d in c.callbacks && d.Due? :: c.now <= d.at + p.latency)
  }

  lemma AtMostOne<T>(m: multiset<T>, x: T, y: T)
    requires |m| <= 1 && x in m && y in m
    ensures x == y && m == multiset{x}
  {
    assert m == multiset{x} + (m - multiset{x});
    assert |m - multiset{x}| == 0;
  }

  lemma OnlyHandler(m: multiset<Handler>, h: Handler)
    requires |m| <= 1 && h in m
    ensures m == multiset{h} && m - multiset{h} == multiset{}
  {
    AtMostOne(m, h, h);
  }

  lemma CommandStepKeepsInv(p: Params, c: Channel, s: Step)
    requires s.Start? || s.Write? || s.Commit?
    requires Sufficient(p) && Inv(p, c) && Enabled(p, c, s)
    ensures Inv(p, Next(p, c, s))
  {
    match s
    case Start(v) =>
      assert c.handlers == multiset{};
    case Write(v, ok) =>
      OnlyHandler(c.handlers, Pending(v));
    case Commit(v, at) =>
      OnlyHandler(c.handlers, Wrote(v, at));
  }

  lemma FireKeepsInv(p: Params, c: Channel)
    requires Sufficient(p) && Inv(p, c) && Enabled(p, c, Fire)
    ensures Inv(p, Next(p, c, Fire))
  {
    var n := Next(p, c, Fire);
    assert forall d :: d in n.callbacks <==> d in c.callbacks || d == Due(c.armed.value);
  }

  lemma RemoveKeeps<T>(m: multiset<T>, gone: T)
    ensures forall x | x in m - multiset{gone} :: x in m
    ensures forall x | x in m && x != gone :: x in m - multiset{gone}
  {
  }

  lemma CallbackWriteKeepsInv(p: Params, c: Channel, at: int, ok: bool)
    requires Sufficient(p) && Inv(p, c) && Enabled(p, c, CallbackWrite(at, ok))
    ensures Inv(p, Next(p, c, CallbackWrite(at, ok)))
  {
    RemoveKeeps(c.callbacks, Due(at));
    assert Next(p, c, CallbackWrite(at, ok)).line == 0;
  }

  lemma CallbackRecordKeepsInv(p: Params, c: Channel)
    requires Sufficient(p) && Inv(p, c) && Enabled(p, c, CallbackRecord)
    ensures Inv(p, Next(p, c, CallbackRecord))
  {
    RemoveKeeps(c.callbacks, Cleared);
  }

  lemma OtherStepKeepsInv(p: Params, c: Channel, s: Step)
    requires s.AllOff? || s.Sweep? || s.Tick?
    requires Sufficient(p) && Inv(p, c) && Enabled(p, c, s)
    ensures Inv(p, Next(p, c, s))
  {
    match s
    case AllOff(ok) =>
    case Sweep(ok) =>
    case Tick =>
  }

  lemma StepKeepsInv(p: Params, c: Channel, s: Step)
    requires Sufficient(p) && Inv(p, c) && Enabled(p, c, s)
    ensures Inv(p, Next(p, c, s))
  {
    if s.Start? || s.Write? || s.Commit? {
      CommandStepKeepsInv(p, c, s);
    } else if s.Fire? {
      FireKeepsInv(p, c);
    } else if s.CallbackWrite? {
      CallbackWriteKeepsInv(p, c, s.at, s.ok);
    } else if s.CallbackRecord? {
      CallbackRecordKeepsInv(p, c);
    } else {
      OtherStepKeepsInv(p, c, s);
    }
  }

  lemma {:induction false} RunKeepsInv(p: Params, run: seq<Step>)
    requires Sufficient(p) && Run(p, run).Some?
    ensures Inv(p, Run(p, run).value)
  {
    if run != [] {
      var before := run[..|run| - 1];
      RunKeepsInv(p, before);
      StepKeepsInv(p, Run(p, before).value, run[|run| - 1]);
    }
  }

  // No relay stays high longer than max_on_duration_sec, plus the time its handler takes to
  // arm the timer and its callback takes to write, after it was last commanded on.
  lemma MaxOnBound(p: Params, run: seq<Step>)
    requires Sufficient(p) && Run(p, run).Some?
    ensures var c := Run(p, run).value;
            c.line == 1 ==>
              c.lastWrite.Some? && c.now <= c.lastWrite.value + p.handlerLatency + p.maxOn + p.latency
  {
    RunKeepsInv(p, run);
  }

  // ---------------------------------------------------------------- and none is cut short

  // An ON command is between its write and its commit.
  ghost predicate OnMidFlight(handlers: multiset<Handler>) {
    exists h :: h in handlers && h.Wrote? && h.value == 1
  }

  // Whatever runs at once: a running timer leaves the latest ON write its whole time.
  ghost predicate Patient(p: Params, c: Channel) {
    && (c.lastWrite.Some? ==> c.lastWrite.value <= c.now)
    && (c.armed.Some? && c.lastWrite.Some? && !OnMidFlight(c.handlers) ==> c.armed.value >= c.lastWrite.value + p.maxOn)
  }

  lemma MidFlightStays(before: multiset<Handler>, after: multiset<Handler>)
    requires forall h | h in before && h.Wrote? :: h in after
    ensures OnMidFlight(before) ==> OnMidFlight(after)
  {
  }

  lemma WriteKeepsPatient(p: Params, c: Channel, v: int, ok: bool)
    requires Patient(p, c) && Enabled(p, c, Write(v, ok))
    ensures Patient(p, Next(p, c, Write(v, ok)))
  {
    var n := Next(p, c, Write(v, ok));
    RemoveKeeps(c.handlers, Pending(v));
    MidFlightStays(c.handlers, n.handlers);
    if ok && v == 1 {
      assert Wrote(1, c.now) in n.handlers;
      assert OnMidFlight(n.handlers);
    }
    hide OnMidFlight;
  }

  lemma StepKeepsPatient(p: Params, c: Channel, s: Step)
    requires Patient(p, c) && Enabled(p, c, s)
    ensures Patient(p, Next(p, c, s))
  {
    if s.Write? {
      WriteKeepsPatient(p, c, s.value, s.ok);
    } else {
      if s.Start? {
        MidFlightStays(c.handlers, Next(p, c, s).handlers);
      }
      hide OnMidFlight;
    }
  }

  lemma {:induction false} RunPatient(p: Params, run: seq<Step>)
    requires Run(p, run).Some?
    ensures Patient(p, Run(p, run).value)
  {
    if run != [] {
      var before := run[..|run| - 1];
      RunPatient(p, before);
      StepKeepsPatient(p, Run(p, before).value, run[|run| - 1]);
      hide Patient, Next, Enabled;
    }
  }

  // In every run, however many handlers and callbacks overlap: unless an ON command is between
  // its write and its commit, the timer that runs was started for the latest ON write or later.
  lemma TimerIsRestarted(p: Params, run: seq<Step>)
    requires Run(p, run).Some?
    ensures var c := Run(p, run).value;
            c.armed.Some? && c.lastWrite.Some? && (forall h | h in c.handlers && h.Wrote? :: h.value != 1) ==>
              c.armed.value >= c.lastWrite.value + p.maxOn
  {
    RunPatient(p, run);
  }

  // So no timer fires sooner than max_on after the latest ON write.
  lemma NoEarlyFire(p: Params, run: seq<Step>)
    requires Run(p, run).Some? && Enabled(p, Run(p, run).value, Fire)
    requires forall h | h in Run(p, run).value.handlers && h.Wrote? :: h.value != 1
    ensures var c := Run(p, run).value; c.lastWrite.Some? ==> c.now >= c.lastWrite.value + p.maxOn
  {
    TimerIsRestarted(p, run);
  }

  // A second ON while the first one's timer runs: the old deadline is gone.
  lemma SecondOnRestarts(p: Params, wait: nat) returns (run: seq<Step>)
    requires p.concurrency >= 1 && 0 < wait < p.maxOn
    ensures Run(p, run).Some?
    ensures var c := Run(p, run).value;
            c.now == wait && c.line == 1 && c.lastWrite == Some(wait) && c.armed == Some(wait + p.maxOn)
  {
    hide Run, Next, Enabled, Plain;
    run := OnRun(p);
    var c := Channel(0, 1, 1, Some(p.maxOn), multiset{}, multiset{}, Some(0));
    run := WaitRun(p, run, c, wait);
    run := CommandRun(p, run, c.(now := wait), 1);
  }

  // ---------------------------------------------------------------- and only they are

  lemma Extend(p: Params, run: seq<Step>, s: Step)
    requires Run(p, run).Some? && Enabled(p, Run(p, run).value, s)
    ensures Run(p, run + [s]) == Some(Next(p, Run(p, run).value, s))
  {
    assert (run + [s])[..|run + [s]| - 1] == run;
  }

  lemma Uncovered(p: Params, run: seq<Step>)
    requires Run(p, run).Some? && !Covered(Run(p, run).value)
    ensures !AlwaysCovered(p)
  {
  }

  // A line driven high by its default state has no timer.
  lemma HighDefaultUncovered(p: Params)
    requires p.initial == 1
    ensures !AlwaysCovered(p)
  {
    Uncovered(p, []);
  }

  // Executing one ON command.
  lemma OnRun(p: Params) returns (run: seq<Step>)
    requires p.concurrency >= 1
    ensures Plain(run)
    ensures Run(p, run) == Some(Channel(0, 1, 1, if p.maxOn > 0 then Some(p.maxOn) else None,
                                        multiset{}, multiset{}, Some(0)))
  {
    assert Run(p, []) == Some(Initial(p));
    hide Run;
    run := CommandRun(p, [], Initial(p), 1);
  }

  // A non-positive max_on_duration_sec arms no timer.
  lemma NoTimerUncovered(p: Params)
    requires p.initial == 0 && p.concurrency >= 1 && p.maxOn <= 0
    ensures !AlwaysCovered(p)
  {
    var run := OnRun(p);
    Uncovered(p, run);
  }

  // Two handlers at once: OFF writes first and commits last, stopping the timer that the
  // ON in between has just armed.
  lemma OverlapRun(p: Params) returns (run: seq<Step>)
    requires p.concurrency >= 2
    ensures Plain(run)
    ensures var end := Run(p, run);
            end.Some? && end.value.line == 1 && end.value.current == 0 && end.value.armed == None
            && end.value.handlers == multiset{} && end.value.callbacks == multiset{}
  {
    hide Run, Next, Enabled;
    OverlapStarts(p);
    var r2 := [] + [Start(0)] + [Start(1)];
    OverlapWrites(p, r2);
    var r4 := r2 + [Write(0, true)] + [Write(1, true)];
    OverlapCommits(p, r4);
    run := r4 + [Commit(1, 0)] + [Commit(0, 0)];
  }

  lemma OverlapUncovered(p: Params)
    requires p.initial == 0 && p.concurrency >= 2
    ensures !AlwaysCovered(p)
  {
    var run := OverlapRun(p);
    Uncovered(p, run);
  }

  // Both have written and neither has committed.
  function Overlapped(p: Params): Channel {
    Initial(p).(line := 1, lastWrite := Some(0), handlers := multiset{Wrote(0, 0), Wrote(1, 0)})
  }

  lemma OverlapStarts(p: Params)
    requires p.concurrency >= 2
    ensures Run(p, [] + [Start(0)] + [Start(1)])
            == Some(Initial(p).(handlers := multiset{Pending(0), Pending(1)}))
  {
    Extend(p, [], Start(0));
    var run := [] + [Start(0)];
    assert Run(p, run).value.handlers == multiset{Pending(0)};
    Extend(p, run, Start(1));
    assert multiset{Pending(0)} + multiset{Pending(1)} == multiset{Pending(0), Pending(1)};
  }

  lemma WriteZero(p: Params, c: Channel)
    requires c.handlers == multiset{Pending(0), Pending(1)}
    ensures Enabled(p, c, Write(0, true))
    ensures Next(p, c, Write(0, true)) == c.(line := 0, handlers := multiset{Pending(1), Wrote(0, c.now)})
  {
    assert c.handlers - multiset{Pending(0)} == multiset{Pending(1)};
  }

  lemma WriteOne(p: Params, c: Channel)
    requires c.handlers == multiset{Pending(1), Wrote(0, c.now)}
    ensures Enabled(p, c, Write(1, true))
    ensures Next(p, c, Write(1, true)) ==
            c.(line := 1, lastWrite := Some(c.now), handlers := multiset{Wrote(0, c.now), Wrote(1, c.now)})
  {
    assert c.handlers - multiset{Pending(1)} == multiset{Wrote(0, c.now)};
  }

  lemma OverlapWrites(p: Params, run: seq<Step>)
    requires Run(p, run) == Some(Initial(p).(handlers := multiset{Pending(0), Pending(1)}))
    ensures Run(p, run + [Write(0, true)] + [Write(1, true)]) == Some(Overlapped(p))
  {
    hide Run, Next, Enabled;
    var c := Initial(p).(handlers := multiset{Pending(0), Pending(1)});
    WriteZero(p, c);
    Extend(p, run, Write(0, true));
    WriteOne(p, c.(line := 0, handlers := multiset{Pending(1), Wrote(0, 0)}));
    Extend(p, run + [Write(0, true)], Write(1, true));
  }

  lemma OverlapCommits(p: Params, run: seq<Step>)
    requires Run(p, run) == Some(Overlapped(p))
    ensures var end := Run(p, run + [Commit(1, 0)] + [Commit(0, 0)]);
            end.Some? && end.value.line == 1 && end.value.current == 0 && end.value.armed == None
            && end.value.handlers == multiset{} && end.value.callbacks == multiset{}
  {
    Extend(p, run, Commit(1, 0));
    var next := run + [Commit(1, 0)];
    assert multiset{Wrote(0, 0), Wrote(1, 0)} - multiset{Wrote(1, 0)} == multiset{Wrote(0, 0)};
    assert Run(p, next).value.handlers == multiset{Wrote(0, 0)};
    Extend(p, next, Commit(0, 0));
    assert multiset{Wrote(0, 0)} - multiset{Wrote(0, 0)} == multiset{};
  }

  lemma ShutdownFailureUncovered(p: Params)
    requires p.initial == 0 && p.concurrency >= 1 && !p.shutdownWrites
    ensures !AlwaysCovered(p)
  {
    var run := OnRun(p);
    Extend(p, run, AllOff(false));
    Uncovered(p, run + [AllOff(false)]);
  }

  lemma TickOnce(p: Params, run: seq<Step>, c: Channel)
    requires Run(p, run) == Some(c)
    requires c.callbacks == multiset{} && c.handlers == multiset{} && c.armed.Some? && c.now < c.armed.value
    ensures Run(p, run + [Tick]) == Some(c.(now := c.now + 1))
  {
    hide Run;
    Extend(p, run, Tick);
  }

  lemma {:induction false} WaitRun(p: Params, run: seq<Step>, c: Channel, n: nat) returns (run': seq<Step>)
    requires Run(p, run) == Some(c)
    requires c.callbacks == multiset{} && c.handlers == multiset{} && c.armed.Some? && c.now + n <= c.armed.value
    ensures Run(p, run') == Some(c.(now := c.now + n)) && (Plain(run) ==> Plain(run'))
    decreases n
  {
    hide Run;
    if n == 0 {
      run' := run;
    } else {
      TickOnce(p, run, c);
      run' := WaitRun(p, run + [Tick], c.(now := c.now + 1), n - 1);
    }
  }

  // A callback whose GPIO write fails returns without retrying.
  lemma CallbackFailureUncovered(p: Params)
    requires p.initial == 0 && p.concurrency >= 1 && p.maxOn > 0 && !p.callbackWrites
    ensures !AlwaysCovered(p)
  {
    var run := OnRun(p);
    var late := WaitRun(p, run, Run(p, run).value, p.maxOn);
    Extend(p, late, Fire);
    var fired := late + [Fire];
    assert Run(p, fired).value.callbacks == multiset{Due(p.maxOn)};
    Extend(p, fired, CallbackWrite(p.maxOn, false));
    Uncovered(p, fired + [CallbackWrite(p.maxOn, false)]);
  }

  // The max-on property holds in every run exactly when the channel starts off and takes
  // no commands, or takes them one at a time, has a positive limit and its safety writes
  // succeed.
  lemma CoveredExactlyWhenSerialised(p: Params)
    requires p.initial == 0 || p.initial == 1
    ensures AlwaysCovered(p) <==> Sufficient(p)
  {
    if Sufficient(p) {
      forall run | Run(p, run).Some? ensures Covered(Run(p, run).value) {
        RunKeepsInv(p, run);
      }
    } else if p.initial == 1 {
      HighDefaultUncovered(p);
    } else if p.concurrency >= 2 {
      OverlapUncovered(p);
    } else if p.maxOn <= 0 {
      NoTimerUncovered(p);
    } else if !p.shutdownWrites {
      ShutdownFailureUncovered(p);
    } else {
      CallbackFailureUncovered(p);
    }
  }

  // ---------------------------------------------------------------- steps that nothing interrupts

  function Commanded(c: Channel, maxOn: int, v: int): Channel {
    c.(line := v,
       current := v,
       armed := if v == 1 && maxOn > 0 then Some(c.now + maxOn) else None,
       lastWrite := if v == 1 then Some(c.now) else c.lastWrite)
  }

  function Expired(c: Channel, ok: bool): Channel {
    if ok then c.(line := 0, current := 0) else c
  }

  // Left alone, the three steps of a command leave its value on the line and on record,
  // and exactly one fresh timer if it is an ON under a positive limit.
  lemma UninterruptedCommand(p: Params, c: Channel, v: int)
    requires v == 0 || v == 1
    requires c.handlers == multiset{} && p.concurrency >= 1
    ensures Enabled(p, c, Start(v))
    ensures var c1 := Next(p, c, Start(v)); Enabled(p, c1, Write(v, true))
    ensures var c2 := Next(p, Next(p, c, Start(v)), Write(v, true)); Enabled(p, c2, Commit(v, c.now))
    ensures Next(p, Next(p, Next(p, c, Start(v)), Write(v, true)), Commit(v, c.now)) == Commanded(c, p.maxOn, v)
  {
    assert multiset{Pending(v)} - multiset{Pending(v)} == multiset{};
    assert multiset{Wrote(v, c.now)} - multiset{Wrote(v, c.now)} == multiset{};
    var c1 := Next(p, c, Start(v));
    assert c1.handlers == multiset{Pending(v)};
    var c2 := Next(p, c1, Write(v, true));
    assert c2.handlers == multiset{Wrote(v, c.now)};
  }

  // Left alone, a fired callback clears the line and the record together.
  lemma UninterruptedCallback(p: Params, c: Channel, at: int)
    requires Due(at) in c.callbacks
    ensures Enabled(p, c, CallbackWrite(at, true))
    ensures Enabled(p, Next(p, c, CallbackWrite(at, true)), CallbackRecord)
    ensures Next(p, Next(p, c, CallbackWrite(at, true)), CallbackRecord)
            == Expired(c, true).(callbacks := c.callbacks - multiset{Due(at)})
  {
    var rest := c.callbacks - multiset{Due(at)};
    assert rest + multiset{Cleared} - multiset{Cleared} == rest;
  }

  // ---------------------------------------------------------------- what can still write

  // No handler is still to write anything but 0.
  ghost predicate NoneToDrive(c: Channel) {
    forall h | h in c.handlers && h.Pending? :: h.value == 0
  }

  // Unless a new command starts, a channel with no ON command ahead of its write can only
  // drive its line low.
  lemma OnlyZeroLeft(p: Params, c: Channel, s: Step)
    requires NoneToDrive(c) && Enabled(p, c, s) && !s.Start?
    ensures NoneToDrive(Next(p, c, s)) && (s.Write? ==> s.value == 0)
    ensures Next(p, c, s).line == c.line || Next(p, c, s).line == 0
  {
    if s.Write? {
      RemoveKeeps(c.handlers, Pending(s.value));
    } else if s.Commit? {
      RemoveKeeps(c.handlers, Wrote(s.value, s.at));
    }
  }

  // ---------------------------------------------------------------- the recorded value

  // A run before shutdown: nothing sweeps the lines behind the manager's back.
  predicate Plain(run: seq<Step>) {
    forall i | 0 <= i < |run| :: !run[i].AllOff? && !run[i].Sweep?
  }

  // With no command or callback in progress, the recorded value is the line's.
  ghost predicate RecordTrue(p: Params) {
    forall run | Plain(run) && Run(p, run).Some? :: Agrees(Run(p, run).value)
  }

  ghost predicate Agrees(c: Channel) {
    c.handlers == multiset{} && c.callbacks == multiset{} ==> c.current == c.line
  }

  ghost predicate NeverTimed(p: Params, c: Channel) {
    && c.armed == None && c.callbacks == multiset{}
    && |c.handlers| <= p.concurrency
    && (forall h | h in c.handlers && h.Wrote? :: c.line == h.value)
    && ((forall h | h in c.handlers :: h.Pending?) ==> c.current == c.line)
  }

  lemma {:induction false} RunNeverTimed(p: Params, run: seq<Step>)
    requires p.concurrency == 0 || (p.concurrency == 1 && p.maxOn <= 0)
    requires Plain(run) && Run(p, run).Some?
    ensures NeverTimed(p, Run(p, run).value)
  {
    if run != [] {
      var before, s := run[..|run| - 1], run[|run| - 1];
      RunNeverTimed(p, before);
      var c := Run(p, before).value;
      match s {
        case Start(_) =>
          assert c.handlers == multiset{};
        case Write(v, _) =>
          OnlyHandler(c.handlers, Pending(v));
        case Commit(v, at) =>
          OnlyHandler(c.handlers, Wrote(v, at));
        case _ =>
      }
    }
  }

  lemma Untrue(p: Params, run: seq<Step>)
    requires Plain(run) && Run(p, run).Some? && !Agrees(Run(p, run).value)
    ensures !RecordTrue(p)
  {
  }

  lemma Go(p: Params, run: seq<Step>, c: Channel, s: Step) returns (run': seq<Step>)
    requires Plain(run) && Run(p, run) == Some(c)
    requires Enabled(p, c, s) && !s.AllOff? && !s.Sweep?
    ensures Plain(run') && Run(p, run') == Some(Next(p, c, s))
  {
    hide Run, Next, Enabled;
    Extend(p, run, s);
    run' := run + [s];
  }

  lemma CommandRun(p: Params, run: seq<Step>, c: Channel, v: int) returns (run': seq<Step>)
    requires v == 0 || v == 1
    requires Plain(run) && Run(p, run) == Some(c) && c.handlers == multiset{} && p.concurrency >= 1
    ensures Plain(run')
    ensures Run(p, run') == Some(Commanded(c, p.maxOn, v))
  {
    UninterruptedCommand(p, c, v);
    hide Run, Next, Enabled, Plain;
    run' := Go(p, run, c, Start(v));
    var c1 := Next(p, c, Start(v));
    run' := Go(p, run', c1, Write(v, true));
    run' := Go(p, run', Next(p, c1, Write(v, true)), Commit(v, c.now));
  }

  lemma Expiry(p: Params, c: Channel)
    requires c.callbacks == multiset{} && c.armed.Some? && c.now >= c.armed.value
    ensures Enabled(p, c, Fire)
    ensures Enabled(p, Next(p, c, Fire), CallbackWrite(c.armed.value, true))
    ensures Next(p, Next(p, c, Fire), CallbackWrite(c.armed.value, true))
            == c.(line := 0, armed := None, callbacks := multiset{Cleared})
  {
    var fired := Next(p, c, Fire);
    assert fired.callbacks == multiset{Due(c.armed.value)};
    assert multiset{Due(c.armed.value)} - multiset{Due(c.armed.value)} == multiset{};
  }

  lemma ExpiryRun(p: Params, run: seq<Step>, c: Channel) returns (run': seq<Step>)
    requires Plain(run) && Run(p, run) == Some(c) && c.callbacks == multiset{}
    requires c.armed.Some? && c.now >= c.armed.value
    ensures Plain(run')
    ensures Run(p, run') == Some(c.(line := 0, armed := None, callbacks := multiset{Cleared}))
  {
    Expiry(p, c);
    hide Run, Next, Enabled, Plain;
    run' := Go(p, run, c, Fire);
    run' := Go(p, run', Next(p, c, Fire), CallbackWrite(c.armed.value, true));
  }

  // A callback that has written 0 but not recorded it outlives a whole ON command: the line
  // is high under a running timer, and the manager says it is low.
  lemma StaleRecord(p: Params)
    requires p.concurrency >= 1 && p.maxOn > 0
    ensures !RecordTrue(p)
  {
    hide Run, Next, Enabled;
    var run := OnRun(p);
    var c := Channel(0, 1, 1, Some(p.maxOn), multiset{}, multiset{}, Some(0));
    run := WaitRun(p, run, c, p.maxOn);
    run := ExpiryRun(p, run, c.(now := p.maxOn));
    c := Channel(p.maxOn, 0, 1, None, multiset{}, multiset{Cleared}, Some(0));
    run := CommandRun(p, run, c, 1);
    StaleRecordEnd(p, run, c.(line := 1, armed := Some(2 * p.maxOn), lastWrite := Some(p.maxOn)));
  }

  lemma StaleRecordEnd(p: Params, run: seq<Step>, c: Channel)
    requires Plain(run) && Run(p, run) == Some(c)
    requires c.callbacks == multiset{Cleared} && c.handlers == multiset{} && c.line == 1
    ensures !RecordTrue(p)
  {
    Extend(p, run, CallbackRecord);
    assert c.callbacks - multiset{Cleared} == multiset{};
    Untrue(p, run + [CallbackRecord]);
  }

  lemma OverlapRecord(p: Params)
    requires p.concurrency >= 2
    ensures !RecordTrue(p)
  {
    var run := OverlapRun(p);
    hide Run;
    Untrue(p, run);
  }

  // Serialising commands is not enough for the record: it is true in every settled state
  // exactly when no command is ever taken, or they come one at a time and arm no timer.
  lemma RecordTrueExactlyWhen(p: Params)
    ensures RecordTrue(p) <==> p.concurrency == 0 || (p.concurrency == 1 && p.maxOn <= 0)
  {
    if p.concurrency == 0 || (p.concurrency == 1 && p.maxOn <= 0) {
      forall run | Plain(run) && Run(p, run).Some? ensures Agrees(Run(p, run).value) {
        RunNeverTimed(p, run);
      }
    } else if p.maxOn > 0 {
      StaleRecord(p);
    } else {
      OverlapRecord(p);
    }
  }
}
