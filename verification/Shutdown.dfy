/**
 The agent's last steps: the deferred calls of `run` in main.go unwind in reverse order of
 registration, over the GPIO table and whatever still writes to it.
 */
module Shutdown {
  import opened Options
  import opened Gpio
  import opened ActuatorManager
  import Fleet
  import MaxOn

  // ---------------------------------------------------------------- life of the pin table

  // What happens to the table after initialisation and before re-initialisation.
  datatype Event =
    | Reserve(pin: int, dir: Direction, initial: int, lineOk: bool)
    | Write(pin: int, value: int, writeOk: bool)
    | SafeState(stuck: set<int>)
    | Release

  function Apply(b: Bank, e: Event): Bank {
    match e
    case Reserve(pin, dir, initial, lineOk) => Reserved(b, pin, dir, initial, lineOk).0
    case Write(pin, value, writeOk) => Written(b, pin, value, writeOk).0
    case SafeState(stuck) => Swept(b, stuck)
    case Release => Released(b)
  }

  function ApplyAll(b: Bank, es: seq<Event>): Bank
    decreases |es|
  {
    if es == [] then b else Apply(ApplyAll(b, es[..|es| - 1]), es[|es| - 1])
  }

  lemma {:induction false} ApplyConcat(b: Bank, s: seq<Event>, t: seq<Event>)
    ensures ApplyAll(b, s + t) == ApplyAll(ApplyAll(b, s), t)
    decreases |t|
  {
    if t == [] {
      assert s + t == s;
    } else {
      assert (s + t)[..|s + t| - 1] == s + t[..|t| - 1];
      ApplyConcat(b, s, t[..|t| - 1]);
    }
  }

  // Outside these pins the lines are as they were.
  ghost predicate SameOutside(b0: Bank, b: Bank, pins: set<int>) {
    forall p | p !in pins :: (p in b.level <==> p in b0.level) && (p in b.level ==> b.level[p] == b0.level[p])
  }

  // A table in use: outputs are only ever added, and only outputs are driven.
  ghost predicate Lives(b0: Bank, b: Bank) {
    Sound(b) && b.up && Outputs(b0) <= Outputs(b) && SameOutside(b0, b, Outputs(b))
  }

  lemma StepLives(b: Bank, e: Event)
    requires Sound(b) && b.up && !e.Release?
    ensures Lives(b, Apply(b, e))
  {
    hide Sound, Outputs, Lives;
    match e
    case Reserve(pin, dir, initial, lineOk) => ReserveLives(b, pin, dir, initial, lineOk);
    case Write(pin, value, writeOk) => WriteLives(b, pin, value, writeOk);
    case SafeState(stuck) => SweepLives(b, stuck);
  }

  lemma WriteLives(b: Bank, pin: int, value: int, writeOk: bool)
    requires Sound(b) && b.up
    ensures Lives(b, Written(b, pin, value, writeOk).0)
  {
    assert Outputs(Written(b, pin, value, writeOk).0) == Outputs(b);
  }

  lemma SweepLives(b: Bank, stuck: set<int>)
    requires Sound(b) && b.up
    ensures Lives(b, Swept(b, stuck))
  {
    assert Outputs(Swept(b, stuck)) == Outputs(b);
  }

  lemma ReserveLives(b: Bank, pin: int, dir: Direction, initial: int, lineOk: bool)
    requires Sound(b) && b.up
    ensures Lives(b, Reserved(b, pin, dir, initial, lineOk).0)
  {
    var (b', rc) := Reserved(b, pin, dir, initial, lineOk);
    if rc == OK {
      assert Outputs(b') == if dir.Output? then Outputs(b) + {pin} else Outputs(b);
    }
  }

  // Over every life of the table, first or later: the lines whose level changed since it was
  // opened, or that have none but in this life, are among its current outputs.
  lemma {:induction false} LifeTracked(b: Bank, life: seq<Event>)
    requires Sound(b) && b.up
    requires forall i | 0 <= i < |life| :: !life[i].Release?
    ensures Lives(b, ApplyAll(b, life))
    decreases |life|
  {
    if life != [] {
      LifeTracked(b, life[..|life| - 1]);
      StepLives(ApplyAll(b, life[..|life| - 1]), life[|life| - 1]);
    }
  }

  // ---------------------------------------------------------------- after the last sweep

  ghost predicate LowOn(b: Bank, pins: set<int>) {
    forall p | p in pins :: p in b.level && b.level[p] == 0
  }

  ghost predicate ZeroWrites(es: seq<Event>) {
    forall i | 0 <= i < |es| :: es[i].Write? && es[i].value == 0
  }

  lemma {:induction false} QuietWindow(b: Bank, es: seq<Event>, pins: set<int>)
    requires Sound(b) && b.up && LowOn(b, pins) && ZeroWrites(es)
    ensures var b' := ApplyAll(b, es);
            Lives(b, b') && b'.dirs == b.dirs && LowOn(b', pins)
    decreases |es|
  {
    if es != [] {
      QuietWindow(b, es[..|es| - 1], pins);
      StepLives(ApplyAll(b, es[..|es| - 1]), es[|es| - 1]);
    }
  }

  lemma {:induction false} DeadAfterRelease(b: Bank, es: seq<Event>)
    requires !b.up && b.dirs == map[]
    ensures ApplyAll(b, es) == b
    ensures forall pin, value, ok :: Written(ApplyAll(b, es), pin, value, ok).1 == ERR_NOT_INIT
    decreases |es|
  {
    if es != [] {
      DeadAfterRelease(b, es[..|es| - 1]);
    }
  }

  // One life of the table: what the agent did, the final sweep and the lines that refuse it,
  // the writes that slip in between sweep and release, and whatever is tried afterwards.
  datatype Life = Life(events: seq<Event>, stuck: set<int>, mid: seq<Event>, late: seq<Event>)

  ghost predicate Orderly(l: Life) {
    (forall i | 0 <= i < |l.events| :: !l.events[i].Release?) && ZeroWrites(l.mid)
  }

  function AfterLife(b: Bank, l: Life): Bank {
    ApplyAll(b, l.events + [SafeState(l.stuck)] + l.mid + [Release] + l.late)
  }

  lemma LifeUnfolds(b: Bank, l: Life)
    ensures AfterLife(b, l) == ApplyAll(Released(ApplyAll(Swept(ApplyAll(b, l.events), l.stuck), l.mid)), l.late)
  {
    hide ApplyAll, Swept, Released;
    var life, sweep := l.events, [SafeState(l.stuck)];
    var alive := ApplyAll(b, life);
    One(alive, SafeState(l.stuck));
    One(ApplyAll(Swept(alive, l.stuck), l.mid), Release);
    ApplyConcat(b, life, sweep);
    ApplyConcat(b, life + sweep, l.mid);
    ApplyConcat(b, life + sweep + l.mid, [Release]);
    ApplyConcat(b, life + sweep + l.mid + [Release], l.late);
  }

  lemma ReleasedLow(alive: Bank, stuck: set<int>, mid: seq<Event>)
    requires Sound(alive) && alive.up && ZeroWrites(mid)
    ensures var end := Released(ApplyAll(Swept(alive, stuck), mid));
            Sound(end) && LowOn(end, Outputs(alive) - stuck) && SameOutside(alive, end, Outputs(alive))
  {
    var swept := Swept(alive, stuck);
    StepLives(alive, SafeState(stuck));
    assert Outputs(swept) == Outputs(alive);
    QuietWindow(swept, mid, Outputs(alive) - stuck);
    var quiet := ApplyAll(swept, mid);
    assert Outputs(quiet) == Outputs(alive);
  }

  // The end of every normal run: whatever the agent did, once the final sweep has run and
  // only zeros are written after it, release leaves 0 as the last value of every line that
  // was an output (and took the sweep), every other line is as it was, nothing can change any
  // of them, and every later write fails until re-initialisation.
  lemma EndsLow(b: Bank, l: Life)
    requires Sound(b) && b.up && Orderly(l)
    ensures var reserved, end := Outputs(ApplyAll(b, l.events)), AfterLife(b, l);
            && LowOn(end, reserved - l.stuck) && SameOutside(b, end, reserved)
            && Sound(end) && !end.up && end.dirs == map[]
            && end == AfterLife(b, l.(late := []))
            && (forall pin, value, ok :: Written(end, pin, value, ok).1 == ERR_NOT_INIT)
  {
    LifeTracked(b, l.events);
    var alive := ApplyAll(b, l.events);
    ReleasedLow(alive, l.stuck, l.mid);
    hide ApplyAll, AfterLife, Sound, Outputs, Swept;
    var end := Released(ApplyAll(Swept(alive, l.stuck), l.mid));
    LifeUnfolds(b, l);
    LifeUnfolds(b, l.(late := []));
    DeadAfterRelease(end, l.late);
    DeadAfterRelease(end, []);
  }

  lemma One(b: Bank, e: Event)
    ensures ApplyAll(b, [e]) == Apply(b, e)
  {
    assert [e][..0] == [];
    assert ApplyAll(b, [e][..|[e]| - 1]) == b;
  }

  // One life after another, each opening the chip anew.
  function AllLives(b: Bank, lives: seq<Life>): Bank
    decreases |lives|
  {
    if lives == [] then b
    else AfterLife(Opened(AllLives(b, lives[..|lives| - 1]), true).0, lives[|lives| - 1])
  }

  ghost predicate LowExcept(b: Bank, stuck: set<int>) {
    forall p | p in b.level && p !in stuck :: b.level[p] == 0
  }

  function EverStuck(lives: seq<Life>): set<int>
    decreases |lives|
  {
    if lives == [] then {} else EverStuck(lives[..|lives| - 1]) + lives[|lives| - 1].stuck
  }

  // However often the agent is restarted, between its runs every line it has ever driven is
  // low, except those that refused a sweep.
  lemma {:induction false} EveryLifeEndsLow(lives: seq<Life>)
    requires forall i | 0 <= i < |lives| :: Orderly(lives[i])
    ensures var end := AllLives(COLD, lives);
            Sound(end) && !end.up && LowExcept(end, EverStuck(lives))
    decreases |lives|
  {
    if lives != [] {
      var before, l := lives[..|lives| - 1], lives[|lives| - 1];
      EveryLifeEndsLow(before);
      var start := Opened(AllLives(COLD, before), true).0;
      EndsLow(start, l);
      var end := AfterLife(start, l);
      forall p | p in end.level && p !in EverStuck(lives) ensures end.level[p] == 0 {
        if p !in Outputs(ApplyAll(start, l.events)) {
          assert p in start.level && end.level[p] == start.level[p];
        }
      }
    }
  }

  // ---------------------------------------------------------------- what can still be written

  // The writes that a stretch of the agent's run makes to the pin table.
  function WriteOf(f: Fleet.Plan, l: Fleet.Label): seq<Event> {
    if l.Clock? || l.id !in f then []
    else match l.step
      case Write(v, ok) => [Write(f[l.id].pin, v, ok)]
      case CallbackWrite(_, ok) => [Write(f[l.id].pin, 0, ok)]
      case AllOff(ok) => [Write(f[l.id].pin, 0, ok)]
      case Sweep(ok) => [Write(f[l.id].pin, 0, ok)]
      case _ => []
  }

  function WritesOf(f: Fleet.Plan, labels: seq<Fleet.Label>): seq<Event>
    decreases |labels|
  {
    if labels == [] then [] else WritesOf(f, labels[..|labels| - 1]) + WriteOf(f, labels[|labels| - 1])
  }

  // The client is disconnected: no further command arrives.
  ghost predicate Disconnected(labels: seq<Fleet.Label>) {
    forall i | 0 <= i < |labels| :: labels[i].Clock? || !labels[i].step.Start?
  }

  // No handler of any channel is about to write anything but 0.
  ghost predicate NoneToDrive(f: Fleet.Plan, s: Fleet.System)
    requires Fleet.Wired(f, s)
  {
    forall id | id in f :: MaxOn.NoneToDrive(s.own[id])
  }

  // Commands are only ever started for 0 and 1.
  ghost predicate Binary(f: Fleet.Plan, s: Fleet.System)
    requires Fleet.Wired(f, s)
  {
    forall id, h | id in f && h in s.own[id].handlers :: h.value == 0 || h.value == 1
  }

  lemma {:induction false} OnlyZerosLeft(f: Fleet.Plan, s: Fleet.System, labels: seq<Fleet.Label>)
    requires Fleet.Wired(f, s) && NoneToDrive(f, s) && Disconnected(labels)
    requires Fleet.PlayFrom(f, s, labels).Some?
    ensures ZeroWrites(WritesOf(f, labels)) && NoneToDrive(f, Fleet.PlayFrom(f, s, labels).value)
    decreases |labels|
  {
    if labels != [] {
      var before, l := labels[..|labels| - 1], labels[|labels| - 1];
      OnlyZerosLeft(f, s, before);
      OnlyZerosStep(f, Fleet.PlayFrom(f, s, before).value, l);
    }
  }

  lemma OnlyZerosStep(f: Fleet.Plan, t: Fleet.System, l: Fleet.Label)
    requires Fleet.Wired(f, t) && NoneToDrive(f, t) && Fleet.Possible(f, t, l)
    requires l.Clock? || !l.step.Start?
    ensures ZeroWrites(WriteOf(f, l)) && NoneToDrive(f, Fleet.After(f, t, l))
  {
    if l.At? {
      MaxOn.OnlyZeroLeft(f[l.id].params, Fleet.View(f, t, l.id), l.step);
    }
  }

  // Whatever still runs between the last sweep and the release, every output ends low, over
  // every such stretch of every run, exactly when no ON command is ahead of its write: the
  // agent waits for no handler.
  lemma EndsLowExactlyWhen(b: Bank, f: Fleet.Plan, s: Fleet.System)
    requires Sound(b) && b.up && Fleet.Wired(f, s) && Binary(f, s)
    requires forall id | id in f :: f[id].pin in Outputs(b)
    ensures (forall labels | Disconnected(labels) && Fleet.PlayFrom(f, s, labels).Some? ::
               LowOn(ApplyAll(Swept(b, {}), WritesOf(f, labels)), Outputs(b)))
            <==> NoneToDrive(f, s)
  {
    var swept := Swept(b, {});
    StepLives(b, SafeState({}));
    if NoneToDrive(f, s) {
      forall labels | Disconnected(labels) && Fleet.PlayFrom(f, s, labels).Some?
        ensures LowOn(ApplyAll(swept, WritesOf(f, labels)), Outputs(b))
      {
        OnlyZerosLeft(f, s, labels);
        QuietWindow(swept, WritesOf(f, labels), Outputs(b));
      }
    } else {
      var id :| id in f && !MaxOn.NoneToDrive(s.own[id]);
      LateHandlerDrives(b, f, s, id);
    }
  }

  lemma LateHandlerDrives(b: Bank, f: Fleet.Plan, s: Fleet.System, id: string)
    requires Sound(b) && b.up && Fleet.Wired(f, s) && Binary(f, s)
    requires id in f && f[id].pin in Outputs(b) && !MaxOn.NoneToDrive(s.own[id])
    ensures var labels := [Fleet.At(id, MaxOn.Write(1, true))];
            && Disconnected(labels) && Fleet.PlayFrom(f, s, labels).Some?
            && !LowOn(ApplyAll(Swept(b, {}), WritesOf(f, labels)), Outputs(b))
  {
    var l := Fleet.At(id, MaxOn.Write(1, true));
    var h :| h in s.own[id].handlers && h.Pending? && h.value != 0;
    assert h == MaxOn.Pending(1);
    assert Fleet.Possible(f, s, l);
    hide Fleet.After, Fleet.Possible, Sound, MaxOn.NoneToDrive;
    assert [l][..|[l]| - 1] == [];
    assert Fleet.PlayFrom(f, s, []) == Some(s);
    assert WritesOf(f, []) == [];
    var e := Write(f[id].pin, 1, true);
    assert WriteOf(f, l) == [e];
    assert WritesOf(f, [l]) == [e];
    HighAfter(Swept(b, {}), e);
    assert Outputs(Swept(b, {})) == Outputs(b);
  }

  lemma HighAfter(b: Bank, e: Event)
    requires b.up && e.Write? && e.value == 1 && e.writeOk && e.pin in Outputs(b)
    ensures e.pin in ApplyAll(b, [e]).level && ApplyAll(b, [e]).level[e.pin] == 1
  {
    One(b, e);
  }

  // ---------------------------------------------------------------- the deferred calls

  datatype Deferred = HalCleanup | AssertSafe | Recover | Cancel | CloseWatchdog | CloseDb | Disconnect

  // In order of registration in `run`; a return before the end has registered a prefix.
  function Registered(watchdog: bool): seq<Deferred> {
    [HalCleanup, AssertSafe, Recover, Cancel] + (if watchdog then [CloseWatchdog] else []) + [CloseDb, Disconnect]
  }

  function Effect(d: Deferred, b: Bank, stuck: set<int>): Bank {
    match d
    case HalCleanup => Released(Swept(b, stuck))
    case AssertSafe => Swept(b, stuck)
    case _ => b
  }

  function Unwound(defers: seq<Deferred>, b: Bank, stuck: set<int>): Bank
    decreases |defers|
  {
    if defers == [] then b
    else Unwound(defers[..|defers| - 1], Effect(defers[|defers| - 1], b, stuck), stuck)
  }

  // The later half of a registration runs before the earlier one.
  lemma {:induction false} UnwindsInReverse(first: seq<Deferred>, later: seq<Deferred>, b: Bank, stuck: set<int>)
    ensures Unwound(first + later, b, stuck) == Unwound(first, Unwound(later, b, stuck), stuck)
    decreases |later|
  {
    if later == [] {
      assert first + later == first;
    } else {
      var n := |later| - 1;
      assert (first + later)[..|first + later| - 1] == first + later[..n];
      UnwindsInReverse(first, later[..n], Effect(later[n], b, stuck), stuck);
    }
  }

  // What the two calls that matter do: the safe state keeps the reservations, the cleanup ends
  // them; both leave every output low and every other line as it was.
  lemma DeferredEffects(b: Bank, stuck: set<int>)
    ensures var safe := Effect(AssertSafe, b, stuck);
            && safe.up == b.up && safe.dirs == b.dirs
            && LowOn(safe, Outputs(b) - stuck) && SameOutside(b, safe, Outputs(b) - stuck)
    ensures var clean := Effect(HalCleanup, b, stuck);
            && !clean.up && clean.dirs == map[]
            && LowOn(clean, Outputs(b) - stuck) && SameOutside(b, clean, Outputs(b) - stuck)
  {
  }

  method HalCleanupCall(table: GpioTable, stuck: set<int>)
    requires table.Valid()
    modifies table, table.slots
    ensures table.Valid() && table.View() == Released(Swept(old(table.View()), stuck))
  {
    table.AssertSafeState(stuck);
    table.Cleanup();
  }

  method Unwind(defers: seq<Deferred>, table: GpioTable, stuck: set<int>)
    requires table.Valid()
    modifies table, table.slots
    ensures table.Valid() && table.View() == Unwound(defers, old(table.View()), stuck)
  {
    var n := |defers|;
    assert defers[..n] == defers;
    while n > 0
      invariant 0 <= n <= |defers| && table.Valid()
      invariant Unwound(defers[..n], table.View(), stuck) == Unwound(defers, old(table.View()), stuck)
    {
      n := n - 1;
      ghost var rest := defers[..n + 1];
      assert rest[..|rest| - 1] == defers[..n];
      match defers[n] {
        case HalCleanup =>
          HalCleanupCall(table, stuck);
        case AssertSafe =>
          table.AssertSafeState(stuck);
        case _ =>
      }
    }
  }

  // However early `run` returns once the HAL is up, and whatever was reserved and driven by
  // then, unwinding leaves every output low and the table released.
  lemma {:induction false} UnwindingIsSafe(defers: seq<Deferred>, b: Bank, stuck: set<int>)
    requires |defers| >= 2 && defers[..2] == [HalCleanup, AssertSafe]
    requires forall i | 2 <= i < |defers| :: defers[i] !in {HalCleanup, AssertSafe}
    ensures var end := Unwound(defers, b, stuck);
            !end.up && end.dirs == map[] && LowOn(end, Outputs(b) - stuck) && SameOutside(b, end, Outputs(b) - stuck)
    decreases |defers|
  {
    var n := |defers| - 1;
    if n >= 2 {
      assert defers[..n][..2] == defers[..2];
      UnwindingIsSafe(defers[..n], b, stuck);
    } else {
      assert defers == [HalCleanup, AssertSafe];
      assert [HalCleanup, AssertSafe][..1] == [HalCleanup];
      assert [HalCleanup][..0] == [];
      var swept := Swept(b, stuck);
      assert Outputs(swept) == Outputs(b);
      assert Unwound(defers, b, stuck) == Unwound([HalCleanup], swept, stuck);
      assert Unwound([HalCleanup], swept, stuck) == Unwound([], Released(Swept(swept, stuck)), stuck);
    }
  }

  lemma EveryReturnIsSafe(watchdog: bool, n: nat, b: Bank, stuck: set<int>)
    requires 2 <= n <= |Registered(watchdog)|
    ensures var end := Unwound(Registered(watchdog)[..n], b, stuck);
            !end.up && end.dirs == map[] && LowOn(end, Outputs(b) - stuck) && SameOutside(b, end, Outputs(b) - stuck)
  {
    var d := Registered(watchdog)[..n];
    assert d[..2] == [HalCleanup, AssertSafe];
    UnwindingIsSafe(d, b, stuck);
  }

  // The normal end of the agent: the manager's all-off, then the deferred calls.
  method StopAgent(m: Manager, watchdog: bool, stuck: set<int>)
    requires m.Valid()
    modifies m.table, m.table.slots, m.States()
    ensures m.table.Valid() && !m.table.View().up && m.table.View().dirs == map[]
    ensures LowOn(m.table.View(), old(Outputs(m.table.View())) - stuck)
    ensures forall id | id in m.channels :: m.channels[id].currentValue == 0 && m.channels[id].armed == None
  {
    hide Dirs, Coherent, Blank, Unwound, GpioTable.Valid;
    ghost var b := m.table.View();
    m.AssertAllOff(stuck);
    assert Outputs(m.table.View()) == Outputs(b);
    var defers := Registered(watchdog);
    EveryReturnIsSafe(watchdog, |defers|, m.table.View(), stuck);
    assert defers[..|defers|] == defers;
    Unwind(defers, m.table, stuck);
  }
}
