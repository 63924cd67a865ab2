/**
 All channels of one agent together: one clock, one set of GPIO lines, steps of different
 channels interleaved in any order.
 */
module Fleet {
  import opened Options
  import opened Config
  import opened MaxOn
  import Gpio
  import opened ActuatorManager

  datatype Wiring = Wiring(pin: int, params: Params)
  type Plan = map<string, Wiring>

  // A step of one channel, or the clock advancing for all of them.
  datatype Label = At(id: string, step: Step) | Clock

  // `own` holds each channel's manager state; its clock and line are the shared ones.
  datatype System = System(now: int, lines: map<int, int>, own: map<string, Channel>)

  ghost predicate Separate(f: Plan) {
    forall a, b | a in f && b in f && f[a].pin == f[b].pin :: a == b
  }

  ghost predicate Wired(f: Plan, s: System) {
    forall id | id in f :: id in s.own && f[id].pin in s.lines
  }

  function View(f: Plan, s: System, id: string): Channel
    requires id in f && id in s.own && f[id].pin in s.lines
  {
    s.own[id].(now := s.now, line := s.lines[f[id].pin])
  }

  ghost function Start(f: Plan): (s: System)
    requires Separate(f)
    ensures Wired(f, s)
    ensures forall id | id in f :: View(f, s, id) == Initial(f[id].params)
  {
    System(0,
           map id | id in f :: f[id].pin := f[id].params.initial,
           map id | id in f :: Initial(f[id].params))
  }

  ghost predicate Possible(f: Plan, s: System, l: Label)
    requires Wired(f, s)
  {
    match l
    case At(id, step) => id in f && !step.Tick? && Enabled(f[id].params, View(f, s, id), step)
    case Clock => forall id | id in f :: Enabled(f[id].params, View(f, s, id), Tick)
  }

  ghost function After(f: Plan, s: System, l: Label): (t: System)
    requires Wired(f, s) && Possible(f, s, l)
    ensures Wired(f, t)
  {
    match l
    case At(id, step) =>
      var c := Next(f[id].params, View(f, s, id), step);
      s.(lines := s.lines[f[id].pin := c.line], own := s.own[id := c])
    case Clock => s.(now := s.now + 1)
  }

  ghost function PlayFrom(f: Plan, s: System, labels: seq<Label>): (o: Option<System>)
    requires Wired(f, s)
    ensures o.Some? ==> Wired(f, o.value)
    decreases |labels|
  {
    if labels == [] then Some(s)
    else match PlayFrom(f, s, labels[..|labels| - 1])
      case None => None
      case Some(t) =>
        var l := labels[|labels| - 1];
        if Possible(f, t, l) then Some(After(f, t, l)) else None
  }

  ghost function Play(f: Plan, labels: seq<Label>): (o: Option<System>)
    requires Separate(f)
    ensures o.Some? ==> Wired(f, o.value)
  {
    PlayFrom(f, Start(f), labels)
  }

  // The steps one channel takes part in.
  function Project(labels: seq<Label>, id: string): seq<Step> {
    if labels == [] then []
    else
      var l := labels[|labels| - 1];
      Project(labels[..|labels| - 1], id) +
      if l.Clock? then [Tick] else if l.id == id then [l.step] else []
  }

  // A step of one channel moves neither the line nor the recorded state of another.
  lemma OthersUntouched(f: Plan, s: System, l: Label, id: string)
    requires Separate(f) && Wired(f, s) && Possible(f, s, l)
    requires l.At? && id in f && l.id != id
    ensures View(f, After(f, s, l), id) == View(f, s, id)
  {
    assert f[l.id].pin != f[id].pin;
  }

  lemma OwnStep(f: Plan, s: System, l: Label, id: string, step: Step)
    requires Wired(f, s) && Possible(f, s, l) && id in f
    requires (l == Clock && step == Tick) || (l.At? && l.id == id && l.step == step)
    ensures Enabled(f[id].params, View(f, s, id), step)
    ensures View(f, After(f, s, l), id) == Next(f[id].params, View(f, s, id), step)
  {
    if l.At? {
      assert Next(f[id].params, View(f, s, id), step).now == s.now;
    }
  }

  // In every run of the agent, what a channel does is a run of that channel alone.
  lemma {:induction false} RunsAlone(f: Plan, labels: seq<Label>, id: string)
    requires Separate(f) && id in f && Play(f, labels).Some?
    ensures Run(f[id].params, Project(labels, id)) == Some(View(f, Play(f, labels).value, id))
  {
    if labels != [] {
      var before, l := labels[..|labels| - 1], labels[|labels| - 1];
      RunsAlone(f, before, id);
      RunsAloneStep(f, Play(f, before).value, l, id, Project(before, id));
    }
  }

  lemma RunsAloneStep(f: Plan, s: System, l: Label, id: string, steps: seq<Step>)
    requires Separate(f) && id in f && Wired(f, s) && Possible(f, s, l)
    requires Run(f[id].params, steps) == Some(View(f, s, id))
    ensures Run(f[id].params, steps + if l.Clock? then [Tick] else if l.id == id then [l.step] else [])
            == Some(View(f, After(f, s, l), id))
  {
    hide Next, Enabled, After, Possible, Run;
    if l.At? && l.id != id {
      OthersUntouched(f, s, l, id);
      assert steps + [] == steps;
    } else {
      var step := if l.Clock? then Tick else l.step;
      OwnStep(f, s, l, id, step);
      Extend(f[id].params, steps, step);
    }
  }

  // Isolation: two runs that agree on the clock and on a channel's own steps leave that
  // channel's line, value and timer the same, whatever the other channels did.
  lemma Isolated(f: Plan, labels1: seq<Label>, labels2: seq<Label>, id: string)
    requires Separate(f) && id in f && Play(f, labels1).Some? && Play(f, labels2).Some?
    requires Project(labels1, id) == Project(labels2, id)
    ensures View(f, Play(f, labels1).value, id) == View(f, Play(f, labels2).value, id)
  {
    RunsAlone(f, labels1, id);
    RunsAlone(f, labels2, id);
  }

  // Sharing a pin is what breaks isolation: then one channel's write is the other's line.
  lemma SharedPinNotIsolated(f: Plan, s: System, a: string, b: string)
    requires Wired(f, s) && a in f && b in f && a != b && f[a].pin == f[b].pin
    requires Possible(f, s, At(a, Write(1, true))) && View(f, s, b).line == 0
    ensures View(f, After(f, s, At(a, Write(1, true))), b).line == 1
  {
  }

  // ---------------------------------------------------------------- from configuration to hardware

  // The circumstances of a run that no configuration decides.
  datatype World = World(
    concurrency: nat,
    latency: nat,
    handlerLatency: nat,
    callbackWrites: bool,
    shutdownWrites: bool)

  function ParamsOf(a: Actuator, w: World): Params {
    Params(InitialValue(a), a.maxOn, w.concurrency, w.latency, w.handlerLatency, w.callbackWrites, w.shutdownWrites)
  }

  // For a channel of a loaded configuration whose commands are handled one at a time and
  // whose safety writes succeed, the max-on property holds in every run exactly when the
  // file does not ask for a default state of "on" or a negative limit.
  lemma LoadedChannelSafeExactlyWhen(a: Actuator, w: World)
    requires w.concurrency == 1 && w.callbackWrites && w.shutdownWrites
    ensures AlwaysCovered(ParamsOf(Defaulted(a), w)) <==> a.defaultState != "on" && a.maxOn >= 0
  {
    CoveredExactlyWhenSerialised(ParamsOf(Defaulted(a), w));
  }

  function PlanOf(enabled: seq<Actuator>, w: World): Plan {
    if enabled == [] then map[]
    else PlanOf(enabled[1..], w)[enabled[0].channelId := Wiring(enabled[0].pin, ParamsOf(enabled[0], w))]
  }

  lemma {:induction false} PlanMember(enabled: seq<Actuator>, w: World, id: string) returns (i: nat)
    requires id in PlanOf(enabled, w)
    ensures i < |enabled| && enabled[i].channelId == id
    ensures PlanOf(enabled, w)[id] == Wiring(enabled[i].pin, ParamsOf(enabled[i], w))
  {
    if enabled[0].channelId == id {
      i := 0;
    } else {
      var k := PlanMember(enabled[1..], w, id);
      i := k + 1;
    }
  }

  lemma {:induction false} EnabledAreConfigured(s: seq<Actuator>, i: nat)
    requires i < |EnabledOnly(s)|
    ensures EnabledOnly(s)[i] in s
  {
    if s[0].enabled {
      if i > 0 {
        EnabledAreConfigured(s[1..], i - 1);
      }
    } else {
      EnabledAreConfigured(s[1..], i);
    }
  }

  lemma {:induction false} EnabledIndex(s: seq<Actuator>, k: nat) returns (i: nat)
    requires k < |s| && s[k].enabled
    ensures i < |EnabledOnly(s)| && EnabledOnly(s)[i] == s[k]
  {
    if k == 0 {
      i := 0;
    } else {
      var j := EnabledIndex(s[1..], k - 1);
      i := if s[0].enabled then j + 1 else j;
    }
  }

  ghost predicate DistinctIds(s: seq<Actuator>) {
    forall i, j | 0 <= i < j < |s| :: s[i].channelId != s[j].channelId
  }

  lemma {:induction false} EnabledDistinct(s: seq<Actuator>)
    requires DistinctIds(s)
    ensures DistinctIds(EnabledOnly(s))
  {
    if s != [] {
      EnabledDistinct(s[1..]);
      if s[0].enabled {
        var e := EnabledOnly(s[1..]);
        forall i | 0 <= i < |e| ensures e[i].channelId != s[0].channelId {
          EnabledAreConfigured(s[1..], i);
          var k :| 0 <= k < |s[1..]| && s[1..][k] == e[i];
          assert s[k + 1] == e[i];
        }
      }
    }
  }

  lemma {:induction false} PlanHolds(enabled: seq<Actuator>, w: World, i: nat)
    requires DistinctIds(enabled) && i < |enabled|
    ensures var f := PlanOf(enabled, w);
            enabled[i].channelId in f && f[enabled[i].channelId] == Wiring(enabled[i].pin, ParamsOf(enabled[i], w))
  {
    if i > 0 {
      PlanHolds(enabled[1..], w, i - 1);
    }
  }

  lemma WellFormedDistinct(c: Config)
    requires WellFormed(c)
    ensures DistinctIds(c.actuators)
  {
    var n := |c.sensors|;
    forall i, j | 0 <= i < j < |c.actuators| ensures c.actuators[i].channelId != c.actuators[j].channelId {
      assert ChannelIds(c)[n + i] == c.actuators[i].channelId && ChannelIds(c)[n + j] == c.actuators[j].channelId;
    }
  }

  // The plan's channels are exactly the enabled actuators, each on its own pin.
  ghost predicate PlanIsFile(f: Plan, actuators: seq<Actuator>, w: World) {
    && (forall k | 0 <= k < |actuators| && actuators[k].enabled ::
          actuators[k].channelId in f
          && f[actuators[k].channelId] == Wiring(actuators[k].pin, ParamsOf(actuators[k], w)))
    && (forall id | id in f :: exists k :: 0 <= k < |actuators| && actuators[k].enabled && actuators[k].channelId == id)
  }

  lemma PlanOfFile(actuators: seq<Actuator>, w: World)
    requires DistinctIds(actuators)
    ensures PlanIsFile(PlanOf(EnabledOnly(actuators), w), actuators, w)
  {
    var e := EnabledOnly(actuators);
    EnabledDistinct(actuators);
    forall k | 0 <= k < |actuators| && actuators[k].enabled
      ensures actuators[k].channelId in PlanOf(e, w)
              && PlanOf(e, w)[actuators[k].channelId] == Wiring(actuators[k].pin, ParamsOf(actuators[k], w))
    {
      var i := EnabledIndex(actuators, k);
      PlanHolds(e, w, i);
    }
    forall id | id in PlanOf(e, w)
      ensures exists k :: 0 <= k < |actuators| && actuators[k].enabled && actuators[k].channelId == id
    {
      var i := PlanMember(e, w, id);
      EnabledAreConfigured(actuators, i);
      EnabledAreEnabled(actuators, i);
      var k :| 0 <= k < |actuators| && actuators[k] == e[i];
    }
  }

  lemma {:induction false} EnabledAreEnabled(s: seq<Actuator>, i: nat)
    requires i < |EnabledOnly(s)|
    ensures EnabledOnly(s)[i].enabled
  {
    if s[0].enabled {
      if i > 0 {
        EnabledAreEnabled(s[1..], i - 1);
      }
    } else {
      EnabledAreEnabled(s[1..], i);
    }
  }

  ghost function PlanPins(f: Plan): set<int> {
    set id | id in f :: f[id].pin
  }

  lemma PlanPinsAre(e: seq<Actuator>, w: World)
    requires DistinctIds(e)
    ensures PlanPins(PlanOf(e, w)) == PinsOf(e)
  {
    var f := PlanOf(e, w);
    forall p ensures p in PlanPins(f) <==> p in PinsOf(e) {
      PinsOfMembers(e, p);
      if p in PlanPins(f) {
        var id :| id in f && f[id].pin == p;
        var i := PlanMember(e, w, id);
      }
      if p in PinsOf(e) {
        var i :| 0 <= i < |e| && e[i].pin == p;
        PlanHolds(e, w, i);
        assert f[e[i].channelId].pin == p;
      }
    }
  }

  lemma PlanSeparate(e: seq<Actuator>, w: World)
    requires DistinctPins(e)
    ensures Separate(PlanOf(e, w))
  {
    var f := PlanOf(e, w);
    forall x, y | x in f && y in f && f[x].pin == f[y].pin ensures x == y {
      var i := PlanMember(e, w, x);
      var j := PlanMember(e, w, y);
      assert e[i].pin == e[j].pin;
    }
  }

  lemma OnlyReserved(b: Gpio.Bank, after: Gpio.Bank, e: seq<Actuator>)
    requires b.dirs == map[] && ReservedAs(b, after, e)
    ensures after.dirs.Keys == PinsOf(e) && Gpio.Outputs(after) == PinsOf(e)
  {
    forall p | p in PinsOf(e) ensures p in Gpio.Outputs(after) {
      PinsOfMembers(e, p);
      var i :| 0 <= i < |e| && e[i].pin == p;
    }
  }

  // If validation and reservation succeed, the enabled actuators of the file correspond one
  // to one with the plan's channels and with distinct output pins, and no other pin is
  // reserved.
  lemma AgentIsWired(c: Config, b: Gpio.Bank, granted: set<int>, w: World)
    requires WellFormed(c)
    requires b.up && b.dirs == map[] && ReserveAll(b, c.actuators, granted).1 == Gpio.OK
    ensures var f, after := PlanOf(EnabledOnly(c.actuators), w), ReserveAll(b, c.actuators, granted).0;
            && Separate(f) && PlanIsFile(f, c.actuators, w)
            && after.dirs.Keys == PlanPins(f) && Gpio.Outputs(after) == PlanPins(f)
  {
    var e := EnabledOnly(c.actuators);
    WellFormedDistinct(c);
    assert forall i | 0 <= i < |c.actuators| :: ActuatorOk(c.actuators[i]);
    hide ReserveAll, EnabledOnly, PlanOf, PlanIsFile, PlanPins, Separate, PinsOf, ReservedAs, DistinctIds, WellFormed,
         DistinctPins;
    EnabledDistinct(c.actuators);
    PlanOfFile(c.actuators, w);
    PlanPinsAre(e, w);
    StartsExactlyWhen(b, c.actuators, granted);
    PlanSeparate(e, w);
    OnlyReserved(b, ReserveAll(b, c.actuators, granted).0, e);
  }

  // Whatever the interleaving, a relay that is high is covered, and none stays high longer
  // than its limit, plus what its handler and callback may take, after it was last commanded
  // on.
  ghost predicate SafeNow(f: Plan, s: System, id: string)
    requires Wired(f, s) && id in f
  {
    var p, ch := f[id].params, View(f, s, id);
    && Covered(ch)
    && (ch.line == 1 ==>
          ch.lastWrite.Some? && ch.now <= ch.lastWrite.value + p.handlerLatency + p.maxOn + p.latency)
  }

  lemma PlanIsSafe(f: Plan, labels: seq<Label>, id: string)
    requires Separate(f) && id in f && Sufficient(f[id].params) && Play(f, labels).Some?
    ensures SafeNow(f, Play(f, labels).value, id)
  {
    RunsAlone(f, labels, id);
    RunKeepsInv(f[id].params, Project(labels, id));
    MaxOnBound(f[id].params, Project(labels, id));
  }

  // Nor is any relay switched off by a timer sooner than its limit after it was last commanded
  // on, whatever the other channels do.
  lemma PlanIsPatient(f: Plan, labels: seq<Label>, id: string)
    requires Separate(f) && id in f && Play(f, labels).Some?
    requires Possible(f, Play(f, labels).value, At(id, Fire))
    ensures var ch := View(f, Play(f, labels).value, id);
            ch.lastWrite.Some? && (forall h | h in ch.handlers && h.Wrote? :: h.value != 1) ==>
              ch.now >= ch.lastWrite.value + f[id].params.maxOn
  {
    RunsAlone(f, labels, id);
    var ch := View(f, Play(f, labels).value, id);
    if forall h | h in ch.handlers && h.Wrote? :: h.value != 1 {
      NoEarlyFire(f[id].params, Project(labels, id));
    }
  }

  // Load: the file is validated as it stands, then its actuators take their defaults.
  function Loaded(c: Config): Config {
    c.(actuators := seq(|c.actuators|, i requires 0 <= i < |c.actuators| => Defaulted(c.actuators[i])))
  }

  lemma LoadedWellFormed(c: Config)
    requires WellFormed(c)
    ensures WellFormed(Loaded(c))
  {
    assert ChannelIds(Loaded(c)) == ChannelIds(c);
  }

  ghost predicate TimedOff(a: Actuator) {
    a.enabled ==> a.defaultState != "on" && a.maxOn >= 0
  }

  lemma LoadedSufficient(f: Plan, c: Config, w: World, id: string)
    requires forall k | 0 <= k < |c.actuators| :: TimedOff(c.actuators[k])
    requires w.concurrency == 1 && w.callbackWrites && w.shutdownWrites
    requires PlanIsFile(f, Loaded(c).actuators, w) && id in f
    ensures Sufficient(f[id].params)
  {
    var loaded := Loaded(c).actuators;
    var k :| 0 <= k < |loaded| && loaded[k].enabled && loaded[k].channelId == id;
    assert loaded[k] == Defaulted(c.actuators[k]) && TimedOff(c.actuators[k]);
  }

  // From the configuration file to the relays: whatever the enabled actuators' files say, as
  // long as no default state is "on" and no limit is negative.
  lemma AgentIsSafe(c: Config, b: Gpio.Bank, granted: set<int>, w: World, labels: seq<Label>, id: string)
    requires WellFormed(c) && forall k | 0 <= k < |c.actuators| :: TimedOff(c.actuators[k])
    requires b.up && b.dirs == map[] && ReserveAll(b, Loaded(c).actuators, granted).1 == Gpio.OK
    requires w.concurrency == 1 && w.callbackWrites && w.shutdownWrites
    ensures var f := PlanOf(EnabledOnly(Loaded(c).actuators), w);
            Separate(f) && (id in f && Play(f, labels).Some? ==> SafeNow(f, Play(f, labels).value, id))
  {
    var f := PlanOf(EnabledOnly(Loaded(c).actuators), w);
    LoadedWellFormed(c);
    hide ReserveAll, EnabledOnly, PlanOf, PlanIsFile, PlanPins, Separate, SafeNow, Play, WellFormed, Loaded, TimedOff,
         Sufficient;
    AgentIsWired(Loaded(c), b, granted, w);
    if id in f && Play(f, labels).Some? {
      LoadedSufficient(f, c, w, id);
      PlanIsSafe(f, labels, id);
    }
  }
}
