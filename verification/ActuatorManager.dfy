/**
 The actuator manager: reserving the outputs, executing a command, the auto-OFF callback
 and switching everything off, on the channel objects and the GPIO table they share.
 */
module ActuatorManager {
  import opened Options
  import opened Config
  import opened CommandCheck
  import opened Gpio
  import MaxOn

  // ---------------------------------------------------------------- reserving the pins

  function InitialValue(a: Actuator): int {
    if a.defaultState == "on" then 1 else 0
  }

  function EnabledOnly(actuators: seq<Actuator>): seq<Actuator> {
    if actuators == [] then []
    else if actuators[0].enabled then [actuators[0]] + EnabledOnly(actuators[1..])
    else EnabledOnly(actuators[1..])
  }

  // What the loop of NewManager does to the pin table; `granted` are the lines libgpiod
  // hands out.
  function ReserveAll(b: Bank, actuators: seq<Actuator>, granted: set<int>): (Bank, Code)
    decreases |actuators|
  {
    if actuators == [] then (b, OK)
    else
      var a := actuators[0];
      if !a.enabled then ReserveAll(b, actuators[1..], granted)
      else
        var (b', rc) := Reserved(b, a.pin, Output, InitialValue(a), a.pin in granted);
        if rc != OK then (b', rc) else ReserveAll(b', actuators[1..], granted)
  }

  ghost predicate DistinctPins(actuators: seq<Actuator>) {
    forall i, j | 0 <= i < j < |actuators| :: actuators[i].pin != actuators[j].pin
  }

  ghost predicate Reservable(dirs: map<int, Direction>, enabled: seq<Actuator>, granted: set<int>) {
    && DistinctPins(enabled)
    && (forall i | 0 <= i < |enabled| :: enabled[i].pin in granted && enabled[i].pin !in dirs)
    && |dirs| + |enabled| <= MAX_LINES
  }

  lemma ReservableStep(dirs: map<int, Direction>, a: Actuator, rest: seq<Actuator>, granted: set<int>)
    requires a.pin in granted && a.pin !in dirs
    ensures Reservable(dirs, [a] + rest, granted) <==> Reservable(dirs[a.pin := Output], rest, granted)
  {
    var dirs', all := dirs[a.pin := Output], [a] + rest;
    if Reservable(dirs, all, granted) {
      forall i | 0 <= i < |rest| ensures rest[i].pin in granted && rest[i].pin !in dirs' {
        assert all[i + 1] == rest[i] && all[0] == a;
      }
      forall i, j | 0 <= i < j < |rest| ensures rest[i].pin != rest[j].pin {
        assert all[i + 1] == rest[i] && all[j + 1] == rest[j];
      }
    }
    if Reservable(dirs', rest, granted) {
      forall i, j | 0 <= i < j < |all| ensures all[i].pin != all[j].pin {
        if i == 0 { assert all[j] == rest[j - 1]; }
      }
    }
  }

  function PinsOf(enabled: seq<Actuator>): set<int> {
    if enabled == [] then {} else {enabled[0].pin} + PinsOf(enabled[1..])
  }

  lemma {:induction false} PinsOfMembers(enabled: seq<Actuator>, p: int)
    ensures p in PinsOf(enabled) <==> exists i :: 0 <= i < |enabled| && enabled[i].pin == p
  {
    if enabled != [] {
      var rest := enabled[1..];
      PinsOfMembers(rest, p);
      if i :| 0 <= i < |enabled| && enabled[i].pin == p && i > 0 {
        assert rest[i - 1].pin == p;
      }
      if j :| 0 <= j < |rest| && rest[j].pin == p {
        assert enabled[j + 1].pin == p;
      }
    }
  }

  // What reserving a list of outputs leaves in the table.
  ghost predicate ReservedAs(b: Bank, b': Bank, e: seq<Actuator>) {
    && b'.up
    && b'.dirs.Keys == b.dirs.Keys + PinsOf(e)
    && (forall p | p in b.dirs && p !in PinsOf(e) :: b'.dirs[p] == b.dirs[p])
    && (forall p | p in b.level && p !in PinsOf(e) :: p in b'.level && b'.level[p] == b.level[p])
    && (forall i | 0 <= i < |e| :: e[i].pin in b'.dirs && b'.dirs[e[i].pin] == Output)
    && (forall i | 0 <= i < |e| :: e[i].pin in b'.level && b'.level[e[i].pin] == InitialValue(e[i]))
  }

  // The agent starts exactly when the enabled actuators sit on distinct free pins that the
  // chip grants and the table has room for them; then exactly those pins have become
  // outputs, one per enabled actuator, holding their default state.
  lemma {:induction false} StartsExactlyWhen(b: Bank, actuators: seq<Actuator>, granted: set<int>)
    requires b.up && |b.dirs| <= MAX_LINES
    requires forall i | 0 <= i < |actuators| :: 0 <= actuators[i].pin <= MAX_PIN
    ensures ReserveAll(b, actuators, granted).1 == OK <==> Reservable(b.dirs, EnabledOnly(actuators), granted)
    ensures ReserveAll(b, actuators, granted).1 == OK ==>
              ReservedAs(b, ReserveAll(b, actuators, granted).0, EnabledOnly(actuators))
    decreases |actuators|, 1
  {
    if actuators != [] {
      assert actuators == [actuators[0]] + actuators[1..];
      var a, rest := actuators[0], actuators[1..];
      StartsStep(b, a, rest, granted);
    }
  }

  lemma {:induction false} StartsStep(b: Bank, a: Actuator, rest: seq<Actuator>, granted: set<int>)
    requires b.up && |b.dirs| <= MAX_LINES && 0 <= a.pin <= MAX_PIN
    requires forall i | 0 <= i < |rest| :: 0 <= rest[i].pin <= MAX_PIN
    ensures var all := [a] + rest;
            && (ReserveAll(b, all, granted).1 == OK <==> Reservable(b.dirs, EnabledOnly(all), granted))
            && (ReserveAll(b, all, granted).1 == OK ==>
                  ReservedAs(b, ReserveAll(b, all, granted).0, EnabledOnly(all)))
    decreases |rest| + 1, 0
  {
    var all := [a] + rest;
    assert all[1..] == rest;
    if !a.enabled {
      StartsExactlyWhen(b, rest, granted);
    } else {
      var e := EnabledOnly(rest);
      assert EnabledOnly(all)[0] == a;
      var (b1, rc) := Reserved(b, a.pin, Output, InitialValue(a), a.pin in granted);
      if rc == OK {
        StartsExactlyWhen(b1, rest, granted);
        ReservableStep(b.dirs, a, e, granted);
        if ReserveAll(b, all, granted).1 == OK {
          Reassemble(b, b1, ReserveAll(b, all, granted).0, a, e);
        }
      }
    }
  }

  lemma Reassemble(b: Bank, b1: Bank, b': Bank, a: Actuator, e: seq<Actuator>)
    requires b1.dirs == b.dirs[a.pin := Output] && b1.level == b.level[a.pin := InitialValue(a)]
    requires ReservedAs(b1, b', e)
    requires forall i | 0 <= i < |e| :: e[i].pin !in b1.dirs
    ensures ReservedAs(b, b', [a] + e)
  {
    var all := [a] + e;
    assert all[1..] == e;
    assert a.pin !in PinsOf(e) by { PinsOfMembers(e, a.pin); }
    forall i | 0 <= i < |all| ensures all[i].pin in b'.dirs && b'.dirs[all[i].pin] == Output {
      if i > 0 { assert all[i] == e[i - 1]; }
    }
    forall i | 0 <= i < |all| ensures all[i].pin in b'.level && b'.level[all[i].pin] == InitialValue(all[i]) {
      if i > 0 { assert all[i] == e[i - 1]; }
    }
  }

  // ---------------------------------------------------------------- the manager object

  class ChannelState {
    const pin: int
    const maxOn: int
    var currentValue: int
    var armed: Option<int>  // when the running max-on timer fires

    constructor (pin: int, maxOn: int, initial: int)
      ensures this.pin == pin && this.maxOn == maxOn && currentValue == initial && armed == None
    {
      this.pin, this.maxOn, currentValue, armed := pin, maxOn, initial, None;
    }
  }

  predicate IsOutput(b: Bank, pin: int) {
    pin in b.dirs && b.dirs[pin] == Output
  }

  class Manager {
    const gatewayId: string
    const table: GpioTable
    var channels: map<string, ChannelState>

    ghost function States(): set<ChannelState>
      reads this
    {
      channels.Values
    }

    // No two channels have the same pin, and every pin was driven when it was reserved.
    ghost predicate Valid()
      reads this, table, table.slots
    {
      && table.Valid()
      && (forall id | id in channels :: channels[id].pin in table.level)
      && (forall c, d | c in channels && d in channels && channels[c].pin == channels[d].pin :: c == d)
    }

    // Every channel owns an output of the table, until the HAL is cleaned up.
    ghost predicate Owns()
      reads this, table, table.slots
    {
      forall id | id in channels :: IsOutput(table.View(), channels[id].pin)
    }

    constructor (gatewayId: string, table: GpioTable)
      ensures this.gatewayId == gatewayId && this.table == table && channels == map[]
    {
      this.gatewayId, this.table, channels := gatewayId, table, map[];
    }

    // The channel as the step machine sees it at an instant when no handler or callback of it
    // is running; when it was last driven high is not recorded.
    ghost function ChannelAt(id: string, now: int, lastWrite: Option<int>): MaxOn.Channel
      requires Valid() && id in channels
      reads this, table, table.slots, States()
    {
      var ch := channels[id];
      MaxOn.Channel(now, table.level[ch.pin], ch.currentValue, ch.armed, multiset{}, multiset{}, lastWrite)
    }

    method Register(a: Actuator, initial: int, ghost done: seq<Actuator>)
      requires a.enabled && Holds(done) && initial == InitialValue(a)
      requires Valid() && Owns() && a.channelId !in channels
      requires IsOutput(table.View(), a.pin) && a.pin in table.level
      requires forall id | id in channels :: channels[id].pin != a.pin
      modifies this
      ensures Valid() && Owns()
      ensures Holds(done + [a]) && fresh(States() - old(States()))
    {
      hide Dirs, Coherent, GpioTable.Valid;
      var state := new ChannelState(a.pin, a.maxOn, initial);
      channels := channels[a.channelId := state];
      EnabledIdsNext(done, a);
    }

    // One turn of the loop of NewManager.
    method AddChannel(a: Actuator, granted: set<int>, ghost done: seq<Actuator>) returns (rc: Code)
      requires a.enabled && Holds(done)
      requires Valid() && Owns() && a.channelId !in channels
      modifies this, table`level, table.slots
      ensures Valid() && Owns()
      ensures (table.View(), rc) == Reserved(old(table.View()), a.pin, Output, InitialValue(a), a.pin in granted)
      ensures rc != OK ==> channels == old(channels)
      ensures rc == OK ==> Holds(done + [a]) && fresh(States() - old(States()))
      ensures rc == OK ==> table.level == old(table.level)[a.pin := if a.defaultState == "on" then 1 else 0]
    {
      hide Dirs, Coherent, Blank;
      var initial := if a.defaultState == "on" then 1 else 0;
      rc := table.Request(a.pin, Output, initial, a.pin in granted);
      if rc == OK {
        Register(a, initial, done);
      }
    }

    lemma SkipDisabled(a: Actuator, done: seq<Actuator>)
      requires !a.enabled && Holds(done)
      ensures Holds(done + [a])
    {
      EnabledIdsNext(done, a);
    }

    static method NewManager(actuators: seq<Actuator>, gatewayId: string, table: GpioTable, granted: set<int>)
      returns (m: Manager, rc: Code)
      requires table.Valid()
      requires forall i, j | 0 <= i < j < |actuators| :: actuators[i].channelId != actuators[j].channelId
      modifies table`level, table.slots
      ensures fresh(m) && fresh(m.States()) && m.table == table && m.gatewayId == gatewayId
      ensures m.Valid() && m.Owns()
      ensures (table.View(), rc) == ReserveAll(old(table.View()), actuators, granted)
      ensures rc == OK ==> m.Holds(actuators)
      ensures rc == OK ==> forall i | 0 <= i < |actuators| && actuators[i].enabled ::
                var a := actuators[i];
                && a.channelId in m.channels && m.channels[a.channelId].pin == a.pin
                && m.channels[a.channelId].maxOn == a.maxOn && m.channels[a.channelId].armed == None
                && m.channels[a.channelId].currentValue == (if a.defaultState == "on" then 1 else 0)
    {
      hide Dirs, Coherent, Blank, Sound, Reserved, GpioTable.Valid;
      m := new Manager(gatewayId, table);
      rc := OK;
      for i := 0 to |actuators|
        invariant fresh(m) && m.table == table && m.gatewayId == gatewayId && fresh(m.States())
        invariant m.Valid() && m.Owns()
        invariant ReserveAll(old(table.View()), actuators, granted) == ReserveAll(table.View(), actuators[i..], granted)
        invariant rc == OK && m.Holds(actuators[..i])
      {
        var a := actuators[i];
        assert actuators[i..][0] == a && actuators[i..][1..] == actuators[i + 1..];
        assert actuators[..i + 1] == actuators[..i] + [a];
        if a.enabled {
          rc := m.AddChannel(a, granted, actuators[..i]);
          if rc != OK { return; }
        } else {
          m.SkipDisabled(a, actuators[..i]);
        }
      }
      assert actuators[..|actuators|] == actuators && actuators[|actuators|..] == [];
    }

    // The GPIO write of a command and, if it succeeds, the record and the timer armed at `later`.
    method Actuate(id: string, v: int, later: int, writeOk: bool, ghost lastWrite: Option<int>) returns (ok: bool)
      requires Valid() && id in channels && (v == 0 || v == 1)
      modifies table`level, {channels[id]}
      ensures Valid() && (old(Owns()) ==> Owns())
      ensures ok == (IsOutput(old(table.View()), channels[id].pin) && writeOk)
      ensures table.View() == Written(old(table.View()), channels[id].pin, v, writeOk).0
      ensures ok ==> table.level == old(table.level)[channels[id].pin := v] && channels[id].currentValue == v
      ensures ok ==> channels[id].armed ==
                       if v == 1 && channels[id].maxOn > 0 then Some(later + channels[id].maxOn) else None
      ensures ok ==> ChannelAt(id, later, if v == 1 then Some(later) else lastWrite)
                     == MaxOn.Commanded(old(ChannelAt(id, later, lastWrite)), channels[id].maxOn, v)
      ensures !ok ==> table.View() == old(table.View()) && unchanged(channels[id])
    {
      var state := channels[id];
      var rc := table.Set(state.pin, v, writeOk);
      if rc != OK { return false; }
      state.currentValue := v;
      state.armed := None;
      if v == 1 && state.maxOn > 0 {
        state.armed := Some(later + state.maxOn);
      }
      return true;
    }

    // The handler of one command when no other step interleaves; `now` is read before the
    // checks and `later` when the timer is armed. Without its output, as after the HAL is
    // cleaned up, the command fails.
    method Execute(req: Request, now: int, later: int, writeOk: bool, ghost lastWrite: Option<int>)
      returns (status: Status, reason: Option<Reason>)
      requires Valid()
      modifies table`level, States()
      ensures Valid() && channels == old(channels) && (old(Owns()) ==> Owns())
      ensures match Check(req, gatewayId, now, channels.Keys)
              case Refuse(r) => status == Rejected && reason == Some(r)
              case Proceed(v) =>
                && status == (if IsOutput(old(table.View()), channels[req.channelId].pin) && writeOk
                              then Executed else Failed)
                && reason == None
      ensures status == Executed ==>
                var ch, v := channels[req.channelId], ActionToValue(req.action).value;
                && table.View() == Written(old(table.View()), ch.pin, v, writeOk).0
                && ChannelAt(req.channelId, later, if v == 1 then Some(later) else lastWrite)
                   == MaxOn.Commanded(old(ChannelAt(req.channelId, later, lastWrite)), ch.maxOn, v)
      ensures status == Executed && req.action in {"ON", "on", "1", "true"} ==>
                var ch := channels[req.channelId];
                && table.level == old(table.level)[ch.pin := 1] && ch.currentValue == 1
                && ch.armed == if ch.maxOn > 0 then Some(later + ch.maxOn) else None
      ensures status == Executed && req.action in {"OFF", "off", "0", "false"} ==>
                var ch := channels[req.channelId];
                && table.level == old(table.level)[ch.pin := 0] && ch.currentValue == 0 && ch.armed == None
      ensures status == Executed || status == Failed ==>
                req.action in {"ON", "on", "1", "true", "OFF", "off", "0", "false"}
      ensures status != Executed ==> table.View() == old(table.View())
      ensures forall id | id in channels && !(status == Executed && id == req.channelId) :: unchanged(channels[id])
    {
      hide Dirs, Coherent, Blank, Sound, Written, GpioTable.Valid, ActionToValue;
      if req.commandId == "" { return Rejected, Some(MissingCommandId); }
      if req.gatewayId != "" && req.gatewayId != gatewayId { return Rejected, Some(WrongGateway); }
      if req.expiresAt != NoExpiry {
        if req.expiresAt.Unparsable? { return Rejected, Some(InvalidExpiry); }
        if now > req.expiresAt.time { return Rejected, Some(Expired); }
      }
      if req.channelId !in channels { return Rejected, Some(UnknownChannel); }
      ActionWords(req.action);
      var value := ActionToValue(req.action);
      if value.None? { return Rejected, Some(InvalidAction); }
      var ok := Actuate(req.channelId, value.value, later, writeOk, lastWrite);
      return if ok then Executed else Failed, None;
    }

    // The callback of an expired max-on timer.
    method AutoOff(id: string, writeOk: bool, ghost now: int, ghost lastWrite: Option<int>)
      requires Valid() && id in channels
      modifies table`level, {channels[id]}
      ensures Valid() && (old(Owns()) ==> Owns())
      ensures table.View() == Written(old(table.View()), channels[id].pin, 0, writeOk).0
      ensures ChannelAt(id, now, lastWrite) ==
              MaxOn.Expired(old(ChannelAt(id, now, lastWrite)),
                            IsOutput(old(table.View()), channels[id].pin) && writeOk)
      ensures IsOutput(old(table.View()), channels[id].pin) && writeOk ==>
                table.level == old(table.level)[channels[id].pin := 0] && channels[id].currentValue == 0
      ensures !(IsOutput(old(table.View()), channels[id].pin) && writeOk) ==>
                table.level == old(table.level) && channels[id].currentValue == old(channels[id].currentValue)
      ensures channels[id].armed == old(channels[id].armed)
    {
      var rc := table.Set(channels[id].pin, 0, writeOk);
      if rc == OK {
        channels[id].currentValue := 0;
      }
    }

    ghost function PinMap(): map<string, int>
      reads this
    {
      map id | id in channels :: channels[id].pin
    }

    // Everything but the channels in `left` is off; b0 was the table before.
    ghost predicate OffBut(left: set<string>, b0: Bank, stuck: set<int>)
      reads this, table, table.slots, States()
    {
      && table.View() == AllOff(b0, Handled(PinMap(), left) - stuck)
      && forall id | id in channels && id !in left :: channels[id].currentValue == 0 && channels[id].armed == None
    }

    method SwitchOff(id: string, stuck: set<int>, ghost now: int, ghost lastWrite: Option<int>)
      requires Valid() && id in channels
      modifies table`level, {channels[id]}
      ensures Valid() && table.View() == AllOff(old(table.View()), {channels[id].pin} - stuck)
      ensures channels[id].currentValue == 0 && channels[id].armed == None
      ensures ChannelAt(id, now, lastWrite) ==
              MaxOn.Silenced(old(ChannelAt(id, now, lastWrite)),
                             IsOutput(old(table.View()), channels[id].pin) && channels[id].pin !in stuck)
    {
      var state := channels[id];
      WrittenIsOff(table.View(), state.pin, stuck);
      state.armed := None;
      var rc := table.Set(state.pin, 0, state.pin !in stuck);
      state.currentValue := 0;
    }

    // One turn of the loop of assertAllOff.
    method SwitchOffNext(id: string, stuck: set<int>, ghost left: set<string>, ghost b0: Bank)
      requires Valid() && id in channels && id in left
      requires OffBut(left, b0, stuck)
      modifies table`level, {channels[id]}
      ensures Valid() && OffBut(left - {id}, b0, stuck)
    {
      hide Dirs, Coherent, GpioTable.Valid;
      ghost var b1, pins := table.View(), PinMap();
      SwitchOff(id, stuck, 0, None);
      AllOffHandled(b0, b1, table.View(), pins, left, id, stuck);
    }

    // assertAllOff: every timer stopped, every pin of the manager driven low if it can be.
    method AssertAllOff(stuck: set<int>)
      requires Valid()
      modifies table`level, States()
      ensures Valid() && channels == old(channels) && (old(Owns()) ==> Owns())
      ensures table.View() == AllOff(old(table.View()), PinMap().Values - stuck)
      ensures forall id | id in channels :: channels[id].currentValue == 0 && channels[id].armed == None
    {
      hide Dirs, Coherent, GpioTable.Valid;
      ghost var b0 := table.View();
      var left := channels.Keys;
      HandledNone(PinMap(), b0, stuck);
      while left != {}
        invariant left <= channels.Keys && Valid() && channels == old(channels)
        invariant OffBut(left, b0, stuck)
        decreases left
      {
        var id :| id in left;
        SwitchOffNext(id, stuck, left, b0);
        left := left - {id};
      }
      HandledAll(PinMap());
    }

    // One channel per enabled actuator, set up as configured, and no other.
    ghost predicate Holds(actuators: seq<Actuator>)
      reads this, States()
    {
      && (forall i | 0 <= i < |actuators| && actuators[i].enabled ::
            actuators[i].channelId in channels && ConfiguredAs(channels[actuators[i].channelId], actuators[i]))
      && channels.Keys == EnabledIds(actuators)
    }
  }

  // Those of the pins that are outputs are driven to 0.
  ghost function AllOff(b: Bank, pins: set<int>): Bank {
    b.(level := b.level + map p | p in pins * Outputs(b) :: 0)
  }

  lemma WrittenIsOff(b: Bank, pin: int, stuck: set<int>)
    requires Sound(b)
    ensures Written(b, pin, 0, pin !in stuck).0 == AllOff(b, {pin} - stuck)
  {
    var outs := Outputs(b);
    var hit := ({pin} - stuck) * outs;
    assert !b.up ==> outs == {};
    hide Sound, Outputs;
    if pin in outs && pin !in stuck {
      assert hit == {pin};
      AddZero(b.level, hit, pin);
    } else {
      assert hit == {};
      AddNothing(b.level, hit);
    }
  }

  lemma AddNothing(level: map<int, int>, pins: set<int>)
    requires pins == {}
    ensures level + (map p | p in pins :: 0) == level
  {
  }

  lemma AddZero(level: map<int, int>, pins: set<int>, pin: int)
    requires pins == {pin}
    ensures level + (map p | p in pins :: 0) == level[pin := 0]
  {
  }

  lemma AllOffNext(b0: Bank, b1: Bank, b2: Bank, pins: set<int>, p: int, stuck: set<int>)
    requires b1 == AllOff(b0, pins - stuck) && b2 == AllOff(b1, {p} - stuck)
    ensures b2 == AllOff(b0, pins + {p} - stuck)
  {
    var outs, q, r := Outputs(b0), pins - stuck, {p} - stuck;
    assert Outputs(b1) == outs && pins + {p} - stuck == q + r;
    hide Outputs;
    assert (q + r) * outs == q * outs + r * outs;
    ZerosUnion(b0.level, q * outs, r * outs);
  }

  lemma ZerosUnion(level: map<int, int>, a: set<int>, b: set<int>)
    ensures level + (map p | p in a :: 0) + (map p | p in b :: 0) == level + (map p | p in a + b :: 0)
  {
  }

  ghost function Handled(pins: map<string, int>, left: set<string>): set<int> {
    set id | id in pins && id !in left :: pins[id]
  }

  lemma HandledNext(pins: map<string, int>, left: set<string>, id: string)
    requires id in pins && id in left
    ensures Handled(pins, left - {id}) == Handled(pins, left) + {pins[id]}
  {
  }

  lemma HandledAll(pins: map<string, int>)
    ensures Handled(pins, {}) == pins.Values
  {
  }

  lemma HandledNone(pins: map<string, int>, b: Bank, stuck: set<int>)
    ensures b == AllOff(b, Handled(pins, pins.Keys) - stuck)
  {
  }

  lemma AllOffHandled(b0: Bank, b1: Bank, b2: Bank, pins: map<string, int>, left: set<string>, id: string,
                      stuck: set<int>)
    requires id in pins && id in left
    requires b1 == AllOff(b0, Handled(pins, left) - stuck) && b2 == AllOff(b1, {pins[id]} - stuck)
    ensures b2 == AllOff(b0, Handled(pins, left - {id}) - stuck)
  {
    HandledNext(pins, left, id);
    AllOffNext(b0, b1, b2, Handled(pins, left), pins[id], stuck);
  }

  ghost function EnabledIds(actuators: seq<Actuator>): set<string> {
    set i | 0 <= i < |actuators| && actuators[i].enabled :: actuators[i].channelId
  }

  lemma EnabledIdsNext(done: seq<Actuator>, a: Actuator)
    ensures EnabledIds(done + [a]) == EnabledIds(done) + if a.enabled then {a.channelId} else {}
  {
    var all := done + [a];
    assert all[|done|] == a;
    assert forall i | 0 <= i < |done| :: all[i] == done[i];
  }

  ghost predicate ConfiguredAs(state: ChannelState, a: Actuator)
    reads state
  {
    state.pin == a.pin && state.maxOn == a.maxOn && state.currentValue == InitialValue(a) && state.armed == None
  }
}
