/**
 The agent's configuration: validation and the defaults of actuator channels.
 */
module Config {

  datatype Sensor = Sensor(channelId: string, profileFile: string, iface: string, slaveId: int)

  datatype Actuator = Actuator(
    channelId: string,
    kind: string,
    pin: int,
    defaultState: string,
    maxOn: int,
    enabled: bool)

  datatype Config = Config(
    gatewayId: string,
    broker: string,
    dbPath: string,
    sensors: seq<Sensor>,
    actuators: seq<Actuator>)

  predicate IdChar(c: char) {
    'A' <= c <= 'Z' || 'a' <= c <= 'z' || '0' <= c <= '9' || c == '_' || c == '-'
  }

  lemma Upper(c: char)
    ensures 'A' <= c <= 'Z' <==> c in "ABCDEFGHIJKLMNOPQRSTUVWXYZ"
  {
    var all := "ABCDEFGHIJKLMNOPQRSTUVWXYZ";
    assert 'A' <= c <= 'Z' ==> all[c as int - 'A' as int] == c;
  }

  lemma Lower(c: char)
    ensures 'a' <= c <= 'z' <==> c in "abcdefghijklmnopqrstuvwxyz"
  {
    var all := "abcdefghijklmnopqrstuvwxyz";
    assert 'a' <= c <= 'z' ==> all[c as int - 'a' as int] == c;
  }

  lemma DigitOrDash(c: char)
    ensures '0' <= c <= '9' || c == '_' || c == '-' <==> c in "0123456789_-"
  {
    var all := "0123456789_-";
    assert '0' <= c <= '9' ==> all[c as int - '0' as int] == c;
    assert all[10] == '_' && all[11] == '-';
  }

  // ^[A-Za-z0-9_-]+$
  predicate Slug(s: string) {
    s != "" && forall i | 0 <= i < |s| :: IdChar(s[i])
  }

  // In the characters themselves.
  lemma SlugExactly(s: string)
    ensures Slug(s) <==>
              s != "" && forall i | 0 <= i < |s| ::
                s[i] in "ABCDEFGHIJKLMNOPQRSTUVWXYZ" || s[i] in "abcdefghijklmnopqrstuvwxyz" || s[i] in "0123456789_-"
  {
    forall i | 0 <= i < |s| ensures IdChar(s[i]) <==>
        s[i] in "ABCDEFGHIJKLMNOPQRSTUVWXYZ" || s[i] in "abcdefghijklmnopqrstuvwxyz" || s[i] in "0123456789_-"
    {
      Upper(s[i]);
      Lower(s[i]);
      DigitOrDash(s[i]);
    }
    hide IdChar;
  }

  ghost predicate SensorOk(s: Sensor) {
    s.channelId != "" && s.profileFile != "" && s.iface != "" && 1 <= s.slaveId <= 247
  }

  ghost predicate ActuatorOk(a: Actuator) {
    a.channelId != "" && a.kind == "relay" && 0 <= a.pin <= 53
  }

  // Sensors and actuators share one namespace of channel ids.
  function ChannelIds(c: Config): (ids: seq<string>)
    ensures |ids| == |c.sensors| + |c.actuators|
  {
    seq(|c.sensors|, i requires 0 <= i < |c.sensors| => c.sensors[i].channelId)
    + seq(|c.actuators|, i requires 0 <= i < |c.actuators| => c.actuators[i].channelId)
  }

  ghost predicate Distinct<T>(s: seq<T>) {
    forall i, j | 0 <= i < j < |s| :: s[i] != s[j]
  }

  ghost predicate WellFormed(c: Config) {
    && Slug(c.gatewayId) && |c.gatewayId| <= 64
    && c.broker != "" && c.dbPath != ""
    && (forall i | 0 <= i < |c.sensors| :: SensorOk(c.sensors[i]))
    && (forall i | 0 <= i < |c.actuators| :: ActuatorOk(c.actuators[i]))
    && Distinct(ChannelIds(c))
  }

  // Distinct ids, list by list and across the two lists.
  lemma DistinctExactly(c: Config)
    ensures Distinct(ChannelIds(c)) <==>
              && (forall i, j | 0 <= i < j < |c.sensors| :: c.sensors[i].channelId != c.sensors[j].channelId)
              && (forall i, j | 0 <= i < j < |c.actuators| :: c.actuators[i].channelId != c.actuators[j].channelId)
              && (forall i, j | 0 <= i < |c.sensors| && 0 <= j < |c.actuators| ::
                    c.sensors[i].channelId != c.actuators[j].channelId)
  {
    var ids, n := ChannelIds(c), |c.sensors|;
    assert forall i | 0 <= i < n :: c.sensors[i].channelId == ids[i];
    assert forall i | 0 <= i < |c.actuators| :: c.actuators[i].channelId == ids[n + i];
    assert forall i | n <= i < |ids| :: ids[i] == c.actuators[i - n].channelId;
    hide ChannelIds;
  }

  // The conditions of a well-formed file, one by one.
  lemma WellFormedExactlyWhen(c: Config)
    ensures WellFormed(c) <==>
              && 1 <= |c.gatewayId| <= 64
              && (forall i | 0 <= i < |c.gatewayId| ::
                    || c.gatewayId[i] in "ABCDEFGHIJKLMNOPQRSTUVWXYZ" || c.gatewayId[i] in "abcdefghijklmnopqrstuvwxyz"
                    || c.gatewayId[i] in "0123456789_-")
              && c.broker != "" && c.dbPath != ""
              && (forall i | 0 <= i < |c.sensors| ::
                    && c.sensors[i].channelId != "" && c.sensors[i].profileFile != "" && c.sensors[i].iface != ""
                    && 1 <= c.sensors[i].slaveId <= 247)
              && (forall i | 0 <= i < |c.actuators| ::
                    && c.actuators[i].channelId != "" && c.actuators[i].kind == "relay"
                    && 0 <= c.actuators[i].pin <= 53)
              && (forall i, j | 0 <= i < j < |c.sensors| :: c.sensors[i].channelId != c.sensors[j].channelId)
              && (forall i, j | 0 <= i < j < |c.actuators| :: c.actuators[i].channelId != c.actuators[j].channelId)
              && (forall i, j | 0 <= i < |c.sensors| && 0 <= j < |c.actuators| ::
                    c.sensors[i].channelId != c.actuators[j].channelId)
  {
    DistinctExactly(c);
    SlugExactly(c.gatewayId);
    hide Slug, Distinct, ChannelIds;
  }

  ghost function Members<T>(s: seq<T>): set<T> {
    set x | x in s
  }

  lemma Repeated<T>(s: seq<T>, n: nat)
    requires n < |s| && s[n] in s[..n]
    ensures !Distinct(s)
  {
  }

  lemma OneMore<T>(s: seq<T>, n: nat)
    requires n < |s| && Distinct(s[..n])
    ensures s[n] !in s[..n] ==> Distinct(s[..n + 1])
    ensures Members(s[..n + 1]) == Members(s[..n]) + {s[n]}
    ensures s[n] in s[..n] <==> s[n] in Members(s[..n])
  {
    assert s[..n + 1] == s[..n] + [s[n]];
  }

  method ValidateSensors(c: Config) returns (ok: bool, seen: set<string>)
    ensures ok <==> (forall i | 0 <= i < |c.sensors| :: SensorOk(c.sensors[i]))
                    && Distinct(ChannelIds(c)[..|c.sensors|])
    ensures ok ==> seen == Members(ChannelIds(c)[..|c.sensors|])
  {
    var ids := ChannelIds(c);
    seen := {};
    for i := 0 to |c.sensors|
      invariant seen == Members(ids[..i])
      invariant forall j | 0 <= j < i :: SensorOk(c.sensors[j])
      invariant Distinct(ids[..i])
    {
      var s := c.sensors[i];
      assert ids[i] == s.channelId;
      OneMore(ids, i);
      if s.channelId == "" { return false, {}; }
      if s.channelId in seen {
        assert ids[i] in ids[..|c.sensors|][..i];
        Repeated(ids[..|c.sensors|], i);
        return false, {};
      }
      seen := seen + {s.channelId};
      if s.profileFile == "" || s.iface == "" || s.slaveId < 1 || s.slaveId > 247 { return false, {}; }
    }
    return true, seen;
  }

  // gatewayIDPattern.MatchString, on a non-empty id.
  method MatchesIdPattern(id: string) returns (ok: bool)
    requires id != ""
    ensures ok <==> Slug(id)
  {
    for i := 0 to |id|
      invariant forall j | 0 <= j < i :: IdChar(id[j])
    {
      if !IdChar(id[i]) { return false; }
    }
    return true;
  }

  // The actuators, after sensors whose ids are already in seen.
  method ValidateActuators(c: Config, seen0: set<string>) returns (ok: bool)
    requires seen0 == Members(ChannelIds(c)[..|c.sensors|]) && Distinct(ChannelIds(c)[..|c.sensors|])
    ensures ok <==> (forall i | 0 <= i < |c.actuators| :: ActuatorOk(c.actuators[i])) && Distinct(ChannelIds(c))
  {
    hide Distinct, Members;
    var ids, n := ChannelIds(c), |c.sensors|;
    var seen := seen0;
    for i := 0 to |c.actuators|
      invariant seen == Members(ids[..n + i])
      invariant forall j | 0 <= j < i :: ActuatorOk(c.actuators[j])
      invariant Distinct(ids[..n + i])
    {
      var a := c.actuators[i];
      assert ids[n + i] == a.channelId;
      OneMore(ids, n + i);
      if a.channelId == "" { return false; }
      if a.channelId in seen {
        Repeated(ids, n + i);
        return false;
      }
      seen := seen + {a.channelId};
      if a.kind != "relay" || a.pin < 0 || a.pin > 53 { return false; }
    }
    assert ids[..n + |c.actuators|] == ids;
    return true;
  }

  method Validate(c: Config) returns (ok: bool)
    ensures ok <==> WellFormed(c)
  {
    if c.gatewayId == "" { return false; }
    hide Slug, SensorOk, ActuatorOk;
    var id := MatchesIdPattern(c.gatewayId);
    if !id || |c.gatewayId| > 64 || c.broker == "" || c.dbPath == "" { return false; }
    var seen: set<string>;
    ok, seen := ValidateSensors(c);
    if !ok {
      assert Distinct(ChannelIds(c)) ==> Distinct(ChannelIds(c)[..|c.sensors|]);
      return;
    }
    ok := ValidateActuators(c, seen);
  }

  function Defaulted(a: Actuator): Actuator {
    a.(maxOn := if a.maxOn == 0 then 300 else a.maxOn,
       defaultState := if a.defaultState == "" then "off" else a.defaultState)
  }

  // The actuator part of applyDefaults.
  method ApplyActuatorDefaults(actuators: array<Actuator>)
    modifies actuators
    ensures forall i | 0 <= i < actuators.Length :: actuators[i] == Defaulted(old(actuators[i]))
    ensures forall i | 0 <= i < actuators.Length ::
              var a := old(actuators[i]);
              && actuators[i].maxOn == (if a.maxOn == 0 then 300 else a.maxOn)
              && actuators[i].defaultState == (if a.defaultState == "" then "off" else a.defaultState)
              && actuators[i].(maxOn := a.maxOn, defaultState := a.defaultState) == a
  {
    for i := 0 to actuators.Length
      invariant forall j | 0 <= j < i :: actuators[j] == Defaulted(old(actuators[j]))
      invariant forall j | i <= j < actuators.Length :: actuators[j] == old(actuators[j])
    {
      if actuators[i].maxOn == 0 {
        actuators[i] := actuators[i].(maxOn := 300);
      }
      if actuators[i].defaultState == "" {
        actuators[i] := actuators[i].(defaultState := "off");
      }
    }
  }
}
