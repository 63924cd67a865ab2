/**
 Gateway presence: what telemetry, heartbeat and state messages and the offline detector do
 to a gateway's status and last_seen_at.
 */
module Presence {
  import opened Options

  datatype Status = Online | Offline | Shutdown

  datatype Gateway = Gateway(status: Status, lastSeen: Option<int>)

  const OFFLINE_THRESHOLD: int := 90

  // parse_iso8601: a missing timestamp is the server's current time.
  function Stamp(timestamp: Option<int>, now: int): int {
    if timestamp.Some? then timestamp.value else now
  }

  // The status field of a state message: absent, one of the three, or anything else.
  datatype Claim = Absent | Known(status: Status) | Unknown

  datatype Message =
    | Telemetry(timestamp: Option<int>)
    | Heartbeat(timestamp: Option<int>)
    | State(claim: Claim, lwt: bool, timestamp: Option<int>)

  function Heard(g: Gateway, m: Message, now: int): Gateway {
    match m
    case Telemetry(ts) => Gateway(Online, Some(Stamp(ts, now)))
    case Heartbeat(ts) => Gateway(if g.status == Offline then Online else g.status, Some(Stamp(ts, now)))
    case State(claim, lwt, ts) =>
      var status := if claim.Known? then claim.status else if claim.Absent? then Online else Offline;
      var seen :=
        if claim == Known(Online) || claim == Absent then Some(Stamp(ts, now))
        else if claim == Known(Offline) && lwt then Some(now)
        else g.lastSeen;
      Gateway(status, seen)
  }

  function Checked(g: Gateway, now: int): Gateway {
    if g.status == Online && (g.lastSeen.None? || g.lastSeen.value < now - OFFLINE_THRESHOLD)
    then g.(status := Offline) else g
  }

  class GatewayTable {
    var rows: map<int, Gateway>

    constructor (rows: map<int, Gateway>)
      ensures this.rows == rows
    {
      this.rows := rows;
    }

    method HandleHeartbeat(id: int, timestamp: Option<int>, now: int)
      modifies this
      ensures rows == if id in old(rows) then old(rows)[id := Heard(old(rows)[id], Heartbeat(timestamp), now)]
                      else old(rows)
      ensures rows.Keys == old(rows).Keys
      ensures forall other | other in rows && other != id :: rows[other] == old(rows)[other]
      ensures id in rows ==>
                && rows[id].lastSeen == Some(if timestamp.Some? then timestamp.value else now)
                && rows[id].status == if old(rows)[id].status == Shutdown then Shutdown else Online
    {
      if id !in rows { return; }
      var gw := rows[id];
      gw := gw.(lastSeen := Some(Stamp(timestamp, now)));
      if gw.status == Offline {
        gw := gw.(status := Online);
      }
      rows := rows[id := gw];
    }

    method HandleState(id: int, claim: Claim, lwt: bool, timestamp: Option<int>, now: int)
      modifies this
      ensures rows == if id in old(rows) then old(rows)[id := Heard(old(rows)[id], State(claim, lwt, timestamp), now)]
                      else old(rows)
      ensures rows.Keys == old(rows).Keys
      ensures forall other | other in rows && other != id :: rows[other] == old(rows)[other]
      ensures id in rows && claim in {Absent, Known(Online)} ==>
                rows[id] == Gateway(Online, Some(if timestamp.Some? then timestamp.value else now))
      ensures id in rows && claim == Known(Shutdown) ==> rows[id] == Gateway(Shutdown, old(rows)[id].lastSeen)
      ensures id in rows && claim == Unknown ==> rows[id] == Gateway(Offline, old(rows)[id].lastSeen)
      ensures id in rows && claim == Known(Offline) ==>
                rows[id] == Gateway(Offline, if lwt then Some(now) else old(rows)[id].lastSeen)
    {
      if id !in rows { return; }
      var gw := rows[id];
      var claimed := if claim.Absent? then Known(Online) else claim;
      gw := gw.(status := if claimed.Known? then claimed.status else Offline);
      if claimed == Known(Online) {
        gw := gw.(lastSeen := Some(Stamp(timestamp, now)));
      } else if claimed == Known(Offline) && lwt {
        gw := gw.(lastSeen := Some(now));
      }
      rows := rows[id := gw];
    }

    method DetectOffline(now: int) returns (affected: set<int>)
      modifies this
      ensures rows == map id | id in old(rows) :: Checked(old(rows)[id], now)
      ensures affected == set id | id in old(rows) && Checked(old(rows)[id], now) != old(rows)[id]
      ensures rows.Keys == old(rows).Keys
      ensures forall id | id in rows ::
                id in affected <==>
                  && old(rows)[id].status == Online
                  && (old(rows)[id].lastSeen.Some? ==> now - old(rows)[id].lastSeen.value > 90)
      ensures forall id | id in rows ::
                rows[id] == if id in affected then old(rows)[id].(status := Offline) else old(rows)[id]
    {
      var threshold := now - OFFLINE_THRESHOLD;
      affected := set id | id in rows && rows[id].status == Online
                           && (rows[id].lastSeen.None? || rows[id].lastSeen.value < threshold);
      rows := map id | id in rows :: if id in affected then rows[id].(status := Offline) else rows[id];
    }
  }

  // ---------------------------------------------------------------- one gateway over time

  // What happens to one gateway, with the server time at which it is handled.
  datatype Event = Message(at: int, message: Message) | Detector(at: int)

  function After(g: Gateway, e: Event): Gateway {
    match e
    case Message(at, m) => Heard(g, m, at)
    case Detector(at) => Checked(g, at)
  }

  function History(g: Gateway, es: seq<Event>): Gateway
    decreases |es|
  {
    if es == [] then g else After(History(g, es[..|es| - 1]), es[|es| - 1])
  }

  ghost predicate InOrder(es: seq<Event>) {
    forall i, j | 0 <= i < j < |es| :: es[i].at <= es[j].at
  }

  // What an event sets last_seen_at to, if it sets it.
  function StampOf(e: Event): Option<int> {
    match e
    case Detector(_) => None
    case Message(at, Telemetry(ts)) => Some(Stamp(ts, at))
    case Message(at, Heartbeat(ts)) => Some(Stamp(ts, at))
    case Message(at, State(claim, lwt, ts)) =>
      if claim in {Known(Online), Absent} then Some(Stamp(ts, at))
      else if claim == Known(Offline) && lwt then Some(at)
      else None
  }

  ghost predicate LatestStamp(es: seq<Event>, i: int) {
    0 <= i < |es| && StampOf(es[i]).Some? && forall j | i < j < |es| :: StampOf(es[j]).None?
  }

  lemma LatestStampPrefix(es: seq<Event>, i: int)
    requires es != [] && StampOf(es[|es| - 1]).None? && LatestStamp(es[..|es| - 1], i)
    ensures LatestStamp(es, i) && es[i] == es[..|es| - 1][i]
  {
    var before := es[..|es| - 1];
    forall j | i < j < |es| ensures StampOf(es[j]).None? {
      if j < |es| - 1 {
        assert es[j] == before[j];
      }
    }
  }

  lemma StampSetsLastSeen(g: Gateway, e: Event)
    ensures After(g, e).lastSeen == if StampOf(e).Some? then StampOf(e) else g.lastSeen
  {
  }

  // last_seen_at after any history is what the latest stamping event said, or what it was
  // when there was none.
  lemma {:induction false} LastSeenIsLatestStamp(g: Gateway, es: seq<Event>)
    ensures || (exists i :: LatestStamp(es, i) && History(g, es).lastSeen == StampOf(es[i]))
            || ((forall j | 0 <= j < |es| :: StampOf(es[j]).None?) && History(g, es).lastSeen == g.lastSeen)
    decreases |es|
  {
    if es != [] {
      var n := |es| - 1;
      LastSeenIsLatestStamp(g, es[..n]);
      StampSetsLastSeen(History(g, es[..n]), es[n]);
      assert History(g, es) == After(History(g, es[..n]), es[n]);
      hide History, After, StampOf;
      if StampOf(es[n]).Some? {
        assert LatestStamp(es, n);
      } else if i :| LatestStamp(es[..n], i) && History(g, es[..n]).lastSeen == StampOf(es[..n][i]) {
        LatestStampPrefix(es, i);
      } else {
        assert forall j | 0 <= j < n :: es[j] == es[..n][j];
      }
    }
  }

  lemma LatestStampUnique(es: seq<Event>, i: int, j: int)
    requires LatestStamp(es, i) && LatestStamp(es, j)
    ensures i == j
  {
  }

  // The latest stamp of a history, or the initial one if it has none, is at or after `from`.
  ghost predicate StampedSince(g: Gateway, es: seq<Event>, from: int) {
    || (exists i :: LatestStamp(es, i) && StampOf(es[i]).value >= from)
    || ((forall j | 0 <= j < |es| :: StampOf(es[j]).None?) && g.lastSeen.Some? && g.lastSeen.value >= from)
  }

  lemma StampedSinceIsLastSeen(g: Gateway, es: seq<Event>, from: int)
    ensures StampedSince(g, es, from) <==> History(g, es).lastSeen.Some? && History(g, es).lastSeen.value >= from
  {
    LastSeenIsLatestStamp(g, es);
    hide History, StampOf;
    if i :| LatestStamp(es, i) && History(g, es).lastSeen == StampOf(es[i]) {
      if j :| LatestStamp(es, j) && StampOf(es[j]).value >= from {
        LatestStampUnique(es, i, j);
      }
    }
  }

  // A sweep leaves an online gateway online exactly when the latest stamp in its message
  // history lies in the last 90 seconds.
  lemma SweepDecidesByHistory(g: Gateway, es: seq<Event>, at: int)
    requires History(g, es).status == Online
    ensures History(g, es + [Detector(at)]).status == Online <==> StampedSince(g, es, at - OFFLINE_THRESHOLD)
  {
    StampedSinceIsLastSeen(g, es, at - OFFLINE_THRESHOLD);
    var all := es + [Detector(at)];
    assert all[..|all| - 1] == es && all[|all| - 1] == Detector(at);
    hide StampedSince;
    assert History(g, all) == Checked(History(g, es), at);
  }

  // A message that leaves a gateway online, or a heartbeat, which leaves it as it was unless
  // it was offline.
  predicate Lively(m: Message) {
    match m
    case Telemetry(_) => true
    case Heartbeat(_) => true
    case State(claim, _, _) => claim in {Known(Online), Absent}
  }

  // If the detector ran within the last `period`, then whenever a gateway is online, either
  // the last thing handled for it was telemetry, a heartbeat or an online state message
  // within that period, or the latest stamp in its message history is at most 90 + period
  // old.
  lemma OnlineMeansRecent(g: Gateway, es: seq<Event>, t: int, period: nat, sweep: nat)
    requires InOrder(es) && forall i | 0 <= i < |es| :: es[i].at <= t
    requires sweep < |es| && es[sweep].Detector? && es[sweep].at >= t - period
    ensures History(g, es).status == Online ==>
              || (var last := es[|es| - 1]; last.Message? && Lively(last.message) && last.at >= t - period)
              || StampedSince(g, es, t - (OFFLINE_THRESHOLD + period))
  {
    assert es[|es| - 1].at >= t - period;
    StampedSinceIsLastSeen(g, es, t - (OFFLINE_THRESHOLD + period));
  }

  // If moreover no message carries a stamp older than `lag` when it is handled, the latest
  // stamp alone bounds the silence of an online gateway.
  lemma OnlineMeansStamped(g: Gateway, es: seq<Event>, t: int, period: nat, lag: nat, sweep: nat)
    requires InOrder(es) && forall i | 0 <= i < |es| :: es[i].at <= t
    requires sweep < |es| && es[sweep].Detector? && es[sweep].at >= t - period
    requires forall i | 0 <= i < |es| && StampOf(es[i]).Some? :: StampOf(es[i]).value >= es[i].at - lag
    ensures History(g, es).status == Online ==>
              StampedSince(g, es, t - period - if lag > OFFLINE_THRESHOLD then lag else OFFLINE_THRESHOLD)
  {
    var from := t - period - if lag > OFFLINE_THRESHOLD then lag else OFFLINE_THRESHOLD;
    OnlineMeansRecent(g, es, t, period, sweep);
    StampedSinceIsLastSeen(g, es, t - (OFFLINE_THRESHOLD + period));
    StampedSinceIsLastSeen(g, es, from);
    var n := |es| - 1;
    if es[n].Message? && Lively(es[n].message) && es[n].at >= t - period {
      assert LatestStamp(es, n) && StampOf(es[n]).value >= from;
    }
  }

  // The bound is tight: a gateway last seen exactly 90 seconds before a sweep survives it
  // and stays online until the next one.
  lemma {:induction false} BoundIsTight(t: int, period: nat)
    ensures var g := Gateway(Online, Some(t - (OFFLINE_THRESHOLD + period)));
            History(g, [Detector(t - period)]) == g
            && History(g, [Detector(t - period), Detector(t + 1)]).status == Offline
  {
    var g := Gateway(Online, Some(t - (OFFLINE_THRESHOLD + period)));
    var es := [Detector(t - period), Detector(t + 1)];
    assert [Detector(t - period)][..0] == [];
    assert History(g, []) == g;
    assert History(g, [Detector(t - period)]) == Checked(g, t - period);
    assert es[..1] == [Detector(t - period)];
  }

  // Whatever came before, a heartbeat makes a gateway online unless it said it was shutting
  // down, and telemetry makes it online in any case.
  lemma BackOnline(g: Gateway, es: seq<Event>, at: int, ts: Option<int>)
    ensures var stamp := Some(if ts.Some? then ts.value else at);
            && History(g, es + [Message(at, Telemetry(ts))]) == Gateway(Online, stamp)
            && History(g, es + [Message(at, Heartbeat(ts))])
               == Gateway(if History(g, es).status == Shutdown then Shutdown else Online, stamp)
  {
    forall e: Event ensures History(g, es + [e]) == After(History(g, es), e) {
      assert (es + [e])[..|es|] == es;
    }
  }

  // A gateway that said it was shutting down stays so through heartbeats; telemetry is what
  // brings it back.
  lemma {:induction false} ShutdownSurvivesHeartbeats(g: Gateway, beats: seq<Event>)
    requires g.status == Shutdown
    requires forall i | 0 <= i < |beats| :: beats[i].Detector? || beats[i].message.Heartbeat?
    ensures History(g, beats).status == Shutdown
    decreases |beats|
  {
    if beats != [] {
      ShutdownSurvivesHeartbeats(g, beats[..|beats| - 1]);
    }
  }
}
