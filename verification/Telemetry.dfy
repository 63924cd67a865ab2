/**
 Telemetry: the append-only log, and the telemetry_latest table kept beside it by
 conditional upserts.
 */
module Telemetry {
  import opened Options
  import Presence

  datatype Key = Key(gateway: int, channel: int, measurement: string)
  datatype Reading = Reading(value: Option<real>, unit: Option<string>, quality: string)
  datatype Row = Row(key: Key, ts: int, reading: Reading)
  datatype Entry = Entry(ts: int, reading: Reading)

  type Latest = map<Key, Entry>

  // INSERT ... ON CONFLICT DO UPDATE ... WHERE telemetry_latest.ts < excluded.ts
  function Upsert(latest: Latest, row: Row): Latest {
    if row.key !in latest || latest[row.key].ts < row.ts then latest[row.key := Entry(row.ts, row.reading)] else latest
  }

  function Replay(latest: Latest, rows: seq<Row>): Latest
    decreases |rows|
  {
    if rows == [] then latest else Upsert(Replay(latest, rows[..|rows| - 1]), rows[|rows| - 1])
  }

  // ---------------------------------------------------------------- the handler

  // One element of a message's `values`; slug is None when it is missing or not a string.
  datatype Item = Item(slug: Option<string>, measurement: string, reading: Reading)

  datatype Message = Message(gateway: int, timestamp: Option<int>, items: seq<Item>)

  type Channels = map<(int, string), int>

  // The row an item adds, if its channel is known and its measurement is named.
  function RowOf(gateway: int, ts: int, item: Item, channels: Channels): Option<Row> {
    if item.slug.None? || item.slug.value == "" || (gateway, item.slug.value) !in channels || item.measurement == ""
    then None
    else Some(Row(Key(gateway, channels[(gateway, item.slug.value)], item.measurement), ts, item.reading))
  }

  function RowsOf(gateway: int, ts: int, items: seq<Item>, channels: Channels): seq<Row>
    decreases |items|
  {
    if items == [] then []
    else
      var added := RowOf(gateway, ts, items[|items| - 1], channels);
      RowsOf(gateway, ts, items[..|items| - 1], channels) + if added.Some? then [added.value] else []
  }

  // The items that are stored: their channel is known and their measurement is named.
  predicate Stored(gateway: int, item: Item, channels: Channels) {
    && item.slug.Some? && item.slug.value != "" && (gateway, item.slug.value) in channels
    && item.measurement != ""
  }

  ghost predicate StoredAs(gateway: int, ts: int, item: Item, channels: Channels, row: Row) {
    && Stored(gateway, item, channels)
    && row.key.gateway == gateway && row.key.channel == channels[(gateway, item.slug.value)]
    && row.key.measurement == item.measurement
    && row.ts == ts && row.reading == item.reading
  }

  // `rows` are those of the stored items and no others, in the order of the items; row k is
  // that of item from[k].
  ghost predicate RowsFrom(gateway: int, ts: int, items: seq<Item>, channels: Channels,
                           rows: seq<Row>, from: seq<int>)
  {
    && |rows| == |from|
    && (forall k | 0 <= k < |from| ::
          0 <= from[k] < |items| && StoredAs(gateway, ts, items[from[k]], channels, rows[k]))
    && (forall j, k | 0 <= j < k < |from| :: from[j] < from[k])
    && (forall i | 0 <= i < |items| && Stored(gateway, items[i], channels) :: i in from)
  }

  lemma RowsFromOn(gateway: int, ts: int, items: seq<Item>, channels: Channels,
                   rows: seq<Row>, from: seq<int>, item: Item)
    requires RowsFrom(gateway, ts, items, channels, rows, from)
    ensures !Stored(gateway, item, channels) ==> RowsFrom(gateway, ts, items + [item], channels, rows, from)
    ensures forall row | StoredAs(gateway, ts, item, channels, row) ::
              RowsFrom(gateway, ts, items + [item], channels, rows + [row], from + [|items|])
  {
    hide Stored;
  }

  lemma {:induction false} RowsOfIsFrom(gateway: int, ts: int, items: seq<Item>, channels: Channels)
    returns (from: seq<int>)
    ensures RowsFrom(gateway, ts, items, channels, RowsOf(gateway, ts, items, channels), from)
    decreases |items|
  {
    from := [];
    if items != [] {
      var n := |items| - 1;
      var item, rows := items[n], RowsOf(gateway, ts, items[..n], channels);
      from := RowsOfIsFrom(gateway, ts, items[..n], channels);
      RowsFromOn(gateway, ts, items[..n], channels, rows, from, item);
      assert items[..n] + [item] == items;
      hide RowsFrom;
      if Stored(gateway, item, channels) {
        from := from + [n];
        assert StoredAs(gateway, ts, item, channels, RowOf(gateway, ts, item, channels).value);
      } else {
        assert rows + [] == rows;
      }
    }
  }

  lemma RowsOfOn(gateway: int, ts: int, items: seq<Item>, channels: Channels, i: nat)
    requires i < |items|
    ensures RowsOf(gateway, ts, items[..i + 1], channels)
            == RowsOf(gateway, ts, items[..i], channels)
               + match RowOf(gateway, ts, items[i], channels) { case None => [] case Some(row) => [row] }
  {
    assert items[..i + 1][..i] == items[..i];
  }

  lemma ReplayOn(log: seq<Row>, row: Row)
    ensures Replay(map[], log + [row]) == Upsert(Replay(map[], log), row)
  {
    assert (log + [row])[..|log|] == log;
  }

  class TelemetryStore {
    var log: seq<Row>
    var latest: Latest
    var gateways: map<int, Presence.Gateway>

    // The derived table is a function of the log.
    ghost predicate Valid()
      reads this
    {
      latest == Replay(map[], log)
    }

    constructor (gateways: map<int, Presence.Gateway>)
      ensures Valid() && log == [] && this.gateways == gateways
    {
      log, latest, this.gateways := [], map[], gateways;
    }

    method Handle(m: Message, now: int, channels: Channels) returns (ghost from: seq<int>)
      requires Valid()
      modifies this
      ensures Valid()
      ensures m.items == [] || m.gateway !in old(gateways) ==>
                log == old(log) && latest == old(latest) && gateways == old(gateways)
      ensures m.items != [] && m.gateway in old(gateways) ==>
                var ts := Presence.Stamp(m.timestamp, now);
                && log == old(log) + RowsOf(m.gateway, ts, m.items, channels)
                && gateways == old(gateways)[m.gateway :=
                     Presence.Heard(old(gateways)[m.gateway], Presence.Telemetry(m.timestamp), now)]
      ensures m.items != [] && m.gateway in old(gateways) ==>
                var ts := if m.timestamp.Some? then m.timestamp.value else now;
                && old(log) <= log && RowsFrom(m.gateway, ts, m.items, channels, log[|old(log)|..], from)
                && gateways == old(gateways)[m.gateway := Presence.Gateway(Presence.Online, Some(ts))]
    {
      hide RowsFrom, StoredAs, Stored, Replay;
      from := [];
      if m.items == [] { return; }
      var ts := Presence.Stamp(m.timestamp, now);
      if m.gateway !in gateways { return; }
      assert RowsOf(m.gateway, ts, m.items[..0], channels) == [];
      hide RowsOf;
      for i := 0 to |m.items|
        invariant gateways == old(gateways) && Valid()
        invariant log == old(log) + RowsOf(m.gateway, ts, m.items[..i], channels)
      {
        var item := m.items[i];
        RowsOfOn(m.gateway, ts, m.items, channels, i);
        if item.slug.None? || item.slug.value == "" { continue; }
        if (m.gateway, item.slug.value) !in channels { continue; }
        if item.measurement == "" { continue; }
        var row := Row(Key(m.gateway, channels[(m.gateway, item.slug.value)], item.measurement), ts, item.reading);
        ReplayOn(log, row);
        log := log + [row];
        if row.key !in latest || latest[row.key].ts < row.ts {
          latest := latest[row.key := Entry(row.ts, row.reading)];
        }
      }
      assert m.items[..|m.items|] == m.items;
      from := RowsOfIsFrom(m.gateway, ts, m.items, channels);
      var gw := gateways[m.gateway].(lastSeen := Some(ts));
      if gw.status != Presence.Online {
        gw := gw.(status := Presence.Online);
      }
      gateways := gateways[m.gateway := gw];
    }
  }

  // ---------------------------------------------------------------- what the table means

  // Row i is the earliest-inserted of its key's rows with the greatest timestamp.
  ghost predicate Winner(log: seq<Row>, i: nat) {
    && i < |log|
    && (forall j | 0 <= j < |log| && log[j].key == log[i].key :: log[j].ts <= log[i].ts)
    && (forall j | 0 <= j < i && log[j].key == log[i].key :: log[j].ts < log[i].ts)
  }

  // telemetry_latest holds, for each key of the log and no other, exactly its winner.
  lemma {:induction false} LatestIsWinner(log: seq<Row>, k: Key) returns (i: nat)
    ensures k in Replay(map[], log) <==> exists j :: 0 <= j < |log| && log[j].key == k
    ensures k in Replay(map[], log) ==>
              Winner(log, i) && log[i].key == k && Replay(map[], log)[k] == Entry(log[i].ts, log[i].reading)
  {
    i := 0;
    if log != [] {
      var n := |log| - 1;
      var before := log[..n];
      i := LatestIsWinner(before, k);
      assert forall j | 0 <= j < n :: log[j] == before[j];
      var upserted := Replay(map[], before);
      if log[n].key == k && (k !in upserted || upserted[k].ts < log[n].ts) {
        i := n;
      }
    }
  }

  lemma WinnerIsUnique(log: seq<Row>, i: nat, j: nat)
    requires Winner(log, i) && Winner(log, j) && log[i].key == log[j].key
    ensures i == j
  {
  }

  lemma Dominates(log: seq<Row>, j: nat)
    requires j < |log|
    ensures log[j].key in Replay(map[], log) && Replay(map[], log)[log[j].key].ts >= log[j].ts
  {
    var i := LatestIsWinner(log, log[j].key);
  }

  // ---------------------------------------------------------------- redelivery and order

  // Some row of the log has this key and at least this timestamp.
  ghost predicate Dominated(log: seq<Row>, row: Row) {
    exists j :: 0 <= j < |log| && log[j].key == row.key && log[j].ts >= row.ts
  }

  lemma {:induction false} OnlyGrows(latest: Latest, rows: seq<Row>, i: nat)
    requires i < |rows|
    ensures var after := Replay(latest, rows);
            rows[i].key in after && after[rows[i].key].ts >= rows[i].ts
    decreases |rows|
  {
    var n := |rows| - 1;
    if i < n {
      OnlyGrows(latest, rows[..n], i);
    }
  }

  // Further rows leave the table as it is exactly when the log already dominates each of them.
  lemma UnchangedExactlyWhen(log: seq<Row>, rows: seq<Row>)
    ensures Replay(map[], log + rows) == Replay(map[], log) <==>
              forall i | 0 <= i < |rows| :: Dominated(log, rows[i])
  {
    if forall i | 0 <= i < |rows| :: Dominated(log, rows[i]) {
      DominatedRowsChangeNothing(log, rows);
    }
    if Replay(map[], log + rows) == Replay(map[], log) {
      forall i | 0 <= i < |rows| ensures Dominated(log, rows[i]) {
        OnlyGrows(map[], log + rows, |log| + i);
        assert (log + rows)[|log| + i] == rows[i];
        var j := LatestIsWinner(log, rows[i].key);
      }
    }
  }

  lemma {:induction false} DominatedRowsChangeNothing(log: seq<Row>, rows: seq<Row>)
    requires forall i | 0 <= i < |rows| :: Dominated(log, rows[i])
    ensures Replay(map[], log + rows) == Replay(map[], log)
    decreases |rows|
  {
    if rows == [] {
      assert log + rows == log;
    } else {
      var n := |rows| - 1;
      DominatedRowsChangeNothing(log, rows[..n]);
      assert (log + rows)[..|log + rows| - 1] == log + rows[..n];
      var j :| 0 <= j < |log| && log[j].key == rows[n].key && log[j].ts >= rows[n].ts;
      Dominates(log, j);
    }
  }

  // The keys a message's rows have; they do not depend on when it is handled.
  ghost function KeysOf(rows: seq<Row>): set<Key> {
    set i | 0 <= i < |rows| :: rows[i].key
  }

  lemma {:induction false} RowsAt(gateway: int, ts: int, items: seq<Item>, channels: Channels)
    ensures var rows := RowsOf(gateway, ts, items, channels);
            |rows| == |RowsOf(gateway, 0, items, channels)|
            && forall i | 0 <= i < |rows| :: rows[i] == RowsOf(gateway, 0, items, channels)[i].(ts := ts)
    decreases |items|
  {
    if items != [] {
      RowsAt(gateway, ts, items[..|items| - 1], channels);
    }
  }

  // Both deliveries of a message, the second looking its channels up afresh and any rows in
  // between.
  ghost predicate RedeliveryKeeps(m: Message, channels1: Channels, channels2: Channels,
                                  log: seq<Row>, between: seq<Row>, now1: int, now2: int) {
    var before := log + RowsOf(m.gateway, Presence.Stamp(m.timestamp, now1), m.items, channels1) + between;
    Replay(map[], before + RowsOf(m.gateway, Presence.Stamp(m.timestamp, now2), m.items, channels2))
    == Replay(map[], before)
  }

  // The redelivery adds no row, or the message carries its own timestamp and the first
  // delivery already knew every channel that the second one knows.
  ghost predicate Repeatable(m: Message, channels1: Channels, channels2: Channels) {
    var first, again := RowsOf(m.gateway, 0, m.items, channels1), RowsOf(m.gateway, 0, m.items, channels2);
    again == [] || (m.timestamp.Some? && KeysOf(again) <= KeysOf(first))
  }

  lemma RepeatableKeeps(m: Message, channels1: Channels, channels2: Channels,
                        log: seq<Row>, between: seq<Row>, now1: int, now2: int)
    requires Repeatable(m, channels1, channels2)
    ensures RedeliveryKeeps(m, channels1, channels2, log, between, now1, now2)
  {
    var ts1, ts2 := Presence.Stamp(m.timestamp, now1), Presence.Stamp(m.timestamp, now2);
    var first, again := RowsOf(m.gateway, ts1, m.items, channels1), RowsOf(m.gateway, ts2, m.items, channels2);
    var first0, again0 := RowsOf(m.gateway, 0, m.items, channels1), RowsOf(m.gateway, 0, m.items, channels2);
    RowsAt(m.gateway, ts1, m.items, channels1);
    RowsAt(m.gateway, ts2, m.items, channels2);
    var before := log + first + between;
    hide RowsOf, Replay;
    forall i | 0 <= i < |again| ensures Dominated(before, again[i]) {
      assert again0[i].key in KeysOf(again0);
      var j :| 0 <= j < |first0| && first0[j].key == again0[i].key;
      assert before[|log| + j] == first[j];
    }
    UnchangedExactlyWhen(before, again);
  }

  lemma NotRepeatableMoves(m: Message, channels1: Channels, channels2: Channels, now1: int, now2: int)
    requires !Repeatable(m, channels1, channels2) && now1 < now2
    ensures !RedeliveryKeeps(m, channels1, channels2, [], [], now1, now2)
  {
    var ts1, ts2 := Presence.Stamp(m.timestamp, now1), Presence.Stamp(m.timestamp, now2);
    var first, again := RowsOf(m.gateway, ts1, m.items, channels1), RowsOf(m.gateway, ts2, m.items, channels2);
    var first0, again0 := RowsOf(m.gateway, 0, m.items, channels1), RowsOf(m.gateway, 0, m.items, channels2);
    RowsAt(m.gateway, ts1, m.items, channels1);
    RowsAt(m.gateway, ts2, m.items, channels2);
    hide RowsOf, Replay;
    var before := [] + first + [];
    assert before == first;
    UnchangedExactlyWhen(before, again);
    if m.timestamp.None? {
      assert !Dominated(before, again[0]);
    } else {
      var k :| k in KeysOf(again0) && k !in KeysOf(first0);
      var i :| 0 <= i < |again0| && again0[i].key == k;
      assert forall j | 0 <= j < |first| :: first0[j].key in KeysOf(first0) && first[j].key == first0[j].key;
      assert !Dominated(before, again[i]);
    }
  }

  // Redelivery leaves telemetry_latest alone over every log, every rows in between and every
  // two times, exactly when the message is repeatable: a missing timestamp is restamped on
  // arrival, and a channel registered between the deliveries lets a dropped value in late.
  lemma RedeliveryHarmlessExactlyWhen(m: Message, channels1: Channels, channels2: Channels)
    ensures (forall log, between, now1, now2 | now1 <= now2 ::
               RedeliveryKeeps(m, channels1, channels2, log, between, now1, now2))
            <==> Repeatable(m, channels1, channels2)
  {
    if Repeatable(m, channels1, channels2) {
      forall log, between, now1, now2 | now1 <= now2
        ensures RedeliveryKeeps(m, channels1, channels2, log, between, now1, now2)
      {
        RepeatableKeeps(m, channels1, channels2, log, between, now1, now2);
      }
    } else {
      NotRepeatableMoves(m, channels1, channels2, 0, 1);
    }
  }

  // With the channels unchanged in between, the timestamp alone decides.
  lemma TimestampedIsRepeatable(m: Message, channels: Channels)
    ensures Repeatable(m, channels, channels) <==>
              m.timestamp.Some? || RowsOf(m.gateway, 0, m.items, channels) == []
  {
  }

  // A value dropped for an unknown channel, and redelivered once the channel exists, arrives.
  lemma LateChannelMoves(gateway: int, slug: string, channel: int, ts: int, measurement: string, reading: Reading)
    requires slug != "" && measurement != ""
    ensures var m := Message(gateway, Some(ts), [Item(Some(slug), measurement, reading)]);
            !Repeatable(m, map[], map[(gateway, slug) := channel])
  {
    var items := [Item(Some(slug), measurement, reading)];
    var row := Row(Key(gateway, channel, measurement), 0, reading);
    OneItem(gateway, 0, items, map[(gateway, slug) := channel], row);
    assert items[..0] == [];
    assert RowsOf(gateway, 0, items, map[]) == [];
    assert row.key in KeysOf([row]) by { assert [row][0] == row; }
  }

  lemma OneItem(gateway: int, ts: int, items: seq<Item>, channels: Channels, row: Row)
    requires |items| == 1 && RowOf(gateway, ts, items[0], channels) == Some(row)
    ensures RowsOf(gateway, ts, items, channels) == [row]
  {
    assert items[..0] == [];
  }

  ghost predicate Greatest(log: seq<Row>, row: Row) {
    row in log && forall r | r in log && r.key == row.key :: r.ts <= row.ts
  }

  // Rows that tie for the greatest timestamp of a key agree on the reading.
  ghost predicate Unambiguous(log: seq<Row>) {
    forall r, q | Greatest(log, r) && Greatest(log, q) && r.key == q.key :: r == q
  }

  lemma SameElements(s: seq<Row>, t: seq<Row>)
    requires multiset(s) == multiset(t)
    ensures forall r :: r in s <==> r in t
  {
    forall r ensures r in s <==> r in t {
      assert r in s <==> r in multiset(s);
      assert r in t <==> r in multiset(t);
    }
  }

  lemma LatestIsGreatest(log: seq<Row>, k: Key)
    ensures k in Replay(map[], log) <==> exists r :: r in log && r.key == k
    ensures k in Replay(map[], log) ==>
              Greatest(log, Row(k, Replay(map[], log)[k].ts, Replay(map[], log)[k].reading))
  {
    var i := LatestIsWinner(log, k);
    if r :| r in log && r.key == k {
      var j :| 0 <= j < |log| && log[j] == r;
    }
  }

  lemma PermutationAgrees(log: seq<Row>, other: seq<Row>)
    requires Unambiguous(log) && multiset(other) == multiset(log)
    ensures Replay(map[], other) == Replay(map[], log)
  {
    SameElements(other, log);
    var a, b := Replay(map[], other), Replay(map[], log);
    forall k ensures k in a <==> k in b {
      LatestIsGreatest(other, k);
      LatestIsGreatest(log, k);
    }
    forall k | k in a ensures a[k] == b[k] {
      LatestIsGreatest(other, k);
      LatestIsGreatest(log, k);
      assert Greatest(log, Row(k, a[k].ts, a[k].reading));
    }
  }

  lemma MoveToFront(log: seq<Row>, j: nat) returns (other: seq<Row>)
    requires j < |log|
    ensures multiset(other) == multiset(log) && other != [] && other[0] == log[j]
  {
    other := [log[j]] + log[..j] + log[j + 1..];
    assert log == log[..j] + [log[j]] + log[j + 1..];
  }

  lemma GreatestAtFrontWins(log: seq<Row>)
    requires log != [] && Greatest(log, log[0])
    ensures log[0].key in Replay(map[], log)
    ensures Replay(map[], log)[log[0].key] == Entry(log[0].ts, log[0].reading)
  {
    var i := LatestIsWinner(log, log[0].key);
    assert Winner(log, 0);
    WinnerIsUnique(log, 0, i);
  }

  // Delivery order is irrelevant to telemetry_latest exactly when no key's greatest
  // timestamp is shared by different readings; distinct timestamps are the simplest case.
  lemma OrderIrrelevantExactlyWhen(log: seq<Row>)
    ensures (forall other | multiset(other) == multiset(log) :: Replay(map[], other) == Replay(map[], log))
            <==> Unambiguous(log)
  {
    if Unambiguous(log) {
      forall other | multiset(other) == multiset(log) ensures Replay(map[], other) == Replay(map[], log) {
        PermutationAgrees(log, other);
      }
    } else {
      var r, q :| Greatest(log, r) && Greatest(log, q) && r.key == q.key && r != q;
      var i :| 0 <= i < |log| && log[i] == r;
      var j :| 0 <= j < |log| && log[j] == q;
      var a := MoveToFront(log, i);
      var b := MoveToFront(log, j);
      SameElements(a, log);
      SameElements(b, log);
      GreatestAtFrontWins(a);
      GreatestAtFrontWins(b);
      assert Replay(map[], a) != Replay(map[], b);
    }
  }

  lemma DistinctTimestampsUnambiguous(log: seq<Row>)
    requires forall r, q | r in log && q in log && r.key == q.key && r.ts == q.ts :: r == q
    ensures Unambiguous(log)
  {
  }
}
