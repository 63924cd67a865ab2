/**
 Month partitions of the telemetry table. The scheduler creates the current month's and the
 next three; rows of a month without a partition fall into the default partition, and
 PostgreSQL refuses to create a partition while the default one holds a row of its range.
 */
module Partitions {

  const LOOKAHEAD_MONTHS: nat := 4

  // Months counted from January of the year 0.
  function Index(year: int, month: int): int {
    12 * year + month - 1
  }

  // ---------------------------------------------------------------- names and bounds

  function Digit(d: nat): (c: char)
    requires d < 10
  {
    "0123456789"[d]
  }

  function Decimal(n: nat): (s: string)
    ensures s != ""
  {
    if n < 10 then [Digit(n)] else Decimal(n / 10) + [Digit(n % 10)]
  }

  function TwoDigits(n: nat): string
    requires n < 100
  {
    [Digit(n / 10), Digit(n % 10)]
  }

  function Name(k: nat): string {
    "telemetry_" + Decimal(k / 12) + "_" + TwoDigits(k % 12 + 1)
  }

  lemma DigitInjective(a: nat, b: nat)
    requires a < 10 && b < 10 && Digit(a) == Digit(b)
    ensures a == b
  {
    var s := "0123456789";
    assert forall i, j | 0 <= i < j < 10 :: s[i] < s[j];
  }

  lemma {:induction false} DecimalInjective(a: nat, b: nat)
    requires Decimal(a) == Decimal(b)
    ensures a == b
  {
    var s, t := Decimal(a), Decimal(b);
    assert s[|s| - 1] == Digit(a % 10) && t[|t| - 1] == Digit(b % 10);
    DigitInjective(a % 10, b % 10);
    if a >= 10 && b >= 10 {
      assert s[..|s| - 1] == Decimal(a / 10) && t[..|t| - 1] == Decimal(b / 10);
      DecimalInjective(a / 10, b / 10);
    }
  }

  lemma NameInjective(a: nat, b: nat)
    requires Name(a) == Name(b)
    ensures a == b
  {
    var s, n := Name(a), |Name(a)|;
    assert s[10..n - 3] == Decimal(a / 12) && s[10..n - 3] == Decimal(b / 12);
    DecimalInjective(a / 12, b / 12);
    assert s[n - 2..] == TwoDigits(a % 12 + 1) && s[n - 2..] == TwoDigits(b % 12 + 1);
    assert s[n - 2..][0] == Digit((a % 12 + 1) / 10) && s[n - 2..][1] == Digit((a % 12 + 1) % 10);
    DigitInjective((a % 12 + 1) / 10, (b % 12 + 1) / 10);
    DigitInjective((a % 12 + 1) % 10, (b % 12 + 1) % 10);
  }

  // The number a string of digits stands for.
  ghost function Value(s: string): int {
    if s == "" then 0 else 10 * Value(s[..|s| - 1]) + (s[|s| - 1] as int - '0' as int)
  }

  lemma DigitValue(d: nat)
    requires d < 10
    ensures '0' <= Digit(d) <= '9' && Digit(d) as int - '0' as int == d
  {
    var all := "0123456789";
    assert all[0] == '0' && all[1] == '1' && all[2] == '2' && all[3] == '3' && all[4] == '4';
    assert all[5] == '5' && all[6] == '6' && all[7] == '7' && all[8] == '8' && all[9] == '9';
  }

  lemma {:induction false} DecimalValue(n: nat)
    ensures Value(Decimal(n)) == n
    ensures forall i | 0 <= i < |Decimal(n)| :: '0' <= Decimal(n)[i] <= '9'
  {
    DigitValue(n % 10);
    var s := Decimal(n);
    if n < 10 {
      assert s[..0] == "" && Value("") == 0;
    } else {
      DecimalValue(n / 10);
      assert s[..|s| - 1] == Decimal(n / 10);
    }
  }

  lemma TwoDigitsValue(n: nat)
    requires n < 100
    ensures Value(TwoDigits(n)) == n && |TwoDigits(n)| == 2
  {
    DigitValue(n / 10);
    DigitValue(n % 10);
    var s := TwoDigits(n);
    assert s[..1] == [Digit(n / 10)] && s[..1][..0] == "" && Value("") == 0;
    assert Value(s[..1]) == n / 10;
  }

  // A name spells its year and, in two digits, its month: "telemetry_2026_05".
  lemma NameSpells(year: nat, month: nat) returns (y: string, m: string)
    requires 1 <= month <= 12
    ensures MonthPartition(year, month).0 == "telemetry_" + y + "_" + m
    ensures Value(y) == year && forall i | 0 <= i < |y| :: '0' <= y[i] <= '9'
    ensures Value(m) == month && |m| == 2
  {
    y, m := Decimal(year), TwoDigits(month);
    DecimalValue(year);
    TwoDigitsValue(month);
  }

  type Partitions = map<string, (int, int)>

  // Table name and month bounds of the CREATE TABLE statement; the upper bound carries into
  // January.
  function MonthPartition(year: nat, month: nat): (string, int, int)
    requires 1 <= month <= 12
  {
    var (nextYear, nextMonth) := if month < 12 then (year, month + 1) else (year + 1, 1);
    ("telemetry_" + Decimal(year) + "_" + TwoDigits(month), Index(year, month), Index(nextYear, nextMonth))
  }

  lemma MonthPartitionSpan(year: nat, month: nat)
    requires 1 <= month <= 12
    ensures var k := Index(year, month); MonthPartition(year, month) == (Name(k), k, k + 1)
  {
    assert Index(year, month) / 12 == year && Index(year, month) % 12 == month - 1;
  }

  // ---------------------------------------------------------------- the catalog

  // Every partition is one whole month under that month's name.
  ghost predicate Monthly(p: Partitions) {
    forall n | n in p :: 0 <= p[n].0 && n == Name(p[n].0) && p[n].1 == p[n].0 + 1
  }

  ghost function Months(p: Partitions): set<int> {
    set n | n in p :: p[n].0
  }

  lemma NamedWhenCovered(p: Partitions, k: nat)
    requires Monthly(p)
    ensures k in Months(p) <==> Name(k) in p
  {
    if Name(k) in p {
      NameInjective(p[Name(k)].0, k);
    }
  }

  // Distinct partitions never share an instant.
  lemma RangesDisjoint(p: Partitions, a: string, b: string, month: int)
    requires Monthly(p) && a in p && b in p
    requires p[a].0 <= month < p[a].1 && p[b].0 <= month < p[b].1
    ensures a == b
  {
  }

  datatype Table = Table(covered: set<int>, inDefault: set<int>)

  // The n months from first on.
  ghost function Span(first: int, n: nat): (s: set<int>)
    ensures forall k :: k in s <==> first <= k < first + n
  {
    if n == 0 then {} else Span(first, n - 1) + {first + n - 1}
  }

  ghost function Window(first: int): set<int> {
    Span(first, LOOKAHEAD_MONTHS)
  }

  // No row of a covered month is in the default partition.
  ghost predicate Routed(t: Table) {
    t.covered !! t.inDefault
  }

  ghost predicate Succeeds(t: Table, first: int) {
    Window(first) !! t.inDefault
  }

  // All four months or, in a transaction that fails, none.
  ghost function Ran(t: Table, first: int): Table {
    if Succeeds(t, first) then t.(covered := t.covered + Window(first)) else t
  }

  lemma RanIs(t: Table, first: int)
    ensures Succeeds(t, first) <==> forall k | first <= k < first + 4 :: k !in t.inDefault
    ensures forall k :: k in Ran(t, first).covered <==>
              k in t.covered || (Succeeds(t, first) && first <= k < first + 4)
  {
    assert forall k :: k in Window(first) <==> first <= k < first + 4;
  }

  ghost function Inserted(t: Table, month: int): Table {
    if month in t.covered then t else t.(inDefault := t.inDefault + {month})
  }

  predicate Creatable(p: Partitions, inDefault: set<int>, name: string, from: int, upTo: int) {
    || name in p
    || ((forall n | n in p :: upTo <= p[n].0 || p[n].1 <= from) && forall d | d in inDefault :: !(from <= d < upTo))
  }

  function Created(p: Partitions, name: string, from: int, upTo: int): Partitions {
    if name in p then p else p[name := (from, upTo)]
  }

  lemma NoOverlap(p: Partitions, k: nat, n: string)
    requires Monthly(p) && n in p && n != Name(k)
    ensures k + 1 <= p[n].0 || p[n].1 <= k
  {
    hide Name;
  }

  // A month's partition exists or can be made exactly when the default one has no row of it.
  lemma CreatableMonth(p: Partitions, inDefault: set<int>, k: nat)
    requires Monthly(p) && Months(p) !! inDefault
    ensures Creatable(p, inDefault, Name(k), k, k + 1) <==> k !in inDefault
  {
    NamedWhenCovered(p, k);
    if Name(k) !in p {
      forall n | n in p ensures k + 1 <= p[n].0 || p[n].1 <= k {
        NoOverlap(p, k, n);
      }
    }
    hide Name, Monthly, Months;
  }

  lemma CreatedMonth(p: Partitions, k: nat)
    requires Monthly(p)
    ensures var q := Created(p, Name(k), k, k + 1); Monthly(q) && Months(q) == Months(p) + {k}
  {
    NamedWhenCovered(p, k);
    hide Name;
    var q := Created(p, Name(k), k, k + 1);
    if Name(k) !in p {
      assert q[Name(k)].0 == k;
      forall m | m in Months(p) ensures m in Months(q) {
        var n :| n in p && p[n].0 == m;
        assert q[n].0 == m;
      }
    }
  }

  class Catalog {
    var partitions: Partitions
    // The months of the rows that the default partition holds.
    var inDefault: set<int>

    constructor ()
      ensures Valid() && Contents() == Table({}, {})
    {
      partitions, inDefault := map[], {};
    }

    ghost function Contents(): Table
      reads this
    {
      Table(Months(partitions), inDefault)
    }

    ghost predicate Valid()
      reads this
    {
      Monthly(partitions) && Routed(Contents())
    }

    // CREATE TABLE IF NOT EXISTS name PARTITION OF telemetry FOR VALUES FROM (from) TO (upTo).
    method CreateIfNotExists(name: string, from: int, upTo: int) returns (ok: bool)
      modifies this`partitions
      ensures ok <==> Creatable(old(partitions), inDefault, name, from, upTo)
      ensures partitions == if ok then Created(old(partitions), name, from, upTo) else old(partitions)
    {
      if name in partitions { return true; }
      if exists n | n in partitions :: !(upTo <= partitions[n].0 || partitions[n].1 <= from) { return false; }
      if exists d | d in inDefault :: from <= d < upTo { return false; }
      partitions := partitions[name := (from, upTo)];
      return true;
    }

    // A row goes to its month's partition, or to the default one.
    method Insert(month: int)
      requires Valid()
      modifies this`inDefault
      ensures Valid() && Contents() == Inserted(old(Contents()), month)
    {
      if !exists n | n in partitions :: partitions[n].0 <= month < partitions[n].1 {
        inDefault := inDefault + {month};
      }
    }

    method Run(year: nat, month: nat) returns (ok: bool)
      requires Valid() && 1 <= month <= 12
      modifies this`partitions
      ensures Valid() && Contents() == Ran(old(Contents()), Index(year, month))
      ensures ok <==> Succeeds(old(Contents()), Index(year, month))
      ensures inDefault == old(inDefault)
      ensures var first := 12 * year + month - 1;
              && (ok <==> forall k | first <= k < first + 4 :: k !in inDefault)
              && (forall k :: k in Months(partitions) <==>
                    k in old(Months(partitions)) || (ok && first <= k < first + 4))
    {
      hide Name, Monthly, Months, Creatable, Created;
      var saved, first := partitions, Index(year, month);
      RanIs(Contents(), first);
      var y, m := year, month;
      for i := 0 to LOOKAHEAD_MONTHS
        invariant 1 <= m <= 12 && Index(y, m) == first + i
        invariant Monthly(partitions)
        invariant Months(partitions) == Months(saved) + Span(first, i)
        invariant Span(first, i) !! inDefault
      {
        MonthPartitionSpan(y, m);
        var (name, from, upTo) := MonthPartition(y, m);
        CreatableMonth(partitions, inDefault, first + i);
        CreatedMonth(partitions, first + i);
        ok := CreateIfNotExists(name, from, upTo);
        if !ok {
          assert from in inDefault && from in Window(first);
          partitions := saved;
          return;
        }
        assert from !in inDefault;
        m := m + 1;
        if m > 12 {
          m, y := 1, y + 1;
        }
      }
      return true;
    }
  }

  // ---------------------------------------------------------------- runs of the job

  datatype Event = Job(first: int) | Row(month: int)

  ghost function Step(t: Table, e: Event): Table {
    match e
    case Job(first) => Ran(t, first)
    case Row(month) => Inserted(t, month)
  }

  ghost function Replay(t: Table, es: seq<Event>): Table
    decreases |es|
  {
    if es == [] then t else Replay(Step(t, es[0]), es[1..])
  }

  ghost predicate Ascending(runs: seq<int>) {
    forall i, j | 0 <= i <= j < |runs| :: runs[i] <= runs[j]
  }

  function Jobs(runs: seq<int>): seq<Event> {
    seq(|runs|, i requires 0 <= i < |runs| => Job(runs[i]))
  }

  ghost predicate InWindow(runs: seq<int>, k: int) {
    exists i | 0 <= i < |runs| :: k in Window(runs[i])
  }

  // Runs that find the default partition clear cover exactly their windows.
  lemma {:induction false} CoveredIsUnion(t: Table, runs: seq<int>)
    requires forall i | 0 <= i < |runs| :: Succeeds(t, runs[i])
    ensures var after := Replay(t, Jobs(runs));
            after.inDefault == t.inDefault &&
            forall k :: k in after.covered <==> k in t.covered || InWindow(runs, k)
    decreases |runs|
  {
    if runs != [] {
      var t1, rest := Ran(t, runs[0]), runs[1..];
      assert Jobs(runs)[1..] == Jobs(rest);
      assert forall i | 0 <= i < |rest| :: rest[i] == runs[i + 1] && Succeeds(t1, rest[i]);
      CoveredIsUnion(t1, rest);
      forall k ensures InWindow(runs, k) <==> k in Window(runs[0]) || InWindow(rest, k) {
        if InWindow(rest, k) {
          var i :| 0 <= i < |rest| && k in Window(rest[i]);
          assert k in Window(runs[i + 1]);
        }
        if InWindow(runs, k) {
          var i :| 0 <= i < |runs| && k in Window(runs[i]);
          assert i > 0 ==> k in Window(rest[i - 1]);
        }
      }
    }
  }

  ghost predicate NoGap(covered: set<int>, first: int, upTo: int) {
    forall k | first <= k < upTo :: k in covered
  }

  // Every month between the windows of two consecutive runs was covered beforehand.
  ghost predicate Bridged(covered: set<int>, runs: seq<int>) {
    forall i, k | 0 < i < |runs| && runs[i - 1] + LOOKAHEAD_MONTHS <= k < runs[i] :: k in covered
  }

  lemma {:induction false} BridgedWindows(covered: set<int>, runs: seq<int>, k: int)
    requires runs != [] && Ascending(runs) && Bridged(covered, runs)
    requires runs[0] <= k < runs[|runs| - 1] + LOOKAHEAD_MONTHS
    ensures k in covered || InWindow(runs, k)
  {
    var n := |runs| - 1;
    if runs[n] <= k {
      assert k in Window(runs[n]);
    } else if runs[n - 1] + LOOKAHEAD_MONTHS <= k {
      assert k in covered;
    } else {
      var init := runs[..n];
      assert init[n - 1] == runs[n - 1] && init[0] == runs[0];
      BridgedWindows(covered, init, k);
      if k !in covered {
        var i :| 0 <= i < |init| && k in Window(init[i]);
        assert k in Window(runs[i]);
      }
    }
  }

  // From any table, the covered months run on without a gap, over any number of year ends,
  // exactly when the months that no run's window reaches were covered beforehand.
  lemma NoGapExactlyWhenBridged(t: Table, runs: seq<int>)
    requires runs != [] && Ascending(runs)
    requires forall i | 0 <= i < |runs| :: Succeeds(t, runs[i])
    ensures NoGap(Replay(t, Jobs(runs)).covered, runs[0], runs[|runs| - 1] + LOOKAHEAD_MONTHS) <==>
              Bridged(t.covered, runs)
  {
    CoveredIsUnion(t, runs);
    if Bridged(t.covered, runs) {
      forall k | runs[0] <= k < runs[|runs| - 1] + LOOKAHEAD_MONTHS ensures k in t.covered || InWindow(runs, k) {
        BridgedWindows(t.covered, runs, k);
      }
    } else {
      var i, k :| 0 < i < |runs| && runs[i - 1] + LOOKAHEAD_MONTHS <= k < runs[i] && k !in t.covered;
      BeyondWindows(runs, i, k);
    }
  }

  lemma BeyondWindows(runs: seq<int>, i: nat, k: int)
    requires Ascending(runs) && 0 < i < |runs| && runs[i - 1] + LOOKAHEAD_MONTHS <= k < runs[i]
    ensures !InWindow(runs, k) && runs[0] <= k < runs[|runs| - 1]
  {
    forall j | 0 <= j < |runs| ensures k !in Window(runs[j]) {
      assert j < i ==> runs[j] <= runs[i - 1];
      assert i <= j ==> runs[i] <= runs[j];
    }
  }

  // So the months have no gap exactly when consecutive runs are at most four months apart, if
  // none was covered before that lies beyond the first run's window: on a fresh table, or on
  // one whose first months the migration made.
  lemma NoGapExactlyWhenOften(t: Table, runs: seq<int>)
    requires runs != [] && Ascending(runs)
    requires forall k | k in t.covered :: k < runs[0] + LOOKAHEAD_MONTHS
    requires forall i | 0 <= i < |runs| :: Succeeds(t, runs[i])
    ensures NoGap(Replay(t, Jobs(runs)).covered, runs[0], runs[|runs| - 1] + LOOKAHEAD_MONTHS) <==>
              forall i | 0 < i < |runs| :: runs[i] - runs[i - 1] <= LOOKAHEAD_MONTHS
  {
    NoGapExactlyWhenBridged(t, runs);
    if i :| 0 < i < |runs| && runs[i] - runs[i - 1] > LOOKAHEAD_MONTHS {
      var k := runs[i - 1] + LOOKAHEAD_MONTHS;
      assert runs[0] <= runs[i - 1];
      assert k !in t.covered;
    }
  }

  // Over every interleaving of rows and runs, no month is both covered and in the default
  // partition, and no month ever loses its partition.
  lemma {:induction false} RoutedAlways(t: Table, es: seq<Event>)
    requires Routed(t)
    ensures Routed(Replay(t, es)) && t.covered <= Replay(t, es).covered
    decreases |es|
  {
    if es != [] {
      RoutedAlways(Step(t, es[0]), es[1..]);
    }
  }

  // The month of the latest run.
  function Latest(last: int, es: seq<Event>): int
    decreases |es|
  {
    if es == [] then last else Latest(if es[0].Job? then es[0].first else last, es[1..])
  }

  // Runs come at most four months apart, and no row is dated beyond the months made by then.
  predicate Steady(last: int, es: seq<Event>)
    decreases |es|
  {
    if es == [] then true
    else match es[0]
      case Job(first) => last <= first <= last + LOOKAHEAD_MONTHS && Steady(first, es[1..])
      case Row(month) => month < last + LOOKAHEAD_MONTHS && Steady(last, es[1..])
  }

  ghost predicate Healthy(t: Table, first: int, last: int) {
    NoGap(t.covered, first, last + LOOKAHEAD_MONTHS) && forall d | d in t.inDefault :: d < first
  }

  ghost predicate AllSucceed(t: Table, es: seq<Event>)
    decreases |es|
  {
    es == [] || ((es[0].Job? ==> Succeeds(t, es[0].first)) && AllSucceed(Step(t, es[0]), es[1..]))
  }

  // Such a history keeps every run succeeding: the months from the first run on stay covered,
  // and none of their rows is ever in the default partition.
  lemma {:induction false} SteadyStaysHealthy(t: Table, first: int, last: int, es: seq<Event>)
    requires first <= last && Healthy(t, first, last) && Steady(last, es)
    ensures AllSucceed(t, es) && Healthy(Replay(t, es), first, Latest(last, es))
    decreases |es|
  {
    if es != [] {
      SteadyStaysHealthy(Step(t, es[0]), first, if es[0].Job? then es[0].first else last, es[1..]);
    }
  }

  // Every run, from month m on, comes after a row of its month.
  predicate RowsComeFirst(m: int, seen: set<int>, es: seq<Event>)
    decreases |es|
  {
    if es == [] then true
    else match es[0]
      case Job(first) => m <= first && first in seen && RowsComeFirst(m, seen, es[1..])
      case Row(month) => RowsComeFirst(m, seen + {month}, es[1..])
  }

  // Once a month has begun without its partition and rows keep arriving ahead of the job, no
  // run ever succeeds again: the rows it is too late for stand in its way, month after month.
  lemma {:induction false} OutageIsPermanent(t: Table, m: int, seen: set<int>, es: seq<Event>)
    requires forall k | k in t.covered :: k < m
    requires forall k | k in seen && m <= k :: k in t.inDefault
    requires RowsComeFirst(m, seen, es)
    ensures Replay(t, es).covered == t.covered
    decreases |es|
  {
    if es != [] {
      match es[0]
      case Job(first) =>
        assert first in Window(first);
        OutageIsPermanent(t, m, seen, es[1..]);
      case Row(month) =>
        OutageIsPermanent(Inserted(t, month), m, seen + {month}, es[1..]);
    }
  }

  // A real run: after one successful job nothing runs for four months; a row of the new month
  // gets in first, and from then on every job fails, the next month's as well.
  lemma OutageRun(first: int)
    ensures var m := first + LOOKAHEAD_MONTHS;
            var start := Replay(Table({}, {}), [Job(first)]);
            var es := [Row(m), Job(m), Row(m + 1), Job(m + 1)];
            && start == Table(Window(first), {}) && RowsComeFirst(m, {}, es)
            && Replay(start, es[..1]) == Replay(start, es[..2]) == Table(Window(first), {m})
            && Replay(start, es[..3]) == Replay(start, es) == Table(Window(first), {m, m + 1})
            && !Succeeds(Replay(start, es[..1]), m) && !Succeeds(Replay(start, es[..3]), m + 1)
  {
    var m := first + LOOKAHEAD_MONTHS;
    var es := [Row(m), Job(m), Row(m + 1), Job(m + 1)];
    var t0 := Ran(Table({}, {}), first);
    var t1 := Inserted(t0, m);
    var t2 := Inserted(t1, m + 1);
    assert [Job(first)][1..] == [];
    assert m in Window(m) && m + 1 in Window(m + 1);
    assert Ran(t1, m) == t1 && Ran(t2, m + 1) == t2;
    assert Step(t0, es[0]) == t1 && Step(t1, es[1]) == t1 && Step(t1, es[2]) == t2 && Step(t2, es[3]) == t2;
    assert es[..1] == [] + [es[0]] && es[..2] == es[..1] + [es[1]];
    assert es[..3] == es[..2] + [es[2]] && es == es[..3] + [es[3]];
    ReplayNext(t0, [], es[0]);
    ReplayNext(t0, es[..1], es[1]);
    ReplayNext(t0, es[..2], es[2]);
    ReplayNext(t0, es[..3], es[3]);
    assert es[1..][1..] == es[2..] && es[2..][1..] == es[3..] && es[3..][1..] == [];
    assert RowsComeFirst(m, {} + {m} + {m + 1}, es[3..]);
    assert RowsComeFirst(m, {} + {m}, es[2..]);
    assert RowsComeFirst(m, {} + {m}, es[1..]);
  }

  lemma {:induction false} ReplayNext(t: Table, es: seq<Event>, e: Event)
    ensures Replay(t, es + [e]) == Step(Replay(t, es), e)
    decreases |es|
  {
    if es == [] {
      assert [e][1..] == [];
      assert Replay(Step(t, e), []) == Step(t, e);
    } else {
      assert (es + [e])[1..] == es[1..] + [e];
      ReplayNext(Step(t, es[0]), es[1..], e);
    }
  }

  // By event i, month k has its partition: from the beginning or from an earlier job.
  ghost predicate MadeBefore(t: Table, es: seq<Event>, i: nat, k: int)
    requires i <= |es|
  {
    k in t.covered || exists h :: 0 <= h < i && es[h].Job? && k in Window(es[h].first)
  }

  // Every row of a job's window that is there when the job runs came after its partition.
  ghost predicate PartitionsComeFirst(t: Table, es: seq<Event>) {
    forall i | 0 <= i < |es| && es[i].Job? ::
      Window(es[i].first) !! t.inDefault
      && forall j | 0 <= j < i && es[j].Row? && es[j].month in Window(es[i].first) :: MadeBefore(t, es, j, es[j].month)
  }

  // Over every history, all runs succeed exactly when no row overtakes the partition of a
  // month that a later job is to cover.
  lemma {:induction false} AllSucceedExactlyWhen(t: Table, es: seq<Event>)
    ensures AllSucceed(t, es) <==> PartitionsComeFirst(t, es)
    decreases |es|
  {
    if es != [] {
      var t1, rest := Step(t, es[0]), es[1..];
      AllSucceedExactlyWhen(t1, rest);
      if es[0].Job? ==> Succeeds(t, es[0].first) {
        FirstEvent(t, es);
      }
    }
  }

  lemma MadeShift(t: Table, es: seq<Event>, j: nat, k: int)
    requires es != [] && j < |es|
    requires es[0].Job? ==> Succeeds(t, es[0].first)
    ensures MadeBefore(t, es, j + 1, k) <==> MadeBefore(Step(t, es[0]), es[1..], j, k)
  {
    var rest := es[1..];
    if h :| 0 <= h < j + 1 && es[h].Job? && k in Window(es[h].first) {
      if h > 0 {
        assert rest[h - 1] == es[h];
      }
    }
    if h :| 0 <= h < j && rest[h].Job? && k in Window(rest[h].first) {
      assert es[h + 1] == rest[h];
    }
  }

  lemma FirstEvent(t: Table, es: seq<Event>)
    requires es != [] && (es[0].Job? ==> Succeeds(t, es[0].first))
    ensures PartitionsComeFirst(t, es) <==> PartitionsComeFirst(Step(t, es[0]), es[1..])
  {
    var t1, rest := Step(t, es[0]), es[1..];
    forall j, k | 0 <= j < |rest| ensures MadeBefore(t, es, j + 1, k) <==> MadeBefore(t1, rest, j, k) {
      MadeShift(t, es, j, k);
    }
    if PartitionsComeFirst(t, es) {
      forall i | 0 <= i < |rest| && rest[i].Job?
        ensures Window(rest[i].first) !! t1.inDefault
                && forall j | 0 <= j < i && rest[j].Row? && rest[j].month in Window(rest[i].first) ::
                     MadeBefore(t1, rest, j, rest[j].month)
      {
        assert es[i + 1] == rest[i];
        if es[0].Row? && es[0].month in Window(es[i + 1].first) {
          assert MadeBefore(t, es, 0, es[0].month);
        }
        forall j | 0 <= j < i && rest[j].Row? && rest[j].month in Window(rest[i].first)
          ensures MadeBefore(t1, rest, j, rest[j].month)
        {
          assert es[j + 1] == rest[j];
          assert MadeBefore(t, es, j + 1, es[j + 1].month);
        }
      }
    }
    if PartitionsComeFirst(t1, rest) {
      forall i | 0 <= i < |es| && es[i].Job?
        ensures Window(es[i].first) !! t.inDefault
                && forall j | 0 <= j < i && es[j].Row? && es[j].month in Window(es[i].first) ::
                     MadeBefore(t, es, j, es[j].month)
      {
        if i > 0 {
          assert rest[i - 1] == es[i];
          assert t.inDefault <= t1.inDefault;
          forall j | 0 <= j < i && es[j].Row? && es[j].month in Window(es[i].first)
            ensures MadeBefore(t, es, j, es[j].month)
          {
            if j > 0 {
              assert rest[j - 1] == es[j];
              assert MadeBefore(t1, rest, j - 1, rest[j - 1].month);
            } else {
              assert es[0].month !in t1.inDefault;
            }
          }
        }
      }
    }
  }
}
