/**
 The GPIO backend of the HAL: a fixed table of 32 slots searched by scanning, which
 behaves as a partial map from BCM pin to direction.
 */
module Gpio {
  import opened Options

  datatype Code = OK | ERR_IO | ERR_INVALID | ERR_NOT_INIT | ERR_BUSY | ERR_PERM

  const MAX_LINES: nat := 32
  const MAX_PIN: int := 53

  // ---------------------------------------------------------------- the simple form

  datatype Direction = Input | Output

  // `level` is the last value successfully written to each line, kept after release.
  datatype Bank = Bank(up: bool, dirs: map<int, Direction>, level: map<int, int>)

  const COLD: Bank := Bank(false, map[], map[])

  ghost predicate Sound(b: Bank) {
    && |b.dirs| <= MAX_LINES
    && (!b.up ==> b.dirs == map[])
    && (forall p | p in b.dirs :: 0 <= p <= MAX_PIN)
    && (forall p | p in b.dirs && b.dirs[p].Output? :: p in b.level)
  }

  function Outputs(b: Bank): set<int> {
    set p | p in b.dirs && b.dirs[p].Output?
  }

  function Opened(b: Bank, chipOk: bool): (Bank, Code) {
    if b.up then (b, OK)
    else if !chipOk then (b, ERR_PERM)
    else (b.(up := true, dirs := map[]), OK)
  }

  function Reserved(b: Bank, pin: int, dir: Direction, initial: int, lineOk: bool): (Bank, Code) {
    if !b.up then (b, ERR_NOT_INIT)
    else if pin < 0 || pin > MAX_PIN then (b, ERR_INVALID)
    else if dir.Output? && initial != 0 && initial != 1 then (b, ERR_INVALID)
    else if pin in b.dirs || |b.dirs| >= MAX_LINES then (b, ERR_BUSY)
    else if !lineOk then (b, ERR_IO)
    else (b.(dirs := b.dirs[pin := dir],
             level := if dir.Output? then b.level[pin := initial] else b.level), OK)
  }

  function Written(b: Bank, pin: int, value: int, writeOk: bool): (Bank, Code) {
    if !b.up then (b, ERR_NOT_INIT)
    else if value != 0 && value != 1 then (b, ERR_INVALID)
    else if pin !in Outputs(b) then (b, ERR_INVALID)
    else if !writeOk then (b, ERR_IO)
    else (b.(level := b.level[pin := value]), OK)
  }

  // Every output line that accepts the write is driven to 0; failures are ignored.
  function Swept(b: Bank, stuck: set<int>): Bank {
    b.(level := b.level + map p | p in Outputs(b) - stuck :: 0)
  }

  function Released(b: Bank): Bank {
    b.(up := false, dirs := map[])
  }

  // ---------------------------------------------------------------- the slot array

  datatype Slot = Slot(pin: int, isOutput: bool, line: Option<int>)

  ghost predicate Live(s: seq<Slot>, i: int) {
    0 <= i < |s| && s[i].line.Some?
  }

  // Live slots name the line they hold and never share a pin.
  ghost predicate Coherent(s: seq<Slot>) {
    && (forall i | Live(s, i) :: s[i].line == Some(s[i].pin))
    && (forall i, j | Live(s, i) && Live(s, j) && s[i].pin == s[j].pin :: i == j)
  }

  // While the chip is open, a free slot is not marked as an output.
  ghost predicate Blank(s: seq<Slot>) {
    forall i | 0 <= i < |s| && s[i].line.None? :: !s[i].isOutput
  }

  function Dirs(s: seq<Slot>): map<int, Direction> {
    if s == [] then map[]
    else
      var before, last := Dirs(s[..|s| - 1]), s[|s| - 1];
      if last.line.Some? then before[last.pin := if last.isOutput then Output else Input] else before
  }

  function LiveCount(s: seq<Slot>): (n: nat)
    ensures n <= |s|
  {
    if s == [] then 0 else LiveCount(s[..|s| - 1]) + if s[|s| - 1].line.Some? then 1 else 0
  }

  lemma CoherentPrefix(s: seq<Slot>)
    requires Coherent(s) && s != []
    ensures Coherent(s[..|s| - 1])
  {
    var t := s[..|s| - 1];
    assert forall i | Live(t, i) :: Live(s, i) && t[i] == s[i];
  }

  // A pin is in the map exactly when some live slot holds it, with that slot's direction.
  lemma {:induction false} DirsOf(s: seq<Slot>, pin: int) returns (i: int)
    requires pin in Dirs(s)
    ensures Live(s, i) && s[i].pin == pin
  {
    i := |s| - 1;
    if !(s[i].line.Some? && s[i].pin == pin) {
      i := DirsOf(s[..|s| - 1], pin);
    }
  }

  lemma {:induction false} DirsAt(s: seq<Slot>, i: int)
    requires Coherent(s) && Live(s, i)
    ensures s[i].pin in Dirs(s)
    ensures Dirs(s)[s[i].pin] == if s[i].isOutput then Output else Input
  {
    var n := |s| - 1;
    if i < n {
      CoherentPrefix(s);
      assert Live(s[..n], i);
      DirsAt(s[..n], i);
      assert s[n].line.Some? ==> Live(s, n);
    }
  }

  // As many pins as live slots.
  lemma {:induction false} DirsSize(s: seq<Slot>)
    requires Coherent(s)
    ensures |Dirs(s)| == LiveCount(s)
  {
    if s != [] {
      var n := |s| - 1;
      CoherentPrefix(s);
      DirsSize(s[..n]);
      if s[n].line.Some? && s[n].pin in Dirs(s[..n]) {
        var k := DirsOf(s[..n], s[n].pin);
        assert Live(s, k) && Live(s, n);
        assert false;
      }
    }
  }

  lemma {:induction false} FullOrFree(s: seq<Slot>)
    ensures LiveCount(s) == |s| <==> forall i | 0 <= i < |s| :: s[i].line.Some?
  {
    if s != [] {
      var t := s[..|s| - 1];
      FullOrFree(t);
      assert (forall i | 0 <= i < |s| :: s[i].line.Some?) <==>
             s[|s| - 1].line.Some? && forall i | 0 <= i < |t| :: t[i].line.Some?;
    }
  }

  lemma FillSlot(s: seq<Slot>, i: int, pin: int, isOutput: bool)
    requires Coherent(s) && 0 <= i < |s| && !Live(s, i) && pin !in Dirs(s)
    ensures var t := s[i := Slot(pin, isOutput, Some(pin))];
            Coherent(t) && Dirs(t) == Dirs(s)[pin := if isOutput then Output else Input]
  {
    var t := s[i := Slot(pin, isOutput, Some(pin))];
    assert forall j | j != i :: Live(t, j) <==> Live(s, j);
    forall j | Live(t, j) && j != i ensures t[j].pin != pin { DirsAt(s, j); }
    assert Coherent(t);
    FillSlotDirs(s, i, pin, isOutput);
  }

  lemma FillSlotDirs(s: seq<Slot>, i: int, pin: int, isOutput: bool)
    requires Coherent(s) && 0 <= i < |s| && !Live(s, i) && pin !in Dirs(s)
    requires Coherent(s[i := Slot(pin, isOutput, Some(pin))])
    ensures Dirs(s[i := Slot(pin, isOutput, Some(pin))]) == Dirs(s)[pin := if isOutput then Output else Input]
  {
    var t := s[i := Slot(pin, isOutput, Some(pin))];
    var want := Dirs(s)[pin := if isOutput then Output else Input];
    DirsAt(t, i);
    forall p ensures p in Dirs(t) <==> p in want {
      if p in Dirs(t) { var k := DirsOf(t, p); if k != i { DirsAt(s, k); } }
      if p in Dirs(s) { var k := DirsOf(s, p); DirsAt(t, k); }
    }
    forall p | p in want ensures Dirs(t)[p] == want[p] {
      var k := DirsOf(t, p);
      DirsAt(t, k);
      if k != i { DirsAt(s, k); }
    }
  }

  lemma {:induction false} SameLiveSlots(s: seq<Slot>, t: seq<Slot>)
    requires |s| == |t|
    requires forall i | 0 <= i < |s| :: s[i] == t[i] || (s[i].line.None? && t[i].line.None?)
    ensures Dirs(t) == Dirs(s)
    ensures Coherent(s) ==> Coherent(t)
  {
    if s != [] {
      SameLiveSlots(s[..|s| - 1], t[..|s| - 1]);
    }
    assert forall i :: Live(s, i) <==> Live(t, i);
  }

  lemma {:induction false} NoLiveSlots(s: seq<Slot>)
    requires forall i | 0 <= i < |s| :: s[i].line.None?
    ensures Coherent(s) && Dirs(s) == map[]
  {
    if s != [] {
      NoLiveSlots(s[..|s| - 1]);
    }
  }

  // ---------------------------------------------------------------- the table

  class GpioTable {
    const slots: array<Slot>
    var chipOpen: bool
    var initialized: bool
    var level: map<int, int>  // what the hardware lines last accepted

    ghost predicate Valid()
      reads this, slots
    {
      && slots.Length == MAX_LINES
      && Coherent(slots[..])
      && initialized == chipOpen
      && (initialized ==> Blank(slots[..]))
      && Sound(View())
    }

    ghost function View(): Bank
      reads this, slots
    {
      Bank(initialized, Dirs(slots[..]), level)
    }

    // Static storage: zeroed slots, no chip.
    constructor ()
      ensures Valid() && View() == COLD && fresh(slots)
    {
      slots := new Slot[MAX_LINES](_ => Slot(0, false, None));
      chipOpen, initialized, level := false, false, map[];
      new;
      NoLiveSlots(slots[..]);
    }

    method FindSlot(pin: int) returns (found: Option<nat>)
      requires Valid()
      ensures found.None? <==> pin !in View().dirs
      ensures found.Some? ==> Live(slots[..], found.value) && slots[found.value].pin == pin
    {
      for i := 0 to MAX_LINES
        invariant forall j | 0 <= j < i && Live(slots[..], j) :: slots[j].pin != pin
      {
        if slots[i].pin == pin && slots[i].line.Some? {
          DirsAt(slots[..], i);
          return Some(i);
        }
      }
      assert pin !in View().dirs by {
        if pin in View().dirs {
          var k := DirsOf(slots[..], pin);
        }
      }
      return None;
    }

    method AllocSlot(pin: int) returns (slot: Option<nat>)
      requires Valid()
      modifies slots
      ensures Valid() && View() == old(View())
      ensures slot.None? <==> |View().dirs| >= MAX_LINES
      ensures slot.Some? ==> slot.value < MAX_LINES && !Live(slots[..], slot.value)
    {
      for i := 0 to MAX_LINES
        invariant slots[..] == old(slots[..])
        invariant forall j | 0 <= j < i :: Live(slots[..], j)
      {
        if slots[i].line.None? {
          FullOrFree(slots[..]);
          DirsSize(slots[..]);
          slots[i] := slots[i].(pin := pin);
          SameLiveSlots(old(slots[..]), slots[..]);
          return Some(i);
        }
      }
      FullOrFree(slots[..]);
      DirsSize(slots[..]);
      return None;
    }

    method Init(chipOk: bool) returns (rc: Code)
      requires Valid()
      modifies this, slots
      ensures Valid()
      ensures (View(), rc) == Opened(old(View()), chipOk)
      ensures rc == (if old(View()).up || chipOk then OK else ERR_PERM) && level == old(level)
      ensures rc == OK ==> View().up && View().dirs == if old(View()).up then old(View()).dirs else map[]
    {
      if initialized { return OK; }
      if !chipOk { return ERR_PERM; }
      chipOpen := true;
      for i := 0 to MAX_LINES
        invariant chipOpen && !initialized && level == old(level)
        invariant forall j | 0 <= j < i :: slots[j] == Slot(-1, false, None)
      {
        slots[i] := Slot(-1, false, None);
      }
      initialized := true;
      NoLiveSlots(slots[..]);
      return OK;
    }

    // gw_gpio_request_output and gw_gpio_request_input: `lineOk` is whether libgpiod
    // hands out and configures the line.
    method Request(pin: int, dir: Direction, initial: int, lineOk: bool) returns (rc: Code)
      requires Valid()
      modifies this`level, slots
      ensures Valid()
      ensures (View(), rc) == Reserved(old(View()), pin, dir, initial, lineOk)
      ensures rc == ERR_NOT_INIT <==> !old(View()).up
      ensures rc == ERR_INVALID <==>
                old(View()).up && (pin < 0 || pin > 53 || (dir == Output && initial != 0 && initial != 1))
      ensures rc == ERR_BUSY ==> pin in old(View()).dirs || |old(View()).dirs| >= 32
      ensures rc == ERR_IO ==> !lineOk
      ensures rc == OK ==> lineOk && pin !in old(View()).dirs && |old(View()).dirs| < 32
      ensures rc in {OK, ERR_NOT_INIT, ERR_INVALID, ERR_BUSY, ERR_IO}
      ensures rc == OK ==> View() == old(View()).(dirs := old(View()).dirs[pin := dir], level := level)
      ensures rc == OK ==> level == if dir == Output then old(level)[pin := initial] else old(level)
      ensures rc != OK ==> View() == old(View())
    {
      hide Dirs, Coherent, LiveCount;
      if !initialized { return ERR_NOT_INIT; }
      if pin < 0 || pin > MAX_PIN { return ERR_INVALID; }
      if dir.Output? && initial != 0 && initial != 1 { return ERR_INVALID; }
      var found := FindSlot(pin);
      if found.Some? { return ERR_BUSY; }
      var slot := AllocSlot(pin);
      if slot.None? { return ERR_BUSY; }
      ghost var before := slots[..];
      if !lineOk {
        slots[slot.value] := slots[slot.value].(pin := -1);
        SameLiveSlots(before, slots[..]);
        return ERR_IO;
      }
      if dir.Output? {
        level := level[pin := initial];
      }
      slots[slot.value] := Slot(pin, dir.Output?, Some(pin));
      FillSlot(before, slot.value, pin, dir.Output?);
      DirsSize(slots[..]);
      return OK;
    }

    method Set(pin: int, value: int, writeOk: bool) returns (rc: Code)
      requires Valid()
      modifies this`level
      ensures Valid()
      ensures (View(), rc) == Written(old(View()), pin, value, writeOk)
      ensures rc == ERR_NOT_INIT <==> !old(View()).up
      ensures rc == ERR_INVALID <==>
                && old(View()).up
                && ((value != 0 && value != 1) || pin !in old(View()).dirs || old(View()).dirs[pin] == Input)
      ensures rc == ERR_IO ==> !writeOk
      ensures rc == OK ==> writeOk && level == old(level)[pin := value]
      ensures rc in {OK, ERR_NOT_INIT, ERR_INVALID, ERR_IO} && (rc != OK ==> level == old(level))
    {
      if !initialized { return ERR_NOT_INIT; }
      if value != 0 && value != 1 { return ERR_INVALID; }
      var found := FindSlot(pin);
      if found.None? { return ERR_INVALID; }
      DirsAt(slots[..], found.value);
      if !slots[found.value].isOutput { return ERR_INVALID; }
      if !writeOk { return ERR_IO; }
      level := level[pin := value];
      return OK;
    }

    // `reading` is what libgpiod reports for the line, negative on failure; `haveOut` is
    // whether the caller passed a place for the value.
    method Get(pin: int, haveOut: bool, reading: int) returns (rc: Code, value: Option<int>)
      requires Valid()
      ensures rc == OK <==> View().up && haveOut && pin in View().dirs && reading >= 0
      ensures rc == ERR_NOT_INIT <==> !View().up
      ensures rc == ERR_INVALID <==> View().up && !(haveOut && pin in View().dirs)
      ensures rc == ERR_IO <==> View().up && haveOut && pin in View().dirs && reading < 0
      ensures value == if rc == OK then Some(reading) else None
    {
      if !initialized { return ERR_NOT_INIT, None; }
      if !haveOut { return ERR_INVALID, None; }
      var found := FindSlot(pin);
      if found.None? { return ERR_INVALID, None; }
      if reading < 0 { return ERR_IO, None; }
      return OK, Some(reading);
    }

    method Cleanup()
      requires Valid()
      modifies this, slots
      ensures Valid() && View() == Released(old(View()))
      ensures !View().up && View().dirs == map[] && level == old(level)
    {
      for i := 0 to MAX_LINES
        invariant level == old(level)
        invariant forall j | 0 <= j < i :: slots[j].line.None?
      {
        if slots[i].line.Some? {
          slots[i] := slots[i].(line := None, pin := -1);
        }
      }
      chipOpen, initialized := false, false;
      NoLiveSlots(slots[..]);
    }

    // The same loop whether or not trylock got the mutex. Without it another thread may be in
    // the middle of a call, so the table need not be valid; `stuck` are the lines whose write
    // fails.
    method AssertSafeState(stuck: set<int>)
      requires slots.Length == MAX_LINES
      modifies this`level
      ensures level == SweptUpTo(slots[..], old(level), stuck, MAX_LINES)
      ensures old(Valid()) ==> Valid() && View() == Swept(old(View()), stuck)
    {
      for i := 0 to MAX_LINES
        invariant level == SweptUpTo(slots[..], old(level), stuck, i)
      {
        if slots[i].line.Some? && slots[i].isOutput && slots[i].pin !in stuck {
          level := level[slots[i].pin := 0];
        }
      }
      if Coherent(slots[..]) {
        SweepIsExact(slots[..], old(level), stuck, initialized);
      }
    }
  }

  function SweptUpTo(s: seq<Slot>, level: map<int, int>, stuck: set<int>, n: nat): map<int, int>
    requires n <= |s|
  {
    if n == 0 then level
    else
      var before := SweptUpTo(s, level, stuck, n - 1);
      if s[n - 1].line.Some? && s[n - 1].isOutput && s[n - 1].pin !in stuck then before[s[n - 1].pin := 0]
      else before
  }

  lemma {:induction false} SweptUpToAt(s: seq<Slot>, level: map<int, int>, stuck: set<int>, n: nat, p: int)
    requires n <= |s|
    ensures var hit := exists i :: 0 <= i < n && Live(s, i) && s[i].isOutput && s[i].pin == p && p !in stuck;
            var after := SweptUpTo(s, level, stuck, n);
            && (p in after <==> hit || p in level)
            && (p in after ==> after[p] == if hit then 0 else level[p])
  {
    if n > 0 {
      SweptUpToAt(s, level, stuck, n - 1, p);
      assert Live(s, n - 1) <==> s[n - 1].line.Some?;
    }
  }

  lemma SweepIsExact(s: seq<Slot>, level: map<int, int>, stuck: set<int>, up: bool)
    requires Coherent(s)
    ensures SweptUpTo(s, level, stuck, |s|) == Swept(Bank(up, Dirs(s), level), stuck).level
  {
    var b := Bank(up, Dirs(s), level);
    var after, want := SweptUpTo(s, level, stuck, |s|), Swept(b, stuck).level;
    forall p ensures (p in after <==> p in want) && (p in after ==> after[p] == want[p]) {
      SweptUpToAt(s, level, stuck, |s|, p);
      if p in Outputs(b) {
        var k := DirsOf(s, p);
        DirsAt(s, k);
      }
      if i :| 0 <= i < |s| && Live(s, i) && s[i].isOutput && s[i].pin == p {
        DirsAt(s, i);
      }
    }
  }

  // ---------------------------------------------------------------- the sweep without the mutex

  // How far another thread's request for an output line has got: looking for a slot, line
  // driven by the kernel, line stored in the slot, slot marked as an output.
  datatype Stage = Searching | Granted | Stored | Marked

  // The table at that stage, with slot i chosen.
  function TableAt(s: seq<Slot>, i: int, pin: int, stage: Stage): seq<Slot>
    requires 0 <= i < |s|
  {
    match stage
    case Searching => s
    case Granted => s[i := s[i].(pin := pin)]
    case Stored => s[i := Slot(pin, s[i].isOutput, Some(pin))]
    case Marked => s[i := Slot(pin, true, Some(pin))]
  }

  // The lines the kernel holds as outputs then.
  function OutputsAt(s: seq<Slot>, pin: int, stage: Stage): set<int> {
    Outputs(Bank(true, Dirs(s), map[])) + if stage.Searching? then {} else {pin}
  }

  // Short of the last stage the sweep does exactly what it would have done without the
  // request: the line being requested keeps its level, every other output goes low.
  lemma UnlockedSweepMisses(s: seq<Slot>, i: int, pin: int, stage: Stage, level: map<int, int>, stuck: set<int>)
    requires Coherent(s) && Blank(s) && 0 <= i < |s| && !Live(s, i) && pin !in Dirs(s) && !stage.Marked?
    ensures SweptUpTo(TableAt(s, i, pin, stage), level, stuck, |s|) == Swept(Bank(true, Dirs(s), level), stuck).level
    ensures pin in level ==> pin in SweptUpTo(TableAt(s, i, pin, stage), level, stuck, |s|)
                             && SweptUpTo(TableAt(s, i, pin, stage), level, stuck, |s|)[pin] == level[pin]
  {
    var t := TableAt(s, i, pin, stage);
    assert !s[i].isOutput;
    SameSweep(s, t, level, stuck, |s|);
    SweepIsExact(s, level, stuck, true);
    assert pin !in Outputs(Bank(true, Dirs(s), level));
  }

  predicate HoldsOutput(slot: Slot) {
    slot.line.Some? && slot.isOutput
  }

  // The scan looks only at slots that hold an output line.
  lemma {:induction false} SameSweep(s: seq<Slot>, t: seq<Slot>, level: map<int, int>, stuck: set<int>, n: nat)
    requires |s| == |t| && n <= |s|
    requires forall k | 0 <= k < |s| :: s[k] == t[k] || (!HoldsOutput(s[k]) && !HoldsOutput(t[k]))
    ensures SweptUpTo(t, level, stuck, n) == SweptUpTo(s, level, stuck, n)
  {
    if n > 0 {
      SameSweep(s, t, level, stuck, n - 1);
    }
  }

  // So a sweep that finds a request for an output half done drives every line held as an
  // output low (if it takes the write) exactly when no request is between the kernel's grant
  // and the mark, or the requested line is low already or stuck.
  lemma UnlockedSweepExactlyWhen(s: seq<Slot>, i: int, pin: int, stage: Stage, level: map<int, int>, stuck: set<int>)
    requires Coherent(s) && Blank(s) && 0 <= i < |s| && !Live(s, i) && pin !in Dirs(s)
    requires OutputsAt(s, pin, stage) <= level.Keys
    ensures var after := SweptUpTo(TableAt(s, i, pin, stage), level, stuck, |s|);
            && OutputsAt(s, pin, stage) <= after.Keys
            && ((forall p | p in OutputsAt(s, pin, stage) - stuck :: after[p] == 0) <==>
                  stage in {Searching, Marked} || pin in stuck || level[pin] == 0)
  {
    var b := Bank(true, Dirs(s), level);
    assert Outputs(Bank(true, Dirs(s), map[])) == Outputs(b);
    if stage.Marked? {
      var t := TableAt(s, i, pin, stage);
      FillSlot(s, i, pin, true);
      SweepIsExact(t, level, stuck, true);
      var done := Bank(true, Dirs(t), level);
      assert Outputs(done) == Outputs(b) + {pin};
    } else {
      UnlockedSweepMisses(s, i, pin, stage, level, stuck);
    }
  }

  // The scan of slots from..n, over whatever the levels have become.
  function SweptFrom(s: seq<Slot>, level: map<int, int>, stuck: set<int>, from: nat, n: nat): map<int, int>
    requires from <= n <= |s|
    decreases n - from
  {
    if n == from then level
    else
      var before := SweptFrom(s, level, stuck, from, n - 1);
      if HoldsOutput(s[n - 1]) && s[n - 1].pin !in stuck then before[s[n - 1].pin := 0] else before
  }

  lemma {:induction false} SweptFromAt(s: seq<Slot>, level: map<int, int>, stuck: set<int>, from: nat, n: nat, p: int)
    requires from <= n <= |s|
    ensures var hit := exists i :: from <= i < n && Live(s, i) && s[i].isOutput && s[i].pin == p && p !in stuck;
            var after := SweptFrom(s, level, stuck, from, n);
            && (p in after <==> hit || p in level)
            && (p in after ==> after[p] == if hit then 0 else level[p])
    decreases n - from
  {
    if n > from {
      SweptFromAt(s, level, stuck, from, n - 1, p);
      assert Live(s, n - 1) <==> s[n - 1].line.Some?;
    }
  }

  // A sweep without the mutex, because another thread is in the middle of a write to the
  // output in slot k; that write reaches the line when the scan has passed `done` slots.
  function SweptAround(s: seq<Slot>, level: map<int, int>, stuck: set<int>, k: nat, value: int, writeOk: bool,
                       done: nat): map<int, int>
    requires k < |s| && done <= |s|
  {
    var before := SweptUpTo(s, level, stuck, done);
    SweptFrom(s, if writeOk then before[s[k].pin := value] else before, stuck, done, |s|)
  }

  // Every other output that takes its write ends at 0; the one being written keeps the value
  // exactly when the scan had passed its slot.
  lemma SweptAroundAt(s: seq<Slot>, level: map<int, int>, stuck: set<int>, k: nat, value: int, writeOk: bool,
                      done: nat, p: int)
    requires Coherent(s) && k < |s| && done <= |s| && Live(s, k) && s[k].isOutput
    requires p in Outputs(Bank(true, Dirs(s), level)) - stuck
    ensures var after := SweptAround(s, level, stuck, k, value, writeOk, done);
            p in after && after[p] == if p == s[k].pin && writeOk && k < done then value else 0
  {
    var i := DirsOf(s, p);
    DirsAt(s, i);
    assert p == s[k].pin ==> i == k;
    SweptUpToAt(s, level, stuck, done, p);
    var before := SweptUpTo(s, level, stuck, done);
    SweptFromAt(s, if writeOk then before[s[k].pin := value] else before, stuck, done, |s|, p);
    hide Dirs, SweptUpTo, SweptFrom, Outputs;
  }

  // So the sweep leaves every output that takes its write low exactly when the other thread's
  // write fails, writes 0, is to a stuck line, or comes before the scan has passed its slot.
  lemma UnlockedSweepAroundWrite(s: seq<Slot>, level: map<int, int>, stuck: set<int>, k: nat, value: int,
                                 writeOk: bool, done: nat)
    requires Coherent(s) && k < |s| && done <= |s| && Live(s, k) && s[k].isOutput
    ensures var after := SweptAround(s, level, stuck, k, value, writeOk, done);
            (forall p | p in Outputs(Bank(true, Dirs(s), level)) - stuck :: p in after && after[p] == 0) <==>
              !writeOk || value == 0 || s[k].pin in stuck || done <= k
  {
    var b := Bank(true, Dirs(s), level);
    DirsAt(s, k);
    assert s[k].pin in Outputs(b);
    var after := SweptAround(s, level, stuck, k, value, writeOk, done);
    var outs := Outputs(b) - stuck;
    forall p | p in outs ensures p in after && after[p] == if p == s[k].pin && writeOk && k < done then value else 0 {
      SweptAroundAt(s, level, stuck, k, value, writeOk, done, p);
    }
    assert s[k].pin in stuck || s[k].pin in outs;
    hide Dirs, SweptAround, Outputs;
  }
}
