/**
 Modbus RTU master over RS-485: the chunked reader, the branching reply decoder of
 `gw_rs485_modbus_read` and the echo check of `gw_rs485_modbus_write`.
 */
module Modbus {
  import opened Crc
  import opened CrcAlgebra
  import CrcOrder

  datatype Code = OK | ERR_TIMEOUT | ERR_CRC | ERR_IO | ERR_INVALID

  // ---------------------------------------------------------------- the serial line

  // One return of select() and the read() after it.  Data([]) is a read that returns 0.
  datatype Event = Data(bytes: seq<bv8>) | Interrupted | Silence | Broken

  // The bytes that arrive before the line goes quiet or fails, however they are chunked.
  function Arrived(events: seq<Event>): seq<bv8> {
    if events == [] then []
    else match events[0]
      case Data(b) => if b == [] then [] else b + Arrived(events[1..])
      case Interrupted => Arrived(events[1..])
      case Silence => []
      case Broken => []
  }

  // How waiting for one more byte than arrives ends.
  function Ending(events: seq<Event>): (c: Code)
    ensures c == ERR_TIMEOUT || c == ERR_IO
  {
    if events == [] then ERR_TIMEOUT
    else match events[0]
      case Data(b) => if b == [] then ERR_IO else Ending(events[1..])
      case Interrupted => Ending(events[1..])
      case Silence => ERR_TIMEOUT
      case Broken => ERR_IO
  }

  ghost predicate OnlyBytes(events: seq<Event>) {
    forall i | 0 <= i < |events| :: events[i].Interrupted? || (events[i].Data? && events[i].bytes != [])
  }

  function Bytes(events: seq<Event>): seq<bv8> {
    if events == [] then []
    else (if events[0].Data? then events[0].bytes else []) + Bytes(events[1..])
  }

  // As long as bytes keep coming they arrive, in order and interruptions aside; then silence
  // is a timeout, and a failure or an end of file is an I/O error.
  lemma {:induction false} LineEnds(events: seq<Event>, rest: seq<Event>)
    requires OnlyBytes(events)
    ensures Arrived(events) == Bytes(events) && Ending(events) == ERR_TIMEOUT
    ensures Arrived(events + [Silence] + rest) == Bytes(events)
    ensures Ending(events + [Silence] + rest) == ERR_TIMEOUT
    ensures forall e | e == Broken || e == Data([]) ::
              Arrived(events + [e] + rest) == Bytes(events) && Ending(events + [e] + rest) == ERR_IO
  {
    if events != [] {
      LineEnds(events[1..], rest);
      assert OnlyBytes(events[1..]);
      forall e: Event ensures (events + [e] + rest)[0] == events[0]
                              && (events + [e] + rest)[1..] == events[1..] + [e] + rest {
      }
    }
  }

  // `pending` is what happens on the line after the input flush that precedes a request.
  class SerialLine {
    var sent: seq<bv8>
    var pending: seq<Event>
    const writable: bool

    constructor (events: seq<Event>, writable: bool)
      ensures sent == [] && pending == events && this.writable == writable
    {
      sent, pending, this.writable := [], events, writable;
    }

    method Write(buf: array<bv8>) returns (ok: bool)
      modifies `sent
      ensures ok == writable
      ensures sent == if writable then old(sent) + buf[..] else old(sent)
    {
      ok := writable;
      if writable {
        sent := sent + buf[..];
      }
    }
  }

  // The buffer after data is copied to position `at`.
  function Filled<T>(buf: seq<T>, at: nat, data: seq<T>): (r: seq<T>)
    requires at + |data| <= |buf|
    ensures |r| == |buf|
  {
    buf[..at] + data + buf[at + |data|..]
  }

  // read() copying bytes into the caller's buffer.
  method Deliver(buf: array<bv8>, at: nat, bytes: seq<bv8>)
    requires at + |bytes| <= buf.Length
    modifies buf
    ensures buf[..] == Filled(old(buf[..]), at, bytes)
  {
    for k := 0 to |bytes|
      invariant forall i | 0 <= i < buf.Length ::
                  buf[i] == if at <= i < at + k then bytes[i - at] else old(buf[i])
    {
      buf[at + k] := bytes[k];
    }
  }

  datatype Polled = Got(count: nat) | Again | Gone(code: Code)

  // What is left on the line after reading n bytes of the first event.
  function AfterRead(events: seq<Event>, n: nat): seq<Event>
    requires events != [] && events[0].Data? && n <= |events[0].bytes|
  {
    if n < |events[0].bytes| then [Data(events[0].bytes[n..])] + events[1..] else events[1..]
  }

  lemma ReadTakesPrefix(events: seq<Event>, n: nat)
    requires events != [] && events[0].Data? && 0 < n <= |events[0].bytes|
    ensures Arrived(events) == events[0].bytes[..n] + Arrived(AfterRead(events, n))
    ensures Ending(AfterRead(events, n)) == Ending(events)
  {
    var b, later := events[0].bytes, events[1..];
    assert Arrived(events) == b + Arrived(later) && Ending(events) == Ending(later);
    assert b == b[..n] + b[n..];
    if n < |b| {
      var rest := [Data(b[n..])] + later;
      assert rest[0] == Data(b[n..]) && rest[1..] == later;
      assert Arrived(rest) == b[n..] + Arrived(later) && Ending(rest) == Ending(later);
      Associate(b[..n], b[n..], Arrived(later));
    }
  }

  lemma Associate<T>(a: seq<T>, b: seq<T>, c: seq<T>)
    ensures (a + b) + c == a + (b + c)
  {
  }

  // One select() and, when it reports input, one read() of at most `limit` bytes, which hands
  // over the next chunk of what arrives.
  method Poll(line: SerialLine, buf: array<bv8>, at: nat, limit: nat) returns (p: Polled, ghost chunk: seq<bv8>)
    requires 0 < limit && at + limit <= buf.Length
    modifies line`pending, buf
    ensures p.Gone? ==> Arrived(old(line.pending)) == [] && p.code == Ending(old(line.pending))
    ensures !p.Gone? ==> Arrived(old(line.pending)) == chunk + Arrived(line.pending)
    ensures !p.Gone? ==> Ending(line.pending) == Ending(old(line.pending))
    ensures p.Again? ==> chunk == [] && |line.pending| < |old(line.pending)|
    ensures !p.Got? ==> buf[..] == old(buf[..])
    ensures p.Got? ==> |chunk| == p.count && 0 < p.count <= limit && |line.pending| <= |old(line.pending)|
    ensures p.Got? ==> buf[..] == Filled(old(buf[..]), at, chunk)
  {
    hide Filled;
    chunk := [];
    if line.pending == [] { return Gone(ERR_TIMEOUT), []; }
    var e := line.pending[0];
    if e.Silence? { return Gone(ERR_TIMEOUT), []; }
    if e.Broken? || e == Data([]) { return Gone(ERR_IO), []; }
    if e.Interrupted? {
      line.pending := line.pending[1..];
      return Again, [];
    }
    var n := if |e.bytes| <= limit then |e.bytes| else limit;
    ReadTakesPrefix(line.pending, n);
    hide Arrived, Ending;
    Deliver(buf, at, e.bytes[..n]);
    line.pending := AfterRead(line.pending, n);
    return Got(n), e.bytes[..n];
  }

  // Filling on from where an earlier filling stopped.
  lemma FilledOn<T>(orig: seq<T>, at: nat, taken: seq<T>, chunk: seq<T>)
    requires at + |taken| + |chunk| <= |orig|
    ensures Filled(Filled(orig, at, taken), at + |taken|, chunk) == Filled(orig, at, taken + chunk)
  {
    var a, b := Filled(Filled(orig, at, taken), at + |taken|, chunk), Filled(orig, at, taken + chunk);
    forall i | 0 <= i < |orig| ensures a[i] == b[i] {
    }
  }

  // The buffer `now` holds the first `got` of all bytes, and `rest` is still to come.
  ghost predicate Taken(orig: seq<bv8>, at: nat, all: seq<bv8>, got: nat, now: seq<bv8>, rest: seq<bv8>) {
    got <= |all| && at + got <= |orig| && rest == all[got..] && now == Filled(orig, at, all[..got])
  }

  lemma TakenOn(orig: seq<bv8>, at: nat, all: seq<bv8>, got: nat, chunk: seq<bv8>,
                now: seq<bv8>, later: seq<bv8>, rest: seq<bv8>)
    requires Taken(orig, at, all, got, now, chunk + rest)
    requires at + got + |chunk| <= |orig| && later == Filled(now, at + got, chunk)
    ensures Taken(orig, at, all, got + |chunk|, later, rest)
  {
    assert all[..got + |chunk|] == all[..got] + chunk;
    FilledOn(orig, at, all[..got], chunk);
    hide Filled;
    assert all == all[..got] + (chunk + rest);
  }

  lemma NoneTaken(orig: seq<bv8>, at: nat, all: seq<bv8>)
    requires at <= |orig|
    ensures Taken(orig, at, all, 0, orig, all)
  {
  }

  lemma TakenEnds(orig: seq<bv8>, at: nat, all: seq<bv8>, got: nat, now: seq<bv8>)
    requires Taken(orig, at, all, got, now, [])
    ensures |all| == got
  {
  }

  lemma NothingTaken(rest: seq<bv8>)
    ensures [] + rest == rest
  {
  }

  lemma TakenIs(orig: seq<bv8>, at: nat, all: seq<bv8>, got: nat, now: seq<bv8>, rest: seq<bv8>)
    requires Taken(orig, at, all, got, now, rest)
    ensures got <= |all| && at + got <= |orig| && rest == all[got..] && now == Filled(orig, at, all[..got])
  {
  }

  method ReadWithTimeout(line: SerialLine, buf: array<bv8>, at: nat, want: nat) returns (rc: Code)
    requires at + want <= buf.Length
    modifies line`pending, buf
    ensures (rc == OK) == (|Arrived(old(line.pending))| >= want)
    ensures rc == OK ==> buf[..] == Filled(old(buf[..]), at, Arrived(old(line.pending))[..want])
    ensures rc == OK ==> Arrived(line.pending) == Arrived(old(line.pending))[want..]
    ensures rc == OK ==> Ending(line.pending) == Ending(old(line.pending))
    ensures rc != OK ==> rc == Ending(old(line.pending))
  {
    hide Arrived, Ending, Filled, Taken;
    ghost var orig, all := buf[..], Arrived(line.pending);
    NoneTaken(orig, at, all);
    var got := 0;
    while got < want
      invariant got <= want && Taken(orig, at, all, got, buf[..], Arrived(line.pending))
      invariant Ending(line.pending) == Ending(old(line.pending))
      decreases |line.pending| + want - got
    {
      ghost var now := buf[..];
      var p, chunk := Poll(line, buf, at + got, want - got);
      match p {
        case Gone(code) =>
          TakenEnds(orig, at, all, got, now);
          return code;
        case Again =>
          NothingTaken(Arrived(line.pending));
        case Got(n) =>
          TakenOn(orig, at, all, got, chunk, now, buf[..], Arrived(line.pending));
          got := got + n;
      }
    }
    TakenIs(orig, at, all, got, buf[..], Arrived(line.pending));
    return OK;
  }

  // ---------------------------------------------------------------- frames

  const READ_HOLDING: bv8 := 0x03
  const READ_INPUT: bv8 := 0x04
  const WRITE_SINGLE: bv8 := 0x06
  const MAX_REGISTERS: nat := 125

  type uint16 = n: nat | n < 0x1_0000

  function WithCrc(body: seq<bv8>): seq<bv8> {
    body + [LowByte(Crc16(body)), HighByte(Crc16(body))]
  }

  function Request(slave: bv8, fn: bv8, address: bv16, value: bv16): seq<bv8> {
    WithCrc([slave, fn, HighByte(address), LowByte(address), HighByte(value), LowByte(value)])
  }

  function Join(hi: bv8, lo: bv8): bv16 {
    ((hi as bv16) << 8) | (lo as bv16)
  }

  lemma JoinSplit(v: bv16)
    ensures Join(HighByte(v), LowByte(v)) == v
  {
  }

  lemma SplitJoin(hi: bv8, lo: bv8)
    ensures HighByte(Join(hi, lo)) == hi && LowByte(Join(hi, lo)) == lo
  {
  }

  lemma WithCrcIsValid(body: seq<bv8>)
    ensures ValidFrame(WithCrc(body))
  {
    var f := WithCrc(body);
    assert f[..|f| - 2] == body;
  }

  lemma FirstPage(v: bv16)
    requires v < 256
    ensures HighByte(v) == 0 && LowByte(v) as int == v as int
  {
  }

  lemma PageBelow(v: bv16)
    requires v >= 256
    ensures HighByte(v - 256) == HighByte(v) - 1 && HighByte(v) >= 1 && LowByte(v - 256) == LowByte(v)
  {
  }

  lemma MinusPage(v: bv16)
    requires v >= 256
    ensures (v - 256) as int == v as int - 256
  {
  }

  lemma MinusOne(b: bv8)
    requires b >= 1
    ensures (b - 1) as int == b as int - 1
  {
  }

  lemma OnePageLess(v: bv16) returns (w: bv16)
    requires v >= 256
    ensures w as int == v as int - 256
    ensures HighByte(w) as int == HighByte(v) as int - 1 && LowByte(w) == LowByte(v)
  {
    w := v - 256;
    PageBelow(v);
    MinusPage(v);
    MinusOne(HighByte(v));
    hide HighByte, LowByte;
  }

  // The two halves of a word in arithmetic: the high byte counts 256.
  lemma {:induction false} HighLow(v: bv16)
    ensures v as int == 256 * (HighByte(v) as int) + LowByte(v) as int
    decreases v as int
  {
    if v < 256 {
      FirstPage(v);
    } else {
      var w := OnePageLess(v);
      hide HighByte, LowByte;
      HighLow(w);
    }
  }

  lemma JoinIs(hi: bv8, lo: bv8)
    ensures Join(hi, lo) as int == 256 * (hi as int) + lo as int
  {
    SplitJoin(hi, lo);
    HighLow(Join(hi, lo));
    hide HighByte, LowByte, Join;
  }

  lemma BelowPage(b: bv8)
    ensures 0 <= b as int < 256
  {
  }

  lemma SameDigits(h: int, l: int, h': int, l': int)
    requires 0 <= l < 256 && 0 <= l' < 256 && 256 * h + l == 256 * h' + l'
    ensures h == h' && l == l'
  {
  }

  // Two bytes as a number, the first one more significant.
  ghost function Word(hi: bv8, lo: bv8): int {
    256 * (hi as int) + lo as int
  }

  lemma SameBytes(hi: bv8, lo: bv8, h: bv8, l: bv8)
    ensures Word(hi, lo) == Word(h, l) <==> hi == h && lo == l
  {
    ByteIsItsValue(hi, h);
    ByteIsItsValue(lo, l);
    BelowPage(lo);
    BelowPage(l);
    if 256 * (hi as int) + lo as int == 256 * (h as int) + l as int {
      SameDigits(hi as int, lo as int, h as int, l as int);
    }
  }

  lemma WordOf(v: bv16)
    ensures Word(HighByte(v), LowByte(v)) == v as int
  {
    HighLow(v);
    hide HighByte, LowByte;
  }

  // Two bytes are the halves of a word exactly when they count to it.
  lemma SameWord(hi: bv8, lo: bv8, v: bv16)
    ensures Word(hi, lo) == v as int <==> hi == HighByte(v) && lo == LowByte(v)
  {
    WordOf(v);
    hide HighByte, LowByte, Word;
    SameBytes(hi, lo, HighByte(v), LowByte(v));
  }

  // Eight bytes as the slave reads them: the register address in the third and fourth byte, the
  // number of registers or the value in the fifth and sixth, each most significant byte first,
  // and a CRC over the first six.
  ghost predicate Asks(f: seq<bv8>, slave: bv8, fn: bv8, address: bv16, value: bv16) {
    && |f| == 8 && f[0] == slave && f[1] == fn && ValidFrame(f)
    && Word(f[2], f[3]) == address as int && Word(f[4], f[5]) == value as int
  }

  lemma FrameOfBody(f: seq<bv8>, body: seq<bv8>)
    ensures f == WithCrc(body) <==> |f| == |body| + 2 && f[..|body|] == body && ValidFrame(f)
  {
    WithCrcIsValid(body);
    WithCrcShape(body);
    if |f| == |body| + 2 && ValidFrame(f) {
      ValidFrameSplits(f);
    }
    hide WithCrc, ValidFrame;
  }

  lemma BodyIs(f: seq<bv8>, body: seq<bv8>)
    requires |f| == 8 && |body| == 6
    ensures f[..6] == body <==> f[0] == body[0] && f[1] == body[1] && f[2] == body[2]
                                && f[3] == body[3] && f[4] == body[4] && f[5] == body[5]
  {
  }

  // A request carries its fields in the byte order of the protocol, and no other eight bytes do.
  lemma RequestExactly(slave: bv8, fn: bv8, address: bv16, value: bv16, f: seq<bv8>)
    ensures f == Request(slave, fn, address, value) <==> Asks(f, slave, fn, address, value)
  {
    var body := [slave, fn, HighByte(address), LowByte(address), HighByte(value), LowByte(value)];
    FrameOfBody(f, body);
    hide WithCrc, ValidFrame, HighByte, LowByte, Word;
    if |f| == 8 {
      SameWord(f[2], f[3], address);
      SameWord(f[4], f[5], value);
      BodyIs(f, body);
    }
  }

  // Its fields in integers.
  lemma RequestFields(slave: bv8, fn: bv8, address: bv16, value: bv16)
    ensures var f := Request(slave, fn, address, value);
            && |f| == 8 && f[0] == slave && f[1] == fn
            && f[2] as int * 256 + f[3] as int == address as int
            && f[4] as int * 256 + f[5] as int == value as int
  {
    var f := Request(slave, fn, address, value);
    RequestExactly(slave, fn, address, value, f);
    hide Request, ValidFrame;
  }

  // So does what is on the line once a request is sent.
  lemma SentAsks(before: seq<bv8>, slave: bv8, fn: bv8, address: bv16, value: bv16)
    ensures var sent := before + Request(slave, fn, address, value);
            |sent| >= 8 && Asks(sent[|sent| - 8..], slave, fn, address, value)
  {
    var req := Request(slave, fn, address, value);
    RequestExactly(slave, fn, address, value, req);
    hide Request, Word;
    assert (before + req)[|before|..] == req;
  }

  // The CRC comparison of the receivers, on the reassembled 16-bit value.
  lemma CrcMatches(f: seq<bv8>)
    requires |f| >= 2
    ensures (Join(f[|f| - 1], f[|f| - 2]) == Crc16(f[..|f| - 2])) <==> ValidFrame(f)
  {
    SplitJoin(f[|f| - 1], f[|f| - 2]);
    JoinSplit(Crc16(f[..|f| - 2]));
  }

  // ---------------------------------------------------------------- the read transaction

  datatype Outcome = Values(regs: seq<bv16>) | Failed(code: Code)

  function Registers(data: seq<bv8>, n: nat): (regs: seq<bv16>)
    requires |data| >= 2 * n
    ensures |regs| == n
  {
    if n == 0 then [] else [Join(data[0], data[1])] + Registers(data[2..], n - 1)
  }

  lemma {:induction false} RegisterAt(data: seq<bv8>, n: nat, i: nat)
    requires |data| >= 2 * n && i < n
    ensures Registers(data, n)[i] == Join(data[2 * i], data[2 * i + 1])
  {
    if i > 0 {
      RegisterAt(data[2..], n - 1, i - 1);
    }
  }

  // The byte count of a reply with n registers.
  function CountByte(n: nat): bv8 {
    if n == 0 then 0 else CountByte(n - 1) + 2
  }

  lemma {:induction false} CountByteValue(n: nat)
    requires n <= MAX_REGISTERS
    ensures CountByte(n) as int == 2 * n
  {
    if n > 0 {
      CountByteValue(n - 1);
    }
  }

  lemma CountMatches(n: nat, b: bv8)
    requires n <= MAX_REGISTERS
    ensures b == CountByte(n) <==> b as int == 2 * n
  {
    CountByteValue(n);
    ByteIsItsValue(b, CountByte(n));
  }

  lemma ByteIsItsValue(a: bv8, b: bv8)
    ensures a == b <==> a as int == b as int
  {
  }

  predicate IsException(bytes: seq<bv8>) {
    |bytes| >= 2 && bytes[1] & 0x80 != 0
  }

  // What the master concludes from the bytes that arrive and the way the line then ends.
  function DecodeReply(slave: bv8, fn: bv8, n: nat, bytes: seq<bv8>, ending: Code): Outcome {
    var expected := if IsException(bytes) then 5 else 5 + 2 * n;
    if |bytes| < 2 || |bytes| < expected then Failed(ending)
    else
      var f := bytes[..expected];
      if IsException(bytes) then Failed(if ValidFrame(f) then ERR_IO else ERR_CRC)
      else if f[0] != slave || f[1] != fn || f[2] != CountByte(n) || !ValidFrame(f) then Failed(ERR_CRC)
      else Values(Registers(f[3..], n))
  }

  lemma DecodeShort(slave: bv8, fn: bv8, n: nat, bytes: seq<bv8>, ending: Code)
    requires |bytes| < 2 || |bytes| < if IsException(bytes) then 5 else 5 + 2 * n
    ensures DecodeReply(slave, fn, n, bytes, ending) == Failed(ending)
  {
  }

  lemma DecodeException(slave: bv8, fn: bv8, n: nat, bytes: seq<bv8>, ending: Code)
    requires IsException(bytes) && |bytes| >= 5
    ensures DecodeReply(slave, fn, n, bytes, ending) == Failed(if ValidFrame(bytes[..5]) then ERR_IO else ERR_CRC)
  {
  }

  lemma DecodeNormal(slave: bv8, fn: bv8, n: nat, bytes: seq<bv8>, ending: Code)
    requires !IsException(bytes) && |bytes| >= 5 + 2 * n
    ensures var f := bytes[..5 + 2 * n];
            DecodeReply(slave, fn, n, bytes, ending) ==
              if bytes[0] != slave || bytes[1] != fn || bytes[2] != CountByte(n) || !ValidFrame(f) then Failed(ERR_CRC)
              else Values(Registers(f[3..], n))
  {
  }

  predicate ReadArgumentsOk(fd: int, fn: bv8, length: uint16, haveOut: bool) {
    fd >= 0 && haveOut && 1 <= length <= MAX_REGISTERS && (fn == READ_HOLDING || fn == READ_INPUT)
  }

  function ReadOutcome(fd: int, writable: bool, slave: bv8, fn: bv8, length: uint16, haveOut: bool,
                       events: seq<Event>): Outcome
  {
    if !ReadArgumentsOk(fd, fn, length, haveOut) then Failed(ERR_INVALID)
    else if !writable then Failed(ERR_IO)
    else DecodeReply(slave, fn, length, Arrived(events), Ending(events))
  }

  method BuildRequest(slave: bv8, fn: bv8, address: bv16, value: bv16) returns (req: array<bv8>)
    ensures fresh(req) && req[..] == Request(slave, fn, address, value)
  {
    req := new bv8[8];
    hide Crc16;
    req[0], req[1] := slave, fn;
    req[2], req[3] := HighByte(address), LowByte(address);
    req[4], req[5] := HighByte(value), LowByte(value);
    var crc := ComputeCrc(req, 6);
    assert req[..6] == [slave, fn, HighByte(address), LowByte(address), HighByte(value), LowByte(value)];
    req[6], req[7] := LowByte(crc), HighByte(crc);
    assert req[..] == req[..6] + [req[6], req[7]];
  }

  method SendRequest(line: SerialLine, slave: bv8, fn: bv8, address: bv16, value: bv16)
    returns (ok: bool, req: array<bv8>)
    modifies line`sent
    ensures ok == line.writable && fresh(req) && req[..] == Request(slave, fn, address, value)
    ensures line.sent == old(line.sent) + if ok then Request(slave, fn, address, value) else []
    ensures ok ==> |line.sent| >= 8 && Asks(line.sent[|line.sent| - 8..], slave, fn, address, value)
  {
    hide Request, Asks;
    req := BuildRequest(slave, fn, address, value);
    SentAsks(line.sent, slave, fn, address, value);
    ok := line.Write(req);
  }

  method CheckCrc(resp: array<bv8>, len: nat) returns (ok: bool)
    requires 2 <= len <= resp.Length
    ensures ok == ValidFrame(resp[..len])
  {
    var got := Join(resp[len - 1], resp[len - 2]);
    var computed := ComputeCrc(resp, len - 2);
    ok := got == computed;
    assert resp[..len][..len - 2] == resp[..len - 2];
    CrcMatches(resp[..len]);
  }

  // The second read of a reply: the rest of a frame whose first two bytes are in `resp`.
  method ReceiveRest(line: SerialLine, resp: array<bv8>, expected: nat, ghost bytes: seq<bv8>)
    returns (rc: Code, valid: bool)
    requires 3 <= expected <= resp.Length && |bytes| >= 2
    requires resp[..2] == bytes[..2] && Arrived(line.pending) == bytes[2..]
    modifies line`pending, resp
    ensures rc == if |bytes| < expected then Ending(old(line.pending)) else OK
    ensures rc == OK ==> resp[..expected] == bytes[..expected] && valid == ValidFrame(bytes[..expected])
  {
    valid := false;
    rc := ReadWithTimeout(line, resp, 2, expected - 2);
    if rc == OK {
      assert bytes[2..][..expected - 2] == bytes[2..expected];
      valid := CheckCrc(resp, expected);
    }
  }

  // The reception half of gw_rs485_modbus_read: on OK, `resp` holds a checked reply.
  method ReceiveReply(line: SerialLine, resp: array<bv8>, slave: bv8, fn: bv8, length: uint16) returns (rc: Code)
    requires resp.Length == 256 && 1 <= length <= MAX_REGISTERS
    modifies line`pending, resp
    ensures match DecodeReply(slave, fn, length, Arrived(old(line.pending)), Ending(old(line.pending)))
            case Values(regs) => rc == OK && regs == Registers(resp[3..5 + 2 * length], length)
            case Failed(code) => rc == code && code != OK
  {
    hide DecodeReply, ValidFrame, Registers, CountByte, Arrived, Ending;
    ghost var bytes, ending := Arrived(line.pending), Ending(line.pending);
    rc := ReadWithTimeout(line, resp, 0, 2);
    if rc != OK {
      DecodeShort(slave, fn, length, bytes, ending);
      return;
    }
    assert bytes[..2] == resp[..2];
    assert resp[1] == bytes[1] by { assert resp[1] == resp[..2][1]; }
    var valid: bool;
    if resp[1] & 0x80 != 0 {
      rc, valid := ReceiveRest(line, resp, 5, bytes);
      if rc != OK {
        DecodeShort(slave, fn, length, bytes, ending);
        return;
      }
      DecodeException(slave, fn, length, bytes, ending);
      return if valid then ERR_IO else ERR_CRC;
    }
    var expected := 5 + 2 * length;
    rc, valid := ReceiveRest(line, resp, expected, bytes);
    if rc != OK {
      DecodeShort(slave, fn, length, bytes, ending);
      return;
    }
    ghost var f := bytes[..expected];
    assert f[0] == resp[0] && f[1] == resp[1] && f[2] == resp[2];
    CountMatches(length, resp[2]);
    DecodeNormal(slave, fn, length, bytes, ending);
    if resp[0] != slave || resp[1] != fn || resp[2] as int != 2 * length || !valid { return ERR_CRC; }
    assert f[3..] == resp[3..expected];
  }

  method CopyRegisters(resp: array<bv8>, out: array<bv16>, length: nat)
    requires resp.Length == 256 && length <= MAX_REGISTERS && length <= out.Length
    modifies out
    ensures out[..] == Registers(resp[3..5 + 2 * length], length) + old(out[length..])
  {
    ghost var data := resp[3..5 + 2 * length];
    for i := 0 to length
      invariant forall k | 0 <= k < i :: out[k] == Registers(data, length)[k]
      invariant forall k | i <= k < out.Length :: out[k] == old(out[k])
    {
      RegisterAt(data, length, i);
      assert data[2 * i] == resp[3 + 2 * i] && data[2 * i + 1] == resp[4 + 2 * i];
      out[i] := Join(resp[3 + 2 * i], resp[4 + 2 * i]);
    }
  }

  lemma FailuresOf(slave: bv8, fn: bv8, n: nat, bytes: seq<bv8>, ending: Code)
    requires ending == ERR_TIMEOUT || ending == ERR_IO
    ensures DecodeReply(slave, fn, n, bytes, ending) != Failed(OK)
    ensures DecodeReply(slave, fn, n, bytes, ending) != Failed(ERR_INVALID)
  {
    hide ValidFrame, Registers;
  }

  // A read with sound arguments: request, reply and, at its end, the caller's registers.
  method ReadExchange(line: SerialLine, slave: bv8, fn: bv8, address: bv16, length: uint16, out: array<bv16>)
    returns (rc: Code)
    requires 1 <= length <= MAX_REGISTERS && length <= out.Length
    modifies line, out
    ensures line.writable ==>
              && line.sent == old(line.sent) + Request(slave, fn, address, length as bv16)
              && |line.sent| >= 8 && Asks(line.sent[|line.sent| - 8..], slave, fn, address, length as bv16)
    ensures !line.writable ==> rc == ERR_IO && line.sent == old(line.sent) && out[..] == old(out[..])
    ensures rc != ERR_INVALID
    ensures line.writable ==>
              match DecodeReply(slave, fn, length, Arrived(old(line.pending)), Ending(old(line.pending)))
              case Values(regs) => rc == OK && out[..] == regs + old(out[length..])
              case Failed(code) => rc == code && code != OK && out[..] == old(out[..])
  {
    ghost var bytes, ending := Arrived(line.pending), Ending(line.pending);
    FailuresOf(slave, fn, length, bytes, ending);
    hide Arrived, Ending, ValidFrame, DecodeReply, Request, Registers, Asks;
    var ok, req := SendRequest(line, slave, fn, address, length as bv16);
    if !ok { return ERR_IO; }
    var resp := new bv8[256];
    rc := ReceiveReply(line, resp, slave, fn, length);
    if rc == OK {
      CopyRegisters(resp, out, length);
    }
  }

  method ModbusRead(fd: int, line: SerialLine, slave: bv8, fn: bv8, address: bv16, length: uint16,
                    out: array?<bv16>) returns (rc: Code)
    requires out != null ==> out.Length >= length
    modifies line, {out}
    ensures line.writable && ReadArgumentsOk(fd, fn, length, out != null) ==>
              && line.sent == old(line.sent) + Request(slave, fn, address, length as bv16)
              && |line.sent| >= 8 && Asks(line.sent[|line.sent| - 8..], slave, fn, address, length as bv16)
    ensures !(line.writable && ReadArgumentsOk(fd, fn, length, out != null)) ==> line.sent == old(line.sent)
    ensures rc == ERR_INVALID <==> fd < 0 || out == null || length == 0 || length > 125 || (fn != 3 && fn != 4)
    ensures match ReadOutcome(fd, line.writable, slave, fn, length, out != null, old(line.pending))
            case Values(regs) => rc == OK && out != null && out[..] == regs + old(out[length..])
            case Failed(code) => rc == code && code != OK && (out != null ==> out[..] == old(out[..]))
  {
    if fd < 0 || out == null || length == 0 || length > 125 { return ERR_INVALID; }
    if fn != 0x03 && fn != 0x04 { return ERR_INVALID; }
    hide Arrived, Ending, DecodeReply, Request, Asks;
    rc := ReadExchange(line, slave, fn, address, length, out);
  }

  // ---------------------------------------------------------------- the slave's side

  function RegisterBytes(regs: seq<bv16>): (data: seq<bv8>)
    ensures |data| == 2 * |regs|
  {
    if regs == [] then [] else [HighByte(regs[0]), LowByte(regs[0])] + RegisterBytes(regs[1..])
  }

  // A normal reply: section 6.3 / 6.4 of the application protocol inside an RTU frame.
  function EncodeReply(slave: bv8, fn: bv8, regs: seq<bv16>): (f: seq<bv8>)
    requires |regs| <= MAX_REGISTERS
    ensures |f| == 5 + 2 * |regs|
  {
    WithCrc(ReplyBody(slave, fn, regs))
  }

  lemma {:induction false} RegistersInvert(regs: seq<bv16>)
    ensures Registers(RegisterBytes(regs), |regs|) == regs
  {
    if regs != [] {
      JoinSplit(regs[0]);
      assert RegisterBytes(regs)[2..] == RegisterBytes(regs[1..]);
      RegistersInvert(regs[1..]);
    }
  }

  lemma {:induction false} RegisterBytesInvert(data: seq<bv8>, n: nat)
    requires |data| == 2 * n
    ensures RegisterBytes(Registers(data, n)) == data
  {
    if n > 0 {
      SplitJoin(data[0], data[1]);
      RegisterBytesInvert(data[2..], n - 1);
      assert Registers(data, n)[1..] == Registers(data[2..], n - 1);
    }
  }

  lemma NormalReplyIsNoException(fn: bv8)
    requires fn == READ_HOLDING || fn == READ_INPUT
    ensures fn & 0x80 == 0
  {
  }

  function ReplyBody(slave: bv8, fn: bv8, regs: seq<bv16>): seq<bv8>
    requires |regs| <= MAX_REGISTERS
  {
    [slave, fn, CountByte(|regs|)] + RegisterBytes(regs)
  }

  predicate ReplyHeader(f: seq<bv8>, slave: bv8, fn: bv8, n: nat) {
    |f| >= 3 && f[0] == slave && f[1] == fn && f[2] == CountByte(n)
  }

  lemma WithCrcShape(body: seq<bv8>)
    ensures |WithCrc(body)| == |body| + 2 && body <= WithCrc(body)
  {
  }

  lemma ReplyShape(slave: bv8, fn: bv8, regs: seq<bv16>)
    requires |regs| <= MAX_REGISTERS
    ensures var f := EncodeReply(slave, fn, regs);
            && ValidFrame(f)
            && ReplyHeader(f, slave, fn, |regs|)
            && Registers(f[3..], |regs|) == regs
  {
    var body := ReplyBody(slave, fn, regs);
    WithCrcIsValid(body);
    WithCrcShape(body);
    ReplyShapeOf(WithCrc(body), slave, fn, regs);
  }

  lemma ReplyShapeOf(f: seq<bv8>, slave: bv8, fn: bv8, regs: seq<bv16>)
    requires |regs| <= MAX_REGISTERS
    requires ReplyBody(slave, fn, regs) <= f
    ensures ReplyHeader(f, slave, fn, |regs|)
    ensures |f[3..]| >= 2 * |regs| && Registers(f[3..], |regs|) == regs
  {
    var data := RegisterBytes(regs);
    RegistersInvert(regs);
    DataAfterHeader(f, slave, fn, CountByte(|regs|), data);
    RegistersPrefix(f[3..], data, |regs|);
  }

  lemma DataAfterHeader(f: seq<bv8>, slave: bv8, fn: bv8, count: bv8, data: seq<bv8>)
    requires [slave, fn, count] + data <= f
    ensures f[0] == slave && f[1] == fn && f[2] == count && data <= f[3..]
  {
    var p := [slave, fn, count] + data;
    assert f[..|p|] == p;
    assert f[0] == p[0] && f[1] == p[1] && f[2] == p[2];
    assert f[3..][..|data|] == p[3..] == data;
  }

  lemma {:induction false} RegistersPrefix(long: seq<bv8>, short: seq<bv8>, n: nat)
    requires |short| == 2 * n && short <= long
    ensures Registers(long, n) == Registers(short, n)
  {
    if n > 0 {
      RegistersPrefix(long[2..], short[2..], n - 1);
    }
  }

  // The reply on the wire: address, function, byte count, and the registers most significant
  // byte first.
  lemma ReplyLayout(slave: bv8, fn: bv8, regs: seq<bv16>, i: nat)
    requires |regs| <= MAX_REGISTERS
    ensures var f := EncodeReply(slave, fn, regs);
            && |f| == 5 + 2 * |regs| && f[0] == slave && f[1] == fn && f[2] as int == 2 * |regs| && ValidFrame(f)
            && (i < |regs| ==> 256 * (f[3 + 2 * i] as int) + f[4 + 2 * i] as int == regs[i] as int)
  {
    ReplyShape(slave, fn, regs);
    CountByteValue(|regs|);
    if i < |regs| {
      var f := EncodeReply(slave, fn, regs);
      RegisterAt(f[3..], |regs|, i);
      JoinIs(f[3 + 2 * i], f[4 + 2 * i]);
    }
  }

  // The result of a read in the bytes that arrive. A complete answer that is not the awaited
  // reply is a CRC error, unless it is an exception.
  lemma ReadResult(slave: bv8, fn: bv8, n: nat, bytes: seq<bv8>, ending: Code)
    requires fn == READ_HOLDING || fn == READ_INPUT
    requires 1 <= n <= 125 && |bytes| >= 2
    ensures bytes[1] & 0x80 != 0 && |bytes| < 5 ==> DecodeReply(slave, fn, n, bytes, ending) == Failed(ending)
    ensures bytes[1] & 0x80 != 0 && |bytes| >= 5 ==>
              DecodeReply(slave, fn, n, bytes, ending) == Failed(if Crc16(bytes[..5]) == 0 then ERR_IO else ERR_CRC)
    ensures bytes[1] & 0x80 == 0 && |bytes| < 5 + 2 * n ==>
              DecodeReply(slave, fn, n, bytes, ending) == Failed(ending)
    ensures bytes[1] & 0x80 == 0 && |bytes| >= 5 + 2 * n
            && (bytes[0] != slave || bytes[1] != fn || bytes[2] as int != 2 * n || Crc16(bytes[..5 + 2 * n]) != 0) ==>
              DecodeReply(slave, fn, n, bytes, ending) == Failed(ERR_CRC)
  {
    if |bytes| < if IsException(bytes) then 5 else 5 + 2 * n {
      DecodeShort(slave, fn, n, bytes, ending);
    } else if IsException(bytes) {
      DecodeException(slave, fn, n, bytes, ending);
      ResidueZero(bytes[..5]);
    } else {
      DecodeNormal(slave, fn, n, bytes, ending);
      CountMatches(n, bytes[2]);
      ResidueZero(bytes[..5 + 2 * n]);
    }
    hide Crc16, ValidFrame, Registers, DecodeReply, CountByte;
  }

  lemma ReplyOfFrame(f: seq<bv8>, slave: bv8, fn: bv8, n: nat)
    requires n <= MAX_REGISTERS && |f| == 5 + 2 * n && ValidFrame(f)
    requires ReplyHeader(f, slave, fn, n)
    ensures f == EncodeReply(slave, fn, Registers(f[3..], n))
  {
    ValidFrameSplits(f);
    BodyOfFrame(f, f[..|f| - 2], slave, fn, n);
  }

  lemma BodyOfFrame(f: seq<bv8>, body: seq<bv8>, slave: bv8, fn: bv8, n: nat)
    requires n <= MAX_REGISTERS && |body| == 3 + 2 * n && body <= f
    requires ReplyHeader(f, slave, fn, n)
    ensures |f[3..]| >= 2 * n && body == ReplyBody(slave, fn, Registers(f[3..], n))
  {
    RegistersPrefix(f[3..], body[3..], n);
    RegisterBytesInvert(body[3..], n);
    assert body == [body[0], body[1], body[2]] + body[3..];
  }

  lemma ValidFrameSplits(f: seq<bv8>)
    requires ValidFrame(f)
    ensures f == WithCrc(f[..|f| - 2])
  {
  }

  // The decoder is the exact inverse of the reply encoder: a read yields exactly `regs`
  // when, and only when, the arriving bytes begin with the well-formed reply carrying
  // them; whatever follows the frame and however the line ends does not matter.
  lemma DecodeInvertsEncode(slave: bv8, fn: bv8, n: nat, bytes: seq<bv8>, ending: Code, regs: seq<bv16>)
    requires fn == READ_HOLDING || fn == READ_INPUT
    requires n <= MAX_REGISTERS
    ensures DecodeReply(slave, fn, n, bytes, ending) == Values(regs)
            <==> |regs| == n && EncodeReply(slave, fn, regs) <= bytes
  {
    NormalReplyIsNoException(fn);
    DecodeIsFrameCheck(slave, fn, n, bytes, ending, regs);
    if |regs| == n && EncodeReply(slave, fn, regs) <= bytes {
      ReplyShape(slave, fn, regs);
      assert bytes[..5 + 2 * n] == EncodeReply(slave, fn, regs);
    }
    if DecodeReply(slave, fn, n, bytes, ending) == Values(regs) {
      ReplyOfFrame(bytes[..5 + 2 * n], slave, fn, n);
    }
  }

  lemma DecodeIsFrameCheck(slave: bv8, fn: bv8, n: nat, bytes: seq<bv8>, ending: Code, regs: seq<bv16>)
    requires fn & 0x80 == 0
    ensures DecodeReply(slave, fn, n, bytes, ending) == Values(regs)
            <==> |bytes| >= 5 + 2 * n
                 && var f := bytes[..5 + 2 * n];
                    ValidFrame(f) && ReplyHeader(f, slave, fn, n) && Registers(f[3..], n) == regs
  {
    if |bytes| >= 5 + 2 * n {
      assert bytes[..5 + 2 * n][1] == bytes[1];
    }
  }

  // A corrupted reply of the same length can only be accepted if it is itself valid.
  lemma AcceptedIsValid(slave: bv8, fn: bv8, n: nat, f: seq<bv8>, tail: seq<bv8>, ending: Code)
    requires |f| == 5 + 2 * n
    requires DecodeReply(slave, fn, n, f + tail, ending).Values?
    ensures ValidFrame(f)
  {
    assert (f + tail)[..5 + 2 * n] == f;
  }

  // Line noise confined to 16 consecutive transmitted bits of a reply, the CRC included,
  // never makes a read succeed: not with wrong registers and not with the right ones.
  lemma ReadRejectsBurst(slave: bv8, fn: bv8, regs: seq<bv16>, f': seq<bv8>, start: nat, tail: seq<bv8>, ending: Code)
    requires |regs| <= MAX_REGISTERS && |f'| == 5 + 2 * |regs|
    requires f' != EncodeReply(slave, fn, regs)
    requires InWindow(Flips(EncodeReply(slave, fn, regs), f'), start, 16)
    ensures DecodeReply(slave, fn, |regs|, f' + tail, ending).Failed?
  {
    ReplyShape(slave, fn, regs);
    BurstDetected(EncodeReply(slave, fn, regs), f', start);
    if DecodeReply(slave, fn, |regs|, f' + tail, ending).Values? {
      AcceptedIsValid(slave, fn, |regs|, f', tail, ending);
    }
  }

  // Neither does any odd number of flipped bits, wherever they fall.
  lemma ReadRejectsOddFlips(slave: bv8, fn: bv8, regs: seq<bv16>, f': seq<bv8>, tail: seq<bv8>, ending: Code)
    requires |regs| <= MAX_REGISTERS && |f'| == 5 + 2 * |regs|
    requires Weight(Flips(EncodeReply(slave, fn, regs), f')) % 2 == 1
    ensures DecodeReply(slave, fn, |regs|, f' + tail, ending).Failed?
  {
    ReplyShape(slave, fn, regs);
    OddFlipsDetected(EncodeReply(slave, fn, regs), f');
    if DecodeReply(slave, fn, |regs|, f' + tail, ending).Values? {
      AcceptedIsValid(slave, fn, |regs|, f', tail, ending);
    }
  }

  // Nor do one, two or three flipped bits, wherever they fall in a reply of any register count.
  lemma ReadRejectsFewFlips(slave: bv8, fn: bv8, regs: seq<bv16>, f': seq<bv8>, tail: seq<bv8>, ending: Code)
    requires |regs| <= MAX_REGISTERS && |f'| == 5 + 2 * |regs|
    requires 1 <= Weight(Flips(EncodeReply(slave, fn, regs), f')) <= 3
    ensures DecodeReply(slave, fn, |regs|, f' + tail, ending).Failed?
  {
    ReplyShape(slave, fn, regs);
    CrcOrder.FewFlipsDetected(EncodeReply(slave, fn, regs), f');
    if DecodeReply(slave, fn, |regs|, f' + tail, ending).Values? {
      AcceptedIsValid(slave, fn, |regs|, f', tail, ending);
    }
  }

  // ---------------------------------------------------------------- the write transaction

  function DecodeEcho(req: seq<bv8>, bytes: seq<bv8>, ending: Code): Code
    requires |req| == 8
  {
    if |bytes| < 8 then ending
    else if bytes[1] & 0x80 != 0 then ERR_IO
    else if bytes[..6] != req[..6] || !ValidFrame(bytes[..8]) then ERR_CRC
    else OK
  }

  method ModbusWrite(fd: int, line: SerialLine, slave: bv8, address: bv16, value: bv16) returns (rc: Code)
    modifies line
    ensures fd < 0 ==> rc == ERR_INVALID && line.sent == old(line.sent)
    ensures fd >= 0 && !line.writable ==> rc == ERR_IO && line.sent == old(line.sent)
    ensures fd >= 0 && line.writable ==>
              && line.sent == old(line.sent) + Request(slave, WRITE_SINGLE, address, value)
              && |line.sent| >= 8 && Asks(line.sent[|line.sent| - 8..], slave, 6, address, value)
              && rc == DecodeEcho(Request(slave, WRITE_SINGLE, address, value),
                                  Arrived(old(line.pending)), Ending(old(line.pending)))
  {
    if fd < 0 { return ERR_INVALID; }
    var ok, req := SendRequest(line, slave, 0x06, address, value);
    hide Asks;
    if !ok { return ERR_IO; }
    var resp := new bv8[8];
    ghost var bytes := Arrived(line.pending);
    rc := ReadWithTimeout(line, resp, 0, 8);
    if rc != OK { return; }
    assert resp[..] == bytes[..8] && resp[..8] == resp[..] && bytes[1] == resp[1];
    assert bytes[..6] == resp[..6];
    if resp[1] & 0x80 != 0 { return ERR_IO; }
    var same := true;
    for i := 0 to 6
      invariant same == (resp[..i] == req[..i])
    {
      assert resp[..i + 1] == resp[..i] + [resp[i]] && req[..i + 1] == req[..i] + [req[i]];
      same := same && resp[i] == req[i];
    }
    if !same { return ERR_CRC; }
    var good := CheckCrc(resp, 8);
    return if good then OK else ERR_CRC;
  }

  // A write succeeds exactly when the slave echoes the whole request.
  lemma WriteOkIsEcho(slave: bv8, address: bv16, value: bv16, bytes: seq<bv8>, ending: Code)
    requires ending != OK
    ensures var req := Request(slave, WRITE_SINGLE, address, value);
            DecodeEcho(req, bytes, ending) == OK <==> req <= bytes
  {
    var req := Request(slave, WRITE_SINGLE, address, value);
    var body := req[..6];
    assert req == WithCrc(body);
    if |bytes| >= 8 {
      var f := bytes[..8];
      assert f[..6] == bytes[..6];
      if req <= bytes {
        assert f == req;
        WithCrcIsValid(body);
        assert bytes[1] == req[1] == WRITE_SINGLE;
        assert WRITE_SINGLE & 0x80 == 0;
      }
      if DecodeEcho(req, bytes, ending) == OK {
        assert f == f[..6] + [f[6], f[7]];
        assert f == req;
      }
    }
  }

  // The result of a write in the bytes that arrive: what the slave was asked comes back, or
  // it is an error by its length and its second byte.
  lemma WriteResult(slave: bv8, address: bv16, value: bv16, bytes: seq<bv8>, ending: Code)
    requires ending == ERR_TIMEOUT || ending == ERR_IO
    ensures var rc := DecodeEcho(Request(slave, WRITE_SINGLE, address, value), bytes, ending);
            && (|bytes| < 8 ==> rc == ending)
            && (|bytes| >= 8 && Asks(bytes[..8], slave, 6, address, value) ==> rc == OK)
            && (|bytes| >= 8 && !Asks(bytes[..8], slave, 6, address, value) ==>
                  rc == if bytes[1] & 0x80 != 0 then ERR_IO else ERR_CRC)
  {
    WriteOkIsEcho(slave, address, value, bytes, ending);
    if |bytes| >= 8 {
      RequestExactly(slave, 6, address, value, bytes[..8]);
      assert Request(slave, 6, address, value) <= bytes <==> bytes[..8] == Request(slave, 6, address, value);
    }
    hide Asks, Request, ValidFrame;
  }

  // An exception frame, five bytes long: section 7 of the application protocol.
  function ExceptionReply(slave: bv8, fn: bv8, reason: bv8): seq<bv8> {
    WithCrc([slave, fn | 0x80, reason])
  }

  // A slave that answers with an exception and then stays silent: the read path reports
  // the exception, the write path still waits for eight bytes and reports a timeout.
  lemma ExceptionSeenByReadOnly(slave: bv8, fn: bv8, reason: bv8, n: nat, req: seq<bv8>)
    requires |req| == 8
    ensures DecodeReply(slave, fn, n, ExceptionReply(slave, fn, reason), ERR_TIMEOUT) == Failed(ERR_IO)
    ensures DecodeEcho(req, ExceptionReply(slave, fn, reason), ERR_TIMEOUT) == ERR_TIMEOUT
  {
    ExceptionReportedExactlyWhen(slave, fn, reason, n, req, ExceptionReply(slave, fn, reason), ERR_TIMEOUT);
  }

  // However an exception reply arrives, whatever follows it and however the line ends, a read
  // reports it; a write does exactly when three more bytes follow or the line fails.
  lemma ExceptionReportedExactlyWhen(slave: bv8, fn: bv8, reason: bv8, n: nat, req: seq<bv8>,
                                     bytes: seq<bv8>, ending: Code)
    requires |req| == 8 && ending in {ERR_TIMEOUT, ERR_IO}
    requires ExceptionReply(slave, fn, reason) <= bytes
    ensures DecodeReply(slave, fn, n, bytes, ending) == Failed(ERR_IO)
    ensures DecodeEcho(req, bytes, ending) == ERR_IO <==> |bytes| >= 8 || ending == ERR_IO
  {
    var body := [slave, fn | 0x80, reason];
    WithCrcIsValid(body);
    var f := WithCrc(body);
    assert (fn | 0x80) & 0x80 != 0;
    assert bytes[..5] == f && bytes[1] == f[1] == fn | 0x80;
  }

  // A slave reads the request back unambiguously.
  lemma RequestInjective(s1: bv8, f1: bv8, a1: bv16, v1: bv16, s2: bv8, f2: bv8, a2: bv16, v2: bv16)
    requires Request(s1, f1, a1, v1) == Request(s2, f2, a2, v2)
    ensures s1 == s2 && f1 == f2 && a1 == a2 && v1 == v2
  {
    var r1, r2 := Request(s1, f1, a1, v1), Request(s2, f2, a2, v2);
    assert r1[0] == r2[0] && r1[1] == r2[1] && r1[2] == r2[2] && r1[3] == r2[3] && r1[4] == r2[4] && r1[5] == r2[5];
    JoinSplit(a1);
    JoinSplit(a2);
    JoinSplit(v1);
    JoinSplit(v2);
  }
}
