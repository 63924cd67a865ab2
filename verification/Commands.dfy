/**
 The command protocol end to end: the server inserts a row, publishes the request and marks
 the row; an at-least-once network drops, duplicates and reorders; agents execute or
 refuse; the worker records responses and the scheduler times rows out.
 */
module Commands {
  import opened Options
  import opened CommandCheck

  // ---------------------------------------------------------------- the commands table

  datatype RowStatus = Pending | Published | TimedOut | Reported(status: Status)

  // What was asked never changes; `status` and `completedAt` do.
  datatype Order = Order(gateway: int, slug: string, action: string, expiresAt: int, requireAck: bool)
  datatype Row = Row(order: Order, status: RowStatus, completedAt: Option<int>)

  type Rows = map<string, Row>

  datatype Response = Response(commandId: string, status: Status, executedAt: int)

  function Inserted(rows: Rows, id: string, order: Order): Rows {
    rows[id := Row(order, Pending, None)]
  }

  function Marked(rows: Rows, id: string): Rows
    requires id in rows
  {
    rows[id := rows[id].(status := Published)]
  }

  // command_response.handle: unknown commands and responses of other gateways are ignored.
  function Answered(rows: Rows, gateway: int, r: Response): Rows {
    if r.commandId == "" || r.commandId !in rows || rows[r.commandId].order.gateway != gateway then rows
    else rows[r.commandId := rows[r.commandId].(status := Reported(r.status), completedAt := Some(r.executedAt))]
  }

  predicate Overdue(row: Row, now: int) {
    (row.status.Pending? || row.status.Published?) && row.order.expiresAt < now
  }

  function SweptRow(row: Row, now: int): Row {
    if Overdue(row, now) then row.(status := TimedOut, completedAt := Some(now)) else row
  }

  function Swept(rows: Rows, now: int): Rows {
    map id | id in rows :: SweptRow(rows[id], now)
  }

  class CommandTable {
    var rows: Rows

    constructor ()
      ensures rows == map[]
    {
      rows := map[];
    }

    method Insert(id: string, order: Order)
      modifies this
      ensures id in rows && rows[id].order == order && rows[id].status == Pending && rows[id].completedAt == None
      ensures forall other | other != id :: other in rows <==> other in old(rows)
      ensures forall other | other in old(rows) && other != id :: rows[other] == old(rows)[other]
      ensures rows == Inserted(old(rows), id, order)
    {
      rows := rows[id := Row(order, Pending, None)];
    }

    method MarkPublished(id: string)
      requires id in rows
      modifies this
      ensures rows.Keys == old(rows).Keys && rows[id].status == Published
      ensures rows[id].order == old(rows)[id].order && rows[id].completedAt == old(rows)[id].completedAt
      ensures forall other | other in old(rows) && other != id :: rows[other] == old(rows)[other]
      ensures rows == Marked(old(rows), id)
    {
      rows := rows[id := rows[id].(status := Published)];
    }

    method HandleResponse(gateway: int, r: Response)
      modifies this
      ensures rows == Answered(old(rows), gateway, r)
      ensures rows.Keys == old(rows).Keys
      ensures forall id | id in rows && id != r.commandId :: rows[id] == old(rows)[id]
      ensures r.commandId != "" && r.commandId in rows && old(rows)[r.commandId].order.gateway == gateway ==>
                rows[r.commandId] == Row(old(rows)[r.commandId].order, Reported(r.status), Some(r.executedAt))
      ensures r.commandId == "" || r.commandId !in rows || old(rows)[r.commandId].order.gateway != gateway ==>
                rows == old(rows)
    {
      if r.commandId == "" { return; }
      if r.commandId !in rows { return; }
      var cmd := rows[r.commandId];
      if cmd.order.gateway != gateway { return; }
      cmd := cmd.(status := Reported(r.status));
      cmd := cmd.(completedAt := Some(r.executedAt));
      rows := rows[r.commandId := cmd];
    }

    method SweepTimeouts(now: int) returns (affected: set<string>)
      modifies this
      ensures rows == Swept(old(rows), now)
      ensures affected == set id | id in old(rows) && Overdue(old(rows)[id], now)
      ensures rows.Keys == old(rows).Keys
      ensures forall id | id in rows ::
                id in affected <==> old(rows)[id].status in {Pending, Published} && old(rows)[id].order.expiresAt < now
      ensures forall id | id in rows :: id in affected ==> rows[id] == Row(old(rows)[id].order, TimedOut, Some(now))
      ensures forall id | id in rows :: id !in affected ==> rows[id] == old(rows)[id]
    {
      affected := set id | id in rows && Overdue(rows[id], now);
      rows := map id | id in rows ::
        if id in affected then rows[id].(status := TimedOut, completedAt := Some(now)) else rows[id];
    }
  }

  // The sweep times out exactly the expired open rows, and leaves none behind.
  lemma SweepIsExact(rows: Rows, now: int, id: string)
    requires id in rows
    ensures id in Swept(rows, now)
    ensures Swept(rows, now)[id].order == rows[id].order
    ensures Swept(rows, now)[id] != rows[id] <==>
              rows[id].status in {Pending, Published} && rows[id].order.expiresAt < now
    ensures rows[id].status.Reported? ==> Swept(rows, now)[id] == rows[id]
    ensures Swept(rows, now)[id].status in {Pending, Published} ==> now <= rows[id].order.expiresAt
  {
  }

  // Until a response is recorded a stored command is the sweep's, marked or not: it times out
  // exactly when its expiry has passed.
  lemma OpenRowTimesOutExactlyWhen(rows: Rows, id: string, order: Order, marked: bool, now: int)
    ensures var stored := Inserted(rows, id, order);
            var issued := if marked then Marked(stored, id) else stored;
            Swept(issued, now)[id].status == TimedOut <==> order.expiresAt < now
  {
  }

  // The mark reopens a row: whatever was recorded before, the sweep times it out if it is
  // expired; without the mark a recorded response would have stayed.
  lemma MarkReopens(rows: Rows, id: string, now: int)
    requires id in rows && rows[id].status.Reported?
    ensures Swept(rows, now)[id] == rows[id]
    ensures Swept(Marked(rows, id), now)[id].status == TimedOut <==> rows[id].order.expiresAt < now
    ensures forall other | other in rows && other != id ::
              Swept(Marked(rows, id), now)[other] == Swept(rows, now)[other]
  {
  }

  // ---------------------------------------------------------------- the whole system

  // Fixed for a run: which serial each gateway row has, and which pin each agent's
  // configuration gives a channel.
  datatype World = World(serials: map<int, string>, agents: map<string, map<string, int>>)

  ghost predicate WorldOk(w: World) {
    && (forall g | g in w.serials :: w.serials[g] != "")
    && (forall g, h | g in w.serials && h in w.serials && w.serials[g] == w.serials[h] :: g == h)
  }

  // Ids the server makes start with "cmd-"; other publishers must not use them.
  predicate ServerId(id: string) {
    |id| >= 4 && id[..4] == "cmd-"
  }

  // Where the issuing request handler is.
  datatype Phase = Stored | Sent | Finished

  // A command an agent has accepted, before and after its GPIO write.
  datatype Flight = Flight(serial: string, req: Request, checkedAt: int, value: int, driven: bool)

  // A successful GPIO write made for a command.
  datatype Drive = Drive(serial: string, commandId: string, pin: int, value: int, checkedAt: int)

  // Messages ever published stay deliverable: any number of times, in any order, or never.
  // `clocks` holds what each agent's clock last showed, `sweptAt` the scheduler's.
  datatype State = State(
    rows: Rows,
    phase: map<string, Phase>,
    requests: set<Request>,
    responses: set<(string, Response)>,
    flights: multiset<Flight>,
    drives: set<Drive>,
    clocks: map<string, int>,
    sweptAt: Option<int>)

  datatype Step =
    | Insert(id: string, order: Order)
    | Publish(id: string)
    | PublishFails(id: string, leaked: bool)
    | Mark(id: string)
    | MarkFails(id: string)
    | Foreign(req: Request)
    | Receive(serial: string, req: Request, now: int)
    | DriveLine(flight: Flight, ok: bool)
    | Reply(flight: Flight)
    | Record(gateway: int, response: Response)
    | Sweep(now: int)

  const INITIAL: State := State(map[], map[], {}, {}, multiset{}, {}, map[], None)

  function RequestOf(w: World, id: string, o: Order): Request
    requires o.gateway in w.serials
  {
    Request(id, w.serials[o.gateway], o.slug, o.action, At(o.expiresAt), o.requireAck)
  }

  predicate Enabled(w: World, s: State, step: Step) {
    match step
    case Insert(id, order) => ServerId(id) && id !in s.rows && order.gateway in w.serials
    case Publish(id) => id in s.phase && s.phase[id] == Stored && id in s.rows && s.rows[id].order.gateway in w.serials
    case PublishFails(id, leaked) =>
      id in s.phase && s.phase[id] == Stored && id in s.rows && s.rows[id].order.gateway in w.serials
    case Mark(id) => id in s.phase && s.phase[id] == Sent && id in s.rows
    case MarkFails(id) => id in s.phase && s.phase[id] == Sent
    case Foreign(req) => !ServerId(req.commandId)
    // Any agent may be handed any request: the broker's topic rules are not relied on.
    // Its clock does not run backwards.
    case Receive(serial, req, now) =>
      serial in w.agents && req in s.requests && (serial in s.clocks ==> s.clocks[serial] <= now)
    case DriveLine(f, ok) =>
      f in s.flights && !f.driven && f.serial in w.agents && f.req.channelId in w.agents[f.serial]
    case Reply(f) => f in s.flights && f.driven
    case Record(gateway, r) => gateway in w.serials && (w.serials[gateway], r) in s.responses
    case Sweep(now) => s.sweptAt.Some? ==> s.sweptAt.value <= now
  }

  function WithResponse(s: State, serial: string, req: Request, status: Status, at: int): State {
    if req.requireAck then s.(responses := s.responses + {(serial, Response(req.commandId, status, at))}) else s
  }

  function DriveOf(w: World, f: Flight): Drive
    requires f.serial in w.agents && f.req.channelId in w.agents[f.serial]
  {
    Drive(f.serial, f.req.commandId, w.agents[f.serial][f.req.channelId], f.value, f.checkedAt)
  }

  // The agent reads its clock and refuses the request or takes the command on.
  function Received(w: World, s: State, serial: string, req: Request, now: int): State
    requires serial in w.agents
  {
    var read := s.(clocks := s.clocks[serial := now]);
    match Check(req, serial, now, w.agents[serial].Keys)
    case Refuse(reason) => WithResponse(read, serial, req, Rejected, now)
    case Proceed(v) => read.(flights := s.flights + multiset{Flight(serial, req, now, v, false)})
  }

  function Driven(w: World, s: State, f: Flight): State
    requires f.serial in w.agents && f.req.channelId in w.agents[f.serial]
  {
    s.(flights := s.flights - multiset{f} + multiset{f.(driven := true)}, drives := s.drives + {DriveOf(w, f)})
  }

  function Closed(s: State, f: Flight, status: Status): State {
    WithResponse(s.(flights := s.flights - multiset{f}), f.serial, f.req, status, f.checkedAt)
  }

  function Next(w: World, s: State, step: Step): State
    requires Enabled(w, s, step)
  {
    match step
    case Insert(id, order) => s.(rows := Inserted(s.rows, id, order), phase := s.phase[id := Stored])
    case Publish(id) =>
      s.(requests := s.requests + {RequestOf(w, id, s.rows[id].order)}, phase := s.phase[id := Sent])
    case PublishFails(id, leaked) =>
      s.(requests := if leaked then s.requests + {RequestOf(w, id, s.rows[id].order)} else s.requests,
         phase := s.phase[id := Finished])
    case Mark(id) => s.(rows := Marked(s.rows, id), phase := s.phase[id := Finished])
    case MarkFails(id) => s.(phase := s.phase[id := Finished])
    case Foreign(req) => s.(requests := s.requests + {req})
    case Receive(serial, req, now) => Received(w, s, serial, req, now)
    case DriveLine(f, ok) => if ok then Driven(w, s, f) else Closed(s, f, Failed)
    case Reply(f) => Closed(s, f, Executed)
    case Record(gateway, r) => s.(rows := Answered(s.rows, gateway, r))
    case Sweep(now) => s.(rows := Swept(s.rows, now), sweptAt := Some(now))
  }

  function RunFrom(w: World, s: State, run: seq<Step>): Option<State>
    decreases |run|
  {
    if run == [] then Some(s)
    else match RunFrom(w, s, run[..|run| - 1])
      case None => None
      case Some(t) =>
        var step := run[|run| - 1];
        if Enabled(w, t, step) then Some(Next(w, t, step)) else None
  }

  // ---------------------------------------------------------------- what every run keeps

  // The write that entitles a row to "executed": its own gateway drove the pin configured
  // for the row's slug to the commanded value, after an expiry check that read a clock no
  // later than the row's expiry.
  ghost predicate Justifies(w: World, id: string, o: Order, d: Drive) {
    && o.gateway in w.serials
    && d.serial == w.serials[o.gateway]
    && d.commandId == id
    && d.serial in w.agents && o.slug in w.agents[d.serial] && d.pin == w.agents[d.serial][o.slug]
    && ActionToValue(o.action) == Some(d.value)
    && d.checkedAt <= o.expiresAt
  }

  // Such a write was made, and `at` is the time of its expiry check.
  ghost predicate Justified(w: World, s: State, id: string, o: Order, at: Option<int>) {
    exists d :: d in s.drives && Justifies(w, id, o, d) && at == Some(d.checkedAt)
  }

  // The row's own agent knows its channel and its action.
  predicate Executable(w: World, o: Order) {
    && o.gateway in w.serials && w.serials[o.gateway] in w.agents
    && o.slug in w.agents[w.serials[o.gateway]]
    && ActionToValue(o.action).Some?
  }

  // The row's request was published, so it stays deliverable.
  predicate Requested(w: World, s: State, id: string, o: Order) {
    o.gateway in w.serials && RequestOf(w, id, o) in s.requests
  }

  // The agent's clock has been seen past this time.
  predicate Passed(s: State, serial: string, time: int) {
    serial in s.clocks && s.clocks[serial] > time
  }

  // A refusal by the row's own agent of a command it can execute was made too late to execute
  // it.
  predicate LateRefusal(w: World, s: State, o: Order) {
    Executable(w, o) ==> Passed(s, w.serials[o.gateway], o.expiresAt)
  }

  ghost predicate RequestOk(w: World, s: State, req: Request) {
    ServerId(req.commandId) ==>
      && req.commandId in s.rows
      && s.rows[req.commandId].order.gateway in w.serials
      && req == RequestOf(w, req.commandId, s.rows[req.commandId].order)
  }

  ghost predicate FlightOk(w: World, s: State, f: Flight) {
    && f.serial in w.agents
    && Check(f.req, f.serial, f.checkedAt, w.agents[f.serial].Keys) == Proceed(f.value)
    && RequestOk(w, s, f.req) && f.req in s.requests
    && (f.driven ==> DriveOf(w, f) in s.drives)
  }

  ghost predicate ResponseOk(w: World, s: State, serial: string, r: Response) {
    ServerId(r.commandId) ==>
      && r.commandId in s.rows
      && s.rows[r.commandId].order.requireAck
      && serial in w.agents
      && Requested(w, s, r.commandId, s.rows[r.commandId].order)
      && var o := s.rows[r.commandId].order;
      && (r.status != Rejected ==> Executable(w, o) && serial == w.serials[o.gateway])
      && (r.status == Rejected && serial == w.serials[o.gateway] ==> LateRefusal(w, s, o))
      && (r.status == Executed ==> Justified(w, s, r.commandId, o, Some(r.executedAt)))
  }

  ghost predicate RowOk(w: World, s: State, id: string, row: Row) {
    && ServerId(id)
    && row.order.gateway in w.serials
    && id in s.phase
    && (row.status == Reported(Executed) ==> Justified(w, s, id, row.order, row.completedAt))
    && (row.status.Reported? ==> row.order.requireAck && Requested(w, s, id, row.order)
                                 && w.serials[row.order.gateway] in w.agents)
    && (row.status == Reported(Rejected) ==> LateRefusal(w, s, row.order))
    && (row.status.TimedOut? ==> row.completedAt.Some? && row.completedAt.value > row.order.expiresAt)
  }

  ghost predicate Inv(w: World, s: State) {
    && WorldOk(w)
    && (forall id | id in s.rows :: RowOk(w, s, id, s.rows[id]))
    && (forall id | id in s.phase :: id in s.rows)
    && (forall r | r in s.requests :: RequestOk(w, s, r))
    && (forall p | p in s.responses :: ResponseOk(w, s, p.0, p.1))
    && (forall f | f in s.flights :: FlightOk(w, s, f))
  }

  // Orders are never rewritten, writes are never forgotten and clocks only advance.
  ghost predicate Grows(s: State, t: State) {
    && (forall id | id in s.rows :: id in t.rows && t.rows[id].order == s.rows[id].order)
    && s.drives <= t.drives && s.requests <= t.requests
    && (forall id | id in s.phase :: id in t.phase)
    && Advanced(s.clocks, t.clocks)
  }

  // The steps of the agents leave the server's state alone, and the other way round.
  predicate ByAgent(step: Step) {
    step.Receive? || step.DriveLine? || step.Reply?
  }

  predicate ByIssuer(step: Step) {
    !ByAgent(step) && !step.Record? && !step.Sweep?
  }

  lemma AgentFrame(w: World, s: State, step: Step)
    requires Enabled(w, s, step) && ByAgent(step)
    ensures var t := Next(w, s, step);
            && t.rows == s.rows && t.phase == s.phase && t.requests == s.requests && t.sweptAt == s.sweptAt
            && s.drives <= t.drives && Advanced(s.clocks, t.clocks)
  {
    hide Check, Received, Driven, Closed, Advanced;
    match step
    case Receive(serial, req, now) => ReceivedFrame(w, s, serial, req, now);
    case DriveLine(f, ok) =>
      if ok { DrivenFrame(w, s, f); } else { ClosedFrame(s, f, Failed); }
    case Reply(f) => ClosedFrame(s, f, Executed);
  }

  ghost predicate Advanced(before: map<string, int>, after: map<string, int>) {
    forall a | a in before :: a in after && before[a] <= after[a]
  }

  lemma ReceivedFrame(w: World, s: State, serial: string, req: Request, now: int)
    requires serial in w.agents && (serial in s.clocks ==> s.clocks[serial] <= now)
    ensures var t := Received(w, s, serial, req, now);
            && t.rows == s.rows && t.phase == s.phase && t.requests == s.requests && t.sweptAt == s.sweptAt
            && t.drives == s.drives && t.clocks == s.clocks[serial := now] && Advanced(s.clocks, t.clocks)
  {
    assert Advanced(s.clocks, s.clocks[serial := now]);
    hide Check, Advanced;
  }

  lemma DrivenFrame(w: World, s: State, f: Flight)
    requires f.serial in w.agents && f.req.channelId in w.agents[f.serial]
    ensures var t := Driven(w, s, f);
            && t.rows == s.rows && t.phase == s.phase && t.requests == s.requests && t.sweptAt == s.sweptAt
            && s.drives <= t.drives && Advanced(s.clocks, t.clocks)
  {
  }

  lemma ClosedFrame(s: State, f: Flight, status: Status)
    ensures var t := Closed(s, f, status);
            && t.rows == s.rows && t.phase == s.phase && t.requests == s.requests && t.sweptAt == s.sweptAt
            && t.drives == s.drives && Advanced(s.clocks, t.clocks)
  {
  }

  lemma ServerFrame(w: World, s: State, step: Step)
    requires Enabled(w, s, step) && !ByAgent(step)
    ensures var t := Next(w, s, step);
            && t.responses == s.responses && t.flights == s.flights && t.drives == s.drives && t.clocks == s.clocks
            && s.requests <= t.requests && (forall id | id in s.phase :: id in t.phase)
  {
    hide RequestOf, Swept, Answered;
  }

  lemma OrdersStay(w: World, s: State, step: Step, id: string)
    requires Enabled(w, s, step) && !ByAgent(step) && id in s.rows
    ensures var t := Next(w, s, step); id in t.rows && t.rows[id].order == s.rows[id].order
  {
    hide RequestOf, DriveOf, Check;
  }

  lemma StepGrows(w: World, s: State, step: Step)
    requires Enabled(w, s, step)
    ensures Grows(s, Next(w, s, step))
  {
    if ByAgent(step) {
      AgentFrame(w, s, step);
    } else {
      ServerFrame(w, s, step);
      forall id | id in s.rows
        ensures id in Next(w, s, step).rows && Next(w, s, step).rows[id].order == s.rows[id].order
      {
        OrdersStay(w, s, step, id);
      }
    }
    hide Next, Enabled;
  }

  lemma JustifiedGrows(w: World, s: State, t: State, id: string, o: Order, at: Option<int>)
    requires Grows(s, t) && Justified(w, s, id, o, at)
    ensures Justified(w, t, id, o, at)
  {
    var d :| d in s.drives && Justifies(w, id, o, d) && at == Some(d.checkedAt);
    assert d in t.drives;
  }

  lemma OldStaysOk(w: World, s: State, t: State)
    requires Inv(w, s) && Grows(s, t)
    ensures forall r | r in s.requests :: RequestOk(w, t, r)
    ensures forall p | p in s.responses :: ResponseOk(w, t, p.0, p.1)
    ensures forall f | f in s.flights :: FlightOk(w, t, f)
  {
    forall r | r in s.requests ensures RequestOk(w, t, r) {
      assert RequestOk(w, s, r);
    }
    forall p | p in s.responses ensures ResponseOk(w, t, p.0, p.1) {
      assert ResponseOk(w, s, p.0, p.1);
      if ServerId(p.1.commandId) && p.1.status == Executed {
        JustifiedGrows(w, s, t, p.1.commandId, s.rows[p.1.commandId].order, Some(p.1.executedAt));
      }
    }
    forall f | f in s.flights ensures FlightOk(w, t, f) {
      assert FlightOk(w, s, f) && RequestOk(w, s, f.req);
    }
  }

  lemma RowsStayOk(w: World, s: State, t: State)
    requires Inv(w, s) && Grows(s, t) && t.rows == s.rows
    ensures forall id | id in t.rows :: RowOk(w, t, id, t.rows[id])
  {
    forall id | id in t.rows ensures RowOk(w, t, id, t.rows[id]) {
      assert RowOk(w, s, id, s.rows[id]);
      if s.rows[id].status == Reported(Executed) {
        JustifiedGrows(w, s, t, id, s.rows[id].order, s.rows[id].completedAt);
      }
    }
  }

  // The agent's checks are what make a write answer the right command.
  lemma DriveJustifies(w: World, s: State, f: Flight)
    requires WorldOk(w) && FlightOk(w, s, f) && ServerId(f.req.commandId)
    ensures Justifies(w, f.req.commandId, s.rows[f.req.commandId].order, DriveOf(w, f))
  {
    var o := s.rows[f.req.commandId].order;
    ProceedsExactlyWhen(f.req, f.serial, f.checkedAt, w.agents[f.serial].Keys, f.value);
    assert f.req == RequestOf(w, f.req.commandId, o);
  }

  // Only a command that its own agent can execute gets past the agent's checks.
  lemma FlightExecutable(w: World, s: State, f: Flight)
    requires WorldOk(w) && FlightOk(w, s, f) && ServerId(f.req.commandId)
    ensures Executable(w, s.rows[f.req.commandId].order)
    ensures f.serial == w.serials[s.rows[f.req.commandId].order.gateway]
  {
    ProceedsExactlyWhen(f.req, f.serial, f.checkedAt, w.agents[f.serial].Keys, f.value);
  }

  // A row that keeps its order stays in order if it stays the same, is open, or timed out late.
  lemma RowStaysOk(w: World, s: State, t: State, id: string, r: Row)
    requires Grows(s, t) && id in s.rows && RowOk(w, s, id, s.rows[id]) && r.order == s.rows[id].order
    requires r == s.rows[id] || r.status in {Pending, Published}
             || (r.status == TimedOut && r.completedAt.Some? && r.completedAt.value > r.order.expiresAt)
    ensures RowOk(w, t, id, r)
  {
    if r.status == Reported(Executed) {
      JustifiedGrows(w, s, t, id, r.order, r.completedAt);
    }
    hide Justified, RequestOf;
  }

  lemma IssueRow(w: World, s: State, step: Step, id: string)
    requires ByIssuer(step)
    requires Enabled(w, s, step) && id in Next(w, s, step).rows
    ensures var t := Next(w, s, step);
            if id in s.rows then
              t.rows[id].order == s.rows[id].order && (t.rows[id] == s.rows[id] || t.rows[id].status == Published)
            else
              ServerId(id) && t.rows[id].status == Pending && t.rows[id].order.gateway in w.serials && id in t.phase
  {
    hide Check, RequestOf, DriveOf;
  }

  lemma IssueRowOk(w: World, s: State, step: Step, id: string)
    requires ByIssuer(step)
    requires Inv(w, s) && Enabled(w, s, step) && id in Next(w, s, step).rows
    ensures RowOk(w, Next(w, s, step), id, Next(w, s, step).rows[id])
  {
    var t := Next(w, s, step);
    StepGrows(w, s, step);
    IssueRow(w, s, step, id);
    hide Next, Enabled, Grows, RequestOk, FlightOk, ResponseOk;
    if id in s.rows {
      hide RowOk;
      RowStaysOk(w, s, t, id, t.rows[id]);
    }
  }

  lemma IssueKeepsInv(w: World, s: State, step: Step)
    requires ByIssuer(step)
    requires Inv(w, s) && Enabled(w, s, step)
    ensures Inv(w, Next(w, s, step))
  {
    var t := Next(w, s, step);
    hide Next, Enabled, RowOk, FlightOk, ResponseOk, RequestOk, Grows, WorldOk;
    StepGrows(w, s, step);
    OldStaysOk(w, s, t);
    ServerFrame(w, s, step);
    forall id | id in t.rows ensures RowOk(w, t, id, t.rows[id]) {
      IssueRowOk(w, s, step, id);
    }
    IssueRequests(w, s, step);
  }

  lemma IssueRequests(w: World, s: State, step: Step)
    requires ByIssuer(step)
    requires Inv(w, s) && Enabled(w, s, step)
    ensures var t := Next(w, s, step);
            && (forall r | r in t.requests && r !in s.requests :: RequestOk(w, t, r))
            && (forall id | id in t.phase :: id in t.rows)
  {
    hide FlightOk, ResponseOk, Check, DriveOf;
    if step.Publish? || step.PublishFails? {
      assert RowOk(w, s, step.id, s.rows[step.id]);
    }
  }

  // The only thing its own agent can have against an executable command is its age.
  lemma RefusedForAge(w: World, s: State, serial: string, req: Request, now: int)
    requires WorldOk(w) && serial in w.agents && ServerId(req.commandId) && RequestOk(w, s, req)
    requires Check(req, serial, now, w.agents[serial].Keys).Refuse?
    ensures var o := s.rows[req.commandId].order;
            serial == w.serials[o.gateway] && Executable(w, o) ==> now > o.expiresAt
  {
  }

  // A step of an agent adds at most one command in flight and one response, both in order.
  lemma AgentStep(w: World, s: State, t: State, flight: Option<Flight>, answer: Option<(string, Response)>)
    requires Inv(w, s) && Grows(s, t) && t.rows == s.rows && t.phase == s.phase && t.requests == s.requests
    requires forall f | f in t.flights :: f in s.flights || flight == Some(f)
    requires forall p | p in t.responses :: p in s.responses || answer == Some(p)
    requires flight.Some? ==> FlightOk(w, t, flight.value)
    requires answer.Some? ==> ResponseOk(w, t, answer.value.0, answer.value.1)
    ensures Inv(w, t)
  {
    OldStaysOk(w, s, t);
    RowsStayOk(w, s, t);
    hide FlightOk, ResponseOk, RowOk, RequestOk;
  }

  lemma AcceptedKeepsInv(w: World, s: State, serial: string, req: Request, now: int, v: int)
    requires Inv(w, s) && Enabled(w, s, Receive(serial, req, now))
    requires Check(req, serial, now, w.agents[serial].Keys) == Proceed(v)
    ensures Inv(w, Next(w, s, Receive(serial, req, now)))
  {
    var t, f := Next(w, s, Receive(serial, req, now)), Flight(serial, req, now, v, false);
    StepGrows(w, s, Receive(serial, req, now));
    assert RequestOk(w, s, req);
    assert FlightOk(w, t, f);
    hide Check, Inv, FlightOk, RequestOk, ResponseOk, Grows;
    AgentStep(w, s, t, Some(f), None);
  }

  lemma RefusedKeepsInv(w: World, s: State, serial: string, req: Request, now: int)
    requires Inv(w, s) && Enabled(w, s, Receive(serial, req, now))
    requires Check(req, serial, now, w.agents[serial].Keys).Refuse?
    ensures Inv(w, Next(w, s, Receive(serial, req, now)))
  {
    var t, r := Next(w, s, Receive(serial, req, now)), Response(req.commandId, Rejected, now);
    StepGrows(w, s, Receive(serial, req, now));
    assert RequestOk(w, s, req) && WorldOk(w);
    hide Inv, Check, RequestOf;
    if req.requireAck {
      if ServerId(req.commandId) {
        RefusedForAge(w, s, serial, req, now);
        RequestFields(w, s, req);
      }
      assert ResponseOk(w, t, serial, r);
    }
    hide FlightOk, ResponseOk, RequestOk, Grows;
    AgentStep(w, s, t, None, if req.requireAck then Some((serial, r)) else None);
  }

  lemma RequestFields(w: World, s: State, req: Request)
    requires ServerId(req.commandId) && RequestOk(w, s, req) && req in s.requests
    ensures var o := s.rows[req.commandId].order;
            req.requireAck == o.requireAck && Requested(w, s, req.commandId, o)
  {
  }

  lemma DriveSucceedsKeepsInv(w: World, s: State, f: Flight)
    requires Inv(w, s) && Enabled(w, s, DriveLine(f, true))
    ensures Inv(w, Next(w, s, DriveLine(f, true)))
  {
    var t, g := Next(w, s, DriveLine(f, true)), f.(driven := true);
    StepGrows(w, s, DriveLine(f, true));
    assert FlightOk(w, s, f);
    FewerFlights(s.flights, f);
    hide Check, RequestOf, Inv;
    assert FlightOk(w, t, g);
    hide FlightOk, RequestOk, ResponseOk, Grows;
    AgentStep(w, s, t, Some(g), None);
  }

  // A command in flight that asked for it may be answered: with a failure, or with success
  // once its line was driven.
  lemma AnswerOk(w: World, s: State, f: Flight, status: Status)
    requires WorldOk(w) && FlightOk(w, s, f) && f.req.requireAck
    requires status == Failed || (status == Executed && f.driven)
    ensures ResponseOk(w, s, f.serial, Response(f.req.commandId, status, f.checkedAt))
  {
    if ServerId(f.req.commandId) {
      FlightExecutable(w, s, f);
      DriveJustifies(w, s, f);
      RequestFields(w, s, f.req);
    }
  }

  lemma DriveFailsKeepsInv(w: World, s: State, f: Flight)
    requires Inv(w, s) && Enabled(w, s, DriveLine(f, false))
    ensures Inv(w, Next(w, s, DriveLine(f, false)))
  {
    StepGrows(w, s, DriveLine(f, false));
    AnsweredKeepsInv(w, s, Next(w, s, DriveLine(f, false)), f, Failed);
  }

  lemma ReplyKeepsInv(w: World, s: State, f: Flight)
    requires Inv(w, s) && Enabled(w, s, Reply(f))
    ensures Inv(w, Next(w, s, Reply(f)))
  {
    StepGrows(w, s, Reply(f));
    AnsweredKeepsInv(w, s, Next(w, s, Reply(f)), f, Executed);
  }

  lemma AnsweredKeepsInv(w: World, s: State, t: State, f: Flight, status: Status)
    requires Inv(w, s) && f in s.flights && Grows(s, t)
    requires status == Failed || (status == Executed && f.driven)
    requires t == WithResponse(s.(flights := s.flights - multiset{f}), f.serial, f.req, status, f.checkedAt)
    ensures Inv(w, t)
  {
    assert WorldOk(w) && FlightOk(w, s, f);
    var r := Response(f.req.commandId, status, f.checkedAt);
    FewerFlights(s.flights, f);
    FlightOkAlike(w, s, t, f);
    hide Check, RequestOf, Inv, FlightOk, ResponseOk, Grows;
    if f.req.requireAck {
      AnswerOk(w, t, f, status);
    }
    AgentStep(w, s, t, None, if f.req.requireAck then Some((f.serial, r)) else None);
  }

  lemma FlightOkAlike(w: World, s: State, t: State, f: Flight)
    requires FlightOk(w, s, f) && t.rows == s.rows && t.requests == s.requests && t.drives == s.drives
    ensures FlightOk(w, t, f)
  {
  }

  lemma FewerFlights(m: multiset<Flight>, gone: Flight)
    ensures forall f | f in m - multiset{gone} :: f in m
  {
  }

  // A response from the row's own gateway entitles the row to its status.
  lemma RecordedRowOk(w: World, s: State, gateway: int, r: Response)
    requires r.commandId in s.rows && RowOk(w, s, r.commandId, s.rows[r.commandId])
    requires s.rows[r.commandId].order.gateway == gateway && ResponseOk(w, s, w.serials[gateway], r)
    ensures RowOk(w, s, r.commandId, Row(s.rows[r.commandId].order, Reported(r.status), Some(r.executedAt)))
  {
    hide Justified, RequestOf;
  }

  lemma RecordKeepsInv(w: World, s: State, gateway: int, r: Response)
    requires Inv(w, s) && Enabled(w, s, Record(gateway, r))
    ensures Inv(w, Next(w, s, Record(gateway, r)))
  {
    var t := Next(w, s, Record(gateway, r));
    StepGrows(w, s, Record(gateway, r));
    OldStaysOk(w, s, t);
    assert ResponseOk(w, s, w.serials[gateway], r);
    forall id | id in t.rows ensures RowOk(w, t, id, t.rows[id]) {
      assert RowOk(w, s, id, s.rows[id]);
      if t.rows[id] != s.rows[id] {
        RecordedRowOk(w, s, gateway, r);
        RowOkAlike(w, s, t, id, t.rows[id]);
      } else {
        RowStaysOk(w, s, t, id, t.rows[id]);
      }
    }
    hide RowOk, FlightOk, ResponseOk, RequestOk, Grows;
  }

  lemma RowOkAlike(w: World, s: State, t: State, id: string, row: Row)
    requires RowOk(w, s, id, row) && t.requests == s.requests && t.phase == s.phase
    requires t.drives == s.drives && t.clocks == s.clocks
    ensures RowOk(w, t, id, row)
  {
  }

  lemma SweepKeepsInv(w: World, s: State, now: int)
    requires Inv(w, s) && Enabled(w, s, Sweep(now))
    ensures Inv(w, Next(w, s, Sweep(now)))
  {
    var t := Next(w, s, Sweep(now));
    StepGrows(w, s, Sweep(now));
    OldStaysOk(w, s, t);
    forall id | id in t.rows ensures RowOk(w, t, id, t.rows[id]) {
      assert RowOk(w, s, id, s.rows[id]);
      RowStaysOk(w, s, t, id, t.rows[id]);
    }
    hide RowOk, FlightOk, ResponseOk, RequestOk, Grows;
  }

  lemma {:induction false} RunKeepsInv(w: World, s: State, run: seq<Step>)
    requires Inv(w, s) && RunFrom(w, s, run).Some?
    ensures Inv(w, RunFrom(w, s, run).value)
    decreases |run|
  {
    if run != [] {
      var before, step := run[..|run| - 1], run[|run| - 1];
      RunKeepsInv(w, s, before);
      var t := RunFrom(w, s, before).value;
      if step.Record? {
        RecordKeepsInv(w, t, step.gateway, step.response);
      } else if step.Sweep? {
        SweepKeepsInv(w, t, step.now);
      } else if step.Receive? {
        match Check(step.req, step.serial, step.now, w.agents[step.serial].Keys)
        case Refuse(_) => RefusedKeepsInv(w, t, step.serial, step.req, step.now);
        case Proceed(v) => AcceptedKeepsInv(w, t, step.serial, step.req, step.now, v);
      } else if step.DriveLine? {
        if step.ok { DriveSucceedsKeepsInv(w, t, step.flight); } else { DriveFailsKeepsInv(w, t, step.flight); }
      } else if step.Reply? {
        ReplyKeepsInv(w, t, step.flight);
      } else {
        IssueKeepsInv(w, t, step);
      }
    }
  }

  // ---------------------------------------------------------------- the promises

  // In every run, "executed" on a row means the relay of its channel was really driven for it,
  // to 1 for ON and to 0 for OFF, before it expired and at the time the row records.
  lemma ExecutedMeansDriven(w: World, run: seq<Step>, id: string) returns (d: Drive)
    requires WorldOk(w) && RunFrom(w, INITIAL, run).Some?
    ensures var s := RunFrom(w, INITIAL, run).value;
            id in s.rows && s.rows[id].status == Reported(Executed) ==>
              var o := s.rows[id].order;
              && d in s.drives && d.commandId == id
              && o.gateway in w.serials && d.serial == w.serials[o.gateway] && d.serial in w.agents
              && o.slug in w.agents[d.serial] && d.pin == w.agents[d.serial][o.slug]
              && ((d.value == 1 && o.action in {"ON", "on", "1", "true"})
                  || (d.value == 0 && o.action in {"OFF", "off", "0", "false"}))
              && s.rows[id].completedAt == Some(d.checkedAt) && d.checkedAt <= o.expiresAt
  {
    RunKeepsInv(w, INITIAL, run);
    var s := RunFrom(w, INITIAL, run).value;
    d := Drive("", "", 0, 0, 0);
    if id in s.rows && s.rows[id].status == Reported(Executed) {
      var row := s.rows[id];
      assert RowOk(w, s, id, row);
      d :| d in s.drives && Justifies(w, id, row.order, d) && row.completedAt == Some(d.checkedAt);
      ActionWords(row.order.action);
    }
  }

  // An agent can execute an order exactly when it has the channel and knows the word.
  lemma ExecutableExactlyWhen(w: World, o: Order)
    ensures Executable(w, o) <==>
              && o.gateway in w.serials && w.serials[o.gateway] in w.agents
              && o.slug in w.agents[w.serials[o.gateway]]
              && o.action in {"ON", "on", "1", "true", "OFF", "off", "0", "false"}
  {
    ActionWords(o.action);
  }

  // In every run, a timed-out row was swept after its expiry, and a row that did not ask
  // for an acknowledgement never learns its outcome.
  lemma TimeoutMeansLate(w: World, run: seq<Step>, id: string)
    requires WorldOk(w) && RunFrom(w, INITIAL, run).Some?
    ensures var s := RunFrom(w, INITIAL, run).value;
            && (id in s.rows && s.rows[id].status == TimedOut
                ==> s.rows[id].completedAt.Some? && s.rows[id].completedAt.value > s.rows[id].order.expiresAt)
            && (id in s.rows && !s.rows[id].order.requireAck ==> s.rows[id].status in {Pending, Published, TimedOut})
  {
    RunKeepsInv(w, INITIAL, run);
    var s := RunFrom(w, INITIAL, run).value;
    if id in s.rows {
      assert RowOk(w, s, id, s.rows[id]);
    }
  }

  // A response moves a row exactly when it comes from the row's own gateway and says
  // something new; no other row moves.
  lemma ResponseTouchesOwnRowOnly(rows: Rows, gateway: int, r: Response, id: string)
    requires id in rows
    ensures id in Answered(rows, gateway, r)
    ensures Answered(rows, gateway, r)[id] != rows[id] <==>
              && r.commandId == id && id != "" && rows[id].order.gateway == gateway
              && (rows[id].status != Reported(r.status) || rows[id].completedAt != Some(r.executedAt))
  {
  }

  // ---------------------------------------------------------------- how stable an outcome is

  ghost predicate HasOutcome(s: State, id: string) {
    id in s.rows && s.rows[id].status.Reported?
  }

  lemma OutcomeStep(w: World, s: State, step: Step, id: string)
    requires Enabled(w, s, step) && HasOutcome(s, id) && id in s.phase && s.phase[id] == Finished
    ensures var t := Next(w, s, step); HasOutcome(t, id) && id in t.phase && t.phase[id] == Finished
  {
    if ByAgent(step) {
      AgentFrame(w, s, step);
      hide Next, Enabled;
    } else {
      hide Check, RequestOf, DriveOf;
    }
  }

  lemma {:induction false} OutcomeStays(w: World, s: State, run: seq<Step>, id: string)
    requires HasOutcome(s, id) && id in s.phase && s.phase[id] == Finished
    requires RunFrom(w, s, run).Some?
    ensures var t := RunFrom(w, s, run).value;
            HasOutcome(t, id) && id in t.phase && t.phase[id] == Finished
    decreases |run|
  {
    if run != [] {
      OutcomeStays(w, s, run[..|run| - 1], id);
      OutcomeStep(w, RunFrom(w, s, run[..|run| - 1]).value, run[|run| - 1], id);
      hide Next, Enabled;
    }
  }

  lemma OneStep(w: World, s: State, run: seq<Step>, step: Step)
    requires RunFrom(w, s, run).Some? && Enabled(w, RunFrom(w, s, run).value, step)
    ensures RunFrom(w, s, run + [step]) == Some(Next(w, RunFrom(w, s, run).value, step))
  {
    assert (run + [step])[..|run + [step]| - 1] == run;
  }

  // A recorded outcome that the issuer has still to mark can be lost: the mark overwrites it
  // and the sweep then times the row out.
  lemma OutcomeCanBeLost(w: World, s: State, id: string) returns (run: seq<Step>)
    requires Inv(w, s) && HasOutcome(s, id) && s.phase[id] != Finished
    ensures RunFrom(w, s, run).Some?
    ensures var t := RunFrom(w, s, run).value; id in t.rows && t.rows[id].status == TimedOut
  {
    assert RowOk(w, s, id, s.rows[id]);
    run := [];
    if s.phase[id] == Stored {
      OneStep(w, s, run, Publish(id));
      run := run + [Publish(id)];
    }
    OneStep(w, s, run, Mark(id));
    run := run + [Mark(id)];
    var expiry := s.rows[id].order.expiresAt;
    var late := if s.sweptAt.Some? && s.sweptAt.value > expiry then s.sweptAt.value else expiry + 1;
    OneStep(w, s, run, Sweep(late));
    run := run + [Sweep(late)];
  }

  // So, from any reachable state, a row that has a response status keeps one, the same or
  // another, in every continuation exactly when the issuer is past its mark.
  lemma OutcomeSafeExactlyWhen(w: World, s: State, id: string)
    requires Inv(w, s) && HasOutcome(s, id)
    ensures (forall run | RunFrom(w, s, run).Some? :: HasOutcome(RunFrom(w, s, run).value, id))
            <==> s.phase[id] == Finished
  {
    assert RowOk(w, s, id, s.rows[id]);
    if s.phase[id] == Finished {
      forall run | RunFrom(w, s, run).Some? ensures HasOutcome(RunFrom(w, s, run).value, id) {
        OutcomeStays(w, s, run, id);
      }
    } else {
      var run := OutcomeCanBeLost(w, s, id);
    }
  }

  // ---------------------------------------------------------------- which outcome survives

  lemma RecordRun(w: World, s: State, run: seq<Step>, gateway: int, r: Response) returns (run': seq<Step>)
    requires RunFrom(w, s, run).Some?
    requires var t := RunFrom(w, s, run).value;
             gateway in w.serials && (w.serials[gateway], r) in t.responses && r.commandId != ""
             && r.commandId in t.rows && t.rows[r.commandId].order.gateway == gateway
    ensures RunFrom(w, s, run').Some?
    ensures var t, t' := RunFrom(w, s, run).value, RunFrom(w, s, run').value;
            t' == t.(rows := t.rows[r.commandId :=
                       Row(t.rows[r.commandId].order, Reported(r.status), Some(r.executedAt))])
  {
    OneStep(w, s, run, Record(gateway, r));
    run' := run + [Record(gateway, r)];
  }

  // One delivery of a request is refused for its age.
  lemma RefuseRun(w: World, s: State, run: seq<Step>, id: string, o: Order, late: int) returns (run': seq<Step>)
    requires RunFrom(w, s, run).Some? && ServerId(id) && o.requireAck && late > o.expiresAt
    requires var t := RunFrom(w, s, run).value;
             && id in t.rows && t.rows[id].order == o && Requested(w, t, id, o)
             && w.serials[o.gateway] in w.agents
             && (w.serials[o.gateway] in t.clocks ==> t.clocks[w.serials[o.gateway]] <= late)
    ensures RunFrom(w, s, run').Some?
    ensures var t, t' := RunFrom(w, s, run).value, RunFrom(w, s, run').value;
            t' == t.(rows := t.rows[id := Row(o, Reported(Rejected), Some(late))],
                     responses := t.responses + {(w.serials[o.gateway], Response(id, Rejected, late))},
                     clocks := t.clocks[w.serials[o.gateway] := late])
  {
    var serial, req := w.serials[o.gateway], RequestOf(w, id, o);
    var t := RunFrom(w, s, run).value;
    OneStep(w, s, run, Receive(serial, req, late));
    run' := run + [Receive(serial, req, late)];
    assert Check(req, serial, late, w.agents[serial].Keys).Refuse?;
    assert RunFrom(w, s, run').value == t.(responses := t.responses + {(serial, Response(id, Rejected, late))},
                                           clocks := t.clocks[serial := late]);
    hide RunFrom, Check;
    run' := RecordRun(w, s, run', o.gateway, Response(id, Rejected, late));
  }

  // The agent refuses a redelivered request that has expired, whatever became of the command
  // before.
  lemma RedeliveryOverwrites(w: World, s: State, id: string) returns (run: seq<Step>)
    requires Inv(w, s) && HasOutcome(s, id)
    ensures RunFrom(w, s, run).Some?
    ensures var t := RunFrom(w, s, run).value; id in t.rows && t.rows[id].status == Reported(Rejected)
  {
    assert RowOk(w, s, id, s.rows[id]);
    hide Inv;
    var o := s.rows[id].order;
    var serial := w.serials[o.gateway];
    var late := if Passed(s, serial, o.expiresAt) then s.clocks[serial] else o.expiresAt + 1;
    run := RefuseRun(w, s, [], id, o, late);
  }

  // A driven command is answered and recorded.
  lemma DrivenRun(w: World, s: State, run: seq<Step>, id: string, g: Flight) returns (run': seq<Step>)
    requires RunFrom(w, s, run).Some? && WorldOk(w) && ServerId(id)
    requires var t := RunFrom(w, s, run).value;
             && id in t.rows && t.rows[id].order.requireAck && g in t.flights && g.driven
             && FlightOk(w, t, g) && g.req.commandId == id
    ensures RunFrom(w, s, run').Some?
    ensures var t, t' := RunFrom(w, s, run).value, RunFrom(w, s, run').value;
            && t'.rows == t.rows[id := Row(t.rows[id].order, Reported(Executed), Some(g.checkedAt))]
            && t'.phase == t.phase
  {
    var t := RunFrom(w, s, run).value;
    FlightExecutable(w, t, g);
    RequestFields(w, t, g.req);
    var gateway := t.rows[id].order.gateway;
    hide RunFrom, FlightOk, Executable;
    OneStep(w, s, run, Reply(g));
    run' := run + [Reply(g)];
    hide Next, Enabled;
    run' := RecordRun(w, s, run', gateway, Response(id, Executed, g.checkedAt));
  }

  // A command in flight finishes, is answered and recorded.
  lemma FlightRun(w: World, s: State, id: string, f: Flight) returns (run: seq<Step>)
    requires WorldOk(w) && id in s.rows && s.rows[id].order.requireAck && ServerId(id)
    requires FlightOk(w, s, f) && f in s.flights && f.req.commandId == id
    ensures RunFrom(w, s, run).Some?
    ensures var t := RunFrom(w, s, run).value;
            && t.rows == s.rows[id := Row(s.rows[id].order, Reported(Executed), Some(f.checkedAt))]
            && t.phase == s.phase
  {
    run := [];
    if f.driven {
      run := DrivenRun(w, s, run, id, f);
    } else {
      FlightExecutable(w, s, f);
      OneStep(w, s, run, DriveLine(f, true));
      run := run + [DriveLine(f, true)];
      DrivenFlightOk(w, s, f);
      run := DrivenRun(w, s, run, id, f.(driven := true));
    }
  }

  lemma DrivenFlightOk(w: World, s: State, f: Flight)
    requires FlightOk(w, s, f) && f.serial in w.agents && f.req.channelId in w.agents[f.serial]
    ensures FlightOk(w, Driven(w, s, f), f.(driven := true)) && f.(driven := true) in Driven(w, s, f).flights
  {
    hide Check;
  }

  // One delivery of a request gets past its agent's checks.
  lemma AcceptRun(w: World, s: State, id: string, o: Order, now: int) returns (run: seq<Step>, f: Flight)
    requires WorldOk(w) && id in s.rows && s.rows[id].order == o && ServerId(id)
    requires Executable(w, o) && Requested(w, s, id, o) && now <= o.expiresAt
    requires w.serials[o.gateway] in s.clocks ==> s.clocks[w.serials[o.gateway]] <= now
    ensures RunFrom(w, s, run).Some?
    ensures var t := RunFrom(w, s, run).value;
            && t == s.(flights := s.flights + multiset{f}, clocks := s.clocks[w.serials[o.gateway] := now])
            && FlightOk(w, t, f) && f.req.commandId == id && f.checkedAt == now
  {
    var serial, v := w.serials[o.gateway], ActionToValue(o.action).value;
    var req := RequestOf(w, id, o);
    ProceedsExactlyWhen(req, serial, now, w.agents[serial].Keys, v);
    f := Flight(serial, req, now, v, false);
    OneStep(w, s, [], Receive(serial, req, now));
    run := [] + [Receive(serial, req, now)];
  }

  // No delivery of the command is under way in an agent, and none was answered but with a
  // refusal.
  ghost predicate Sealed(s: State, id: string) {
    && (forall f | f in s.flights :: f.req.commandId != id)
    && (forall p | p in s.responses && p.1.commandId == id :: p.1.status == Rejected)
  }

  // A refusal is overwritten by the answer of another delivery that got past the checks before.
  lemma RefusalCanBeOverwritten(w: World, s: State, id: string) returns (run: seq<Step>)
    requires Inv(w, s) && HasOutcome(s, id) && !Sealed(s, id)
    ensures RunFrom(w, s, run).Some?
    ensures var t := RunFrom(w, s, run).value;
            id in t.rows && t.rows[id].status in {Reported(Executed), Reported(Failed)}
  {
    assert RowOk(w, s, id, s.rows[id]);
    if f :| f in s.flights && f.req.commandId == id {
      run := FlightRun(w, s, id, f);
    } else {
      var p :| p in s.responses && p.1.commandId == id && p.1.status != Rejected;
      assert ResponseOk(w, s, p.0, p.1);
      run := RecordRun(w, s, [], s.rows[id].order.gateway, p.1);
    }
  }

  // A command that its agent cannot execute is only ever refused.
  lemma UnexecutableIsSealed(w: World, s: State, id: string)
    requires Inv(w, s) && id in s.rows && !Executable(w, s.rows[id].order)
    ensures Sealed(s, id)
  {
    assert RowOk(w, s, id, s.rows[id]);
    forall f | f in s.flights ensures f.req.commandId != id {
      assert FlightOk(w, s, f);
      if f.req.commandId == id {
        FlightExecutable(w, s, f);
      }
    }
    forall p | p in s.responses && p.1.commandId == id ensures p.1.status == Rejected {
      assert ResponseOk(w, s, p.0, p.1);
    }
  }

  ghost predicate Refused(s: State, id: string) {
    && id in s.rows && s.rows[id].status == Reported(Rejected)
    && id in s.phase && s.phase[id] == Finished
    && Sealed(s, id)
  }

  // Whatever agent is handed a refused request from now on refuses it too.
  lemma RefusedAgain(w: World, s: State, serial: string, req: Request, now: int)
    requires Inv(w, s) && Enabled(w, s, Receive(serial, req, now)) && Refused(s, req.commandId)
    ensures Check(req, serial, now, w.agents[serial].Keys).Refuse?
  {
    var id := req.commandId;
    assert RowOk(w, s, id, s.rows[id]) && RequestOk(w, s, req);
    var verdict := Check(req, serial, now, w.agents[serial].Keys);
    if verdict.Proceed? {
      ProceedsExactlyWhen(req, serial, now, w.agents[serial].Keys, verdict.value);
      assert Executable(w, s.rows[id].order);
    }
  }

  // Only an agent that accepts the command puts it in flight, and only then is it answered
  // otherwise.
  lemma SealedStep(w: World, s: State, step: Step, id: string)
    requires Enabled(w, s, step) && Sealed(s, id)
    requires step.Receive? && step.req.commandId == id ==>
               Check(step.req, step.serial, step.now, w.agents[step.serial].Keys).Refuse?
    ensures Sealed(Next(w, s, step), id)
  {
    match step
    case Receive(serial, req, now) => SealedReceive(w, s, serial, req, now, id);
    case DriveLine(f, ok) => SealedFlight(w, s, f, id);
    case Reply(f) => SealedFlight(w, s, f, id);
    case _ =>
      ServerFrame(w, s, step);
      hide Next, Enabled;
  }

  lemma SealedReceive(w: World, s: State, serial: string, req: Request, now: int, id: string)
    requires serial in w.agents && Sealed(s, id)
    requires req.commandId == id ==> Check(req, serial, now, w.agents[serial].Keys).Refuse?
    ensures Sealed(Received(w, s, serial, req, now), id)
  {
    hide Check;
  }

  lemma SealedFlight(w: World, s: State, f: Flight, id: string)
    requires Sealed(s, id) && f in s.flights
    ensures f.serial in w.agents && f.req.channelId in w.agents[f.serial] ==> Sealed(Driven(w, s, f), id)
    ensures forall status :: Sealed(Closed(s, f, status), id)
  {
    hide DriveOf;
    FewerFlights(s.flights, f);
    assert f.req.commandId != id;
  }

  lemma RefusedRow(w: World, s: State, step: Step, id: string)
    requires Enabled(w, s, step) && Refused(s, id)
    requires step.Record? ==> (w.serials[step.gateway], step.response) in s.responses
    ensures var t := Next(w, s, step);
            id in t.rows && t.rows[id].status == Reported(Rejected) && id in t.phase && t.phase[id] == Finished
  {
    if ByAgent(step) {
      AgentFrame(w, s, step);
      hide Next, Enabled;
    } else {
      hide Check, RequestOf, DriveOf;
    }
  }

  lemma RefusedStep(w: World, s: State, step: Step, id: string)
    requires Inv(w, s) && Enabled(w, s, step) && Refused(s, id)
    ensures Refused(Next(w, s, step), id)
  {
    if step.Receive? && step.req.commandId == id {
      RefusedAgain(w, s, step.serial, step.req, step.now);
    }
    SealedStep(w, s, step, id);
    RefusedRow(w, s, step, id);
    hide Next, Enabled, Inv, Sealed;
  }

  lemma {:induction false} RefusedStays(w: World, s: State, run: seq<Step>, id: string)
    requires Inv(w, s) && RunFrom(w, s, run).Some? && Refused(s, id)
    ensures Refused(RunFrom(w, s, run).value, id)
    decreases |run|
  {
    if run != [] {
      var before, step := run[..|run| - 1], run[|run| - 1];
      RefusedStays(w, s, before, id);
      RunKeepsInv(w, s, before);
      RefusedStep(w, RunFrom(w, s, before).value, step, id);
    }
  }

  ghost predicate KeepsStatus(w: World, s: State, id: string)
    requires id in s.rows
  {
    forall run | RunFrom(w, s, run).Some? ::
      id in RunFrom(w, s, run).value.rows && RunFrom(w, s, run).value.rows[id].status == s.rows[id].status
  }

  lemma Changes(w: World, s: State, id: string, run: seq<Step>)
    requires id in s.rows && RunFrom(w, s, run).Some?
    requires var t := RunFrom(w, s, run).value; id in t.rows && t.rows[id].status != s.rows[id].status
    ensures !KeepsStatus(w, s, id)
  {
  }

  // From any reachable state, the very status that a response has set survives every
  // continuation exactly when it is a refusal, the issuer is past its mark, and no delivery of
  // the command is under way or was answered otherwise.
  lemma StatusKeptExactlyWhen(w: World, s: State, id: string)
    requires Inv(w, s) && HasOutcome(s, id)
    ensures KeepsStatus(w, s, id) <==>
              s.rows[id].status == Reported(Rejected) && s.phase[id] == Finished && Sealed(s, id)
  {
    assert RowOk(w, s, id, s.rows[id]);
    hide Inv, RunFrom, Sealed, KeepsStatus;
    if s.rows[id].status != Reported(Rejected) {
      var run := RedeliveryOverwrites(w, s, id);
      Changes(w, s, id, run);
    } else if s.phase[id] != Finished {
      var run := OutcomeCanBeLost(w, s, id);
      Changes(w, s, id, run);
    } else if !Sealed(s, id) {
      var run := RefusalCanBeOverwritten(w, s, id);
      Changes(w, s, id, run);
    } else {
      SealedKeeps(w, s, id);
    }
  }

  lemma SealedKeeps(w: World, s: State, id: string)
    requires Inv(w, s) && Refused(s, id)
    ensures KeepsStatus(w, s, id)
  {
    forall run | RunFrom(w, s, run).Some?
      ensures id in RunFrom(w, s, run).value.rows && RunFrom(w, s, run).value.rows[id].status == s.rows[id].status
    {
      RefusedStays(w, s, run, id);
    }
  }

  // In every run from the start, an executed row is never safe from a redelivery.
  lemma ExecutedIsNeverSafe(w: World, run: seq<Step>, id: string) returns (more: seq<Step>)
    requires WorldOk(w) && RunFrom(w, INITIAL, run).Some?
    requires var s := RunFrom(w, INITIAL, run).value; id in s.rows && s.rows[id].status == Reported(Executed)
    ensures var s := RunFrom(w, INITIAL, run).value;
            !KeepsStatus(w, s, id) && RunFrom(w, s, more).Some?
            && var t := RunFrom(w, s, more).value; id in t.rows && t.rows[id].status == Reported(Rejected)
  {
    RunKeepsInv(w, INITIAL, run);
    more := RedeliveryOverwrites(w, RunFrom(w, INITIAL, run).value, id);
  }

  lemma {:induction false} RunConcat(w: World, s: State, a: seq<Step>, b: seq<Step>)
    requires RunFrom(w, s, a).Some?
    ensures RunFrom(w, s, a + b) == RunFrom(w, RunFrom(w, s, a).value, b)
    decreases |b|
  {
    if b == [] {
      assert a + b == a;
    } else {
      assert (a + b)[..|a + b| - 1] == a + b[..|b| - 1];
      RunConcat(w, s, a, b[..|b| - 1]);
    }
  }

  lemma IssueRun(w: World, id: string, o: Order, marked: bool) returns (run: seq<Step>)
    requires WorldOk(w) && ServerId(id) && o.gateway in w.serials
    ensures RunFrom(w, INITIAL, run).Some?
    ensures RunFrom(w, INITIAL, run).value ==
            State(map[id := Row(o, if marked then Published else Pending, None)],
                  map[id := if marked then Finished else Sent],
                  {RequestOf(w, id, o)}, {}, multiset{}, {}, map[], None)
  {
    run := [];
    OneStep(w, INITIAL, run, Insert(id, o));
    run := run + [Insert(id, o)];
    OneStep(w, INITIAL, run, Publish(id));
    run := run + [Publish(id)];
    if marked {
      OneStep(w, INITIAL, run, Mark(id));
      run := run + [Mark(id)];
    }
  }

  // The race is real: the answer can be recorded before the issuer's mark.
  lemma AnswerBeforeMark(w: World, id: string, o: Order, now: int) returns (run: seq<Step>)
    requires WorldOk(w) && ServerId(id) && o.requireAck && now <= o.expiresAt && Executable(w, o)
    ensures RunFrom(w, INITIAL, run).Some?
    ensures var s := RunFrom(w, INITIAL, run).value;
            id in s.rows && s.rows[id] == Row(o, Reported(Executed), Some(now)) && id in s.phase && s.phase[id] == Sent
  {
    run := IssueRun(w, id, o, false);
    var s := RunFrom(w, INITIAL, run).value;
    var accept, f := AcceptRun(w, s, id, o, now);
    var t := RunFrom(w, s, accept).value;
    assert f in t.flights;
    var rest := FlightRun(w, t, id, f);
    RunConcat(w, s, accept, rest);
    RunConcat(w, INITIAL, run, accept + rest);
    run := run + (accept + rest);
  }

  // A request that first reaches its agent too late is refused for good.
  lemma LateRefusalIsFinal(w: World, id: string, o: Order, late: int) returns (run: seq<Step>)
    requires WorldOk(w) && ServerId(id) && o.requireAck && late > o.expiresAt && Executable(w, o)
    ensures RunFrom(w, INITIAL, run).Some?
    ensures var s := RunFrom(w, INITIAL, run).value;
            id in s.rows && s.rows[id] == Row(o, Reported(Rejected), Some(late)) && KeepsStatus(w, s, id)
  {
    run := IssueRun(w, id, o, true);
    run := RefuseRun(w, INITIAL, run, id, o, late);
    RunKeepsInv(w, INITIAL, run);
    StatusKeptExactlyWhen(w, RunFrom(w, INITIAL, run).value, id);
  }

  // Two copies of one request: the first is accepted in time, the second is refused for its
  // age and answered first, and the first one's answer then replaces the refusal.
  lemma RefusedThenExecuted(w: World, id: string, o: Order, now: int, late: int)
    returns (run: seq<Step>, more: seq<Step>)
    requires WorldOk(w) && ServerId(id) && o.requireAck && now <= o.expiresAt < late && Executable(w, o)
    ensures RunFrom(w, INITIAL, run).Some?
    ensures var s := RunFrom(w, INITIAL, run).value;
            && id in s.rows && s.rows[id].status == Reported(Rejected) && id in s.phase && s.phase[id] == Finished
            && RunFrom(w, s, more).Some?
            && var t := RunFrom(w, s, more).value;
               id in t.rows && t.rows[id].status in {Reported(Executed), Reported(Failed)}
  {
    run := IssueRun(w, id, o, true);
    var s := RunFrom(w, INITIAL, run).value;
    var accept, f := AcceptRun(w, s, id, o, now);
    RunConcat(w, INITIAL, run, accept);
    run := run + accept;
    run := RefuseRun(w, INITIAL, run, id, o, late);
    RunKeepsInv(w, INITIAL, run);
    var t := RunFrom(w, INITIAL, run).value;
    assert f in t.flights && f.req.commandId == id;
    more := RefusalCanBeOverwritten(w, t, id);
  }

  // ---------------------------------------------------------------- a publish that fails

  ghost predicate CanExecute(w: World, s: State, id: string) {
    exists run ::
      && RunFrom(w, s, run).Some?
      && id in RunFrom(w, s, run).value.rows
      && RunFrom(w, s, run).value.rows[id].status == Reported(Executed)
  }

  // The row's request was never published.
  ghost predicate Unsent(w: World, s: State, id: string) {
    id in s.rows && id in s.phase && !Requested(w, s, id, s.rows[id].order)
  }

  // Until its issuer comes to publish it, a stored command is on no wire.
  lemma {:induction false} StoredIsUnsent(w: World, run: seq<Step>, id: string)
    requires WorldOk(w) && RunFrom(w, INITIAL, run).Some?
    requires id in RunFrom(w, INITIAL, run).value.phase && RunFrom(w, INITIAL, run).value.phase[id] == Stored
    ensures Unsent(w, RunFrom(w, INITIAL, run).value, id)
    decreases |run|
  {
    if run != [] {
      var before, step := run[..|run| - 1], run[|run| - 1];
      var s := RunFrom(w, INITIAL, before).value;
      RunKeepsInv(w, INITIAL, before);
      hide RunFrom;
      if ByAgent(step) {
        AgentFrame(w, s, step);
        StoredIsUnsent(w, before, id);
      } else if step.Insert? && step.id == id {
        FreshIsUnsent(w, s, id, step.order);
      } else {
        StoredIsUnsent(w, before, id);
        UnsentStep(w, s, step, id);
      }
    }
  }

  lemma FreshIsUnsent(w: World, s: State, id: string, o: Order)
    requires Inv(w, s) && Enabled(w, s, Insert(id, o))
    ensures Unsent(w, Next(w, s, Insert(id, o)), id)
  {
    assert RequestOf(w, id, o) in s.requests ==> RequestOk(w, s, RequestOf(w, id, o));
  }

  // Only its own issuer can publish a request.
  lemma UnsentStep(w: World, s: State, step: Step, id: string)
    requires Inv(w, s) && Enabled(w, s, step) && Unsent(w, s, id)
    requires step !in {Publish(id), PublishFails(id, true)}
    ensures Unsent(w, Next(w, s, step), id)
  {
    assert RowOk(w, s, id, s.rows[id]);
    if ByAgent(step) {
      AgentFrame(w, s, step);
      hide Next;
    } else {
      hide Check, DriveOf;
    }
  }

  lemma {:induction false} UnsentIsNeverAnswered(w: World, s: State, run: seq<Step>, id: string)
    requires Inv(w, s) && Unsent(w, s, id) && s.phase[id] == Finished && RunFrom(w, s, run).Some?
    ensures var t := RunFrom(w, s, run).value;
            Inv(w, t) && Unsent(w, t, id) && t.phase[id] == Finished && !t.rows[id].status.Reported?
    decreases |run|
  {
    RunKeepsInv(w, s, run);
    if run != [] {
      var before, step := run[..|run| - 1], run[|run| - 1];
      UnsentIsNeverAnswered(w, s, before, id);
      var t := RunFrom(w, s, before).value;
      UnsentStep(w, t, step, id);
      FinishedStays(w, t, step, id);
    }
    hide Next, Enabled, Unsent;
    UnsentIsOpen(w, RunFrom(w, s, run).value, id);
  }

  lemma UnsentIsOpen(w: World, s: State, id: string)
    requires Inv(w, s) && Unsent(w, s, id)
    ensures !s.rows[id].status.Reported?
  {
    assert RowOk(w, s, id, s.rows[id]);
  }

  lemma FinishedStays(w: World, s: State, step: Step, id: string)
    requires Enabled(w, s, step) && id in s.rows && id in s.phase && s.phase[id] == Finished
    ensures id in Next(w, s, step).phase && Next(w, s, step).phase[id] == Finished
  {
    if ByAgent(step) {
      AgentFrame(w, s, step);
      hide Next, Enabled;
    } else {
      hide Check, RequestOf, DriveOf;
    }
  }

  // When the API reports that the publish failed, the command can still be executed exactly
  // when its message got out all the same.
  lemma FailedPublishExactlyWhen(w: World, run: seq<Step>, id: string, leaked: bool)
    requires WorldOk(w) && RunFrom(w, INITIAL, run).Some?
    requires var s := RunFrom(w, INITIAL, run).value;
             && Enabled(w, s, PublishFails(id, leaked))
             && Executable(w, s.rows[id].order) && s.rows[id].order.requireAck
             && !Passed(s, w.serials[s.rows[id].order.gateway], s.rows[id].order.expiresAt)
    ensures CanExecute(w, Next(w, RunFrom(w, INITIAL, run).value, PublishFails(id, leaked)), id) <==> leaked
  {
    var s := RunFrom(w, INITIAL, run).value;
    RunKeepsInv(w, INITIAL, run);
    StoredIsUnsent(w, run, id);
    var t := Next(w, s, PublishFails(id, leaked));
    OneStep(w, INITIAL, run, PublishFails(id, leaked));
    RunKeepsInv(w, INITIAL, run + [PublishFails(id, leaked)]);
    if leaked {
      var more := LeakedRun(w, t, id);
    } else {
      UnsentStep(w, s, PublishFails(id, false), id);
      forall more | RunFrom(w, t, more).Some?
        ensures id in RunFrom(w, t, more).value.rows && !RunFrom(w, t, more).value.rows[id].status.Reported?
      {
        UnsentIsNeverAnswered(w, t, more, id);
      }
    }
  }

  lemma LeakedRun(w: World, s: State, id: string) returns (run: seq<Step>)
    requires Inv(w, s) && id in s.rows && ServerId(id)
    requires Executable(w, s.rows[id].order) && s.rows[id].order.requireAck
             && !Passed(s, w.serials[s.rows[id].order.gateway], s.rows[id].order.expiresAt)
    requires Requested(w, s, id, s.rows[id].order)
    ensures RunFrom(w, s, run).Some?
    ensures var t := RunFrom(w, s, run).value; id in t.rows && t.rows[id].status == Reported(Executed)
  {
    var o := s.rows[id].order;
    var accept, f := AcceptRun(w, s, id, o, o.expiresAt);
    var t := RunFrom(w, s, accept).value;
    assert f in t.flights;
    var rest := FlightRun(w, t, id, f);
    RunConcat(w, s, accept, rest);
    run := accept + rest;
  }

  // A mark that fails does no harm: an outcome recorded before it stays for good.
  lemma FailedMarkKeepsOutcome(w: World, s: State, id: string, run: seq<Step>)
    requires HasOutcome(s, id) && Enabled(w, s, MarkFails(id))
    requires RunFrom(w, Next(w, s, MarkFails(id)), run).Some?
    ensures HasOutcome(RunFrom(w, Next(w, s, MarkFails(id)), run).value, id)
  {
    OutcomeStays(w, Next(w, s, MarkFails(id)), run, id);
  }
}
