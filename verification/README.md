# Verified model of the IoT gateway

The system is an agent in Go on a hardware layer in C, and a server in Python: an API that
issues commands, a worker that handles MQTT messages, and a scheduler that runs periodic
jobs. This project models the parts of it that carry guarantees, and proves them for every
input, every run or every interleaving.

| file | component |
|---|---|
| `Crc.dfy`, `CrcAlgebra.dfy`, `CrcOrder.dfy` | the CRC-16 loop, what it computes over GF(2), and which errors it catches |
| `Modbus.dfy` | chunked reading, the reply decoder, the read and write transactions |
| `Gpio.dfy` | the 32-slot pin table as a partial map |
| `Config.dfy`, `CommandCheck.dfy` | configuration validation, the checks before a GPIO write |
| `MaxOn.dfy` | one actuator channel as a step machine: handlers, timer, callbacks |
| `ActuatorManager.dfy` | the manager object over the pin table |
| `Fleet.dfy` | all channels together, isolation, from configuration to relays |
| `Shutdown.dfy` | the deferred calls of the agent and the state they leave |
| `Commands.dfy` | the command protocol over server, network, agents, worker and scheduler |
| `Presence.dfy`, `Telemetry.dfy` | gateway presence; the log and the latest-value table |
| `OfflineQueue.dfy` | the agent's bounded queue and sensor health |
| `Lookups.dfy`, `Jwks.dfy` | the two kinds of cache against their sources |
| `Partitions.dfy` | month partitions, the default partition, gaps |
| `Topics.dfy` | printing, filtering, parsing and dispatching topics |

State that the source changes in place is a class whose methods are proved against
functions on values (`GpioTable` against `Bank`, `Manager`, `SerialLine`, `CommandTable`,
`GatewayTable`, `TelemetryStore`, `Queue`, `TtlCache`, `JwksCache`, `Catalog`); the theorems
over runs are lemmas about those functions. `GpioTable.View`, `TelemetryStore.Valid` and
`Catalog.Contents` give the abstraction.

Clocks, and the success or failure of calls into hardware, database and network, are
parameters or step labels. They range over everything unless a lemma says otherwise.

## Findings

These are properties the code or its comments suggest and does not have. For each, the first
lemma is an input or a run that shows it and the second the exact condition under which the
property holds.

- The max-on limit needs the commands of a channel to be handled one at a time, and the MQTT
  client is set up without ordering: `MaxOn.OverlapUncovered`,
  `MaxOn.CoveredExactlyWhenSerialised`.
- Even then `currentValue` can read 0 while the relay is on: `MaxOn.StaleRecord`,
  `MaxOn.RecordTrueExactlyWhen`.
- The agent waits for no command handler when it stops, so one that is about to write ON can
  do so after the last sweep: `Shutdown.LateHandlerDrives`, `Shutdown.EndsLowExactlyWhen`.
- The sweep that proceeds without the mutex can miss a line that is just being requested, or
  be followed by the write it did not wait for: `Gpio.UnlockedSweepMisses` and
  `Gpio.SweptAroundAt`, `Gpio.UnlockedSweepExactlyWhen` and `Gpio.UnlockedSweepAroundWrite`.
- A response recorded before the issuer's `published` mark can be overwritten and then timed
  out: `Commands.AnswerBeforeMark` with `Commands.OutcomeCanBeLost`,
  `Commands.OutcomeSafeExactlyWhen`.
- A redelivered request can replace the outcome of a command: `Commands.ExecutedIsNeverSafe`
  and `Commands.RefusedThenExecuted`, `Commands.StatusKeptExactlyWhen`.
- An API call that ends in "mqtt publish failed" may all the same have its command executed:
  `Commands.LeakedRun`, `Commands.FailedPublishExactlyWhen`.
- The write transaction reports a slave's exception as a timeout:
  `Modbus.ExceptionSeenByReadOnly`, `Modbus.ExceptionReportedExactlyWhen`.
- A cached lookup can be older than sixty seconds by the latency of its query:
  `Lookups.SlowAnswerOutlivesTtl`, `Lookups.TtlSufficesExactlyWhenInstant`.
- An invalidated lookup can come back: `Lookups.DeletedRowComesBack`,
  `Lookups.ForgottenExactlyWhen`.
- Rows that reach the default partition before the partition job does make it fail, and can
  keep it from ever succeeding again: `Partitions.OutageRun` with
  `Partitions.OutageIsPermanent`, `Partitions.AllSucceedExactlyWhen`.
- Telemetry redelivered without a timestamp, or after its channel was registered, changes the
  latest-value table: `Telemetry.NotRepeatableMoves` and `Telemetry.LateChannelMoves`,
  `Telemetry.RedeliveryHarmlessExactlyWhen`.
- Ties in the greatest timestamp make that table depend on the order of delivery; both
  directions are in `Telemetry.OrderIrrelevantExactlyWhen`.
- The queue is bounded only while its evictions succeed: `OfflineQueue.FillRun`,
  `OfflineQueue.BoundedExactlyWhenReliable`.
- The worker's topic pattern also accepts a trailing newline; `Topics.ParsesExactly` has the
  exact set of topics.

## Model

| member | source | states |
|---|---|---|
| `Crc.ComputeCrc` | hal/src/rs485.c:22-32 | the nested in-place loops leave the register that the bit-by-bit specification reaches on the first len bytes |
| `Crc.AbsorbIsFeed` | hal/src/rs485.c:25-29 | XOR-ing a byte in and shifting eight times is feeding its eight bits, least significant first, to the x^16+x^15+x^2+1 shift register |
| `Crc.CrcIsFeed` | hal/src/rs485.c:22-32 | for every byte string the loop ends where the serial shift register ends after all transmitted bits, started from all ones |
| `CrcAlgebra.CrcIsRemainder` | hal/src/rs485.c:22-32 | for every byte string a 16-bit value is a remainder of the initialised, shifted message modulo x^16+x^15+x^2+1 over GF(2) if and only if it is the value the loop computes (existence and uniqueness) |
| `CrcAlgebra.RemainderUnique` | hal/src/rs485.c:27 | division by the polynomial of constant 0xA001 leaves one possible remainder |
| `CrcAlgebra.DivisionAt` | hal/src/rs485.c:24-30 | the bits shifted out are a quotient: coefficient by coefficient, dividend = quotient * generator + register |
| `CrcAlgebra.FeedLinear` | hal/src/rs485.c:22-32 | the register is linear over GF(2) in its start value and the message |
| `CrcAlgebra.EmptiedBy` | hal/src/rs485.c:26-29 | at most sixteen bits empty the register if and only if it already held exactly those bits |
| `CrcAlgebra.BurstLeavesTrace` | hal/src/rs485.c:22-32 | a nonzero error confined to 16 consecutive bits, anywhere in a message of any length, never leaves the register at zero |
| `CrcAlgebra.FeedParity` | hal/src/rs485.c:26-29 | every shift keeps parity: the register's parity is the start parity plus that of the bits fed |
| `CrcAlgebra.ResidueZero` | hal/src/rs485.c:179-181 | the CRC comparison succeeds if and only if the CRC of the whole frame, trailer included, is 0 |
| `CrcAlgebra.ValidFrameIsEven` | hal/src/rs485.c:141-143 | message plus appended CRC always has an even number of set bits |
| `CrcAlgebra.BurstDetected` | hal/src/rs485.c:179-181 | no nonempty set of flips within 16 consecutive transmitted bits, CRC bytes included, turns a valid frame into a valid frame |
| `CrcAlgebra.OddFlipsDetected` | hal/src/rs485.c:179-181 | no odd number of flips, anywhere in a frame of any length, keeps it valid |
| `CrcOrder.PowerDoubles` | hal/src/rs485.c:27 | squaring modulo the generator, as a linear map on the sixteen coefficients, takes x^n to x^2n |
| `CrcOrder.OrderOfX` | hal/src/rs485.c:27 | shifting returns a register to where it was exactly after a multiple of 32767 shifts: the powers of x modulo the generator are 1 there and nowhere else |
| `CrcOrder.TwoBitsVanishExactlyWhen` | hal/src/rs485.c:22-32 | two flipped bits, anywhere in a message of any length, leave the register at zero if and only if they are a multiple of 32767 bits apart |
| `CrcOrder.TwoFlipsEscapeExactlyWhen` | hal/src/rs485.c:179-181 | two flips keep a frame of any length valid if and only if they are a multiple of 32767 bits apart |
| `CrcOrder.FewFlipsDetected` | hal/src/rs485.c:179-181 | no one, two or three flips, anywhere in a frame of at most 4095 bytes, keep it valid |
| `Modbus.Poll` | hal/src/rs485.c:104-122 | one select/read round: hands over the next chunk of what arrives, at most limit bytes, into the buffer at the given place, or ends with timeout or I/O error exactly when nothing more arrives |
| `Modbus.LineEnds` | hal/src/rs485.c:101-125 | as long as bytes come they arrive in order, interruptions aside; then silence is GW_ERR_TIMEOUT, and a failure or an end of file is GW_ERR_IO |
| `Modbus.ReadWithTimeout` | hal/src/rs485.c:101-125 | succeeds if and only if enough bytes arrive, however they are chunked or interrupted; then the buffer holds exactly the next ones and no later byte is consumed |
| `Modbus.CheckCrc` | hal/src/rs485.c:179-181 | the comparison of the reassembled trailer accepts exactly the valid frames |
| `Modbus.BuildRequest` | hal/src/rs485.c:134-143 | the request buffer holds Request, whose bytes RequestExactly and RequestFields state in integers |
| `Modbus.RequestExactly` | hal/src/rs485.c:133-143 | eight bytes are the request for a slave, function, address and value if and only if they have that slave and function, count to that address and value most significant byte first, and form a valid frame |
| `Modbus.SendRequest` | hal/src/rs485.c:134-146 | the eight bytes are written or, on failure, nothing is; written, the last eight on the line ask for exactly these fields |
| `Modbus.RequestFields` | hal/src/rs485.c:133-140 | for every request: slave, function, then 256 * third + fourth byte is the register address and 256 * fifth + sixth byte is the length or value |
| `Modbus.JoinIs` | hal/src/rs485.c:183-185 | joining two bytes is 256 * the first plus the second |
| `Modbus.RequestInjective` | hal/src/rs485.c:133-143 | two requests with the same bytes have the same slave, function, address and value |
| `Modbus.WithCrcIsValid` | hal/src/rs485.c:141-143 | appending the CRC low byte first always makes a valid frame |
| `Modbus.ReceiveRest` | hal/src/rs485.c:161-165 | reading the rest of a frame whose header is in the buffer and checking its CRC |
| `Modbus.ReceiveReply` | hal/src/rs485.c:155-181 | header first, then the exception or the normal branch: the outcome is DecodeReply of the arriving bytes |
| `Modbus.CopyRegisters` | hal/src/rs485.c:183-185 | fills the first length registers big-endian and leaves the rest of the caller's array alone |
| `Modbus.ReadExchange` | hal/src/rs485.c:133-187 | the transaction for sound arguments: sent bytes, result and registers for every arrival of bytes |
| `Modbus.ModbusRead` | hal/src/rs485.c:127-187 | GW_ERR_INVALID exactly for the listed bad arguments; otherwise the last eight bytes sent ask, in integers, for that register and count; the result for every arrival of bytes, out = the registers followed by its old tail on GW_OK and out unchanged on any other result |
| `Modbus.ReadResult` | hal/src/rs485.c:148-181 | for every arrival that is not the awaited reply: too few bytes end as the line does, an exception is GW_ERR_IO, or GW_ERR_CRC if its own CRC is wrong, anything else with a wrong address, function, count or CRC is GW_ERR_CRC |
| `Modbus.ReplyLayout` | hal/src/rs485.c:155-185 | the reply that is decoded: address, function, 2 * n, and each register as 256 * one byte plus the next, for every n and position |
| `Modbus.DecodeInvertsEncode` | hal/src/rs485.c:155-186 | for every request and register vector a read yields those registers if and only if the arriving bytes begin with the well-formed reply that carries them |
| `Modbus.RegistersInvert` | hal/src/rs485.c:183-185 | decoding the big-endian register bytes gives the registers back |
| `Modbus.RegisterBytesInvert` | hal/src/rs485.c:183-185 | encoding the decoded registers gives the bytes back |
| `Modbus.ReadRejectsBurst` | hal/src/rs485.c:159-181 | for every valid reply of any register count, any nonempty flip pattern within 16 transmitted bits makes the read fail |
| `Modbus.ReadRejectsOddFlips` | hal/src/rs485.c:159-181 | any odd number of flipped bits in a reply makes the read fail |
| `Modbus.ReadRejectsFewFlips` | hal/src/rs485.c:159-181 | one, two or three flipped bits anywhere in a reply of any register count make the read fail |
| `Modbus.ModbusWrite` | hal/src/rs485.c:189-219 | what is sent, its last eight bytes asking in integers for that register and value, and the result for every arrival of bytes |
| `Modbus.WriteOkIsEcho` | hal/src/rs485.c:207-218 | a write returns GW_OK if and only if the arriving bytes begin with the whole request echoed |
| `Modbus.WriteResult` | hal/src/rs485.c:207-218 | for every arrival: fewer than eight bytes end as the line does; eight are GW_OK if and only if they ask for the same register and value; otherwise an exception bit is GW_ERR_IO and anything else GW_ERR_CRC |
| `Modbus.ExceptionSeenByReadOnly` | hal/src/rs485.c:148-154 | the input that separates the two paths: the same five-byte exception and then silence is GW_ERR_IO for a read and GW_ERR_TIMEOUT for a write |
| `Modbus.ExceptionReportedExactlyWhen` | hal/src/rs485.c:207-212 | for every exception reply, whatever follows it and however the line ends, a read returns GW_ERR_IO always, a write if and only if three more bytes follow or the line fails |
| `Gpio.GpioTable.constructor` | hal/src/platform_pi4.c:39-42 | zeroed static storage is the empty map of an uninitialised bank |
| `Gpio.GpioTable.FindSlot` | hal/src/platform_pi4.c:46-53 | finds a live slot with the pin if and only if the pin is in the map |
| `Gpio.GpioTable.AllocSlot` | hal/src/platform_pi4.c:55-63 | finds a free slot if and only if fewer than 32 pins are reserved, without changing the map |
| `Gpio.GpioTable.Init` | hal/src/platform_pi4.c:67-88 | opens to the empty map, is idempotent, and fails with GW_ERR_PERM changing nothing |
| `Gpio.GpioTable.Request` | hal/src/platform_pi4.c:90-159 | refines reserving a pin in a partial map of at most 32 pins; each error code by its condition on the arguments and the map; on success the pin is added and an output takes its initial level; a failed request leaves the map as it was |
| `Gpio.GpioTable.Set` | hal/src/platform_pi4.c:161-174 | refines writing one output line of the map; each error code by its condition; on success that line alone has the value |
| `Gpio.GpioTable.Get` | hal/src/platform_pi4.c:176-191 | exact condition of each result code; the value is handed out only on GW_OK |
| `Gpio.GpioTable.Cleanup` | hal/src/platform_pi4.c:200-216 | refines dropping the whole map |
| `Gpio.GpioTable.AssertSafeState` | hal/src/platform_pi4.c:218-239 | with or without the mutex, in whatever state the table is, the sweep is one scan over the slots; on a valid table it drives exactly the output pins of the map to 0, except lines whose write fails |
| `Gpio.DirsAt` | hal/src/platform_pi4.c:33-40 | a live slot's pin is in the map with that slot's direction |
| `Gpio.DirsSize` | hal/src/platform_pi4.c:31-40 | the map has as many pins as there are live slots: live slots never share a pin |
| `Gpio.FillSlot` | hal/src/platform_pi4.c:119-120 | filling a free slot with a new pin extends the map by exactly that pin |
| `Gpio.SweepIsExact` | hal/src/platform_pi4.c:229-234 | the scan over the slots equals the sweep over the map |
| `Gpio.UnlockedSweepMisses` | hal/src/platform_pi4.c:113-120 | for every table and every request that has not yet marked its slot, the sweep leaves the requested line at its level and sweeps every other output exactly |
| `Gpio.UnlockedSweepExactlyWhen` | hal/src/platform_pi4.c:228-234 | a sweep that meets a half-done output request drives every line the kernel holds as an output low if and only if the request is not between the kernel's grant and the slot's mark, or its line is low already or stuck |
| `Gpio.UnlockedSweepAroundWrite` | hal/src/platform_pi4.c:161-174 | a sweep that proceeds because another thread is inside a write leaves every output that takes its write low if and only if that write fails, writes 0, is to a stuck line, or comes before the scan has passed its slot |
| `Gpio.SweptAroundAt` | hal/src/platform_pi4.c:228-234 | and the final level of each output then |
| `Config.ValidateSensors` | gateway/internal/config/config.go:198-216 | accepts the sensors if and only if each is well formed and their channel ids are distinct; returns exactly the set of ids seen |
| `Config.ValidateActuators` | gateway/internal/config/config.go:217-231 | continues with the same set of seen ids: sensors and actuators share one id namespace |
| `Config.MatchesIdPattern` | gateway/internal/config/config.go:19 | the gateway id pattern, character by character |
| `Config.SlugExactly` | gateway/internal/config/config.go:19 | the permitted characters of an id, spelled out: letters, digits, underscore and hyphen |
| `Config.Validate` | gateway/internal/config/config.go:182-233 | accepts a configuration if and only if it is well formed |
| `Config.WellFormedExactlyWhen` | gateway/internal/config/config.go:182-233 | every condition of the file in literal terms: id of 1 to 64 permitted characters, slave ids 1 to 247, relays on pins 0 to 53, and channel ids distinct among sensors, among actuators and across both |
| `Config.ApplyActuatorDefaults` | gateway/internal/config/config.go:163-170 | every actuator ends with 300 for a zero limit and "off" for an empty state, in place, and nothing else changed |
| `CommandCheck.ProceedsExactlyWhen` | gateway/internal/actuator/actuator.go:154-204 | a command reaches the hardware with a value if and only if it is named, addressed here or to nobody, not expired, on a known channel, and the value is 1 for ON, on, 1 or true and 0 for OFF, off, 0 or false |
| `CommandCheck.RefusedExactlyWhen` | gateway/internal/actuator/actuator.go:154-204 | each reason for a refusal by its exact condition on the request; any other word on an otherwise sound request is an invalid action |
| `MaxOn.CoveredExactlyWhenSerialised` | gateway/internal/actuator/actuator.go:145-251 | over every run with callbacks interleaved anywhere, a high line always has an ON mid-flight, an armed timer or a fired callback due to write 0, if and only if the channel starts off and either takes no commands or takes them one at a time with a positive limit and succeeding safety writes |
| `MaxOn.RunKeepsInv` | gateway/internal/actuator/actuator.go:206-246 | the inductive invariant behind it, over every run |
| `MaxOn.MaxOnBound` | gateway/internal/actuator/actuator.go:223-244 | in every run no line stays high longer than max_on_duration_sec, plus the latencies of handler and callback, after it was last driven high |
| `MaxOn.TimerIsRestarted` | gateway/internal/actuator/actuator.go:219-226 | the lower bound over every run and any overlap of handlers and callbacks: with no ON between write and commit, a running timer leaves the latest ON write its whole limit |
| `MaxOn.NoEarlyFire` | gateway/internal/actuator/actuator.go:219-226 | in every run no timer fires sooner than max_on_duration_sec after the latest ON write, unless an ON is between its write and its commit |
| `MaxOn.SecondOnRestarts` | gateway/internal/actuator/actuator.go:219-226 | a run, for every limit and every wait below it: the second ON stops the first one's timer and arms a full limit of its own |
| `MaxOn.OverlapUncovered` | gateway/internal/mqtt/client.go:78 | handlers run unordered: an OFF that writes first and commits last stops the ON's timer and leaves the relay on without one |
| `MaxOn.NoTimerUncovered` | gateway/internal/actuator/actuator.go:224 | a non-positive limit arms no timer |
| `MaxOn.HighDefaultUncovered` | gateway/internal/actuator/actuator.go:56-59 | default_state "on" is high without a timer from the start |
| `MaxOn.CallbackFailureUncovered` | gateway/internal/actuator/actuator.go:228-231 | a callback whose write fails returns without retry and leaves the relay on |
| `MaxOn.ShutdownFailureUncovered` | gateway/internal/actuator/actuator.go:263-267 | all-off stops the timer even when its own write then fails |
| `MaxOn.UninterruptedCommand` | gateway/internal/actuator/actuator.go:206-246 | the machine's three steps of a command, taken in a row, are the one-step command of the manager, whose line, record and timer Actuate states literally |
| `MaxOn.UninterruptedCallback` | gateway/internal/actuator/actuator.go:226-237 | the machine's two steps of a callback, taken in a row, clear line and record together |
| `MaxOn.OnlyZeroLeft` | gateway/internal/actuator/actuator.go:206-246 | with no ON command ahead of its write and none starting, a channel's every step drives its line low or leaves it |
| `MaxOn.RecordTrueExactlyWhen` | gateway/internal/actuator/actuator.go:216-237 | before shutdown the recorded currentValue equals the line in every settled state if and only if no command is ever taken, or commands come one at a time and arm no timer |
| `MaxOn.StaleRecord` | gateway/internal/actuator/actuator.go:235-237 | the counterexample under full serialisation: a callback records 0 after a complete ON command |
| `ActuatorManager.StartsExactlyWhen` | gateway/internal/actuator/actuator.go:52-71 | reserving succeeds if and only if the enabled actuators sit on distinct, free, granted pins and fit the table; then exactly those pins are outputs at their default state and all else is as before |
| `ActuatorManager.Manager.NewManager` | gateway/internal/actuator/actuator.go:42-72 | the constructor's table effect and error; on success one channel per enabled actuator, each owning an output of its own |
| `ActuatorManager.Manager.AddChannel` | gateway/internal/actuator/actuator.go:56-68 | one turn of its loop |
| `ActuatorManager.Manager.Execute` | gateway/internal/actuator/actuator.go:145-251 | verdict and reason for every request in every state of the table; executed if and only if the channel's pin is still an output and takes the write; then an ON word leaves line and record 1 and a timer of the full limit from now, an OFF word leaves both 0 and no timer, and nothing else changes; on any other result nothing does |
| `ActuatorManager.Manager.Actuate` | gateway/internal/actuator/actuator.go:206-246 | the write, the record and the timer of a command, which is always armed afresh from the present, or nothing when the write fails |
| `ActuatorManager.Manager.AutoOff` | gateway/internal/actuator/actuator.go:226-244 | the callback takes the step machine's expiry if the pin is still an output and takes the write, and changes nothing otherwise |
| `ActuatorManager.Manager.AssertAllOff` | gateway/internal/actuator/actuator.go:259-271 | every timer stopped, every record 0, every pin of the manager that is an output and takes the write at 0, no other pin touched |
| `ActuatorManager.Manager.SwitchOff` | gateway/internal/actuator/actuator.go:263-269 | one turn of its loop |
| `Fleet.RunsAlone` | gateway/internal/actuator/actuator.go:145-251 | in every run of the whole agent, what a channel on its own pin does is a run of that channel alone |
| `Fleet.OthersUntouched` | gateway/internal/actuator/actuator.go:207 | a command or timer step of one channel never changes another channel's line or recorded state |
| `Fleet.Isolated` | gateway/internal/actuator/actuator.go:145-251 | two runs that agree on the clock and one channel's own steps leave that channel the same, whatever all others did |
| `Fleet.SharedPinNotIsolated` | gateway/internal/actuator/actuator.go:61 | two channels on one pin are not isolated |
| `Fleet.LoadedChannelSafeExactlyWhen` | gateway/internal/config/config.go:163-170 | for a loaded channel handled one command at a time with succeeding safety writes, the max-on property holds if and only if the file does not say default_state "on" or a negative limit |
| `Fleet.AgentIsWired` | gateway/internal/actuator/actuator.go:52-71 | if Validate and NewManager succeed, the enabled actuators of the file and no others are the plan's channels, each on its own pin; these pins are distinct, are exactly the outputs, and no other pin is reserved |
| `Fleet.PlanIsSafe` | gateway/internal/actuator/actuator.go:145-251 | cover and time bound for every channel in every interleaving of all channels |
| `Fleet.PlanIsPatient` | gateway/internal/actuator/actuator.go:219-226 | in every interleaving of all channels no timer switches a relay off sooner than its limit after it was last commanded on |
| `Fleet.AgentIsSafe` | gateway/internal/config/config.go:105-121 | from a configuration file through validation, defaults and reservation to every run: if no enabled actuator asks for default state "on" or a negative limit, no relay stays on past its limit |
| `Shutdown.EndsLow` | hal/src/common.c:22-29 | in every life of the table, whatever the agent did before: final sweep, writes of 0, release; every line reserved as output ends at 0 or stuck, every other line is as before the life, nothing changes any of them afterwards, and every later write fails until re-initialisation |
| `Shutdown.EveryLifeEndsLow` | hal/src/common.c:22-29 | over any number of restarts, every line ever driven is low between them, except those that refused a sweep |
| `Shutdown.EndsLowExactlyWhen` | gateway/cmd/gateway-agent/main.go:87-149 | from any state of the channels after the client is disconnected, every stretch of every run between the last sweep and the release ends with all outputs low if and only if no ON command is ahead of its write |
| `Shutdown.LateHandlerDrives` | gateway/cmd/gateway-agent/main.go:205-206 | wg.Wait does not wait for command handlers: in every state with an ON ahead of its write, that write alone leaves its output high after the sweep |
| `Shutdown.OnlyZerosLeft` | gateway/internal/actuator/actuator.go:206-246 | with no such command, every write that any channel still makes is a 0 |
| `Shutdown.LifeTracked` | hal/src/platform_pi4.c:90-174 | over every life of the table, first or later, outputs are only added and only lines that are outputs have changed since it was opened |
| `Shutdown.DeadAfterRelease` | hal/src/platform_pi4.c:200-216 | after release nothing changes the lines and every write reports GW_ERR_NOT_INIT |
| `Shutdown.HalCleanupCall` | hal/src/common.c:22-29 | sweep, then release |
| `Shutdown.Unwind` | gateway/cmd/gateway-agent/main.go:87-149 | running the deferred calls last-in first-out |
| `Shutdown.UnwindsInReverse` | gateway/cmd/gateway-agent/main.go:87-149 | for every registration, the later part runs before the earlier part |
| `Shutdown.DeferredEffects` | hal/src/common.c:22-29 | the safe state lowers every output and keeps the reservations; the cleanup lowers them and ends the reservations; no other line changes |
| `Shutdown.UnwindingIsSafe` | gateway/cmd/gateway-agent/main.go:81-99 | any list of deferred calls registered after cleanup and safe-state leaves every output low and the table released |
| `Shutdown.EveryReturnIsSafe` | gateway/cmd/gateway-agent/main.go:87-208 | so does every return of run once the HAL is up, with or without a kernel watchdog |
| `Shutdown.StopAgent` | gateway/cmd/gateway-agent/main.go:205-208 | manager all-off, then the deferred calls, on the objects themselves |
| `Commands.CommandTable.HandleResponse` | server/worker/handlers/command_response.py:28-48 | the row gets the status and time of the response if and only if it exists and belongs to the gateway that answers; every other row stays |
| `Commands.CommandTable.SweepTimeouts` | server/scheduler/jobs/command_timeout.py:16-30 | the returned ids are exactly the pending or published rows whose expiry has passed; these become timed out now, every other row stays |
| `Commands.SweepIsExact` | server/scheduler/jobs/command_timeout.py:18-26 | a row changes if and only if it is pending or published and expired; reported rows never do; afterwards no pending or published row is expired |
| `Commands.OpenRowTimesOutExactlyWhen` | server/app/routers/commands.py:51-88 | a stored command without a response, marked published or not, is timed out by a sweep if and only if its expiry has passed |
| `Commands.MarkReopens` | server/app/routers/commands.py:87-88 | the mark makes a row that a response had closed the sweep's again, and changes nothing for any other row |
| `Commands.ResponseTouchesOwnRowOnly` | server/worker/handlers/command_response.py:34-46 | a row changes if and only if the response names it, comes from its own gateway and says something new |
| `Commands.RunKeepsInv` | server/app/routers/commands.py:46-96 | the inductive invariant over rows, requests, responses and commands in flight, for every step of server, network, agents, worker and scheduler |
| `Commands.ExecutedMeansDriven` | gateway/internal/actuator/actuator.go:160-250 | over every run with loss, duplication and reordering, status executed implies a write by the row's own gateway to the pin configured for its slug, of 1 for an ON word and 0 for an OFF word, after an expiry check at the very time the row records, no later than expires_at |
| `Commands.ExecutableExactlyWhen` | gateway/internal/actuator/actuator.go:191-204 | a gateway can execute an order if and only if it has the channel and the action is one of the eight words |
| `Commands.TimeoutMeansLate` | server/scheduler/jobs/command_timeout.py:20-24 | in every run a timed-out row has completed_at after expires_at, and a row without require_ack never gets a response status |
| `Commands.OutcomeSafeExactlyWhen` | server/app/routers/commands.py:83-88 | from every reachable state, a row with a response status keeps some response status, the same or another, in every continuation if and only if the issuer is past its published mark |
| `Commands.OutcomeStays` | server/worker/handlers/command_response.py:44-46 | past that mark the row keeps some response status through every run |
| `Commands.FailedMarkKeepsOutcome` | server/app/routers/commands.py:89-94 | after a mark that fails, an outcome recorded before it stays in every continuation |
| `Commands.StatusKeptExactlyWhen` | server/worker/handlers/command_response.py:44 | from every reachable state, with clocks that only advance, the very status a response has set survives every continuation if and only if it is a refusal, the issuer is past its mark, no agent has the command in flight, and every response to it is a refusal |
| `Commands.UnexecutableIsSealed` | server/worker/handlers/command_response.py:44 | a command whose agent does not know its channel or action meets the last two conditions in every reachable state |
| `Commands.OutcomeCanBeLost` | server/app/routers/commands.py:87 | before it, the mark and then the timeout sweep replace the outcome |
| `Commands.AnswerBeforeMark` | server/app/routers/commands.py:84-88 | the race is real: a run from the initial state records executed before the mark |
| `Commands.RedeliveryOverwrites` | server/worker/handlers/command_response.py:44 | from every reachable state, a redelivery after the expiry turns any response status into rejected |
| `Commands.RefusalCanBeOverwritten` | server/worker/handlers/command_response.py:44 | from every reachable state with such a command in flight or another answer under way, that answer replaces the refusal |
| `Commands.RefusedThenExecuted` | server/worker/handlers/command_response.py:44 | a run of it: two copies of a request, the later one refused for its age and answered first |
| `Commands.LateRefusalIsFinal` | gateway/internal/actuator/actuator.go:182-187 | a request that first reaches its agent after its expiry is refused for good |
| `Commands.ExecutedIsNeverSafe` | server/worker/handlers/command_response.py:44 | in every run from the start, every executed row can still become rejected |
| `Commands.FailedPublishExactlyWhen` | server/app/routers/commands.py:83-94 | from every reachable state with an executable, acknowledged command that has not expired at its agent: after a publish that is reported as failed the command can still become executed if and only if the message got out |
| `Commands.LeakedRun` | server/app/routers/commands.py:89-94 | the run: a request that is out is accepted, driven and recorded as executed |
| `Commands.UnsentIsNeverAnswered` | server/app/routers/commands.py:83-94 | a command whose issuer has ended without publishing it has no response status in any continuation |
| `Presence.GatewayTable.HandleHeartbeat` | server/worker/handlers/heartbeat.py:19-29 | last_seen_at is the message's stamp, or now without one; an offline gateway comes online, a shut down one stays; no other gateway changes |
| `Presence.GatewayTable.HandleState` | server/worker/handlers/state.py:28-51 | status and last_seen_at for each claim, absent, known or unknown, last-will branch included |
| `Presence.GatewayTable.DetectOffline` | server/scheduler/jobs/offline_detector.py:17-32 | exactly the online gateways not seen for more than 90 seconds, or never, go offline; these are the returned ids |
| `Presence.OnlineMeansRecent` | server/scheduler/jobs/offline_detector.py:19-26 | if the detector ran in the last D seconds, then for an online gateway the last event is telemetry, a heartbeat or an online state message within D seconds, or the latest stamp in its message history is no older than 90 + D |
| `Presence.OnlineMeansStamped` | server/scheduler/jobs/offline_detector.py:19-26 | if stamps lag their handling by at most L, the latest stamp of an online gateway is no older than D plus the larger of 90 and L |
| `Presence.LastSeenIsLatestStamp` | server/worker/handlers/state.py:46-49 | after every history last_seen_at is what the latest stamping message said, or its initial value if none did |
| `Presence.SweepDecidesByHistory` | server/scheduler/jobs/offline_detector.py:19-26 | a sweep leaves an online gateway online if and only if the latest stamp in its message history lies in the last 90 seconds |
| `Presence.BoundIsTight` | server/scheduler/jobs/offline_detector.py:24 | 90 + D is reached |
| `Presence.ShutdownSurvivesHeartbeats` | server/worker/handlers/heartbeat.py:26-27 | heartbeats and the detector never bring a gateway out of shutdown |
| `Presence.BackOnline` | server/worker/handlers/heartbeat.py:19-29 | after any history a heartbeat leaves a gateway online unless it is shutting down, and telemetry leaves it online |
| `Telemetry.TelemetryStore.Handle` | server/worker/handlers/telemetry.py:31-117 | exactly the items with a known slug and a named measurement gain a row each, in item order, under (gateway, channel of the slug, measurement), with the message's timestamp or else the present and the item's reading; the gateway is online and seen then; telemetry_latest stays the replay of the log |
| `Telemetry.LatestIsWinner` | server/worker/handlers/telemetry.py:86-109 | for every message sequence telemetry_latest holds, for each key in the log and no other, exactly the earliest-inserted row of maximal ts |
| `Telemetry.WinnerIsUnique` | server/worker/handlers/telemetry.py:107 | there is one such row |
| `Telemetry.UnchangedExactlyWhen` | server/worker/handlers/telemetry.py:95-108 | further rows leave telemetry_latest as it is if and only if the log already has, for each, a row of its key with at least its timestamp |
| `Telemetry.RedeliveryHarmlessExactlyWhen` | server/worker/handlers/telemetry.py:37-109 | over every log, all rows in between and every two times, redelivering a message never changes telemetry_latest if and only if the second delivery adds no row, or the message has a timestamp and the second delivery knows no channel that the first did not |
| `Telemetry.NotRepeatableMoves` | server/worker/handlers/telemetry.py:37 | any other message does change the table when redelivered later on an empty log |
| `Telemetry.TimestampedIsRepeatable` | server/worker/handlers/telemetry.py:37 | with the channels unchanged that means: it has a timestamp or adds no row |
| `Telemetry.LateChannelMoves` | server/worker/handlers/telemetry.py:53-59 | a value dropped for an unknown channel and redelivered after the channel is registered does change the table |
| `Telemetry.OrderIrrelevantExactlyWhen` | server/worker/handlers/telemetry.py:107 | every permutation of the log gives the same table if and only if no key's maximal ts is shared by different readings |
| `Telemetry.DistinctTimestampsUnambiguous` | server/worker/handlers/telemetry.py:107 | distinct timestamps per key are enough |
| `OfflineQueue.Queue.Enqueue` | gateway/internal/localdb/sqlite.go:95-122 | the queue after success and after each failing statement; what is evicted is telemetry only, the oldest of it, at most 1000 rows |
| `OfflineQueue.Queue.SelectOldest` | gateway/internal/localdb/sqlite.go:111 | the rows of the eviction's subquery |
| `OfflineQueue.Queue.PeekBatch` | gateway/internal/localdb/sqlite.go:125-144 | as many rows as asked for and available, by ascending priority and then creation time, none after a row left out |
| `OfflineQueue.BatchIsDetermined` | gateway/internal/localdb/sqlite.go:127 | two answers to the same PeekBatch differ only in ties |
| `OfflineQueue.DeleteAdvances` | gateway/internal/localdb/sqlite.go:147-150 | deleting the first message of a batch leaves the rest as the batch of the remaining queue |
| `OfflineQueue.DrainedInOrder` | gateway/internal/localdb/sqlite.go:125-150 | deleting a batch message by message removes exactly its rows, and all that stay sort after all that were sent |
| `OfflineQueue.Queue.PurgeOld` | gateway/internal/localdb/sqlite.go:153-161 | a row stays if and only if it was created no earlier than retention_days * 86400 seconds ago, unchanged; returns the number of rows removed |
| `OfflineQueue.BoundedExactlyWhenReliable` | gateway/internal/localdb/sqlite.go:103-121 | after every serial run there are at most max_queue_rows rows or at most one telemetry row, if and only if evictions never fail |
| `OfflineQueue.FillRun` | gateway/internal/localdb/sqlite.go:112-114 | while evictions fail, a queue of any number of telemetry rows is reachable under any limit |
| `OfflineQueue.ReliableIsBounded` | gateway/internal/localdb/sqlite.go:95-161 | the invariant of every such run, failed inserts included |
| `OfflineQueue.RowBound` | gateway/internal/localdb/sqlite.go:108-115 | rows never exceed the larger of the limit and one more than the non-telemetry rows |
| `OfflineQueue.HealthIsTrailingFailures` | gateway/internal/localdb/sqlite.go:171-195 | after every sequence of polls, fails is the number of failures since the last success and the state follows from it |
| `Lookups.TtlCache.Consult` | server/worker/handlers/_lookups.py:34-36 | a hit if and only if there is an entry that has not expired, with that entry's answer |
| `Lookups.TtlCache.Store` | server/worker/handlers/_lookups.py:38-40 | the stored answer, None included, is served up to and including the sixtieth second and not after |
| `Lookups.TtlCache.Invalidate` | server/worker/handlers/_lookups.py:81-82 | forgets that key at every time |
| `Lookups.AnswersAreRecent` | server/worker/handlers/_lookups.py:28-78 | over every run of overlapping lookups and every history of the database, each answer, a cached None included, is what the database held at some instant within the last 60 seconds plus the query's latency |
| `Lookups.TtlSufficesExactlyWhenInstant` | server/worker/handlers/_lookups.py:37-39 | 60 seconds alone are right for every run and every database if and only if answers arrive in no time: expiry counts from the store, not from the read |
| `Lookups.SlowAnswerOutlivesTtl` | server/worker/handlers/_lookups.py:37-39 | a run, for every latency, whose second answer is sixty seconds plus that latency old |
| `Lookups.ForgottenExactlyWhen` | server/worker/handlers/_lookups.py:81-82 | from every state, every later answer for an invalidated key was true at or after the invalidation, over every run and every future of the database, if and only if no answer for it is in flight that can still be stored (or it was true at that very instant) |
| `Lookups.ForgottenForGood` | server/worker/handlers/_lookups.py:81-82 | the positive half, for one run and one future |
| `Lookups.ForgottenThenRestored` | server/worker/handlers/_lookups.py:37-40 | from every state with an answer in flight, the handler hands it out and stores it after the invalidation, for a full TTL |
| `Lookups.DeletedRowComesBack` | server/worker/handlers/_lookups.py:37-40 | a run from an empty cache: a row deleted right after it was read and then invalidated is served again sixty seconds later |
| `Jwks.JwksCache.Fetch` | server/app/utils/jwks.py:33-53 | replaces the index only if the whole document is usable, and stamps it after the response |
| `Jwks.JwksCache.GetKey` | server/app/utils/jwks.py:55-63 | a cached key within its ttl is answered without the endpoint and changes nothing; otherwise a usable document replaces the index and answers, and a failure answers nothing and changes nothing |
| `Jwks.KeyMapIsLast` | server/app/utils/jwks.py:46-50 | the index holds exactly the last key of the list for each non-empty kid |
| `Jwks.KeysAreRecent` | server/app/utils/jwks.py:30-63 | in every sequence of calls a key that is handed out is the one for its kid in a document whose fetch finished at most ttl earlier |
| `Jwks.NoneIsFirstHand` | server/app/utils/jwks.py:58-63 | no key is answered if and only if the index is stale or lacks the kid and this very call met a failure or a document without it |
| `Jwks.OutageIsHidden` | server/app/utils/jwks.py:55-63 | in every sequence of calls, for ttl after a fetch and as long as only its kids are asked for, every call is answered from it, whatever the endpoint would say |
| `Partitions.Catalog.CreateIfNotExists` | server/scheduler/jobs/partition_manager.py:25-29 | when the statement succeeds and what it adds |
| `Partitions.MonthPartitionSpan` | server/scheduler/jobs/partition_manager.py:22-30 | name and bounds are those of one whole month, across December |
| `Partitions.NameSpells` | server/scheduler/jobs/partition_manager.py:24 | the name is telemetry_, the year in decimal, an underscore and the month in two digits |
| `Partitions.NameInjective` | server/scheduler/jobs/partition_manager.py:24 | different months never share a table name |
| `Partitions.RangesDisjoint` | server/scheduler/jobs/partition_manager.py:25-29 | every instant lies in at most one partition |
| `Partitions.Catalog.Run` | server/scheduler/jobs/partition_manager.py:33-45 | covers exactly the current and next three months, or nothing; succeeds if and only if the default partition holds no row of them |
| `Partitions.CoveredIsUnion` | server/scheduler/jobs/partition_manager.py:33-45 | successful runs cover exactly the union of their windows |
| `Partitions.NoGapExactlyWhenOften` | server/scheduler/jobs/partition_manager.py:19 | on a fresh or migrated table the covered months have no gap if and only if consecutive runs are at most four months apart |
| `Partitions.NoGapExactlyWhenBridged` | server/scheduler/jobs/partition_manager.py:33-45 | on any table they have no gap if and only if the months that no window reaches were covered before |
| `Partitions.RoutedAlways` | server/scheduler/jobs/partition_manager.py:3-6 | over every interleaving of rows and runs no month is both covered and in the default partition, and none loses its partition |
| `Partitions.AllSucceedExactlyWhen` | server/scheduler/jobs/partition_manager.py:33-45 | over every history of rows and jobs, all jobs succeed if and only if no row overtakes the partition of a month that a later job is to cover |
| `Partitions.SteadyStaysHealthy` | server/scheduler/jobs/partition_manager.py:3-6 | with runs at most four months apart and no row dated past the months made, every run succeeds and no covered-era row is ever in the default partition |
| `Partitions.OutageIsPermanent` | server/scheduler/jobs/partition_manager.py:33-45 | once a month has begun without its partition and rows keep arriving before the job, no later run ever succeeds |
| `Partitions.OutageRun` | server/scheduler/jobs/partition_manager.py:33-45 | a run of it: one job, a pause of four months, and then two months in a row whose jobs both fail |
| `Topics.ParsesExactly` | server/worker/handlers/__init__.py:23-32 | the worker's pattern accepts exactly the printed topics, with or without a trailing newline |
| `Topics.KindTextExactly` | server/worker/handlers/__init__.py:23 | the permitted characters of a kind: small letters, underscore and slash |
| `Topics.RoundTrip` | gateway/internal/config/config.go:19 | every topic printed for a validated id passes gw/+/# and parses back to exactly that id and kind |
| `Topics.FilterAdmits` | server/worker/main.py:39 | the worker's filter admits every printed topic (section 4.7.1 of MQTT 3.1.1) |
| `Topics.WorkerFilterMeans` | server/worker/main.py:37-39 | gw/+/# matches exactly the topics under gw with at least one more level |
| `Topics.NoCollision` | gateway/internal/actuator/actuator.go:138 | distinct pairs of id and kind never share a topic |
| `Topics.DispatchOfPrinted` | server/worker/handlers/__init__.py:45-57 | every printed topic reaches the handler of its kind, and the server's own requests reach none |
| `Topics.Routes` | server/worker/handlers/__init__.py:45-57 | the handler of each of the eight topics of a registered gateway, topic by topic |
| `Topics.RoutedExactlyWhen` | server/worker/handlers/__init__.py:26-57 | a message is handled for a gateway if and only if its topic is one printed for a serial number registered to it and the payload is JSON |

## Left out

- termios setup, `gw_rs485_open`, the kernel watchdog, libgpiod and the cgo binding: foreign calls; only the success or failure of a line write and the arrival of bytes appear.
- Modbus.SerialLine.Write: a short write counts as nothing sent; the source only tests for eight bytes, and the bytes of a partial frame on the wire have no further effect in the model.
- `hal/src/rs485.c:170`: the size check of the reply buffer is dead code, since 5 + 2 * 125 fits 256 bytes.
- The flag `g_gpio_initialized` is read outside the mutex in the source; the model reads it together with the rest of the call. Output and input requests share one method with a direction.
- The sweep without the mutex meets another thread between two statements of one request for an output, or around one write; threads that make several calls while the scan runs, or are inside `gpiod_line_release`, are not modelled.
- Simulation mode, `platform_r1124.c` and `hal_sim.go`: stubs.
- Time in `MaxOn` and `Fleet` is discrete; timers fire on the tick they are due, and handlers and callbacks take no longer than latencies that are parameters.
- ActuatorManager.Manager.Execute: one command with nothing interleaved; interleaving is the subject of `MaxOn` and `Fleet`. Of the response it states status and reason, not the texts of `result` and `local_safety_check`.
- The order in which Go walks the channel map in all-off is arbitrary; the result does not depend on it.
- Shutdown: `Disconnect`, `Close` and the watchdog calls have no effect on the lines and appear only by their place in the order.
- Config: only the fields that Validate reads or that actuator channels take defaults from.
- Commands: the issuing handler is three steps, every other handler or job one atomic step; SQL transactions are not modelled. Serial numbers and agent configurations are fixed during a run. Responses come from the agents; the contents of `response`, and a response that a foreign client forges on another gateway's topic, are not part of the model.
- Commands: the clock of each agent and of the scheduler does not run backwards; clocks of different machines are unrelated.
- Commands: other publishers may send any request whose id does not start with `cmd-`; forged requests under server-made ids are excluded.
- Commands: the agent does not use its command log, so at-most-once execution is not claimed.
- Timestamps are integers; parsing ISO 8601 text, and the exception a malformed one raises, are not modelled.
- Presence: the version columns a state message may update, and manual changes of a status, are left out; the threshold is its default of 90 seconds.
- Telemetry: company and site ids and the `raw` column are constant columns and left out; channel ids come from a map that is fixed during one delivery.
- OfflineQueue: serial calls only, since count and insert are separate statements; rows are a map by id and ties in `created_at` are broken either way. No backlog flush loop exists to model.
- Lookups: time is integral. One generic cache stands for the three dictionaries. The worker's own loop awaits one message at a time; the lemmas hold for overlapping lookups as well.
- Jwks: kids that are JSON values other than strings are not modelled; everything that makes `_fetch` raise is one failure.
- Partitions: bounds are month indices. That PostgreSQL refuses a partition whose rows sit in the default one, and rolls a failed transaction back, is an assumption about the engine; so is its routing of rows.
- Topics: characters are code points; `config/reported` and `ota/status` are dispatched by the worker but printed by no agent code.
- JWT checks, permissions, CRUD routers, health sampling, the telemetry simulator, document generators and installers: thin wrappers or no claims beyond clamping.
