# Relay-output state machine of an Ethernet relay controller

The firmware in `application.cpp` drives `NRELAYS` relay outputs (2, 4 or 8, fixed
at build time) from HTTP GET commands. All of its state is two global arrays of
`NRELAYS+2` slots: `s_output_states` holds the commanded level of each output, and
`s_timeouts` holds a `{int32 time; bool active}` countdown per output. Slots 0 and 1
exist only to make indexing simple. The legal outputs run from `MIN_OUTPUT` up to
`MAX_OUTPUT = NRELAYS+1`. `MIN_OUTPUT` comes from build configuration; the model
takes it as 2, the bound the adapters check.

Three layers act on this state:

- **Primitives.** `do_set`, `do_toggle` and `do_clear` each set one output's level,
  switch its timer off and drive its pin. `start_timeout` arms a timer with the
  duration rounded toward zero to a multiple of 100 ms.
- **Command adapters.** `nontimed_output_handler` and `timed_output_handler` parse
  the operands and check the output index. The timed one also checks that the
  duration exceeds 100 ms. Only when every check passes do they call a primitive,
  and, for a timed command, arm the timer. Then they choose the `OK` or `?` body.
  Six thin wrappers, one per `/output/...` route, hand the adapters the character
  after the matched route. `get_input` range-checks an input index and answers
  `1`, `0` or `?`.
- **Scheduler tick.** `timeout_task_fn` runs every 100 ms. For each output from
  `MIN_OUTPUT` to `MAX_OUTPUT`, an active timer with time left loses 100 ms. When
  it reaches 0, the output is toggled, which also switches the timer off.

The project has four modules:

- `numeric.dfy` (`Numeric`): `int32_t` as a subset type, and C's truncating
  division. It also has a leading-digits stand-in for the library parser
  `raat_parse_single_numeric`, with its round trip against `Decimal`.
- `outputs.dfy` (`Outputs`): the arrays as a value (`Board` of `Slot`s). It
  holds one function per state change (`Applied`, `Armed`, `Ticked` and
  `SetEach`), the timer invariant `WellTimed`, and the lemmas about sequences of
  commands and ticks.
- `commands.dfy` (`Commands`): what an adapter decides from a request path before
  it touches any state: the accepted output, the accepted duration and the
  response body. This module also holds the bounds finding below.
- `application.dfy` (`Application`): class `Controller`, which keeps the two arrays
  as `array` fields and `digitalWrite`'s effect as the ghost sequence `pins`.
  Each method is proved to change the arrays exactly as the matching `Outputs`
  function changes a `Board`. `Valid()` keeps `pins` equal to the output levels.

## Model

| member | source | states |
|---|---|---|
| Application.Controller.constructor | application.cpp:42-51 | both arrays have `NRELAYS+2` slots, every output is clear and every timer is `{0, false}`; the pins match. |
| Application.Controller.DoSet | application.cpp:55-61 | the output becomes on and its timer inactive. Its timer's time and every other slot are unchanged, and the pin shows the new level. |
| Application.Controller.DoToggle | application.cpp:63-69 | the output becomes the negation of its old level and its timer becomes inactive. Nothing else changes, and the pin shows the new level. |
| Application.Controller.DoClear | application.cpp:71-77 | the output becomes off and its timer inactive. Nothing else changes, and the pin shows the new level. |
| Application.Controller.Perform | application.cpp:152 | calling through the setter pointer has exactly the effect of the chosen primitive. |
| Application.Controller.StartTimeout | application.cpp:79-84 | the timer becomes `{Quantize(d), true}`, every other slot and every level are unchanged. |
| Application.Controller.NontimedOutputHandler | application.cpp:139-156 | when the index fails to parse or lies outside `2..MAX_OUTPUT` (the corrected bound of "## Findings", not the written `NRELAYS+2`), nothing changes and the body is `?`; otherwise the primitive is applied to that index and the body is `OK`. |
| Application.Controller.TimedOutputHandler | application.cpp:158-184 | when any parse fails, the index lies outside `2..MAX_OUTPUT` (the corrected bound of "## Findings", not the written `NRELAYS+2`) or the duration is at most 100, nothing changes and the body is `?`. Otherwise the new state is the primitive's effect followed by arming with the parsed duration, and the body is `OK`. |
| Application.Controller.HandleOutputRoute | application.cpp:186-221 | each of the six routes runs its adapter, with the route's primitive, on the operands that start one character after the route's end. |
| Application.Controller.TimeoutTask | application.cpp:254-269 | one tick: the new arrays are `Ticked` of the old ones, with the pins kept equal to the levels. |
| Application.Controller.CustomSetup | application.cpp:288-293 | the `DEFAULT_ON` loop leaves the arrays as `SetEach` of the old ones: the listed outputs are on with inactive timers, and the rest are unchanged. |
| Outputs.InitialBoard | application.cpp:42-51 | the initial board has `NRELAYS+2` slots, every slot is off with timer `{0, false}`, and it satisfies the timer invariant. |
| Outputs.NextLevel | application.cpp:58-74 | set yields on, clear yields off, and toggle yields the opposite of the old level. |
| Outputs.Applied | application.cpp:55-77 | a primitive changes only its own slot: the new level is `NextLevel`, the timer becomes inactive with its time kept, and the timer invariant is preserved. |
| Outputs.Quantize | application.cpp:82 | the result is a multiple of 100. For `d >= 0` it lies in `(d-100, d]`, for negative `d` it lies in `[d, d+100)`, and it is at least 100 when `d >= 100`. |
| Outputs.Armed | application.cpp:79-84 | only the armed slot's timer changes, to `{Quantize(d), true}`; levels are untouched. The timer invariant is preserved when `d >= 100`. |
| Outputs.TickSlot | application.cpp:259-267 | a slot that is inactive or at zero is unchanged; otherwise its time drops by 100. The level flips exactly when an active timer held 100, and the timer stays active exactly when it did not hold 100. The invariant is preserved. |
| Outputs.Ticked | application.cpp:254-269 | every slot in `MIN_OUTPUT..MAX_OUTPUT` takes one `TickSlot`; slots 0 and 1 are unchanged; the timer invariant is preserved. |
| Outputs.SetEach | application.cpp:288-293 | a slot is on with an inactive timer exactly when its index is listed; every other slot is unchanged. |
| Outputs.DoubleToggle | application.cpp:63-69 | two toggles of one output restore every level and leave that output's timer inactive with its time kept. |
| Outputs.TickedNAt | application.cpp:257-268 | over `n` ticks each output in the sweep evolves on its own (`n` steps of `TickSlot`), and outputs outside the sweep never change. |
| Outputs.InactiveSlotIsStill | application.cpp:259 | ticks never change a slot whose timer is inactive. |
| Outputs.CountDown | application.cpp:259-266 | a timer holding `m` periods is still armed and counting after `k < m` ticks. From tick `m` on, the output has flipped once and the timer is inactive at 0. |
| Outputs.ArmedTimerFires | application.cpp:82-83 | a timer armed with `d > 100` keeps the level for `d/100 - 1` ticks, and toggles it exactly once, at tick `d/100`. |
| Outputs.DirectCommandCancelsTimer | application.cpp:59 | after a direct primitive on an output, no number of ticks changes that output again. |
| Outputs.RearmingDiscardsEarlierTimer | application.cpp:179 | when a second timed command reaches an output any number of ticks after a first one, fired or not, only the level it finds and the second duration decide when and how the output fires (last write wins). |
| Commands.BoolResponse | application.cpp:127-137 | the body is `OK` exactly on success and `?` exactly on failure. |
| Commands.AcceptedOutputWithinArrays | application.cpp:40-48 | the range `2..MAX_OUTPUT` is the written range `2..NRELAYS+2` minus the indices at or past the array length; every index it accepts is a slot of both arrays. |
| Commands.ImmediateRequest | application.cpp:147-150 | an immediate command is accepted exactly when its operand parses to an index in `2..MAX_OUTPUT`; the accepted index is the parsed one, and it is within the arrays. |
| Commands.ImmediateRequestAsWritten | application.cpp:149 | the same decision with the bound `NRELAYS+2` as written: accepted exactly when the operand parses into `2..NRELAYS+2`, and the accepted index is the parsed one. |
| Commands.ImmediateAcceptsExactlyTheRange | application.cpp:147-153 | for a numeral operand, the outcome is `Some(value)` when the value is in `2..MAX_OUTPUT` and a refusal otherwise. This refuses 0, 1 and `MAX_OUTPUT+1`. |
| Commands.AsWrittenAcceptsPastArrays | application.cpp:173 | with the written bound, both adapters accept `NRELAYS+2`, an index at or past the length of both arrays. |
| Commands.TimedOperands | application.cpp:169-171 | two parses: the index at the start, then the duration at one character past the index's end. Both must succeed, and the values are the parsed ones. |
| Commands.TimedRequest | application.cpp:169-174 | a timed command is accepted exactly when both operands parse, the index is in `2..MAX_OUTPUT` and the duration exceeds 100. The accepted index is within the arrays. |
| Commands.TimedRequestAsWritten | application.cpp:173-174 | the same decision with the bound `NRELAYS+2` as written: accepted exactly when both operands parse, the index is in `2..NRELAYS+2` and the duration exceeds 100, and the accepted pair is the parsed one. |
| Commands.TimedOperandsOfNumerals | application.cpp:171 | `<index><c><duration>` reads as the two values for any non-digit `c`: the skipped character is never checked. |
| Commands.TimedAcceptsExactly | application.cpp:169-176 | for numeral operands, a timed command is accepted with exactly those values when the index is in range and the duration exceeds 100, and refused otherwise. |
| Commands.TimedRefusesMissingDuration | application.cpp:171 | a timed command whose path ends after the index, or one character later, is refused. |
| Commands.TimedCommandThenTicks | application.cpp:176-180 | an accepted `<index>/<duration>` keeps the primitive's level for `duration/100 - 1` ticks, counting down by 100 per tick, then flips once and stops. |
| Commands.InputRequest | application.cpp:104-106 | an input index is accepted exactly when the operand at `end` parses into `MIN_INPUT..MAX_INPUT`, and the accepted index is the parsed value. |
| Commands.InputAcceptsExactlyTheRange | application.cpp:104-106 | for a numeral operand followed by a non-digit or the end, the input index is accepted with the numeral's value exactly when that value is in `MIN_INPUT..MAX_INPUT`, and refused otherwise. |
| Commands.GetInputBody | application.cpp:104-124 | the body is `?` exactly when the index is refused, and `1` or `0` exactly when it is accepted and the input reads high or low. |
| Numeric.ParseNumeric | application.cpp:147 | the stand-in parser returns the value of the maximal digit run at `pos` and the position after it. It fails exactly when there is no digit at `pos` or the value exceeds `INT32_MAX`. |
| Numeric.ParseNumeral | application.cpp:169 | a numeral followed by a non-digit or by the end of the path is read as its value and consumed exactly. |
| Numeric.ParseDecimal | application.cpp:171 | the decimal spelling of any `v <= INT32_MAX` is read back as `v` (round trip). |

## Left out

- The HTTP layer is not modelled: `HTTPGetServer`, `handle_req`'s routing over
  `s_handlers`, the response code and headers (`send_standard_erm_response`),
  `ethernet_packet_handler` and `ethernet_response_provider`. This is networking
  code outside the core. The six output routes are the datatype `OutputRoute`,
  and a response is its body string.
- `raat_parse_single_numeric` comes from a library that is not part of this
  model. `Numeric.ParseNumeric` is a stand-in. It reads at least one leading
  decimal digit, takes an out-of-range `int32_t` value as a failure and takes a
  start position at or past the end of the path as a failure. It does not model
  signs, leading whitespace, other bases, or reading past the terminating NUL.
- `Numeric.ParseNumeric`: the library may also accept a sign; the stand-in
  refuses any operand that starts with `+` or `-`. On the output routes `-`
  changes no accepted command: a negative index or `-0` fails the range check,
  and a negative duration or `-0` fails `timeout > 100`. On `/input/get` it can:
  `-0` reads as 0, which `Commands.InputRequest` accepts when `MIN_INPUT <= 0`. For `+` it does: a library that reads
  `+3` as 3 would accept `/output/set/+3` (`do_set(3)`, body `OK`) and
  `/output/timedset/3/+500`, while the model refuses both with `?`.
- `get_input` hands the parser `end` itself, while the output wrappers hand it
  `end + 1`. `Commands.InputRequest` takes the position as written. Whether
  `/input/get/3` then parses depends on the library parser, so the model makes no
  claim about it.
- `digitalWrite` is the ghost sequence `pins`, and `digitalRead(A0 + pin)` is the
  function parameter `high` of `Commands.GetInputBody`. `pinMode` and the two
  setup loops that call it only configure hardware, and are not modelled.
- `Outputs.MIN_OUTPUT` is taken as 2. application.cpp uses it (:257, :278) but
  does not define it. The value 2 matches the adapters' literal `>= 2` (:149,
  :173) and the comment at :44 on the unused slots 0 and 1. A different
  configured value would change the tick's sweep (`Outputs.Ticked`,
  `Application.Controller.TimeoutTask`) and the corrected range
  `Commands.AcceptedOutput`.
- `MIN_INPUT`, `MAX_INPUT` and `DEFAULT_ON` come from build configuration. They
  are parameters of `Commands.InputRequest` and `Application.Controller.CustomSetup`.
- `Application.Controller.CustomSetup` requires every `DEFAULT_ON` entry to be a
  slot of the arrays. The C code does not check this; an out-of-range
  configuration would write out of bounds.
- `RAATTask` scheduling and `s_timeout_task.run()` are not modelled. The tick is
  the method `Application.Controller.TimeoutTask`, which a caller invokes once per
  period. There is no clock and no concurrency.
- Logging through `raat_logln_P` and the `PROGMEM` route strings have no effect on
  the state and are not modelled.
- The `uint8_t` counters of the tick and setup loops are mathematical integers.
  All their values (at most `NRELAYS+2` and the length of `DEFAULT_ON`) fit in
  eight bits.
- `Application.Controller.TimeoutTask` subtracts 100 from an `int32_t` that the
  guard keeps positive. No wrap-around can occur, so none is modelled.
- The timer invariant `WellTimed` (an active timer holds a positive multiple of
  100) is proved to be preserved by `Outputs.Applied`, `Outputs.Armed` (for
  `d >= 100`), `Outputs.Ticked` and `Outputs.InitialBoard`. It is not part of
  `Controller.Valid()`, because `start_timeout` has no guard of its own on the
  duration.

The written range check disagrees with the rest of the source. `MAX_OUTPUT` is
`NRELAYS+1` (application.cpp:40), and both arrays have `NRELAYS+2` slots
(application.cpp:42 and :48), so the last slot is `MAX_OUTPUT`. The check itself
accepts `2..NRELAYS+2`, one more. The model keeps the check as written in
`Commands.ImmediateRequestAsWritten` and `Commands.TimedRequestAsWritten`. The
controller uses the range the arrays allow, as explained below.

## Findings

| source | as written | input that shows it | evidently intended | confidence | as-written member | corrected member |
|---|---|---|---|---|---|---|
| application.cpp:149 | `output_pin >= 2 && output_pin <= NRELAYS+2` | `NRELAYS = 4`, request `/output/set/6`: index 6 passes, and `do_set(6)` writes `s_output_states[6]` and `s_timeouts[6]` of 6-slot arrays | `output_pin <= MAX_OUTPUT` (`NRELAYS+1`), the last slot of both arrays | not executed | Commands.AsWrittenAcceptsPastArrays | Commands.ImmediateRequest |
| application.cpp:173 | `output_pin >= 2 && output_pin <= NRELAYS+2` | `NRELAYS = 4`, request `/output/timedset/6/200`: index 6 passes, and the primitive and `start_timeout` write past both arrays | `output_pin <= MAX_OUTPUT` (`NRELAYS+1`) | not executed | Commands.AsWrittenAcceptsPastArrays | Commands.TimedRequest |

`Commands.AsWrittenAcceptsPastArrays` proves that, with the written bound, both
adapters accept `NRELAYS+2`, and that this index is not a slot of either array. The
handlers of `Application.Controller` therefore use `Commands.ImmediateRequest` and
`Commands.TimedRequest`. Those ensure that every accepted index is within the
arrays, and `Commands.AcceptedOutputWithinArrays` proves the corrected range is
the written one less exactly the out-of-bounds index.
