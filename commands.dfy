/** What the command adapters decide from a request path, before any state is
    touched: which output (and duration) a command is accepted for, and which
    response body it selects.  The state change itself is in application.dfy. */
module Commands {
  import opened Numeric
  import opened Outputs

  const OK_BODY: string := "OK\r\n\r\n"
  const FAIL_BODY: string := "?\r\n\r\n"
  const HIGH_BODY: string := "1\r\n\r\n"
  const LOW_BODY: string := "0\r\n\r\n"

  /** `set_bool_response`: every failure collapses to the same `?` body. */
  function BoolResponse(success: bool): (body: string)
    ensures body == OK_BODY <==> success
    ensures body == FAIL_BODY <==> !success
  {
    if success then OK_BODY else FAIL_BODY
  }

  /** The six output routes `/output/set`, `/output/toggle`, `/output/clear`,
      `/output/timedset`, `/output/timedtoggle` and `/output/timedclear`. */
  datatype OutputRoute =
    | SetOutput | ToggleOutput | ClearOutput
    | TimedSetOutput | TimedToggleOutput | TimedClearOutput

  /** The primitive a route hands to its adapter. */
  function RouteAction(route: OutputRoute): Action
  {
    match route
    case SetOutput => Set
    case ToggleOutput => Toggle
    case ClearOutput => Clear
    case TimedSetOutput => Set
    case TimedToggleOutput => Toggle
    case TimedClearOutput => Clear
  }

  predicate IsTimed(route: OutputRoute)
  {
    route.TimedSetOutput? || route.TimedToggleOutput? || route.TimedClearOutput?
  }

  // ---------------------------------------------------------------------------
  // The output-index check

  /** The range check as the adapters write it: `output_pin >= 2 && output_pin <= NRELAYS+2`. */
  predicate AcceptedOutputAsWritten(nrelays: nat, pin: int)
  {
    2 <= pin <= nrelays + 2
  }

  /** The range the rest of the program is built for, `MIN_OUTPUT..MAX_OUTPUT`. */
  predicate AcceptedOutput(nrelays: nat, pin: int)
  {
    MIN_OUTPUT <= pin <= MaxOutput(nrelays)
  }

  /** The intended check accepts exactly the indices the written one accepts,
      less the one that lies past the end of both arrays. */
  lemma AcceptedOutputWithinArrays(nrelays: nat, pin: int)
    ensures AcceptedOutput(nrelays, pin) <==> AcceptedOutputAsWritten(nrelays, pin) && pin < SlotCount(nrelays)
    ensures AcceptedOutput(nrelays, pin) ==> 0 <= pin < SlotCount(nrelays)
  {
  }

  // ---------------------------------------------------------------------------
  // nontimed_output_handler: one operand

  /** The output index an immediate command is accepted for, if any: the operand
      at `start` must parse and lie in the output range. */
  function ImmediateRequest(path: string, start: nat, nrelays: nat): (r: Option<nat>)
    ensures r.Some? ==> AcceptedOutput(nrelays, r.value) && r.value < SlotCount(nrelays)
    ensures r.Some? <==>
      ParseNumeric(path, start).Some? && AcceptedOutput(nrelays, ParseNumeric(path, start).value.value)
    ensures r.Some? ==> r.value == ParseNumeric(path, start).value.value
  {
    match ParseNumeric(path, start)
    case None => None
    case Some(p) => if AcceptedOutput(nrelays, p.value) then Some(p.value as nat) else None
  }

  /** The same decision with the range check as written. */
  function ImmediateRequestAsWritten(path: string, start: nat, nrelays: nat): (r: Option<nat>)
    ensures r.Some? ==> AcceptedOutputAsWritten(nrelays, r.value)
    ensures r.Some? <==>
      ParseNumeric(path, start).Some? && AcceptedOutputAsWritten(nrelays, ParseNumeric(path, start).value.value)
    ensures r.Some? ==> r.value == ParseNumeric(path, start).value.value
  {
    match ParseNumeric(path, start)
    case None => None
    case Some(p) => if AcceptedOutputAsWritten(nrelays, p.value) then Some(p.value as nat) else None
  }

  /** An immediate command whose operand is a numeral is accepted exactly when
      its value is in `2..MAX_OUTPUT`; the outputs `0`, `1` and `MAX_OUTPUT+1`
      are refused. */
  lemma ImmediateAcceptsExactlyTheRange(pre: string, index: string, post: string, nrelays: nat)
    requires Numeral(index) && NumeralValue(index) <= INT32_MAX
    requires post == [] || !IsDigit(post[0])
    ensures ImmediateRequest(pre + index + post, |pre|, nrelays) ==
      if MIN_OUTPUT <= NumeralValue(index) <= MaxOutput(nrelays) then Some(NumeralValue(index)) else None
  {
    ParseNumeral(pre, index, post);
  }

  /** The written check lets through `NRELAYS+2`, an index one past the last
      slot of `s_output_states` and `s_timeouts`, on both adapters. */
  lemma AsWrittenAcceptsPastArrays(nrelays: nat, index: string, duration: string)
    requires ValidRelayCount(nrelays)
    requires Numeral(index) && NumeralValue(index) == nrelays + 2
    requires Numeral(duration) && TICK_MS < NumeralValue(duration) <= INT32_MAX
    ensures ImmediateRequestAsWritten(index, 0, nrelays) == Some(nrelays + 2)
    ensures TimedRequestAsWritten(index + "/" + duration, 0, nrelays)
            == Some(TimedArgs(nrelays + 2, NumeralValue(duration)))
    ensures nrelays + 2 >= SlotCount(nrelays)
  {
    ParseNumeral([], index, []);
    assert [] + index + [] == index;
    TimedOperandsOfNumerals([], index, '/', duration, []);
    assert [] + index + ['/'] + duration + [] == index + "/" + duration;
  }

  // ---------------------------------------------------------------------------
  // timed_output_handler: an index, one skipped character, a duration

  datatype TimedArgs = TimedArgs(pin: nat, timeout: Int32)

  /** Both operands of a timed command: the index at `start`, then the duration
      one character after the index ends (that character is skipped unread). */
  function TimedOperands(path: string, start: nat): (r: Option<TimedArgs>)
    ensures r.Some? <==>
      ParseNumeric(path, start).Some? && ParseNumeric(path, ParseNumeric(path, start).value.end + 1).Some?
    ensures r.Some? ==>
      r.value.pin == ParseNumeric(path, start).value.value
      && r.value.timeout == ParseNumeric(path, ParseNumeric(path, start).value.end + 1).value.value
  {
    match ParseNumeric(path, start)
    case None => None
    case Some(p) =>
      match ParseNumeric(path, p.end + 1)
      case None => None
      case Some(q) => Some(TimedArgs(p.value as nat, q.value))
  }

  /** The output and duration a timed command is accepted for, if any: both
      operands parse, the index is in the output range and the duration is
      over 100 ms. */
  function TimedRequest(path: string, start: nat, nrelays: nat): (r: Option<TimedArgs>)
    ensures r.Some? ==> AcceptedOutput(nrelays, r.value.pin) && r.value.pin < SlotCount(nrelays)
    ensures r.Some? ==> r.value.timeout > TICK_MS as int
    ensures r.Some? <==>
      TimedOperands(path, start).Some?
      && AcceptedOutput(nrelays, TimedOperands(path, start).value.pin)
      && TimedOperands(path, start).value.timeout > TICK_MS as int
    ensures r.Some? ==> r == TimedOperands(path, start)
  {
    match TimedOperands(path, start)
    case None => None
    case Some(args) =>
      if AcceptedOutput(nrelays, args.pin) && args.timeout > TICK_MS as int then Some(args) else None
  }

  /** The same decision with the range check as written. */
  function TimedRequestAsWritten(path: string, start: nat, nrelays: nat): (r: Option<TimedArgs>)
    ensures r.Some? ==> AcceptedOutputAsWritten(nrelays, r.value.pin) && r.value.timeout > TICK_MS as int
    ensures r.Some? <==>
      TimedOperands(path, start).Some?
      && AcceptedOutputAsWritten(nrelays, TimedOperands(path, start).value.pin)
      && TimedOperands(path, start).value.timeout > TICK_MS as int
    ensures r.Some? ==> r == TimedOperands(path, start)
  {
    match TimedOperands(path, start)
    case None => None
    case Some(args) =>
      if AcceptedOutputAsWritten(nrelays, args.pin) && args.timeout > TICK_MS as int then Some(args) else None
  }

  /** `<index><sep><duration>` is read as the pair of their values whatever
      non-digit `sep` is: the separator is never checked to be `/`. */
  lemma TimedOperandsOfNumerals(pre: string, index: string, sep: char, duration: string, post: string)
    requires Numeral(index) && NumeralValue(index) <= INT32_MAX
    requires Numeral(duration) && NumeralValue(duration) <= INT32_MAX
    requires !IsDigit(sep)
    requires post == [] || !IsDigit(post[0])
    ensures TimedOperands(pre + index + [sep] + duration + post, |pre|)
            == Some(TimedArgs(NumeralValue(index), NumeralValue(duration)))
  {
    var path := pre + index + [sep] + duration + post;
    ParseNumeral(pre + index + [sep], duration, post);
    ParseNumeral(pre, index, [sep] + duration + post);
    assert pre + index + ([sep] + duration + post) == path;
  }

  /** Hence a timed command is accepted exactly when the index is in the output
      range and the duration exceeds 100 ms. */
  lemma TimedAcceptsExactly(pre: string, index: string, sep: char, duration: string, post: string, nrelays: nat)
    requires Numeral(index) && NumeralValue(index) <= INT32_MAX
    requires Numeral(duration) && NumeralValue(duration) <= INT32_MAX
    requires !IsDigit(sep)
    requires post == [] || !IsDigit(post[0])
    ensures TimedRequest(pre + index + [sep] + duration + post, |pre|, nrelays) ==
      if AcceptedOutput(nrelays, NumeralValue(index)) && NumeralValue(duration) > TICK_MS
      then Some(TimedArgs(NumeralValue(index), NumeralValue(duration)))
      else None
  {
    TimedOperandsOfNumerals(pre, index, sep, duration, post);
  }

  /** A timed command whose duration is missing, because the path ends right
      after the index or right after the character that follows it, is refused. */
  lemma TimedRefusesMissingDuration(pre: string, index: string, sep: char, nrelays: nat)
    requires Numeral(index) && NumeralValue(index) <= INT32_MAX
    requires !IsDigit(sep)
    ensures TimedRequest(pre + index, |pre|, nrelays).None?
    ensures TimedRequest(pre + index + [sep], |pre|, nrelays).None?
  {
    ParseNumeral(pre, index, []);
    assert pre + index + [] == pre + index;
    ParseNumeral(pre, index, [sep]);
  }

  /** A whole timed command: `<index>/<duration>` with both operands in range
      applies the primitive at once, and `k` ticks later the output still holds
      that level with `k` periods gone from its timer, until the `d / 100`-th
      tick toggles it back and leaves the timer off. */
  lemma TimedCommandThenTicks(b: Board, nrelays: nat, pre: string, index: string, duration: string,
                              a: Action, k: nat)
    requires ValidRelayCount(nrelays) && Sized(b, nrelays)
    requires Numeral(index) && AcceptedOutput(nrelays, NumeralValue(index))
    requires Numeral(duration) && TICK_MS < NumeralValue(duration) <= INT32_MAX
    ensures TimedRequest(pre + index + "/" + duration, |pre|, nrelays)
            == Some(TimedArgs(NumeralValue(index), NumeralValue(duration)))
    ensures var i, d := NumeralValue(index), NumeralValue(duration);
            var level := NextLevel(a, b.outputs[i]);
            SlotAt(TickedN(Armed(Applied(b, a, i), d, i), nrelays, k), i) ==
              if k < d / TICK_MS as int then Slot(level, Timeout(Quantize(d) - k * TICK_MS, true))
              else Slot(!level, Timeout(0, false))
  {
    TimedAcceptsExactly(pre, index, '/', duration, [], nrelays);
    assert pre + index + ['/'] + duration + [] == pre + index + "/" + duration;
    var i, d := NumeralValue(index), NumeralValue(duration);
    var armed := Armed(Applied(b, a, i), d, i);
    assert SlotAt(armed, i) == Slot(NextLevel(a, b.outputs[i]), Timeout(Quantize(d), true));
    TickedNAt(armed, nrelays, k, i);
    ArmedTimerFires(NextLevel(a, b.outputs[i]), d, k);
  }

  // ---------------------------------------------------------------------------
  // get_input

  /** The input index `get_input` accepts, if any: the operand at `end` parses
      and lies in `MIN_INPUT..MAX_INPUT`. */
  function InputRequest(path: string, end: nat, minInput: int, maxInput: int): (r: Option<int>)
    ensures r.Some? ==> minInput <= r.value <= maxInput
    ensures r.Some? <==>
      ParseNumeric(path, end).Some? && minInput <= ParseNumeric(path, end).value.value <= maxInput
    ensures r.Some? ==> r.value == ParseNumeric(path, end).value.value
  {
    match ParseNumeric(path, end)
    case None => None
    case Some(p) => if minInput <= p.value <= maxInput then Some(p.value as int) else None
  }

  /** An input index given as a numeral is accepted exactly when its value is
      in `MIN_INPUT..MAX_INPUT`, and is then read as that value. */
  lemma InputAcceptsExactlyTheRange(pre: string, ds: string, post: string, minInput: int, maxInput: int)
    requires Numeral(ds) && NumeralValue(ds) <= INT32_MAX
    requires post == [] || !IsDigit(post[0])
    ensures InputRequest(pre + ds + post, |pre|, minInput, maxInput) ==
      if minInput <= NumeralValue(ds) <= maxInput then Some(NumeralValue(ds)) else None
  {
    ParseNumeral(pre, ds, post);
  }

  /** The body `get_input` sends: `1` or `0` for the live level of an accepted
      input (`high` stands for `digitalRead(A0 + pin) == HIGH`), `?` otherwise. */
  function GetInputBody(path: string, end: nat, minInput: int, maxInput: int, high: int -> bool): (body: string)
    ensures body == FAIL_BODY <==> InputRequest(path, end, minInput, maxInput).None?
    ensures body == HIGH_BODY <==>
      InputRequest(path, end, minInput, maxInput).Some? && high(InputRequest(path, end, minInput, maxInput).value)
    ensures body == LOW_BODY <==>
      InputRequest(path, end, minInput, maxInput).Some? && !high(InputRequest(path, end, minInput, maxInput).value)
  {
    match InputRequest(path, end, minInput, maxInput)
    case None => FAIL_BODY
    case Some(pin) => if high(pin) then HIGH_BODY else LOW_BODY
  }
}
