/** The relay-output state machine of application.cpp, run in place on the two
    global arrays.  Every method is proved to change the arrays exactly as the
    matching function of module Outputs changes a `Board`. */
module Application {
  import opened Numeric
  import opened Outputs
  import opened Commands

  /** The module-level state of application.cpp. */
  class Controller {
    /** The build-time `NRELAYS`. */
    const nrelays: nat
    /** `s_output_states`: the commanded level of each output. */
    const outputStates: array<bool>
    /** `s_timeouts`: the countdown of each output. */
    const timeouts: array<Timeout>
    /** The level `digitalWrite` last drove on each pin. */
    ghost var pins: seq<bool>

    /** The arrays have the configured size, and every pin shows its output's level. */
    ghost predicate Valid()
      reads this, outputStates
    {
      ValidRelayCount(nrelays)
      && outputStates.Length == SlotCount(nrelays)
      && timeouts.Length == SlotCount(nrelays)
      && pins == outputStates[..]
    }

    /** The contents of both arrays. */
    ghost function Snapshot(): (b: Board)
      reads this, outputStates, timeouts
      ensures Valid() ==> Sized(b, nrelays)
    {
      Board(outputStates[..], timeouts[..])
    }

    /** The static initialisers: every output clear, every timer `{0, false}`. */
    constructor (nrelays: nat)
      requires ValidRelayCount(nrelays)
      ensures this.nrelays == nrelays
      ensures Valid() && Snapshot() == InitialBoard(nrelays)
      ensures fresh(outputStates) && fresh(timeouts)
    {
      this.nrelays := nrelays;
      outputStates := new bool[nrelays + 2](_ => false);
      timeouts := new Timeout[nrelays + 2](_ => Timeout(0, false));
      pins := seq(nrelays + 2, _ => false);
      new;
      assert outputStates[..] == pins;
      BoardsEqual(Snapshot(), InitialBoard(nrelays));
    }

    /** `do_set`. */
    method DoSet(pin: nat)
      requires Valid() && pin < outputStates.Length
      modifies outputStates, timeouts, this`pins
      ensures Valid()
      ensures outputStates[pin] && !timeouts[pin].active
      ensures Snapshot() == Applied(old(Snapshot()), Set, pin)
    {
      outputStates[pin] := true;
      timeouts[pin] := timeouts[pin].(active := false);
      pins := pins[pin := true];
    }

    /** `do_toggle`. */
    method DoToggle(pin: nat)
      requires Valid() && pin < outputStates.Length
      modifies outputStates, timeouts, this`pins
      ensures Valid()
      ensures outputStates[pin] == !old(outputStates[pin]) && !timeouts[pin].active
      ensures Snapshot() == Applied(old(Snapshot()), Toggle, pin)
    {
      outputStates[pin] := !outputStates[pin];
      timeouts[pin] := timeouts[pin].(active := false);
      pins := pins[pin := outputStates[pin]];
    }

    /** `do_clear`. */
    method DoClear(pin: nat)
      requires Valid() && pin < outputStates.Length
      modifies outputStates, timeouts, this`pins
      ensures Valid()
      ensures !outputStates[pin] && !timeouts[pin].active
      ensures Snapshot() == Applied(old(Snapshot()), Clear, pin)
    {
      outputStates[pin] := false;
      timeouts[pin] := timeouts[pin].(active := false);
      pins := pins[pin := false];
    }

    /** The call through the `output_setter_fn` pointer. */
    method Perform(a: Action, pin: nat)
      requires Valid() && pin < outputStates.Length
      modifies outputStates, timeouts, this`pins
      ensures Valid()
      ensures Snapshot() == Applied(old(Snapshot()), a, pin)
    {
      match a
      case Set => DoSet(pin);
      case Toggle => DoToggle(pin);
      case Clear => DoClear(pin);
    }

    /** `start_timeout`: the duration is rounded toward zero to a multiple of 100 ms. */
    method StartTimeout(timeout: Int32, pin: nat)
      requires Valid() && pin < outputStates.Length
      modifies timeouts
      ensures Valid()
      ensures timeouts[pin] == Timeout(Quantize(timeout), true)
      ensures Snapshot() == Armed(old(Snapshot()), timeout, pin)
    {
      timeouts[pin] := timeouts[pin].(time := Quantize(timeout));
      timeouts[pin] := timeouts[pin].(active := true);
    }

    /** `nontimed_output_handler`: parse the index at `start`, check its range,
        and only then apply the primitive.  The range check here is the one
        the arrays allow, `2..MAX_OUTPUT`; README's Findings explains why it
        differs from the written `NRELAYS+2`. */
    method NontimedOutputHandler(path: string, start: nat, a: Action) returns (body: string)
      requires Valid()
      modifies outputStates, timeouts, this`pins
      ensures Valid()
      ensures match ImmediateRequest(path, start, nrelays)
        case None => Snapshot() == old(Snapshot()) && body == FAIL_BODY
        case Some(pin) => Snapshot() == Applied(old(Snapshot()), a, pin) && body == OK_BODY
    {
      var success := false;
      var parsed := ParseNumeric(path, start);
      success := parsed.Some?;
      if success {
        var outputPin := parsed.value.value;
        success := outputPin >= MIN_OUTPUT && outputPin <= MaxOutput(nrelays);
        if success {
          Perform(a, outputPin);
        }
      }
      body := BoolResponse(success);
    }

    /** `timed_output_handler`: parse the index, skip one character, parse the
        duration, check the index range and `timeout > 100`; only when all of
        that holds apply the primitive and then arm the timer. */
    method TimedOutputHandler(path: string, start: nat, a: Action) returns (body: string)
      requires Valid()
      modifies outputStates, timeouts, this`pins
      ensures Valid()
      ensures match TimedRequest(path, start, nrelays)
        case None => Snapshot() == old(Snapshot()) && body == FAIL_BODY
        case Some(args) =>
          Snapshot() == Armed(Applied(old(Snapshot()), a, args.pin), args.timeout, args.pin)
          && body == OK_BODY
    {
      var success := false;
      var parsedPin := ParseNumeric(path, start);
      success := parsedPin.Some?;
      if success {
        var parsedTime := ParseNumeric(path, parsedPin.value.end + 1);
        success := parsedTime.Some?;
        if success {
          var outputPin := parsedPin.value.value;
          var timeout := parsedTime.value.value;
          success := outputPin >= MIN_OUTPUT && outputPin <= MaxOutput(nrelays);
          success := success && timeout > TICK_MS as int;
          if success {
            Perform(a, outputPin);
            StartTimeout(timeout, outputPin);
          }
        }
      }
      body := BoolResponse(success);
    }

    /** The `set_output` ... `timed_clear_output` wrappers: each hands the
        character after the matched prefix's end (`end + 1`) to its adapter. */
    method HandleOutputRoute(route: OutputRoute, path: string, end: nat) returns (body: string)
      requires Valid()
      modifies outputStates, timeouts, this`pins
      ensures Valid()
      ensures IsTimed(route) ==> match TimedRequest(path, end + 1, nrelays)
        case None => Snapshot() == old(Snapshot()) && body == FAIL_BODY
        case Some(args) =>
          Snapshot() == Armed(Applied(old(Snapshot()), RouteAction(route), args.pin), args.timeout, args.pin)
          && body == OK_BODY
      ensures !IsTimed(route) ==> match ImmediateRequest(path, end + 1, nrelays)
        case None => Snapshot() == old(Snapshot()) && body == FAIL_BODY
        case Some(pin) => Snapshot() == Applied(old(Snapshot()), RouteAction(route), pin) && body == OK_BODY
    {
      if IsTimed(route) {
        body := TimedOutputHandler(path, end + 1, RouteAction(route));
      } else {
        body := NontimedOutputHandler(path, end + 1, RouteAction(route));
      }
    }

    /** `timeout_task_fn`, one scheduler tick: for each output of the sweep, an
        active timer with time left loses 100 ms and, on reaching zero, the
        output is toggled. */
    method TimeoutTask()
      requires Valid()
      modifies outputStates, timeouts, this`pins
      ensures Valid()
      ensures Snapshot() == Ticked(old(Snapshot()), nrelays)
    {
      ghost var before := Snapshot();
      var output := MIN_OUTPUT;
      while output <= MaxOutput(nrelays)
        invariant MIN_OUTPUT <= output <= MaxOutput(nrelays) + 1
        invariant Valid()
        invariant forall k :: 0 <= k < SlotCount(nrelays) ==>
          SlotAt(Snapshot(), k) == if MIN_OUTPUT <= k < output then TickSlot(SlotAt(before, k)) else SlotAt(before, k)
      {
        if timeouts[output].active && timeouts[output].time > 0 {
          timeouts[output] := timeouts[output].(time := timeouts[output].time - TICK_MS);
          if timeouts[output].time == 0 {
            DoToggle(output);
          }
        }
        output := output + 1;
      }
      BoardsEqual(Snapshot(), Ticked(before, nrelays));
    }

    /** The `DEFAULT_ON` loop of `raat_custom_setup`: `do_set` on each listed output. */
    method CustomSetup(defaultOn: seq<nat>)
      requires Valid()
      requires forall j :: 0 <= j < |defaultOn| ==> defaultOn[j] < outputStates.Length
      modifies outputStates, timeouts, this`pins
      ensures Valid()
      ensures Snapshot() == SetEach(old(Snapshot()), defaultOn)
    {
      var i := 0;
      while i < |defaultOn|
        invariant 0 <= i <= |defaultOn|
        invariant Valid()
        invariant Snapshot() == SetEach(old(Snapshot()), defaultOn[..i])
      {
        DoSet(defaultOn[i]);
        assert defaultOn[..i + 1][..i] == defaultOn[..i];
        i := i + 1;
      }
      assert defaultOn[..i] == defaultOn;
    }
  }
}
