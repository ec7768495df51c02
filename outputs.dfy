/** The relay outputs and their timeouts as values.

    A `Board` is the content of the two global arrays `s_output_states` and
    `s_timeouts` of application.cpp.  The functions here say what each operation
    of the state machine does to a board; the class in application.dfy runs the
    same operations in place on arrays and is proved to agree with them. */
module Outputs {
  import opened Numeric

  /** Lowest output index; slots 0 and 1 of both arrays exist only so that
      output `i` lives at index `i`. */
  const MIN_OUTPUT: nat := 2

  /** The scheduler period in milliseconds, and the granularity of stored timeouts. */
  const TICK_MS: nat := 100

  /** The build configurations the source admits for `NRELAYS`. */
  predicate ValidRelayCount(nrelays: nat) { nrelays == 2 || nrelays == 4 || nrelays == 8 }

  /** `MAX_OUTPUT`, the highest output index. */
  function MaxOutput(nrelays: nat): nat { nrelays + 1 }

  /** The number of slots in each state array, `NRELAYS+2`. */
  function SlotCount(nrelays: nat): nat { nrelays + 2 }

  /** The indices the scheduler tick sweeps, `MIN_OUTPUT..MAX_OUTPUT`. */
  predicate InSweep(nrelays: nat, k: int) { MIN_OUTPUT <= k <= MaxOutput(nrelays) }

  /** One entry of `s_timeouts`: the time left, in milliseconds, and whether it counts down. */
  datatype Timeout = Timeout(time: Int32, active: bool)

  /** One output with its timeout. */
  datatype Slot = Slot(on: bool, timer: Timeout)

  /** The contents of `s_output_states` and `s_timeouts`. */
  datatype Board = Board(outputs: seq<bool>, timeouts: seq<Timeout>)

  predicate Shaped(b: Board) { |b.outputs| == |b.timeouts| }

  predicate Sized(b: Board, nrelays: nat)
  {
    |b.outputs| == SlotCount(nrelays) && |b.timeouts| == SlotCount(nrelays)
  }

  /** An active timer holds a positive multiple of the tick period. */
  predicate TimerWellFormed(t: Timeout)
  {
    t.active ==> t.time > 0 && t.time % TICK_MS as int == 0
  }

  predicate WellTimed(b: Board)
  {
    forall k :: 0 <= k < |b.timeouts| ==> TimerWellFormed(b.timeouts[k])
  }

  function SlotAt(b: Board, k: nat): Slot
    requires Shaped(b) && k < |b.outputs|
  {
    Slot(b.outputs[k], b.timeouts[k])
  }

  function WithSlot(b: Board, k: nat, s: Slot): (r: Board)
    requires Shaped(b) && k < |b.outputs|
    ensures Shaped(r) && |r.outputs| == |b.outputs|
    ensures SlotAt(r, k) == s
    ensures forall j :: 0 <= j < |b.outputs| && j != k ==> SlotAt(r, j) == SlotAt(b, j)
  {
    Board(b.outputs[k := s.on], b.timeouts[k := s.timer])
  }

  /** Boards of the same size that agree slot by slot are equal. */
  lemma BoardsEqual(b: Board, c: Board)
    requires Shaped(b) && Shaped(c) && |b.outputs| == |c.outputs|
    requires forall k :: 0 <= k < |b.outputs| ==> SlotAt(b, k) == SlotAt(c, k)
    ensures b == c
  {
    assert forall k :: 0 <= k < |b.outputs| ==> b.outputs[k] == SlotAt(b, k).on == SlotAt(c, k).on;
    assert forall k :: 0 <= k < |b.outputs| ==> b.timeouts[k] == SlotAt(b, k).timer == c.timeouts[k];
  }

  /** The initial contents: every output clear, every timer `{0, false}`. */
  function InitialBoard(nrelays: nat): (b: Board)
    ensures Sized(b, nrelays) && WellTimed(b)
    ensures forall k :: 0 <= k < SlotCount(nrelays) ==> SlotAt(b, k) == Slot(false, Timeout(0, false))
  {
    Board(seq(SlotCount(nrelays), _ => false), seq(SlotCount(nrelays), _ => Timeout(0, false)))
  }

  /** The three primitives `do_set`, `do_toggle` and `do_clear`. */
  datatype Action = Set | Toggle | Clear

  /** The level an output has after a primitive. */
  function NextLevel(a: Action, level: bool): (r: bool)
    ensures a == Set ==> r
    ensures a == Clear ==> !r
    ensures a == Toggle ==> r != level
  {
    match a
    case Set => true
    case Toggle => !level
    case Clear => false
  }

  /** A primitive on one slot: the new level, and the timer switched off with
      its time left as it was. */
  function ApplyToSlot(s: Slot, a: Action): (r: Slot)
    ensures r.on == NextLevel(a, s.on)
    ensures !r.timer.active && r.timer.time == s.timer.time
  {
    Slot(NextLevel(a, s.on), s.timer.(active := false))
  }

  /** A primitive on output `i` of a board; no other slot changes. */
  function Applied(b: Board, a: Action, i: nat): (r: Board)
    requires Shaped(b) && i < |b.outputs|
    ensures Shaped(r) && |r.outputs| == |b.outputs|
    ensures r.outputs[i] == NextLevel(a, b.outputs[i])
    ensures r.timeouts[i] == Timeout(b.timeouts[i].time, false)
    ensures forall k :: 0 <= k < |b.outputs| && k != i ==> SlotAt(r, k) == SlotAt(b, k)
    ensures WellTimed(b) ==> WellTimed(r)
  {
    WithSlot(b, i, ApplyToSlot(SlotAt(b, i), a))
  }

  /** `(timeout / 100) * 100` with C's truncating division. */
  function Quantize(d: Int32): (r: Int32)
    ensures r % TICK_MS as int == 0
    ensures 0 <= d ==> 0 <= r <= d < r + TICK_MS
    ensures d < 0 ==> r - TICK_MS as int < d <= r <= 0
    ensures d >= TICK_MS ==> r >= TICK_MS
  {
    TruncDiv(d, TICK_MS) * TICK_MS
  }

  /** `start_timeout`: arm the timer of output `i` with the quantized duration;
      whatever timer was there before is discarded. */
  function Armed(b: Board, d: Int32, i: nat): (r: Board)
    requires Shaped(b) && i < |b.outputs|
    ensures Shaped(r) && r.outputs == b.outputs
    ensures r.timeouts[i] == Timeout(Quantize(d), true)
    ensures forall k :: 0 <= k < |b.outputs| && k != i ==> SlotAt(r, k) == SlotAt(b, k)
    ensures WellTimed(b) && d >= TICK_MS ==> WellTimed(r)
  {
    WithSlot(b, i, Slot(b.outputs[i], Timeout(Quantize(d), true)))
  }

  /** One output's part of a scheduler tick: an active timer with time left
      loses one period, and when that brings it to zero the output is toggled,
      which also switches the timer off. */
  function TickSlot(s: Slot): (r: Slot)
    ensures !(s.timer.active && s.timer.time > 0) ==> r == s
    ensures s.timer.active && s.timer.time > 0 ==> r.timer.time == s.timer.time - TICK_MS
    ensures r.on != s.on <==> s.timer.active && s.timer.time == TICK_MS
    ensures r.timer.active <==> s.timer.active && s.timer.time != TICK_MS
    ensures TimerWellFormed(s.timer) ==> TimerWellFormed(r.timer)
  {
    if s.timer.active && s.timer.time > 0 then
      var counted := Slot(s.on, s.timer.(time := s.timer.time - TICK_MS));
      if counted.timer.time == 0 then ApplyToSlot(counted, Toggle) else counted
    else s
  }

  /** `timeout_task_fn`: every output in the sweep range takes one `TickSlot`;
      slots 0 and 1 are never looked at. */
  function Ticked(b: Board, nrelays: nat): (r: Board)
    requires Sized(b, nrelays)
    ensures Sized(r, nrelays)
    ensures forall k :: 0 <= k < SlotCount(nrelays) ==>
      SlotAt(r, k) == if InSweep(nrelays, k) then TickSlot(SlotAt(b, k)) else SlotAt(b, k)
    ensures WellTimed(b) ==> WellTimed(r)
  {
    var n := SlotCount(nrelays);
    var slots := seq(n, k requires 0 <= k < n =>
      if InSweep(nrelays, k) then TickSlot(SlotAt(b, k)) else SlotAt(b, k));
    Board(seq(n, k requires 0 <= k < n => slots[k].on), seq(n, k requires 0 <= k < n => slots[k].timer))
  }

  /** The `DEFAULT_ON` loop of `raat_custom_setup`: `do_set` on each listed
      output in turn.  Listing an output sets it and stops its timer; the
      others keep their slot. */
  function SetEach(b: Board, ds: seq<nat>): (r: Board)
    requires Shaped(b) && forall j :: 0 <= j < |ds| ==> ds[j] < |b.outputs|
    ensures Shaped(r) && |r.outputs| == |b.outputs|
    ensures forall k :: 0 <= k < |b.outputs| ==>
      SlotAt(r, k) == if k in ds then Slot(true, Timeout(b.timeouts[k].time, false)) else SlotAt(b, k)
    decreases |ds|
  {
    if ds == [] then b
    else
      var prefix := ds[..|ds| - 1];
      assert forall k :: k in ds <==> k in prefix || k == ds[|ds| - 1];
      Applied(SetEach(b, prefix), Set, ds[|ds| - 1])
  }

  // ---------------------------------------------------------------------------
  // Properties of the primitives

  /** Two toggles in a row restore the output and leave its timer off. */
  lemma DoubleToggle(b: Board, i: nat)
    requires Shaped(b) && i < |b.outputs|
    ensures Applied(Applied(b, Toggle, i), Toggle, i).outputs == b.outputs
    ensures Applied(Applied(b, Toggle, i), Toggle, i).timeouts[i] == Timeout(b.timeouts[i].time, false)
  {
    var r := Applied(Applied(b, Toggle, i), Toggle, i);
    assert forall k :: 0 <= k < |b.outputs| ==> r.outputs[k] == SlotAt(r, k).on;
  }

  // ---------------------------------------------------------------------------
  // Ticks in sequence

  /** A slot after `n` ticks. */
  function TickSlotN(s: Slot, n: nat): Slot
    decreases n
  {
    if n == 0 then s else TickSlotN(TickSlot(s), n - 1)
  }

  /** A board after `n` ticks. */
  function TickedN(b: Board, nrelays: nat, n: nat): (r: Board)
    requires Sized(b, nrelays)
    ensures Sized(r, nrelays)
    decreases n
  {
    if n == 0 then b else TickedN(Ticked(b, nrelays), nrelays, n - 1)
  }

  /** Over several ticks every output of the sweep evolves on its own, and the
      others never change. */
  lemma {:induction false} TickedNAt(b: Board, nrelays: nat, n: nat, k: nat)
    requires Sized(b, nrelays) && k < SlotCount(nrelays)
    ensures SlotAt(TickedN(b, nrelays, n), k) ==
      if InSweep(nrelays, k) then TickSlotN(SlotAt(b, k), n) else SlotAt(b, k)
    decreases n
  {
    if n > 0 {
      TickedNAt(Ticked(b, nrelays), nrelays, n - 1, k);
    }
  }

  /** Ticks change nothing about an output whose timer is off. */
  lemma {:induction false} InactiveSlotIsStill(s: Slot, n: nat)
    requires !s.timer.active
    ensures TickSlotN(s, n) == s
    decreases n
  {
    if n > 0 {
      InactiveSlotIsStill(TickSlot(s), n - 1);
    }
  }

  /** A timer holding `m` periods stays armed, counting down, for `m - 1`
      ticks, and the `m`-th tick toggles the output once and switches the timer
      off for good. */
  lemma {:induction false} CountDown(on: bool, m: nat, k: nat)
    requires 0 < m && m * TICK_MS <= INT32_MAX
    ensures k < m ==> TickSlotN(Slot(on, Timeout(m * TICK_MS, true)), k) == Slot(on, Timeout((m - k) * TICK_MS, true))
    ensures m <= k ==> TickSlotN(Slot(on, Timeout(m * TICK_MS, true)), k) == Slot(!on, Timeout(0, false))
    decreases k
  {
    if k > 0 {
      var s := Slot(on, Timeout(m * TICK_MS, true));
      if m == 1 {
        assert TickSlot(s) == Slot(!on, Timeout(0, false));
        InactiveSlotIsStill(TickSlot(s), k - 1);
      } else {
        assert TickSlot(s) == Slot(on, Timeout((m - 1) * TICK_MS, true));
        CountDown(on, m - 1, k - 1);
      }
    }
  }

  /** A timer armed with a duration `d > 100` fires exactly one toggle, after
      exactly `d / 100` ticks; until then the output keeps its level. */
  lemma ArmedTimerFires(on: bool, d: Int32, k: nat)
    requires d > TICK_MS
    ensures k < d / TICK_MS as int ==>
      TickSlotN(Slot(on, Timeout(Quantize(d), true)), k) == Slot(on, Timeout(Quantize(d) - k * TICK_MS, true))
    ensures d / TICK_MS as int <= k ==>
      TickSlotN(Slot(on, Timeout(Quantize(d), true)), k) == Slot(!on, Timeout(0, false))
  {
    var m := d / TICK_MS as int;
    assert Quantize(d) == m * TICK_MS;
    CountDown(on, m, k);
  }

  /** A direct command cancels any pending expiry: after a primitive on output
      `i`, no number of ticks changes that output again. */
  lemma DirectCommandCancelsTimer(b: Board, nrelays: nat, a: Action, i: nat, n: nat)
    requires Sized(b, nrelays) && i < SlotCount(nrelays)
    ensures SlotAt(TickedN(Applied(b, a, i), nrelays, n), i) == SlotAt(Applied(b, a, i), i)
  {
    TickedNAt(Applied(b, a, i), nrelays, n, i);
    InactiveSlotIsStill(SlotAt(Applied(b, a, i), i), n);
  }

  /** Re-arming discards the earlier timer: when a second timed command reaches
      an output `j` ticks after a first one, whether or not the first has fired
      yet, only the level it finds and the second duration decide what follows. */
  lemma RearmingDiscardsEarlierTimer(b: Board, nrelays: nat, i: nat,
                                     a1: Action, d1: Int32, j: nat, a2: Action, d2: Int32, k: nat)
    requires Sized(b, nrelays) && InSweep(nrelays, i)
    requires d1 > TICK_MS && d2 > TICK_MS
    ensures var mid := TickedN(Armed(Applied(b, a1, i), d1, i), nrelays, j);
            var level := NextLevel(a2, mid.outputs[i]);
            var after := TickedN(Armed(Applied(mid, a2, i), d2, i), nrelays, k);
            SlotAt(after, i) ==
              if k < d2 / TICK_MS as int then Slot(level, Timeout(Quantize(d2) - k * TICK_MS, true))
              else Slot(!level, Timeout(0, false))
  {
    var mid := TickedN(Armed(Applied(b, a1, i), d1, i), nrelays, j);
    var second := Armed(Applied(mid, a2, i), d2, i);
    var level := NextLevel(a2, mid.outputs[i]);
    assert SlotAt(second, i) == Slot(level, Timeout(Quantize(d2), true));
    TickedNAt(second, nrelays, k, i);
    ArmedTimerFires(level, d2, k);
  }
}
