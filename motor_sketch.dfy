/**
  The motor sketch (main.cpp): `forward` drives the H-bridge from a signed
  speed, the interrupt handler `counter` counts encoder edges debounced against
  the loop's own timestamp `t1`, and the loop drains the counter every
  `1000 / freq_for_RPM` ms into a pulse total and an RPM reading. The globals
  are the fields of `Sketch`.
 */
module MotorSketch {
  import opened U32
  import opened Optional

  /** Readings per second. */
  const FreqForRpm: nat := 20
  /** `1000/freq_for_RPM` in C++ integer division. */
  const SampleIntervalMs: nat := 1000 / FreqForRpm
  /** The encoder disc's edges per revolution, the 64.0 of the RPM formula. */
  const PulsesPerRev: nat := 64
  /** `counter` ignores an edge unless the loop clock moved more than this since the last counted one. */
  const DebounceMs: nat := 1

  datatype Level = Low | High

  /** The levels written to IN1 and IN2 and the duty written to ENA. */
  datatype Drive = Drive(in1: Level, in2: Level, duty: int)

  /** The signed speed a drive setting stands for: positive when IN1 is high. */
  function SignedSpeed(d: Drive): int {
    if d.in1 == High then d.duty else -d.duty
  }

  /** `forward`: one direction pin high, the other low, and a non-negative duty. */
  function Forward(rightSpeed: int32): (d: Drive)
    ensures d.in1 != d.in2
    ensures d.duty >= 0
    ensures d.in1 == High <==> rightSpeed > 0
    ensures SignedSpeed(d) == rightSpeed
  {
    if rightSpeed > 0 then Drive(High, Low, rightSpeed) else Drive(Low, High, -(rightSpeed as int))
  }

  /** `counter`'s test, on the loop time `t1` and the time `t2` of the last counted edge. */
  predicate EdgeCounted(t1: u32, t2: u32) {
    Sub(t1, t2) > DebounceMs
  }

  /** `((60*freq_for_RPM)/64.0)*(double)pulses`. */
  function Rpm(pulses: int): (r: real)
    ensures r == 0.0 <==> pulses == 0
    ensures (r > 0.0 <==> pulses > 0) && (r < 0.0 <==> pulses < 0)
  {
    ((60 * FreqForRpm) as real / PulsesPerRev as real) * pulses as real
  }

  /** What the loop prints for one window: the snapshot, the running total and the RPM. */
  datatype Sample = Sample(pulses: int32, pulse: u32, rpm: real)

  /** At 20 readings per second a window is 50 ms and each pulse is 18.75 RPM. */
  lemma SampleConstants(pulses: int)
    ensures SampleIntervalMs == 50
    ensures Rpm(pulses) == 18.75 * pulses as real
  {
  }

  /** The formula is revolutions per window times windows per minute. */
  lemma RpmIsRevolutionsPerMinute(pulses: int)
    ensures Rpm(pulses) == (pulses as real / PulsesPerRev as real) * (60000 / SampleIntervalMs) as real
  {
  }

  /** The debounce test on raw clock values: a gap of exactly 1 ms is rejected, 2 ms counts. */
  lemma EdgeCountedBoundary(t2: u32)
    ensures !EdgeCounted(t2, t2)
    ensures !EdgeCounted(Add(t2, DebounceMs), t2)
    ensures EdgeCounted(Add(t2, DebounceMs + 1), t2)
  {
    SubOfAdd(t2, 0);
    SubOfAdd(t2, DebounceMs);
    SubOfAdd(t2, DebounceMs + 1);
  }

  class Sketch {
    var count: u32
    var t1: u32
    var t2: u32
    var t3: u32
    var pulses: int32
    var pulse: u32
    /** Edges counted since the last snapshot. */
    ghost var pending: nat
    /** The sum of all snapshots, as `unsigned long` values. */
    ghost var reported: nat

    ghost predicate Valid()
      reads this
    {
      count == pending % Modulus && pulse == reported % Modulus
    }

    /** The static initialisers: `t1`, `t2` and `t3` start at the same `millis()` reading `boot`. */
    constructor (boot: u32)
      ensures Valid()
      ensures count == 0 && t1 == boot && t2 == boot && t3 == boot && pulses == 0 && pulse == 0
      ensures pending == 0 && reported == 0
    {
      count := 0;
      t1, t2, t3 := boot, boot, boot;
      pulses := 0;
      pulse := 0;
      pending := 0;
      reported := 0;
    }

    /** `setup`'s `t1 = millis()`; pin, interrupt and serial set-up are not modelled. */
    method Setup(now: u32)
      requires Valid()
      modifies this`t1
      ensures Valid() && t1 == now
    {
      t1 := now;
    }

    /** The interrupt handler `counter`, run on a rising edge; it reads the loop's `t1`, not the clock. */
    method Counter()
      requires Valid()
      modifies this
      ensures Valid()
      ensures EdgeCounted(old(t1), old(t2)) ==>
        count == Inc(old(count)) && t2 == t1 && pending == old(pending) + 1
      ensures !EdgeCounted(old(t1), old(t2)) ==>
        count == old(count) && t2 == old(t2) && pending == old(pending)
      // until the loop moves t1 on, no further edge is counted
      ensures !EdgeCounted(t1, t2)
      ensures t1 == old(t1) && t3 == old(t3) && pulses == old(pulses) && pulse == old(pulse)
      ensures reported == old(reported)
    {
      if Sub(t1, t2) > DebounceMs {
        count := Inc(count);
        t2 := t1;
        pending := pending + 1;
        IncMod(pending - 1);
        SubOfAdd(t1, 0);
      }
    }

    /**
      One pass of `loop` at time `now`; `speed` is the potentiometer reading
      after `map`. The result is the drive `forward` applies and, when the
      window closed, what the loop prints.
     */
    method Loop(speed: int32, now: u32) returns (drive: Drive, sample: Option<Sample>)
      requires Valid()
      modifies this
      ensures Valid()
      ensures drive == Forward(speed)
      ensures t1 == now && t2 == old(t2)
      ensures sample.Some? <==> Sub(now, old(t3)) >= SampleIntervalMs
      ensures sample.None? ==>
        count == old(count) && t3 == old(t3) && pulses == old(pulses) && pulse == old(pulse) &&
        pending == old(pending) && reported == old(reported)
      ensures sample.Some? ==>
        t3 == now && count == 0 && pending == 0 &&
        pulses == ToInt32(old(count)) &&
        pulse == Add(old(pulse), old(count)) &&
        reported == old(reported) + old(count) &&
        sample.value == Sample(pulses, pulse, Rpm(pulses))
    {
      drive := Forward(speed);
      t1 := now;
      if Sub(t1, t3) >= SampleIntervalMs {
        t3 := t1;
        // the critical section between noInterrupts() and interrupts()
        pulses := ToInt32(count);
        count := 0;
        pending := 0;
        AddMod(reported, ToU32(pulses));
        pulse := Add(pulse, ToU32(pulses));
        reported := reported + ToU32(pulses);
        sample := Some(Sample(pulses, pulse, Rpm(pulses)));
      } else {
        sample := None;
      }
    }
  }

  /**
    Because `counter` compares the loop's `t1`, a burst of edges between two
    passes of the loop is counted at most once, however far apart the edges
    really are.
   */
  method BurstCountedOnce(s: Sketch)
    requires s.Valid()
    modifies s
    ensures s.Valid()
    ensures s.pending <= old(s.pending) + 1
    ensures s.t1 == old(s.t1)
  {
    s.Counter();
    s.Counter();
  }
}
