/**
  The I2C slave sketch (opticalEncoderI2CSlave.cpp): an interrupt handler that
  counts debounced encoder edges, a main loop that drains the counter every
  16 ms into an RPM reading, smooths it with the seven-slot moving average and
  publishes a speed, and the request handler that sends that speed to the
  master. The sketch's globals are the fields of `Slave`; the interrupt
  handler, the sampling block of the loop and the request handler are its
  methods.
 */
module I2cSlave {
  import opened U32
  import opened Optional
  import opened MovingAverage
  import I2cReply

  const PulsesPerRev: nat := 128
  /** `1000/60` in C++ integer division. */
  const UpdateIntervalMs: nat := 1000 / 60
  /** An edge closer than this to the last accepted one is noise. */
  const DebounceMs: nat := 3
  /** The wheel diameter in metres. */
  const WheelDiameterM: real := 0.33
  /** The Arduino core's `PI`. */
  const Pi: real := 3.1415926535897932384626433832795
  const KphPerMps: real := 3.6

  /** The interrupt handler's test: the wrapping time since the last accepted edge exceeds the debounce period. */
  predicate EdgeAccepted(edgeTime: u32, lastRead: u32) {
    Sub(edgeTime, lastRead) > DebounceMs
  }

  /** Revolutions per second for `pulses` counted over `elapsedMs` milliseconds, as the loop computes it. */
  function Rps(pulses: nat, elapsedMs: nat): real
    requires elapsedMs > 0
  {
    (pulses as real / PulsesPerRev as real) / (elapsedMs as real / 1000.0)
  }

  /** Revolutions per minute: `rpm = pulses * 60 / (128 * seconds)`. */
  function Rpm(pulses: nat, elapsedMs: nat): real
    requires elapsedMs > 0
  {
    Rps(pulses, elapsedMs) * 60.0
  }

  /** `speedKPH`: the wheel's circumference per revolution, in km/h. */
  function SpeedKph(rps: real): real {
    rps * WheelDiameterM * Pi * KphPerMps
  }

  function Abs(x: real): (a: real)
    ensures a >= 0.0 && (a == x || a == -x)
  {
    if x > 0.0 then x else -x
  }

  /** `static_cast<int>(abs(speedKPH))`: truncation of a non-negative value is its floor. */
  function PublishedSpeed(speedKph: real): (s: int)
    ensures 0 <= s && s as real <= Abs(speedKph) < s as real + 1.0
  {
    Abs(speedKph).Floor
  }

  /** The debounce test read on the raw clock values, across the wrap point of `millis()` too. */
  lemma EdgeAcceptedIff(edgeTime: u32, lastRead: u32)
    ensures EdgeAccepted(edgeTime, lastRead) <==>
      if lastRead <= edgeTime then edgeTime - lastRead > DebounceMs
      else edgeTime + Modulus - lastRead > DebounceMs
  {
    if lastRead <= edgeTime {
      SubIsUnique(edgeTime, lastRead, edgeTime - lastRead);
    } else {
      SubIsUnique(edgeTime, lastRead, edgeTime + Modulus - lastRead);
    }
  }

  /** An edge exactly 3 ms after the last accepted one is rejected, one 4 ms after is counted. */
  lemma DebounceBoundary(lastRead: u32)
    ensures !EdgeAccepted(lastRead, lastRead)
    ensures !EdgeAccepted(Add(lastRead, DebounceMs), lastRead)
    ensures EdgeAccepted(Add(lastRead, DebounceMs + 1), lastRead)
  {
    SubOfAdd(lastRead, 0);
    SubOfAdd(lastRead, DebounceMs);
    SubOfAdd(lastRead, DebounceMs + 1);
  }

  /**
    The loop's staged computation is `rpm = pulses * 60 / (128 * seconds)`, with
    seconds = elapsedMs / 1000; the reading is never negative and is zero
    exactly for a window without pulses.
   */
  lemma RpmFormula(pulses: nat, elapsedMs: nat)
    requires elapsedMs > 0
    ensures Rps(pulses, elapsedMs) * (PulsesPerRev * elapsedMs) as real == (pulses * 1000) as real
    ensures Rpm(pulses, elapsedMs) * (PulsesPerRev * elapsedMs) as real == (pulses * 60000) as real
    ensures 0.0 <= Rps(pulses, elapsedMs) && (Rps(pulses, elapsedMs) == 0.0 <==> pulses == 0)
    ensures 0.0 <= Rpm(pulses, elapsedMs) && (Rpm(pulses, elapsedMs) == 0.0 <==> pulses == 0)
  {
  }

  /** 64 pulses in a one-second window of a 128-pulse encoder are 30 RPM. */
  lemma RpmExample()
    ensures Rpm(64, 1000) == 30.0
  {
  }

  /** More pulses in the same window never give a lower reading. */
  lemma RpmMonotonic(p: nat, q: nat, elapsedMs: nat)
    requires elapsedMs > 0 && p <= q
    ensures Rpm(p, elapsedMs) <= Rpm(q, elapsedMs)
  {
    var c := (PulsesPerRev * elapsedMs) as real;
    RpmFormula(p, elapsedMs);
    RpmFormula(q, elapsedMs);
    assert Rpm(p, elapsedMs) * c <= Rpm(q, elapsedMs) * c;
  }

  /** A window without pulses publishes speed 0. */
  lemma StoppedWheelPublishesZero(elapsedMs: nat)
    requires elapsedMs > 0
    ensures PublishedSpeed(SpeedKph(Rps(0, elapsedMs))) == 0
  {
    RpmFormula(0, elapsedMs);
  }

  /** The speed is never negative, and more pulses in the same window never publish a lower speed. */
  lemma PublishedSpeedMonotonic(p: nat, q: nat, elapsedMs: nat)
    requires elapsedMs > 0 && p <= q
    ensures 0.0 <= SpeedKph(Rps(p, elapsedMs)) <= SpeedKph(Rps(q, elapsedMs))
    ensures PublishedSpeed(SpeedKph(Rps(p, elapsedMs))) <= PublishedSpeed(SpeedKph(Rps(q, elapsedMs)))
  {
    var c := (PulsesPerRev * elapsedMs) as real;
    RpmFormula(p, elapsedMs);
    RpmFormula(q, elapsedMs);
    assert Rps(p, elapsedMs) * c <= Rps(q, elapsedMs) * c;
    assert Rps(p, elapsedMs) <= Rps(q, elapsedMs);
  }

  class Slave {
    /** The value sent to the master. */
    var finalSpeed: int
    var pulseCount: u32
    var totalPulses: u32
    var lastUpdateTime: u32
    var lastRead: u32
    var readIR: u32
    const ring: RingAverage
    /** Edges accepted since the last snapshot. */
    ghost var pending: nat
    /** The sum of all snapshots taken. */
    ghost var reported: nat

    ghost predicate Valid()
      reads this, ring, ring.readings
    {
      ring.Valid() &&
      (forall i :: 0 <= i < |ring.history| ==> ring.history[i] >= 0.0) &&
      pulseCount == pending % Modulus &&
      totalPulses == reported % Modulus &&
      finalSpeed >= 0
    }

    /** The zero-initialised globals. */
    constructor ()
      ensures Valid() && fresh(ring) && fresh(ring.readings)
      ensures finalSpeed == 0 && pulseCount == 0 && totalPulses == 0
      ensures lastUpdateTime == 0 && lastRead == 0 && readIR == 0
      ensures pending == 0 && reported == 0 && ring.history == []
    {
      finalSpeed := 0;
      pulseCount := 0;
      totalPulses := 0;
      lastUpdateTime := 0;
      lastRead := 0;
      readIR := 0;
      ring := new RingAverage();
      pending := 0;
      reported := 0;
    }

    /** The interrupt handler, run on a rising edge at time `now` (the `millis()` it reads). */
    method HandleEncoder(now: u32)
      requires Valid()
      modifies this
      ensures Valid()
      ensures readIR == now
      ensures EdgeAccepted(now, old(lastRead)) ==>
        pulseCount == Inc(old(pulseCount)) && lastRead == now && pending == old(pending) + 1
      ensures !EdgeAccepted(now, old(lastRead)) ==>
        pulseCount == old(pulseCount) && lastRead == old(lastRead) && pending == old(pending)
      // whether or not this edge counted, another edge at the same time would not
      ensures !EdgeAccepted(readIR, lastRead)
      ensures finalSpeed == old(finalSpeed) && totalPulses == old(totalPulses)
      ensures lastUpdateTime == old(lastUpdateTime) && reported == old(reported)
    {
      readIR := now;
      if Sub(readIR, lastRead) > DebounceMs {
        pulseCount := Inc(pulseCount);
        lastRead := readIR;
        pending := pending + 1;
        IncMod(pending - 1);
        SubOfAdd(now, 0);
      }
    }

    /** The critical section: read the counter and clear it, with no edge in between. */
    method TakeSnapshot() returns (currentPulses: u32)
      requires Valid()
      modifies this`pulseCount, this`pending
      ensures Valid()
      ensures currentPulses == old(pulseCount) && currentPulses == old(pending) % Modulus
      ensures pulseCount == 0 && pending == 0
    {
      currentPulses := pulseCount;
      pulseCount := 0;
      pending := 0;
    }

    /** Adds a snapshot to the running total, which wraps like the `uint32_t` it is. */
    method Accumulate(currentPulses: u32)
      requires Valid()
      modifies this`totalPulses, this`reported
      ensures Valid()
      ensures totalPulses == Add(old(totalPulses), currentPulses)
      ensures reported == old(reported) + currentPulses
    {
      AddMod(reported, currentPulses);
      totalPulses := Add(totalPulses, currentPulses);
      reported := reported + currentPulses;
    }

    /** The sampling block of the loop, entered once `elapsed` ms have passed since the last one. */
    method Sample(currentTime: u32, elapsed: u32)
      requires Valid()
      requires elapsed == Sub(currentTime, lastUpdateTime) && elapsed >= UpdateIntervalMs
      modifies this, ring, ring.readings
      ensures Valid()
      ensures lastUpdateTime == currentTime
      ensures pulseCount == 0 && pending == 0
      ensures totalPulses == Add(old(totalPulses), old(pulseCount))
      ensures reported == old(reported) + old(pulseCount)
      ensures ring.history == old(ring.history) + [Rpm(old(pulseCount), elapsed)]
      ensures ring.averageRPM == Average(ring.history)
      ensures finalSpeed == PublishedSpeed(SpeedKph(Rps(old(pulseCount), elapsed)))
      ensures old(pulseCount) == 0 ==> ring.averageRPM <= old(ring.averageRPM)
      ensures lastRead == old(lastRead) && readIR == old(readIR)
    {
      var currentPulses := TakeSnapshot();
      Accumulate(currentPulses);

      var rps := Rps(currentPulses, elapsed);
      var rpm := rps * 60.0;
      RpmFormula(currentPulses, elapsed);
      if currentPulses == 0 {
        ZeroReadingLowersAverage(ring.history);
      }
      ring.Push(rpm);

      var speedKph := SpeedKph(rps);
      finalSpeed := PublishedSpeed(speedKph);
      lastUpdateTime := currentTime;
    }

    /** One pass of the main loop at time `currentTime`. */
    method Loop(currentTime: u32) returns (sampled: bool)
      requires Valid()
      modifies this, ring, ring.readings
      ensures Valid()
      ensures sampled <==> Sub(currentTime, old(lastUpdateTime)) >= UpdateIntervalMs
      ensures !sampled ==> unchanged(this) && unchanged(ring) && unchanged(ring.readings)
      ensures sampled ==>
        var elapsed := Sub(currentTime, old(lastUpdateTime));
        var pulses := old(pulseCount);
        lastUpdateTime == currentTime &&
        pulseCount == 0 && pending == 0 &&
        totalPulses == Add(old(totalPulses), pulses) &&
        reported == old(reported) + pulses &&
        ring.history == old(ring.history) + [Rpm(pulses, elapsed)] &&
        ring.averageRPM == Average(ring.history) &&
        finalSpeed == PublishedSpeed(SpeedKph(Rps(pulses, elapsed))) &&
        (pulses == 0 ==> ring.averageRPM <= old(ring.averageRPM)) &&
        lastRead == old(lastRead) && readIR == old(readIR)
    {
      var elapsed := Sub(currentTime, lastUpdateTime);
      sampled := elapsed >= UpdateIntervalMs;
      if sampled {
        Sample(currentTime, elapsed);
      }
    }

    /** The request handler: the payload the master receives, which it decodes to `finalSpeed`. */
    method OnRequest() returns (payload: string)
      requires Valid()
      ensures payload == I2cReply.Prefix + I2cReply.Digits(finalSpeed) + "\n"
      ensures I2cReply.ParsePayload(payload) == Some(finalSpeed)
    {
      payload := I2cReply.Payload(finalSpeed);
      I2cReply.PayloadRoundTrip(payload, finalSpeed);
    }
  }
}
