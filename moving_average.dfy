/**
  The seven-slot moving average of the I2C slave sketch: a zero-initialised
  array of readings overwritten in place at `readIndex`, a running total kept
  by subtracting the evicted slot and adding the new one, and an average that
  is always the total divided by seven, so that slots not yet written count as
  zero readings.
 */
module MovingAverage {

  const NumReadings: nat := 7

  /** The sum of a sequence of readings. */
  function Sum(s: seq<real>): real {
    if s == [] then 0.0 else s[0] + Sum(s[1..])
  }

  function Zeros(n: nat): (z: seq<real>)
    ensures |z| == n && forall i :: 0 <= i < n ==> z[i] == 0.0
  {
    seq(n, _ => 0.0)
  }

  /**
    The readings the buffer holds after `history` was pushed into a fresh
    buffer, oldest first: the last seven of `history`, preceded by zeros while
    fewer than seven were pushed.
   */
  function Window(history: seq<real>): (w: seq<real>)
    ensures |w| == NumReadings
  {
    (Zeros(NumReadings) + history)[|history|..]
  }

  /** What `averageRPM` holds after `history` was pushed into a fresh buffer. */
  function Average(history: seq<real>): real {
    Sum(Window(history)) / NumReadings as real
  }

  lemma {:induction false} SumAppend(s: seq<real>, x: real)
    ensures Sum(s + [x]) == Sum(s) + x
  {
    if s != [] {
      assert (s + [x])[1..] == s[1..] + [x];
      SumAppend(s[1..], x);
    }
  }

  lemma {:induction false} SumConcat(s: seq<real>, t: seq<real>)
    ensures Sum(s + t) == Sum(s) + Sum(t)
  {
    if s == [] {
      assert s + t == t;
    } else {
      assert (s + t)[1..] == s[1..] + t;
      SumConcat(s[1..], t);
    }
  }

  lemma {:induction false} SumZeros(n: nat)
    ensures Sum(Zeros(n)) == 0.0
  {
    if n > 0 {
      assert Zeros(n) == [0.0] + Zeros(n - 1);
      SumZeros(n - 1);
    }
  }

  /** Overwriting one slot changes the sum by the new value minus the old one: the running-total update. */
  lemma {:induction false} SumUpdate(s: seq<real>, i: nat, v: real)
    requires i < |s|
    ensures Sum(s[i := v]) == Sum(s) - s[i] + v
  {
    if i > 0 {
      assert s[i := v][1..] == s[1..][i - 1 := v];
      SumUpdate(s[1..], i - 1, v);
    }
  }

  /** Pushing a reading evicts the oldest one of the window and appends the new one. */
  lemma WindowPush(history: seq<real>, x: real)
    ensures Window(history + [x]) == Window(history)[1..] + [x]
  {
    assert Zeros(NumReadings) + (history + [x]) == (Zeros(NumReadings) + history) + [x];
  }

  /** Once seven readings were pushed, the window is exactly the last seven of them. */
  lemma WindowWhenFull(history: seq<real>)
    requires |history| >= NumReadings
    ensures Window(history) == history[|history| - NumReadings..]
  {
  }

  /** A run of zeros splits into two shorter runs. */
  lemma {:induction false} ZerosSplit(a: nat, b: nat)
    ensures Zeros(a + b) == Zeros(a) + Zeros(b)
  {
    if a > 0 {
      ZerosSplit(a - 1, b);
      assert Zeros(a) == [0.0] + Zeros(a - 1);
      assert Zeros(a + b) == [0.0] + Zeros(a - 1 + b);
    }
  }

  /** Dropping `k` elements from `m` zeros followed by `h`, with `k = |h| < m`, leaves `m - k` zeros and `h`. */
  lemma ZerosPrefixDrop(m: nat, h: seq<real>)
    requires |h| < m
    ensures (Zeros(m) + h)[|h|..] == Zeros(m - |h|) + h
  {
    var k, n := |h|, m - |h|;
    ZerosSplit(k, n);
    assert Zeros(m) + h == Zeros(k) + (Zeros(n) + h);
  }

  /** While fewer than seven readings were pushed, the window is zeros followed by all of them. */
  lemma WindowBeforeFull(history: seq<real>)
    requires |history| < NumReadings
    ensures Window(history) == Zeros(NumReadings - |history|) + history
  {
    ZerosPrefixDrop(NumReadings, history);
  }

  /**
    Before seven readings exist the average still divides by seven: the
    unwritten slots are zero readings, so the average is the sum of the pushed
    readings over seven, not over their number.
   */
  lemma AverageBeforeFull(history: seq<real>)
    requires |history| < NumReadings
    ensures Average(history) == Sum(history) / NumReadings as real
  {
    var n := NumReadings - |history|;
    WindowBeforeFull(history);
    SumConcat(Zeros(n), history);
    SumZeros(n);
  }

  /** After seven readings the average is the mean of the last seven. */
  lemma AverageWhenFull(history: seq<real>)
    requires |history| >= NumReadings
    ensures Average(history) == Sum(history[|history| - NumReadings..]) / NumReadings as real
  {
    WindowWhenFull(history);
  }

  /** The running average reacts to one push by (new - evicted) / 7. */
  lemma AveragePush(history: seq<real>, x: real)
    ensures Average(history + [x]) == Average(history) + (x - Window(history)[0]) / NumReadings as real
  {
    var w := Window(history);
    WindowPush(history, x);
    SumAppend(w[1..], x);
    assert w == [w[0]] + w[1..];
  }

  /** A zero reading, from a window without pulses, never raises an average of non-negative readings. */
  lemma ZeroReadingLowersAverage(history: seq<real>)
    requires forall i :: 0 <= i < |history| ==> history[i] >= 0.0
    ensures Average(history + [0.0]) <= Average(history)
  {
    AveragePush(history, 0.0);
    var z := Zeros(NumReadings);
    assert Window(history)[0] == (z + history)[|history|];
  }

  /** Seven readings 10, 20, ..., 70 average 40; an eighth reading 80 evicts the 10 and gives 50. */
  lemma AverageExample()
    ensures Average([10.0, 20.0, 30.0, 40.0, 50.0, 60.0, 70.0]) == 40.0
    ensures Average([10.0, 20.0, 30.0, 40.0, 50.0, 60.0, 70.0, 80.0]) == 50.0
  {
    var h := [10.0, 20.0, 30.0, 40.0, 50.0, 60.0, 70.0];
    WindowWhenFull(h);
    assert Window(h) == h;
    assert Sum(h) == 280.0;
    var h8 := [10.0, 20.0, 30.0, 40.0, 50.0, 60.0, 70.0, 80.0];
    WindowWhenFull(h8);
    var last := [20.0, 30.0, 40.0, 50.0, 60.0, 70.0, 80.0];
    assert h8[|h8| - NumReadings..] == last;
    assert Sum(last) == 350.0;
  }

  /** Stepping a counter steps its slot index modulo seven. */
  lemma IndexStep(n: nat)
    ensures (n + 1) % NumReadings == (n % NumReadings + 1) % NumReadings
  {
    var q := n / NumReadings;
    assert n == q * NumReadings + n % NumReadings;
    if n % NumReadings + 1 < NumReadings {
      assert n + 1 == q * NumReadings + (n % NumReadings + 1);
    } else {
      assert n + 1 == (q + 1) * NumReadings;
    }
  }

  /** The sketch's step-and-wrap of `readIndex` is the step modulo seven. */
  lemma WrapStep(index: int)
    requires 0 <= index < NumReadings
    ensures (index + 1) % NumReadings == if index + 1 < NumReadings then index + 1 else 0
  {
  }

  /** `slots` holds the readings of `w`, oldest first, starting at `start` and wrapping around. */
  ghost predicate Rotation(slots: seq<real>, start: int, w: seq<real>) {
    |slots| == NumReadings && |w| == NumReadings && 0 <= start &&
    forall k :: 0 <= k < NumReadings ==> slots[(start + k) % NumReadings] == w[k]
  }

  /**
    Writing the newest reading over the oldest slot and stepping the index
    keeps the array a rotation of the window, with the oldest reading at the
    new index.
   */
  lemma PushRotation(before: seq<real>, index: nat, w: seq<real>, x: real)
    requires index < NumReadings && Rotation(before, index, w)
    ensures Rotation(before[index := x], (index + 1) % NumReadings, w[1..] + [x])
  {
    var next := (index + 1) % NumReadings;
    forall k | 0 <= k < NumReadings
      ensures before[index := x][(next + k) % NumReadings] == (w[1..] + [x])[k]
    {
      if k < NumReadings - 1 {
        assert (next + k) % NumReadings == (index + (k + 1)) % NumReadings;
        assert (next + k) % NumReadings != index;
      } else {
        assert (next + k) % NumReadings == index;
      }
    }
  }

  /**
    The state of the buffer agrees with the readings pushed so far: the index
    counts pushes modulo seven, the running total is the sum of the slots and
    of the window, and the slots are the window rotated to the index.
   */
  ghost predicate Consistent(slots: seq<real>, index: int, total: real, history: seq<real>) {
    0 <= index < NumReadings &&
    index == |history| % NumReadings &&
    total == Sum(slots) &&
    total == Sum(Window(history)) &&
    Rotation(slots, index, Window(history))
  }

  /** One push, as the sketch performs it, keeps the buffer consistent with the readings pushed. */
  lemma ConsistentPush(slots: seq<real>, index: int, total: real, history: seq<real>, x: real)
    requires Consistent(slots, index, total, history)
    ensures Consistent(slots[index := x], (index + 1) % NumReadings, total - slots[index] + x, history + [x])
  {
    var w := Window(history);
    var total' := total - slots[index] + x;
    assert w[0] == slots[index] by {
      assert (index + 0) % NumReadings == index;
    }
    assert (index + 1) % NumReadings == |history + [x]| % NumReadings by {
      IndexStep(|history|);
    }
    assert total' == Sum(slots[index := x]) by {
      SumUpdate(slots, index, x);
    }
    assert total' == Sum(Window(history + [x])) by {
      WindowPush(history, x);
      SumAppend(w[1..], x);
      assert w == [w[0]] + w[1..];
    }
    assert Rotation(slots[index := x], (index + 1) % NumReadings, Window(history + [x])) by {
      WindowPush(history, x);
      PushRotation(slots, index, w, x);
    }
  }

  /**
    The ring buffer. `readings`, `readIndex`, `totalRPM` and `averageRPM` are
    the sketch's globals; the ghost `history` lists every reading pushed so far
    and gives the buffer its meaning through `Window`.
   */
  class RingAverage {
    const readings: array<real>
    var readIndex: int
    var totalRPM: real
    var averageRPM: real
    ghost var history: seq<real>

    ghost predicate Valid()
      reads this, readings
    {
      readings.Length == NumReadings &&
      Consistent(readings[..], readIndex, totalRPM, history) &&
      averageRPM == totalRPM / NumReadings as real
    }

    /** The zero-initialised globals. */
    constructor ()
      ensures Valid() && fresh(readings)
      ensures readings[..] == Zeros(NumReadings)
      ensures readIndex == 0 && totalRPM == 0.0 && averageRPM == 0.0 && history == []
    {
      readings := new real[NumReadings](_ => 0.0);
      readIndex := 0;
      totalRPM := 0.0;
      averageRPM := 0.0;
      history := [];
      new;
      assert readings[..] == Zeros(NumReadings);
      assert Window(history) == Zeros(NumReadings);
      SumZeros(NumReadings);
    }

    /** Replaces the reading at `readIndex` by `rpm`, steps `readIndex` and recomputes the average. */
    method Push(rpm: real)
      requires Valid()
      modifies this, readings
      ensures Valid()
      ensures readings[..] == old(readings[..])[old(readIndex) := rpm]
      ensures readIndex == (old(readIndex) + 1) % NumReadings
      ensures totalRPM == old(totalRPM) - old(readings[readIndex]) + rpm
      ensures history == old(history) + [rpm]
      ensures averageRPM == Average(history)
    {
      ghost var before := readings[..];
      ghost var index := readIndex;
      ghost var total := totalRPM;
      ConsistentPush(before, index, total, history, rpm);
      WrapStep(index);

      totalRPM := totalRPM - readings[readIndex];
      readings[readIndex] := rpm;
      totalRPM := totalRPM + readings[readIndex];
      readIndex := readIndex + 1;
      if readIndex >= NumReadings {
        readIndex := 0;
      }
      averageRPM := totalRPM / NumReadings as real;
      history := history + [rpm];
      assert readings[..] == before[index := rpm];
      assert readIndex == (index + 1) % NumReadings;
      assert totalRPM == total - before[index] + rpm;
    }
  }
}
