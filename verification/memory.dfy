/**
 * `MemoryTracker.measure`: a buffer of heap-usage samples that keeps only
 * the latest 100.
 */
module Memory {
  import opened Wrappers
  import opened Arith

  /** `Keep only last 100 measurements`. */
  const BufferLimit := 100

  /** One sample: `Date.now()` and the used heap in MiB. */
  datatype Measurement = Measurement(timestamp: int, usage: real)

  /** What the browser reports when `performance.memory` exists: the time and the used heap in bytes. */
  datatype Reading = Reading(now: int, usedBytes: int)

  /** `usedJSHeapSize / 1024 / 1024`. */
  function Megabytes(bytes: int): real {
    bytes as real / 1048576.0
  }

  function SampleOf(x: Reading): Measurement {
    Measurement(x.now, Megabytes(x.usedBytes))
  }

  /**
   * `measure`: without a reading the buffer is unchanged and the result is 0;
   * with one, the sample is appended as the newest entry, the oldest entry
   * is dropped when the buffer would exceed 100, and the usage is returned.
   */
  function Measure(buffer: seq<Measurement>, reading: Option<Reading>): (r: (seq<Measurement>, real))
    ensures reading.None? ==> r == (buffer, 0.0)
    ensures reading.Some? ==> r.1 == Megabytes(reading.value.usedBytes)
    ensures reading.Some? ==> |r.0| > 0 && r.0[|r.0| - 1] == SampleOf(reading.value)
    ensures reading.Some? && |buffer| <= BufferLimit ==>
      && |r.0| == Min(|buffer| + 1, BufferLimit)
      && r.0[..|r.0| - 1] == buffer[|buffer| + 1 - |r.0|..]
  {
    match reading
    case None => (buffer, 0.0)
    case Some(x) =>
      var grown := buffer + [SampleOf(x)];
      var kept := if |grown| > BufferLimit then grown[1..] else grown;
      assert kept[..|kept| - 1] == buffer[|buffer| + 1 - |kept|..];
      (kept, Megabytes(x.usedBytes))
  }

  /** The samples of the readings that were available, in order. */
  function Samples(readings: seq<Option<Reading>>): (r: seq<Measurement>)
    ensures |r| <= |readings|
    decreases |readings|
  {
    if |readings| == 0 then []
    else
      var p := Samples(readings[..|readings| - 1]);
      match readings[|readings| - 1]
      case None => p
      case Some(x) => p + [SampleOf(x)]
  }

  /** The buffer after measuring each reading in turn, starting empty. */
  function MeasureAll(readings: seq<Option<Reading>>): seq<Measurement>
    decreases |readings|
  {
    if |readings| == 0 then [] else Measure(MeasureAll(readings[..|readings| - 1]), readings[|readings| - 1]).0
  }

  /** The last `n` elements of `s` (all of them when there are fewer). */
  function Last<T>(s: seq<T>, n: nat): (r: seq<T>)
    ensures |r| == Min(|s|, n)
  {
    s[|s| - Min(|s|, n)..]
  }

  /** Starting from an empty buffer, the tracker always holds the latest 100 samples, oldest first. */
  lemma {:induction false} MeasureAllKeepsLatest(readings: seq<Option<Reading>>)
    ensures MeasureAll(readings) == Last(Samples(readings), BufferLimit)
    ensures |MeasureAll(readings)| <= BufferLimit
    decreases |readings|
  {
    if |readings| > 0 {
      var prev := readings[..|readings| - 1];
      MeasureAllKeepsLatest(prev);
      var all := Samples(prev);
      match readings[|readings| - 1]
      case None =>
      case Some(x) =>
        assert Samples(readings) == all + [SampleOf(x)];
        LastSnoc(all, SampleOf(x), BufferLimit);
    }
  }

  /** Keeping the last `n` of a longer sequence: append, then drop the oldest when over `n`. */
  lemma LastSnoc<T>(s: seq<T>, x: T, n: nat)
    requires n > 0
    ensures var grown := Last(s, n) + [x];
      Last(s + [x], n) == if |grown| > n then grown[1..] else grown
  {
  }
}
