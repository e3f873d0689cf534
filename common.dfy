/**
 * Shared vocabulary of the model: bytes, 16-bit samples, optional and
 * failing results, and the interval that readers hand to exporters.
 */
module Common {

  /** One byte of an archive or binary signal file. */
  type byte = b: int | 0 <= b < 256

  /** An unsigned 16-bit value, the width of every ADC sample. */
  predicate IsU16(x: int) {
    0 <= x < 65536
  }

  datatype Option<T> = None | Some(value: T) {
    /** The value, or `default` when there is none (Python's `dict.get(key, default)`). */
    function GetOr(default: T): T {
      if Some? then value else default
    }
  }

  /** An operation that either produces a value or raises an exception with a message. */
  datatype Result<T> = Ok(value: T) | Err(message: string)

  /** The text files written: path to lines, without their line terminators. */
  type Files = map<string, seq<string>>

  /**
   * A chunk of one channel's signal: its start time in seconds and its samples.
   * The source passes these around as `(start_time, signal_values)` tuples.
   */
  datatype Interval = Interval(start: real, samples: seq<int>)

  /** All samples of a list of intervals, interval after interval. */
  function AllSamples(ivs: seq<Interval>): seq<int>
  {
    if |ivs| == 0 then [] else ivs[0].samples + AllSamples(ivs[1..])
  }

  lemma {:induction false} AllSamplesAppend(a: seq<Interval>, b: seq<Interval>)
    ensures AllSamples(a + b) == AllSamples(a) + AllSamples(b)
  {
    if |a| == 0 {
      assert a + b == b;
    } else {
      assert (a + b)[1..] == a[1..] + b;
      AllSamplesAppend(a[1..], b);
    }
  }

  function Min(a: int, b: int): int {
    if a <= b then a else b
  }

  function Max(a: int, b: int): int {
    if a <= b then b else a
  }

  /** `n` copies of `x`. */
  function Repeat<T>(x: T, n: nat): (r: seq<T>)
    ensures |r| == n && forall i :: 0 <= i < n ==> r[i] == x
  {
    if n == 0 then [] else Repeat(x, n - 1) + [x]
  }

  /** Python's `int(x)` on a float: truncation toward zero. */
  function Trunc(x: real): (r: int)
    ensures 0.0 <= x ==> r as real <= x < r as real + 1.0
    ensures x < 0.0 ==> r as real - 1.0 < x <= r as real
  {
    if x >= 0.0 then x.Floor else -((-x).Floor)
  }
}
