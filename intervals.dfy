/**
 * The two ways the reader cuts a signal into intervals.
 *
 * The NDF path groups a channel's messages so that each group holds at least
 * `spi = int(rate)` samples, then pads (with the last sample) or truncates
 * (with a Python slice) every group to exactly `spi` samples; interval `k`
 * starts at `k` seconds whatever the message timestamps say.
 *
 * The text and binary readers cut a flat list of values into consecutive
 * chunks of `spi` values; the last chunk may be short and is never padded.
 */
module Intervals {
  import opened Common
  import opened Records
  import opened Sorting

  /** Python's `max(0, min(65535, s))`. */
  function Clamp16(s: int): (r: int)
    ensures IsU16(r)
    ensures IsU16(s) ==> r == s
    ensures s < 0 ==> r == 0
    ensures s > 65535 ==> r == 65535
  {
    Max(0, Min(65535, s))
  }

  /** The samples of a list of messages: sample1 then sample2 of each, clamped. */
  function MessageSamples(ms: seq<Message>): (r: seq<int>)
    ensures |r| == 2 * |ms|
  {
    if |ms| == 0 then []
    else MessageSamples(ms[..|ms| - 1]) + [Clamp16(ms[|ms| - 1].sample1), Clamp16(ms[|ms| - 1].sample2)]
  }

  /** Message `k` contributes samples `2k` and `2k+1`: its sample1 then its sample2, clamped. */
  lemma {:induction false} MessageSamplesAt(ms: seq<Message>, k: nat)
    requires k < |ms|
    ensures MessageSamples(ms)[2 * k] == Clamp16(ms[k].sample1)
    ensures MessageSamples(ms)[2 * k + 1] == Clamp16(ms[k].sample2)
  {
    if k < |ms| - 1 {
      MessageSamplesAt(ms[..|ms| - 1], k);
    }
  }

  /** Python's `s[:n]`, where a negative `n` counts from the end. */
  function PyPrefix(s: seq<int>, n: int): (r: seq<int>)
    ensures n >= 0 ==> r == s[..Min(n, |s|)]
    ensures n < 0 ==> r == s[..Max(0, |s| + n)]
  {
    if n >= 0 then s[..Min(n, |s|)] else s[..Max(0, |s| + n)]
  }

  /**
   * Brings a non-empty buffer to `spi` samples: pads it with its last value
   * when it is shorter, cuts it with `buf[:spi]` when it is longer.
   */
  function Fit(buf: seq<int>, spi: int): (r: seq<int>)
    requires |buf| > 0
    ensures spi >= 1 ==> |r| == spi
    ensures spi >= 1 ==> r[..Min(|buf|, spi)] == buf[..Min(|buf|, spi)]
    ensures forall i :: |buf| <= i < |r| ==> r[i] == buf[|buf| - 1]
  {
    if |buf| < spi then buf + Repeat(buf[|buf| - 1], spi - |buf|)
    else if |buf| > spi then PyPrefix(buf, spi)
    else buf
  }

  /**
   * The number of messages that go into one interval: the fewest whose two
   * samples each reach `spi` (one message when `spi` is not positive).
   */
  function PerInterval(spi: int): (p: nat)
    ensures p >= 1
    ensures spi >= 1 ==> 2 * p >= spi && 2 * (p - 1) < spi
  {
    if spi <= 1 then 1 else (spi + 1) / 2
  }

  /** A buffer of `m` messages is flushed exactly when it holds a whole group. */
  lemma FlushPoint(m: nat, spi: int)
    requires 1 <= m <= PerInterval(spi)
    ensures 2 * m >= spi <==> m == PerInterval(spi)
  {
  }

  /**
   * The intervals built from `ms` (already sorted), numbering them from `k`:
   * groups of `PerInterval(spi)` messages, the last group possibly smaller,
   * each fitted to `spi` samples.
   */
  function IntervalsFrom(ms: seq<Message>, spi: int, k: nat): (r: seq<Interval>)
    ensures |ms| == 0 <==> |r| == 0
    ensures |r| <= |ms|
    decreases |ms|
  {
    if |ms| == 0 then []
    else
      var n := Min(PerInterval(spi), |ms|);
      [Interval(k as real, Fit(MessageSamples(ms[..n]), spi))] + IntervalsFrom(ms[n..], spi, k + 1)
  }

  /**
   * Interval `j` starts at `k + j` seconds, whatever the timestamps say, and
   * holds exactly `spi` samples when `spi` is positive.
   */
  lemma {:induction false} IntervalsShape(ms: seq<Message>, spi: int, k: nat, j: nat)
    requires j < |IntervalsFrom(ms, spi, k)|
    ensures IntervalsFrom(ms, spi, k)[j].start == (k + j) as real
    ensures spi >= 1 ==> |IntervalsFrom(ms, spi, k)[j].samples| == spi
    decreases |ms|
  {
    if j > 0 {
      var n := Min(PerInterval(spi), |ms|);
      IntervalsShape(ms[n..], spi, k + 1, j - 1);
    }
  }

  /** The sort key of `messages.sort(key=lambda m: m["timestamp"])`. */
  function TimestampKey(m: Message): Key {
    Key(m.timestamp as real, 0)
  }

  /** Sorts messages by timestamp, keeping arrival order among equal timestamps. */
  function SortByTimestamp(ms: seq<Message>): (r: seq<Message>)
    ensures multiset(r) == multiset(ms) && |r| == |ms|
    ensures forall i, j :: 0 <= i < j < |r| ==> r[i].timestamp <= r[j].timestamp
  {
    SortBy(ms, TimestampKey)
  }

  /** Sorting messages that are already sorted by timestamp changes nothing. */
  lemma SortByTimestampTwice(ms: seq<Message>)
    ensures SortByTimestamp(SortByTimestamp(ms)) == SortByTimestamp(ms)
  {
    SortBySorted(SortByTimestamp(ms), TimestampKey);
  }

  /** Python's `int(sample_rate * 1.0)`: samples per one-second interval. */
  function SamplesPerInterval(rate: real): int {
    Trunc(rate)
  }

  /** The intervals the NDF path produces from a channel's messages. */
  function NdfIntervals(ms: seq<Message>, rate: real): (r: seq<Interval>)
  {
    IntervalsFrom(SortByTimestamp(ms), SamplesPerInterval(rate), 0)
  }

  lemma {:induction false} MessageSamplesAppend(a: seq<Message>, b: seq<Message>)
    ensures MessageSamples(a + b) == MessageSamples(a) + MessageSamples(b)
    decreases |b|
  {
    if |b| > 0 {
      MessageSamplesAppend(a, b[..|b| - 1]);
      assert (a + b)[..|a + b| - 1] == a + b[..|b| - 1];
    } else {
      assert a + b == a;
    }
  }

  /** `all` is `mine` followed only by copies of the last element of `mine`. */
  predicate PaddedFrom(all: seq<int>, mine: seq<int>) {
    |mine| > 0 && |mine| <= |all| && all[..|mine|] == mine
    && forall i :: |mine| <= i < |all| ==> all[i] == mine[|mine| - 1]
  }

  lemma PaddedPrepend(head: seq<int>, rest: seq<int>, tail: seq<int>)
    requires PaddedFrom(rest, tail)
    ensures PaddedFrom(head + rest, head + tail)
  {
    var all, mine := head + rest, head + tail;
    assert all[..|mine|] == head + rest[..|tail|];
    forall i | |mine| <= i < |all| ensures all[i] == mine[|mine| - 1] {
      assert all[i] == rest[i - |head|];
    }
  }

  lemma FitPads(buf: seq<int>, spi: int)
    requires 0 < |buf| <= spi
    ensures PaddedFrom(Fit(buf, spi), buf)
  {
  }

  /**
   * With an even `spi` nothing is cut: the concatenated intervals hold every
   * sample of every message, in order, followed only by copies of the very
   * last sample (the padding of the final interval).
   */
  lemma {:induction false} EvenKeepsAll(ms: seq<Message>, spi: int, k: nat)
    requires spi >= 2 && spi % 2 == 0 && |ms| > 0
    ensures PaddedFrom(AllSamples(IntervalsFrom(ms, spi, k)), MessageSamples(ms))
    decreases |ms|
  {
    var p := PerInterval(spi);
    assert 2 * p == spi;
    var n := Min(p, |ms|);
    var r := IntervalsFrom(ms, spi, k);
    var head := MessageSamples(ms[..n]);
    assert r[1..] == IntervalsFrom(ms[n..], spi, k + 1);
    assert AllSamples(r) == Fit(head, spi) + AllSamples(r[1..]);
    if n == |ms| {
      assert ms[..n] == ms;
      assert r[1..] == [];
      assert AllSamples(r) == Fit(head, spi);
      FitPads(head, spi);
    } else {
      assert ms == ms[..n] + ms[n..];
      MessageSamplesAppend(ms[..n], ms[n..]);
      EvenKeepsAll(ms[n..], spi, k + 1);
      assert Fit(head, spi) == head;
      PaddedPrepend(head, AllSamples(r[1..]), MessageSamples(ms[n..]));
    }
  }

  /**
   * With an odd `spi` a full group holds `spi + 1` samples and the slice drops
   * the last one: the first interval loses sample2 of its group's last message.
   */
  lemma OddDropsOne(ms: seq<Message>, spi: int, k: nat)
    requires spi >= 3 && spi % 2 == 1 && |ms| >= PerInterval(spi)
    ensures var all := MessageSamples(ms[..PerInterval(spi)]);
      |all| == spi + 1 && IntervalsFrom(ms, spi, k)[0].samples == all[..spi]
  {
  }

  // ----- Plain chunking of the text and binary readers -----

  /**
   * `[(i / rate, values[i:i+spi]) for i in range(0, len(values), spi)]`, for a
   * positive `spi`, numbering the chunks from `k`.
   */
  function ChunksFrom(values: seq<int>, spi: nat, rate: real, k: nat): (r: seq<Interval>)
    requires spi >= 1 && rate != 0.0
    ensures |values| == 0 <==> |r| == 0
    ensures forall j :: 0 <= j < |r| ==> 1 <= |r[j].samples| <= spi
    ensures forall j :: 0 <= j < |r| - 1 ==> |r[j].samples| == spi
    ensures forall j :: 0 <= j < |r| ==> r[j].start == ((k + j) * spi) as real / rate
    decreases |values|
  {
    if |values| == 0 then []
    else
      var n := Min(spi, |values|);
      [Interval((k * spi) as real / rate, values[..n])] + ChunksFrom(values[n..], spi, rate, k + 1)
  }

  /** Chunking keeps every value, in order: the chunks concatenate back to the input. */
  lemma {:induction false} ChunksConcat(values: seq<int>, spi: nat, rate: real, k: nat)
    requires spi >= 1 && rate != 0.0
    ensures AllSamples(ChunksFrom(values, spi, rate, k)) == values
    decreases |values|
  {
    if |values| > 0 {
      var n := Min(spi, |values|);
      ChunksConcat(values[n..], spi, rate, k + 1);
      var r := ChunksFrom(values, spi, rate, k);
      assert r[1..] == ChunksFrom(values[n..], spi, rate, k + 1);
      assert values == values[..n] + values[n..];
    }
  }

  /**
   * The chunking loop `for i in range(0, len(values), spi)`: `range` raises
   * ValueError for a zero step and is empty for a negative one.
   */
  function Chunked(values: seq<int>, rate: real, length: real): (r: Result<seq<Interval>>)
    ensures r.Err? <==> Trunc(rate * length) == 0
    ensures Trunc(rate * length) < 0 ==> r == Ok([])
  {
    var spi := Trunc(rate * length);
    if spi == 0 then Err("range() arg 3 must not be zero")
    else if spi < 0 then Ok([])
    else
      assert rate != 0.0;
      Ok(ChunksFrom(values, spi, rate, 0))
  }
}
