/**
 * The LabChart text exporter: a 5-line header, then one "time voltage" line
 * per sample for a single channel, or one tab-separated row per instant for
 * several channels merged onto one timeline. Files are a map from path to
 * lines; times and voltages are exact rationals.
 */
module LabChart {
  import opened Common
  import opened Text
  import opened Numerals
  import opened Sorting
  import opened Paths

  /** The settings an exporter is created with; they never change afterwards. */
  datatype Settings = Settings(
    sampleRate: real,
    rangeMV: real,
    useCommas: bool,
    timeInMs: bool,
    valueInUV: bool,
    absoluteTime: bool,
    glitchThreshold: int)

  /** 512 Hz, 120 mV, points, seconds, millivolts, relative time, threshold 500. */
  const DefaultSettings := Settings(512.0, 120.0, false, false, false, false, 500)

  /** Millivolts per ADC count: the range spread over 65536 counts. */
  function MVPerCount(s: Settings): real {
    s.rangeMV / 65536.0
  }

  // ----- Numerals -----

  /** The number of decimals `_format_value` prints. */
  function Precision(s: Settings, isTime: bool): nat {
    if isTime then (if s.timeInMs then 3 else 6) else (if s.valueInUV then 1 else 4)
  }

  /** The value `_format_value` prints: times in ms and voltages in µV are scaled by 1000. */
  function Scaled(s: Settings, value: real, isTime: bool): real {
    if (isTime && s.timeInMs) || (!isTime && s.valueInUV) then value * 1000.0 else value
  }

  /** A time (seconds) or a voltage (millivolts) as the exporter prints it. */
  function FormatValue(s: Settings, value: real, isTime: bool): string {
    var formatted :=
      if isTime then
        (if s.timeInMs then FormatFixed(value * 1000.0, 3) else FormatFixed(value, 6))
      else
        (if s.valueInUV then FormatFixed(value * 1000.0, 1) else FormatFixed(value, 4));
    if s.useCommas then ReplaceChar(formatted, '.', ',') else formatted
  }

  /** The decimal separator of the settings. */
  function Separator(s: Settings): char {
    if s.useCommas then ',' else '.'
  }

  /**
   * `_format_value` prints the scaled value to `Precision` decimals and, in
   * comma mode, turns every decimal point into a comma and changes nothing
   * else.
   */
  lemma FormatValueIsFixed(s: Settings, value: real, isTime: bool)
    ensures var r := FormatValue(s, value, isTime);
      var f := FormatFixed(Scaled(s, value, isTime), Precision(s, isTime));
      |r| == |f| && forall i :: 0 <= i < |f| ==> r[i] == (if f[i] == '.' then Separator(s) else f[i])
  {
  }

  /**
   * A printed value is made of digits, a leading minus sign and the decimal
   * separator only: it holds no tab, and no comma in point mode.
   */
  lemma FormatValueChars(s: Settings, value: real, isTime: bool)
    ensures var r := FormatValue(s, value, isTime);
      forall i :: 0 <= i < |r| ==> r[i] == '-' || r[i] == Separator(s) || IsDigit(r[i])
  {
    var p := Precision(s, isTime);
    var x := Scaled(s, value, isTime);
    FormatValueIsFixed(s, value, isTime);
    FixedChars(x, p);
  }

  // ----- Headers -----

  /** Python's `f"{range_val:.1f}"` for the range line, in µV when so configured. */
  function RangeText(s: Settings): string {
    FormatFixed(if s.valueInUV then s.rangeMV * 1000.0 else s.rangeMV, 1)
  }

  /** The sample period as the header's `Interval=` line prints it. */
  function IntervalText(s: Settings): string
    requires s.sampleRate != 0.0
  {
    ReprDecimal(if s.timeInMs then 1000.0 / s.sampleRate else 1.0 / s.sampleRate)
  }

  /**
   * The five header lines: sample period, creation date ("Unknown" when it
   * is missing or empty), a blank time format, the channel title, the range.
   */
  function Header(s: Settings, title: string, date: Option<string>): (h: seq<string>)
    requires s.sampleRate != 0.0
    ensures |h| == 5
    ensures h[0] == "Interval= " + IntervalText(s)
    ensures h[1] == "DateTime= " + (if date.None? || date.value == "" then "Unknown" else date.value)
    ensures h[2] == "TimeFormat= "
    ensures h[3] == "ChannelTitle= " + title
    ensures h[4] == "Range= " + RangeText(s)
  {
    var dateText := if date.Some? && date.value != "" then date.value else "Unknown";
    [ "Interval= " + IntervalText(s),
      "DateTime= " + dateText,
      "TimeFormat= ",
      "ChannelTitle= " + title,
      "Range= " + RangeText(s) ]
  }

  /**
   * With the default settings (512 Hz, 120 mV, seconds, millivolts) the
   * header reads `Interval= 0.001953125` and `Range= 120.0`.
   */
  lemma DefaultHeader(title: string, date: Option<string>)
    ensures Header(DefaultSettings, title, date)[0] == "Interval= 0.001953125"
    ensures Header(DefaultSettings, title, date)[4] == "Range= 120.0"
  {
    DefaultIntervalText();
    DefaultRangeText();
  }

  lemma DefaultIntervalText()
    ensures IntervalText(DefaultSettings) == "0.001953125"
  {
    ReprOneOver512();
  }

  lemma ReprOneOver512()
    ensures ReprDecimal(1.0 / 512.0) == "0.001953125"
  {
    var x := 1.0 / 512.0;
    NineDecimals(x);
    ReprShortest(x, 9);
    assert ScaledMagnitude(x, 9) == 1953125 by {
      PowTenNine();
      FormatFixedExact(x, 9);
    }
    NineFractionDigits();
    assert NatToString(0) == "0";
    assert "0" + "." + "001953125" == "0.001953125";
  }

  /** 1/512 needs nine decimals, no fewer. */
  lemma NineDecimals(x: real)
    requires x == 1.0 / 512.0
    ensures HasDecimals(x, 9)
    ensures forall e :: 1 <= e < 9 ==> !HasDecimals(x, e)
  {
    PowTenNine();
    forall e | 1 <= e < 9
      ensures !HasDecimals(x, e)
    {
      assert Shift(x, e) == 1953125.0 / Pow10(9 - e) as real;
    }
    assert Shift(x, 9) == 1953125.0;
  }

  /** At 16384 Hz a period in seconds has its leading digit five places down: exponent form. */
  lemma IntervalAt16384Hz()
    ensures IntervalText(DefaultSettings.(sampleRate := 16384.0)) == "6.103515625e-05"
  {
    ReprOneOver16384();
  }

  lemma ReprOneOver16384()
    ensures ReprDecimal(1.0 / 16384.0) == "6.103515625e-05"
  {
    var x := 1.0 / 16384.0;
    FourteenDecimals(x);
    ReprShortest(x, 14);
    assert ScaledMagnitude(x, 14) == 6103515625 by {
      PowTenFourteen();
      FormatFixedExact(x, 14);
    }
    SignificandDigits();
    assert LeadExponent(6103515625, 14) == -5;
    ExponentForm16384();
  }

  lemma ExponentForm16384()
    ensures Scientific(6103515625, -5) == "6.103515625e-05"
  {
    SignificandDigits();
    var s := "6103515625";
    assert DropTrailingZeros(s) == s;
    assert Mantissa(s) == "6.103515625";
    assert ExponentDigits(5) == "05" by {
      assert DigitChar(5) == '5';
    }
  }

  /** 1/16384 needs fourteen decimals, no fewer. */
  lemma FourteenDecimals(x: real)
    requires x == 1.0 / 16384.0
    ensures HasDecimals(x, 14)
    ensures forall e :: 1 <= e < 14 ==> !HasDecimals(x, e)
  {
    PowTenFourteen();
    forall e | 1 <= e < 14
      ensures !HasDecimals(x, e)
    {
      assert Shift(x, e) == 6103515625.0 / Pow10(14 - e) as real;
    }
    assert Shift(x, 14) == 6103515625.0;
  }

  lemma PowTenFourteen()
    ensures Pow10(14) == 100000000000000
  {
    PowTenNine();
    assert Pow10(12) == 1000000000000;
  }

  /** The digits of 6103515625, the significand of 1/16384. */
  lemma SignificandDigits()
    ensures NatToString(6103515625) == "6103515625"
  {
    assert DigitChar(0) == '0' && DigitChar(1) == '1' && DigitChar(2) == '2' && DigitChar(3) == '3';
    assert DigitChar(5) == '5' && DigitChar(6) == '6';
    assert NatToString(6) == "6";
    assert NatToString(61) == "61";
    assert NatToString(610) == "610";
    assert NatToString(6103) == "6103";
    assert NatToString(61035) == "61035";
    assert NatToString(610351) == "610351";
    assert NatToString(6103515) == "6103515";
    assert NatToString(61035156) == "61035156";
    assert NatToString(610351562) == "610351562";
  }

  lemma DefaultRangeText()
    ensures RangeText(DefaultSettings) == "120.0"
  {
    assert Shift(120.0, 1) == 1200.0;
    FormatFixedExact(120.0, 1);
    assert ScaledMagnitude(120.0, 1) == 1200;
    assert FracSplit(1200, 1) == (120, "0") by {
      assert DigitChar(0) == '0';
      assert "" + ['0'] == "0";
      assert FracSplit(120, 0) == (120, "");
    }
    assert NatToString(120) == "120" by {
      assert DigitChar(0) == '0' && DigitChar(1) == '1' && DigitChar(2) == '2';
      assert NatToString(1) == "1";
      assert NatToString(12) == "12";
    }
  }

  lemma PowTenNine()
    ensures Pow10(9) == 1000000000
  {
    assert Pow10(3) == 1000;
    assert Pow10(6) == 1000000;
  }

  /** The nine fractional digits of 1/512 = 0.001953125. */
  lemma NineFractionDigits()
    ensures FracSplit(1953125, 9) == (0, "001953125")
  {
    assert DigitChar(0) == '0' && DigitChar(1) == '1' && DigitChar(2) == '2' && DigitChar(3) == '3';
    assert DigitChar(5) == '5' && DigitChar(9) == '9';
    assert "" + ['0'] == "0";
    assert "0" + ['0'] == "00";
    assert "00" + ['1'] == "001";
    assert "001" + ['9'] == "0019";
    assert "0019" + ['5'] == "00195";
    assert "00195" + ['3'] == "001953";
    assert "001953" + ['1'] == "0019531";
    assert "0019531" + ['2'] == "00195312";
    assert "00195312" + ['5'] == "001953125";
    assert FracSplit(0, 0) == (0, "");
    assert FracSplit(0, 1) == (0, "0");
    assert FracSplit(0, 2) == (0, "00");
    assert FracSplit(1, 3) == (0, "001");
    assert FracSplit(19, 4) == (0, "0019");
    assert FracSplit(195, 5) == (0, "00195");
    assert FracSplit(1953, 6) == (0, "001953");
    assert FracSplit(19531, 7) == (0, "0019531");
    assert FracSplit(195312, 8) == (0, "00195312");
  }

  /** The multi-channel title: the channel ids joined by ", ". */
  function ChannelTitles(channels: seq<int>): string {
    Join(seq(|channels|, i requires 0 <= i < |channels| => IntToString(channels[i])), ", ")
  }

  /** No numeral holds a comma, so the title has one comma per separator: one fewer than channels. */
  lemma ChannelTitlesCommas(channels: seq<int>)
    requires |channels| > 0
    ensures CountChar(ChannelTitles(channels), ',') == |channels| - 1
  {
    var parts := seq(|channels|, i requires 0 <= i < |channels| => IntToString(channels[i]));
    forall k | 0 <= k < |parts|
      ensures CountChar(parts[k], ',') == 0
    {
      NoCharInNumeral(channels[k], ',');
    }
    JoinCommaCount(parts);
  }

  /** `str(n)` holds only digits and a leading minus sign. */
  lemma NoCharInNumeral(n: int, c: char)
    requires c != '-' && !IsDigit(c)
    ensures CountChar(IntToString(n), c) == 0
  {
    var r := IntToString(n);
    forall i | 0 <= i < |r|
      ensures r[i] != c
    {
      if n < 0 && i > 0 {
        assert r[i] == r[1..][i - 1];
      }
    }
    NoCharCountZero(r, c);
  }

  /** Joining comma-free parts with ", " puts exactly one comma between neighbours. */
  lemma {:induction false} JoinCommaCount(parts: seq<string>)
    requires |parts| > 0
    requires forall k :: 0 <= k < |parts| ==> CountChar(parts[k], ',') == 0
    ensures CountChar(Join(parts, ", "), ',') == |parts| - 1
  {
    if |parts| > 1 {
      JoinCommaCount(parts[1..]);
      CountCharAppend(parts[0], ", ", ',');
      CountCharAppend(parts[0] + ", ", Join(parts[1..], ", "), ',');
      assert CountChar(", ", ',') == 1 by {
        assert ", "[1..] == " ";
        assert " "[1..] == "";
      }
      assert Join(parts, ", ") == parts[0] + ", " + Join(parts[1..], ", ");
    }
  }

  // ----- Glitch filter -----

  function AbsInt(x: int): nat {
    if x < 0 then -x else x
  }

  /** Interior sample `i` differs from both neighbours by more than the threshold. */
  predicate IsGlitch(v: seq<int>, i: int, threshold: int)
    requires 0 < i < |v| - 1
  {
    AbsInt(v[i] - v[i - 1]) > threshold && AbsInt(v[i] - v[i + 1]) > threshold
  }

  /**
   * The filtered signal: unchanged when the filter is off or the signal has
   * fewer than three samples; otherwise every interior glitch of the ORIGINAL
   * signal is replaced by the floor of its neighbours' mean (Python's `//`,
   * which for the divisor 2 agrees with Dafny's `/`).
   */
  function GlitchFiltered(v: seq<int>, threshold: int): (r: seq<int>)
    ensures |r| == |v|
  {
    if threshold == 0 || |v| < 3 then v
    else
      seq(|v|, i requires 0 <= i < |v| =>
        if 0 < i < |v| - 1 && IsGlitch(v, i, threshold) then (v[i - 1] + v[i + 1]) / 2 else v[i])
  }

  /**
   * A replaced sample lies between its neighbours, so the filter keeps every
   * sample inside any range that holds the input (16-bit samples stay 16-bit).
   */
  lemma GlitchFilterBounds(v: seq<int>, threshold: int, lo: int, hi: int)
    requires forall i :: 0 <= i < |v| ==> lo <= v[i] <= hi
    ensures var r := GlitchFiltered(v, threshold);
      forall i :: 0 <= i < |r| ==> lo <= r[i] <= hi
  {
  }

  /** Endpoints are never changed, and a sample that is not a glitch is kept. */
  lemma GlitchFilterKeeps(v: seq<int>, threshold: int, i: int)
    requires 0 <= i < |v|
    requires i == 0 || i == |v| - 1 || threshold == 0 || !IsGlitch(v, i, threshold)
    ensures GlitchFiltered(v, threshold)[i] == v[i]
  {
  }

  /** A glitch (with the filter on) is replaced by the floor of its neighbours' mean. */
  lemma GlitchFilterReplaces(v: seq<int>, threshold: int, i: int)
    requires threshold != 0 && 0 < i < |v| - 1 && IsGlitch(v, i, threshold)
    ensures GlitchFiltered(v, threshold)[i] == (v[i - 1] + v[i + 1]) / 2
    ensures 2 * GlitchFiltered(v, threshold)[i] <= v[i - 1] + v[i + 1] < 2 * GlitchFiltered(v, threshold)[i] + 2
  {
  }

  // ----- The per-file clock -----

  /**
   * The `start_time` after one `export_interval` call and the time of that
   * interval's first sample. In relative mode a new file rebinds the clock
   * to the interval's start; an existing file binds it only when unbound.
   * Absolute mode uses the raw start and leaves the clock alone.
   */
  function IntervalClock(s: Settings, startTime: Option<real>, isNew: bool, intervalStart: real): (Option<real>, real) {
    if s.absoluteTime then (startTime, intervalStart)
    else
      var st := if isNew || startTime.None? then intervalStart else startTime.value;
      (Some(st), intervalStart - st)
  }

  /** In relative mode every new file starts at time 0 and binds the clock. */
  lemma NewFileStartsAtZero(s: Settings, startTime: Option<real>, intervalStart: real)
    requires !s.absoluteTime
    ensures IntervalClock(s, startTime, true, intervalStart) == (Some(intervalStart), 0.0)
  {
  }

  /** Once bound, the clock only moves when a new file is created. */
  lemma ClockKept(s: Settings, t0: real, isNew: bool, intervalStart: real)
    requires !isNew || s.absoluteTime
    ensures IntervalClock(s, Some(t0), isNew, intervalStart).0 == Some(t0)
    ensures IntervalClock(s, Some(t0), isNew, intervalStart).1
         == if s.absoluteTime then intervalStart else intervalStart - t0
  {
  }

  // ----- Single-channel export -----

  /** One data line: the time, a space, and the sample in millivolts (or µV). */
  function SampleLine(s: Settings, time: real, value: int): string {
    FormatValue(s, time, true) + " " + VoltageText(s, value)
  }

  /** A raw sample printed as a voltage: counts times millivolts per count. */
  function VoltageText(s: Settings, value: int): string {
    FormatValue(s, Voltage(s, value), false)
  }

  /** A raw sample in millivolts: counts times millivolts per count. */
  function Voltage(s: Settings, value: int): real {
    value as real * MVPerCount(s)
  }

  /** `1.0 / sample_rate`: the time between two samples of one channel file. */
  function Period(s: Settings): real
    requires s.sampleRate != 0.0
  {
    1.0 / s.sampleRate
  }

  /** The time after `k` sample periods: `time` with `period` added `k` times. */
  function Accumulated(time: real, period: real, k: nat): real {
    if k == 0 then time else Accumulated(time, period, k - 1) + period
  }

  /** Adding the period `k` times is exact on rationals: `time + k·period`. */
  lemma {:induction false} AccumulatedExact(time: real, period: real, k: nat)
    ensures Accumulated(time, period, k) == time + k as real * period
  {
    if k > 0 {
      AccumulatedExact(time, period, k - 1);
      assert (k - 1) as real * period + period == k as real * period;
    }
  }

  /**
   * The sample times of one interval whose first sample is at `time`: each
   * next sample one `period` later, paired with its value.
   */
  function Timeline(values: seq<int>, time: real, period: real): (r: seq<(real, int)>)
    ensures |r| == |values|
  {
    if |values| == 0 then []
    else
      var k := |values| - 1;
      Timeline(values[..k], time, period) + [(Accumulated(time, period, k), values[k])]
  }

  /** Sample `k` of an interval is at `time + k·period`. */
  lemma {:induction false} TimelineAt(values: seq<int>, time: real, period: real, k: nat)
    requires k < |values|
    ensures Timeline(values, time, period)[k] == (time + k as real * period, values[k])
    decreases |values|
  {
    var n := |values| - 1;
    if k < n {
      TimelineAt(values[..n], time, period, k);
    } else {
      AccumulatedExact(time, period, k);
    }
  }

  /** The line of a sample, as a function of its time and value. */
  function LineFormat(s: Settings): (real, int) -> string {
    (time: real, value: int) => SampleLine(s, time, value)
  }

  /** One line per timed sample, each formatted by `format`. */
  function DataLines(format: (real, int) -> string, timed: seq<(real, int)>): (lines: seq<string>)
    ensures |lines| == |timed|
  {
    seq(|timed|, i requires 0 <= i < |timed| => format(timed[i].0, timed[i].1))
  }

  /** The lines of one interval. */
  function SampleLines(s: Settings, values: seq<int>, time: real, period: real): (lines: seq<string>)
    ensures |lines| == |values|
  {
    DataLines(LineFormat(s), Timeline(values, time, period))
  }

  /** Sample `k` of an interval is printed at `time + k·period`. */
  lemma SampleLinesAt(s: Settings, values: seq<int>, time: real, period: real, k: nat)
    requires k < |values|
    ensures SampleLines(s, values, time, period)[k] == SampleLine(s, time + k as real * period, values[k])
  {
    TimelineAt(values, time, period, k);
  }

  /**
   * The files and clock after `export_interval`: a missing file is created
   * with the header for `channel`, then the filtered samples are appended.
   */
  function IntervalExport(s: Settings, startTime: Option<real>, fs: Files, filename: string,
                          channel: int, iv: Interval, date: Option<string>): (Option<real>, Files)
    requires s.sampleRate != 0.0
  {
    var isNew := filename !in fs;
    var (clock, time) := IntervalClock(s, startTime, isNew, iv.start);
    var before := if isNew then Header(s, IntToString(channel), date) else fs[filename];
    (clock, fs[filename := before + SampleLines(s, GlitchFiltered(iv.samples, s.glitchThreshold), time, Period(s))])
  }

  /** `export_interval` called on each interval in turn, threading the clock. */
  function ChannelExport(s: Settings, startTime: Option<real>, fs: Files, filename: string,
                         channel: int, ivs: seq<Interval>, date: Option<string>): (Option<real>, Files)
    requires s.sampleRate != 0.0
    decreases |ivs|
  {
    if |ivs| == 0 then (startTime, fs)
    else
      var (clock, files) := ChannelExport(s, startTime, fs, filename, channel, ivs[..|ivs| - 1], date);
      IntervalExport(s, clock, files, filename, channel, ivs[|ivs| - 1], date)
  }

  /**
   * `files` is `fs` with `n` lines appended to `filename`, whose earlier
   * lines were `base`; every other file is unchanged.
   */
  ghost predicate Appended(fs: Files, files: Files, filename: string, base: seq<string>, n: nat) {
    && files.Keys == fs.Keys + {filename}
    && (forall f :: f in fs && f != filename ==> files[f] == fs[f])
    && |files[filename]| == |base| + n
    && files[filename][..|base|] == base
  }

  lemma AppendedTwice(fs: Files, mid: Files, files: Files, filename: string, base: seq<string>, n: nat, m: nat)
    requires Appended(fs, mid, filename, base, n)
    requires Appended(mid, files, filename, mid[filename], m)
    ensures Appended(fs, files, filename, base, n + m)
  {
    assert files[filename][..|base|] == files[filename][..|mid[filename]|][..|base|];
  }

  /** What a file holds before the export appends to it: its lines, or the header when it is new. */
  function FileBase(s: Settings, fs: Files, filename: string, channel: int, date: Option<string>): seq<string>
    requires s.sampleRate != 0.0
  {
    if filename in fs then fs[filename] else Header(s, IntToString(channel), date)
  }

  /** One `export_interval` touches only its file and appends one line per sample. */
  lemma IntervalExportLines(s: Settings, startTime: Option<real>, fs: Files, filename: string,
                            channel: int, iv: Interval, date: Option<string>)
    requires s.sampleRate != 0.0
    ensures Appended(fs, IntervalExport(s, startTime, fs, filename, channel, iv, date).1, filename,
                     FileBase(s, fs, filename, channel, date), |iv.samples|)
  {
    var isNew := filename !in fs;
    var time := IntervalClock(s, startTime, isNew, iv.start).1;
    var before := FileBase(s, fs, filename, channel, date);
    var added := SampleLines(s, GlitchFiltered(iv.samples, s.glitchThreshold), time, Period(s));
    assert (before + added)[..|before|] == before;
  }

  /**
   * Exporting a channel touches only its own file; that file ends up with
   * its previous lines (or the 5-line header when it is new) followed by
   * one line per sample of every interval.
   */
  lemma {:induction false} ChannelExportLines(s: Settings, startTime: Option<real>, fs: Files, filename: string,
                                              channel: int, ivs: seq<Interval>, date: Option<string>)
    requires s.sampleRate != 0.0 && |ivs| > 0
    ensures Appended(fs, ChannelExport(s, startTime, fs, filename, channel, ivs, date).1, filename,
                     FileBase(s, fs, filename, channel, date), |AllSamples(ivs)|)
    decreases |ivs|
  {
    var init := ivs[..|ivs| - 1];
    var last := ivs[|ivs| - 1];
    assert ivs == init + [last];
    AllSamplesAppend(init, [last]);
    assert AllSamples([last]) == last.samples;
    var (clock, mid) := ChannelExport(s, startTime, fs, filename, channel, init, date);
    IntervalExportLines(s, clock, mid, filename, channel, last, date);
    if |init| > 0 {
      ChannelExportLines(s, startTime, fs, filename, channel, init, date);
      var files := IntervalExport(s, clock, mid, filename, channel, last, date).1;
      AppendedTwice(fs, mid, files, filename, FileBase(s, fs, filename, channel, date),
                    |AllSamples(init)|, |last.samples|);
    } else {
      assert AllSamples(init) == [];
    }
  }

  /**
   * In relative mode, exporting a channel into a new file binds the clock
   * to the first interval's start, so the file's first sample is at time 0.
   */
  lemma FirstSampleAtZero(s: Settings, startTime: Option<real>, fs: Files, filename: string,
                          channel: int, ivs: seq<Interval>, date: Option<string>)
    requires s.sampleRate != 0.0 && !s.absoluteTime && filename !in fs
    requires |ivs| > 0 && |ivs[0].samples| > 0
    ensures var (clock, files) := ChannelExport(s, startTime, fs, filename, channel, ivs[..1], date);
      && clock == Some(ivs[0].start)
      && filename in files && |files[filename]| > 5
      && files[filename][5] == SampleLine(s, 0.0, GlitchFiltered(ivs[0].samples, s.glitchThreshold)[0])
  {
    assert ivs[..1][..0] == [];
    var v := GlitchFiltered(ivs[0].samples, s.glitchThreshold);
    SampleLinesAt(s, v, 0.0, Period(s), 0);
    IntervalExportLines(s, startTime, fs, filename, channel, ivs[0], date);
  }

  lemma DataLinesAppend(format: (real, int) -> string, timed: seq<(real, int)>, x: (real, int))
    ensures DataLines(format, timed + [x]) == DataLines(format, timed) + [format(x.0, x.1)]
  {
    assert forall i :: 0 <= i < |timed| ==> (timed + [x])[i] == timed[i];
  }

  /** One more sample of an interval: its line is appended, one period after the previous one. */
  lemma DataLinesStep(format: (real, int) -> string, values: seq<int>, time: real, period: real, i: nat)
    requires i < |values|
    ensures DataLines(format, Timeline(values[..i + 1], time, period))
         == DataLines(format, Timeline(values[..i], time, period)) + [format(Accumulated(time, period, i), values[i])]
  {
    var x := (Accumulated(time, period, i), values[i]);
    assert values[..i + 1][..i] == values[..i];
    DataLinesAppend(format, Timeline(values[..i], time, period), x);
  }

  lemma UpdateTwice<K, V>(m: map<K, V>, k: K, a: V, b: V)
    ensures m[k := a][k := b] == m[k := b]
  {
  }

  /**
   * The lines of one interval, as `export_interval`'s loop writes them: the
   * sample time starts at `start` and grows by `period` after each line.
   */
  method TimedLines(format: (real, int) -> string, values: seq<int>, start: real, period: real)
    returns (lines: seq<string>)
    ensures lines == DataLines(format, Timeline(values, start, period))
  {
    lines := [];
    var sampleTime := start;
    var i := 0;
    while i < |values|
      invariant 0 <= i <= |values|
      invariant sampleTime == Accumulated(start, period, i)
      invariant lines == DataLines(format, Timeline(values[..i], start, period))
    {
      DataLinesStep(format, values, start, period, i);
      lines := lines + [format(sampleTime, values[i])];
      sampleTime := sampleTime + period;
      i := i + 1;
    }
    assert values[..i] == values;
  }

  // ----- Multi-channel export -----

  /** One sample of the merged timeline: its time, its channel and its raw value. */
  datatype Sample = Sample(time: real, channel: int, value: int)

  /** Channel 0 carries the 128 Hz clock signal; every other channel is sampled at 512 Hz. */
  function ChannelRate(channel: int): real {
    if channel == 0 then 128.0 else 512.0
  }

  /** The samples of one interval: sample `i` at `start + i / rate`, after the glitch filter. */
  function IntervalSamples(s: Settings, channel: int, iv: Interval): (r: seq<Sample>)
    ensures |r| == |iv.samples|
  {
    var v := GlitchFiltered(iv.samples, s.glitchThreshold);
    seq(|v|, i requires 0 <= i < |v| => Sample(iv.start + i as real * (1.0 / ChannelRate(channel)), channel, v[i]))
  }

  /** The samples of all of one channel's intervals, interval after interval. */
  function ChannelSamples(s: Settings, channel: int, ivs: seq<Interval>): seq<Sample>
    decreases |ivs|
  {
    if |ivs| == 0 then []
    else ChannelSamples(s, channel, ivs[..|ivs| - 1]) + IntervalSamples(s, channel, ivs[|ivs| - 1])
  }

  /** The unsorted pool: every channel's samples, channel after channel. */
  function Pool(s: Settings, channels: seq<int>, data: map<int, seq<Interval>>): seq<Sample>
    requires forall i :: 0 <= i < |channels| ==> channels[i] in data
    decreases |channels|
  {
    if |channels| == 0 then []
    else
      var c := channels[|channels| - 1];
      Pool(s, channels[..|channels| - 1], data) + ChannelSamples(s, c, data[c])
  }

  /** The pool is sorted by time, then by channel. */
  function SampleKey(x: Sample): Key {
    Key(x.time, x.channel)
  }

  /** Python's `round(t, 9)`: the nearest multiple of a nanosecond, ties to even. */
  function Round9(t: real): real {
    RoundHalfEven(Shift(t, 9)) as real / Pow10(9) as real
  }

  /** Rounding moves a time by at most half a nanosecond. */
  lemma Round9Close(t: real)
    ensures Round9(t) - 0.0000000005 <= t <= Round9(t) + 0.0000000005
  {
    PowTenNine();
    var n := RoundHalfEven(Shift(t, 9));
    assert n as real - 0.5 <= t * 1000000000.0 <= n as real + 0.5;
  }

  /**
   * The rows' cells: each sample, in pool order, is stored under its rounded
   * time and its channel; a later sample overwrites an earlier one.
   */
  function Groups(pool: seq<Sample>): map<real, map<int, int>>
    decreases |pool|
  {
    if |pool| == 0 then map[]
    else
      var g := Groups(pool[..|pool| - 1]);
      var x := pool[|pool| - 1];
      var t := Round9(x.time);
      var cells := if t in g then g[t] else map[];
      g[t := cells[x.channel := x.value]]
  }

  /** Sample `x` lands in the cell at time `t`, channel `c`. */
  predicate Lands(x: Sample, t: real, c: int) {
    Round9(x.time) == t && x.channel == c
  }

  /** There is a row for a time exactly when some sample rounds to it. */
  lemma {:induction false} GroupsKeys(pool: seq<Sample>, t: real)
    ensures t in Groups(pool) <==> exists i :: 0 <= i < |pool| && Round9(pool[i].time) == t
    decreases |pool|
  {
    if |pool| > 0 {
      var init := pool[..|pool| - 1];
      GroupsKeys(init, t);
      if exists i :: 0 <= i < |init| && Round9(init[i].time) == t {
        var i :| 0 <= i < |init| && Round9(init[i].time) == t;
        assert pool[i] == init[i];
      }
      if exists i :: 0 <= i < |pool| && Round9(pool[i].time) == t {
        var i :| 0 <= i < |pool| && Round9(pool[i].time) == t;
        if i < |init| {
          assert init[i] == pool[i];
        }
      }
    }
  }

  /**
   * A cell is filled exactly when some sample lands in it, and it holds the
   * value of the last such sample.
   */
  lemma {:induction false} GroupsCell(pool: seq<Sample>, t: real, c: int)
    ensures (t in Groups(pool) && c in Groups(pool)[t]) <==> exists i :: 0 <= i < |pool| && Lands(pool[i], t, c)
    ensures forall j ::
              0 <= j < |pool| && Lands(pool[j], t, c) && (forall i :: j < i < |pool| ==> !Lands(pool[i], t, c)) ==>
              t in Groups(pool) && c in Groups(pool)[t] && Groups(pool)[t][c] == pool[j].value
    decreases |pool|
  {
    if |pool| > 0 {
      var init := pool[..|pool| - 1];
      var x := pool[|pool| - 1];
      GroupsCell(init, t, c);
      assert forall i :: 0 <= i < |init| ==> init[i] == pool[i];
      if exists i :: 0 <= i < |pool| && Lands(pool[i], t, c) {
        var i :| 0 <= i < |pool| && Lands(pool[i], t, c);
        if i < |init| {
          assert Lands(init[i], t, c);
        }
      }
      forall j | 0 <= j < |pool| && Lands(pool[j], t, c) && (forall i :: j < i < |pool| ==> !Lands(pool[i], t, c))
        ensures t in Groups(pool) && c in Groups(pool)[t] && Groups(pool)[t][c] == pool[j].value
      {
        if j < |init| {
          assert !Lands(x, t, c);
          assert Lands(init[j], t, c) && forall i :: j < i < |init| ==> !Lands(init[i], t, c);
        }
      }
    }
  }

  /** The cell of channel `c`: the sample in millivolts (or µV), or empty when the channel has none. */
  function Cell(s: Settings, cells: map<int, int>, c: int): string {
    if c in cells then VoltageText(s, cells[c]) else ""
  }

  /** One row: the time, then one cell per channel, separated by tabs. */
  function Row(s: Settings, channels: seq<int>, time: real, cells: map<int, int>): string {
    Join([FormatValue(s, time, true)] + seq(|channels|, k requires 0 <= k < |channels| => Cell(s, cells, channels[k])), "\t")
  }

  /** The row of a time, as a function of its printed time and its cells. */
  function RowFormat(s: Settings, channels: seq<int>): (real, map<int, int>) -> string {
    (time: real, cells: map<int, int>) => Row(s, channels, time, cells)
  }

  /** One row per time, in the given order, printed relative to `origin`. */
  function Rows(format: (real, map<int, int>) -> string, times: seq<real>, groups: map<real, map<int, int>>,
                origin: real): (rows: seq<string>)
    requires forall i :: 0 <= i < |times| ==> times[i] in groups
    ensures |rows| == |times|
  {
    seq(|times|, i requires 0 <= i < |times| && times[i] in groups => format(times[i] - origin, groups[times[i]]))
  }

  /** No cell holds a tab, so every row has exactly one tab per channel. */
  lemma RowTabs(s: Settings, channels: seq<int>, time: real, cells: map<int, int>)
    ensures CountChar(Row(s, channels, time, cells), '\t') == |channels|
  {
    var parts := [FormatValue(s, time, true)] + seq(|channels|, k requires 0 <= k < |channels| => Cell(s, cells, channels[k]));
    forall k | 0 <= k < |parts|
      ensures CountChar(parts[k], '\t') == 0
    {
      if k == 0 {
        NoTabInValue(s, time, true);
      } else {
        CellHasNoTab(s, cells, channels[k - 1]);
      }
    }
    JoinSeparatorCount(parts, '\t');
  }

  lemma CellHasNoTab(s: Settings, cells: map<int, int>, c: int)
    ensures CountChar(Cell(s, cells, c), '\t') == 0
  {
    if c in cells {
      NoTabInVoltage(s, cells[c]);
    } else {
      assert Cell(s, cells, c) == "";
    }
  }

  lemma NoTabInVoltage(s: Settings, value: int)
    ensures CountChar(VoltageText(s, value), '\t') == 0
  {
    NoTabInValue(s, Voltage(s, value), false);
  }

  lemma NoTabInValue(s: Settings, value: real, isTime: bool)
    ensures CountChar(FormatValue(s, value, isTime), '\t') == 0
  {
    FormatValueChars(s, value, isTime);
    NoCharCountZero(FormatValue(s, value, isTime), '\t');
  }

  /**
   * The header of the merged file: the lines of a one-channel header, except
   * that the title lists every channel id.
   */
  function MultiHeader(s: Settings, channels: seq<int>, date: Option<string>): (h: seq<string>)
    requires s.sampleRate != 0.0
    ensures |h| == 5
    ensures h[3] == "ChannelTitle= " + ChannelTitles(channels)
  {
    Header(s, ChannelTitles(channels), date)
  }

  /** Apart from the title, the merged header has the lines of any one-channel header. */
  lemma MultiHeaderLines(s: Settings, channels: seq<int>, date: Option<string>, title: string)
    requires s.sampleRate != 0.0
    ensures forall i :: 0 <= i < 5 && i != 3 ==> MultiHeader(s, channels, date)[i] == Header(s, title, date)[i]
  {
  }

  /** The first channel, in the given order, that has no intervals. */
  function FirstEmpty(channels: seq<int>, data: map<int, seq<Interval>>): (r: Option<int>)
    requires forall i :: 0 <= i < |channels| ==> channels[i] in data
    ensures r.None? <==> forall i :: 0 <= i < |channels| ==> data[channels[i]] != []
    ensures r.Some? ==> exists i :: (0 <= i < |channels| && channels[i] == r.value && data[r.value] == []
      && forall j :: 0 <= j < i ==> data[channels[j]] != [])
    decreases |channels|
  {
    if |channels| == 0 then None
    else if data[channels[0]] == [] then Some(channels[0])
    else
      var r := FirstEmpty(channels[1..], data);
      assert forall i :: 1 <= i < |channels| ==> channels[1..][i - 1] == channels[i];
      r
  }

  /**
   * `export_multi_channel`: the clock, the files and the result after
   * merging `data` into `outputFile`.
   */
  function MultiChannelExport(s: Settings, startTime: Option<real>, fs: Files, outputFile: string,
                              data: map<int, seq<Interval>>, date: Option<string>): (Option<real>, Files, Result<string>)
    requires s.sampleRate != 0.0
  {
    var channels := SortedInts(data.Keys);
    if |data| == 0 then (startTime, fs, Err("No channel data provided"))
    else if FirstEmpty(channels, data).Some? then
      (startTime, fs, Err("Channel " + IntToString(FirstEmpty(channels, data).value) + " has no data"))
    else
      var (clock, files) := Merged(s, startTime, fs, outputFile, channels, data, date);
      (clock, files, Ok(outputFile))
  }

  /**
   * The merge proper: the file is (re)written with the header and one row
   * per rounded time; in relative mode an unset clock is bound to the
   * earliest time (or 0 when there is no sample at all).
   */
  function Merged(s: Settings, startTime: Option<real>, fs: Files, outputFile: string, channels: seq<int>,
                  data: map<int, seq<Interval>>, date: Option<string>): (Option<real>, Files)
    requires s.sampleRate != 0.0
    requires forall i :: 0 <= i < |channels| ==> channels[i] in data
  {
    var groups := Groups(SortBy(Pool(s, channels, data), SampleKey));
    var times := SortedReals(groups.Keys);
    var clock := MergeClock(s, startTime, times);
    var origin := if s.absoluteTime then 0.0 else clock.value;
    (clock, fs[outputFile := MultiHeader(s, channels, date) + Rows(RowFormat(s, channels), times, groups, origin)])
  }

  /** The clock after a merge: bound to the first time only when relative and still unset. */
  function MergeClock(s: Settings, startTime: Option<real>, times: seq<real>): (clock: Option<real>)
    ensures !s.absoluteTime ==> clock.Some?
  {
    if s.absoluteTime || startTime.Some? then startTime else Some(if |times| > 0 then times[0] else 0.0)
  }

  /** The checking loop of `export_multi_channel`: the first channel without intervals. */
  method FindEmptyChannel(channels: seq<int>, data: map<int, seq<Interval>>) returns (r: Option<int>)
    requires forall i :: 0 <= i < |channels| ==> channels[i] in data
    ensures r == FirstEmpty(channels, data)
  {
    var k := 0;
    while k < |channels|
      invariant 0 <= k <= |channels|
      invariant FirstEmpty(channels, data) == FirstEmpty(channels[k..], data)
    {
      if data[channels[k]] == [] {
        return Some(channels[k]);
      }
      assert channels[k..][1..] == channels[k + 1..];
      k := k + 1;
    }
    return None;
  }

  /** Consecutive samples of one interval are one period of their channel apart. */
  lemma IntervalSamplesSpacing(s: Settings, channel: int, iv: Interval, i: nat)
    requires i + 1 < |iv.samples|
    ensures var r := IntervalSamples(s, channel, iv);
      r[i + 1].time - r[i].time == 1.0 / ChannelRate(channel) && r[0].time == iv.start
  {
  }

  /** A channel contributes one sample per sample of its intervals. */
  lemma {:induction false} ChannelSamplesLength(s: Settings, channel: int, ivs: seq<Interval>)
    ensures |ChannelSamples(s, channel, ivs)| == |AllSamples(ivs)|
    decreases |ivs|
  {
    if |ivs| > 0 {
      var init := ivs[..|ivs| - 1];
      ChannelSamplesLength(s, channel, init);
      assert ivs == init + [ivs[|ivs| - 1]];
      AllSamplesAppend(init, [ivs[|ivs| - 1]]);
      assert AllSamples([ivs[|ivs| - 1]]) == ivs[|ivs| - 1].samples;
    }
  }

  /** Every sample of a channel carries that channel. */
  lemma {:induction false} ChannelSamplesChannel(s: Settings, channel: int, ivs: seq<Interval>, x: Sample)
    requires x in ChannelSamples(s, channel, ivs)
    ensures x.channel == channel
    decreases |ivs|
  {
    var init := ivs[..|ivs| - 1];
    if x in ChannelSamples(s, channel, init) {
      ChannelSamplesChannel(s, channel, init, x);
    }
  }

  /** The pool holds exactly the samples of the listed channels. */
  lemma {:induction false} PoolMembers(s: Settings, channels: seq<int>, data: map<int, seq<Interval>>, x: Sample)
    requires forall i :: 0 <= i < |channels| ==> channels[i] in data
    ensures x in Pool(s, channels, data) <==> x.channel in channels && x in ChannelSamples(s, x.channel, data[x.channel])
    decreases |channels|
  {
    if |channels| > 0 {
      var init := channels[..|channels| - 1];
      var c := channels[|channels| - 1];
      PoolMembers(s, init, data, x);
      assert channels == init + [c];
      if x in ChannelSamples(s, c, data[c]) {
        ChannelSamplesChannel(s, c, data[c], x);
      }
    }
  }

  /** The distinct rounded times of a list of samples. */
  function RoundedTimes(pool: seq<Sample>): set<real> {
    set i | 0 <= i < |pool| :: Round9(pool[i].time)
  }

  /** The rows are keyed by exactly the rounded sample times. */
  lemma GroupsKeySet(pool: seq<Sample>)
    ensures Groups(pool).Keys == RoundedTimes(pool)
  {
    forall t
      ensures t in Groups(pool) <==> t in RoundedTimes(pool)
    {
      GroupsKeys(pool, t);
    }
  }

  /** Reordering the samples does not change which times occur. */
  lemma RoundedTimesPermutation(a: seq<Sample>, b: seq<Sample>)
    requires multiset(a) == multiset(b)
    ensures RoundedTimes(a) == RoundedTimes(b)
  {
    forall i | 0 <= i < |a|
      ensures Round9(a[i].time) in RoundedTimes(b)
    {
      assert a[i] in multiset(b);
      var j :| 0 <= j < |b| && b[j] == a[i];
    }
    forall j | 0 <= j < |b|
      ensures Round9(b[j].time) in RoundedTimes(a)
    {
      assert b[j] in multiset(a);
      var i :| 0 <= i < |a| && a[i] == b[j];
    }
  }

  /**
   * The error cases of `export_multi_channel` change neither the files nor
   * the clock: no channel at all, or (the lowest) channel without intervals.
   */
  lemma MultiChannelErrors(s: Settings, startTime: Option<real>, fs: Files, outputFile: string,
                           data: map<int, seq<Interval>>, date: Option<string>, c: int)
    requires s.sampleRate != 0.0
    ensures data == map[] ==>
              MultiChannelExport(s, startTime, fs, outputFile, data, date) == (startTime, fs, Err("No channel data provided"))
    ensures c in data && data[c] == [] && (forall d :: d in data && d < c ==> data[d] != []) ==>
              MultiChannelExport(s, startTime, fs, outputFile, data, date)
              == (startTime, fs, Err("Channel " + IntToString(c) + " has no data"))
  {
    if c in data && data[c] == [] && (forall d :: d in data && d < c ==> data[d] != []) {
      LowestEmptyChannel(data, c);
    }
  }

  /** Channels are checked in ascending order, so the one reported is the lowest without intervals. */
  lemma LowestEmptyChannel(data: map<int, seq<Interval>>, c: int)
    requires c in data && data[c] == [] && forall d :: d in data && d < c ==> data[d] != []
    ensures FirstEmpty(SortedInts(data.Keys), data) == Some(c)
  {
    var channels := SortedInts(data.Keys);
    assert c in channels;
    FirstEmptyAscending(channels, data, c);
  }

  lemma {:induction false} FirstEmptyAscending(channels: seq<int>, data: map<int, seq<Interval>>, c: int)
    requires StrictlyIncreasing(channels) && forall i :: 0 <= i < |channels| ==> channels[i] in data
    requires c in channels && data[c] == []
    requires forall i :: 0 <= i < |channels| && channels[i] < c ==> data[channels[i]] != []
    ensures FirstEmpty(channels, data) == Some(c)
    decreases |channels|
  {
    if channels[0] != c {
      var j :| 0 <= j < |channels| && channels[j] == c;
      assert channels[0] < channels[j];
      assert c in channels[1..] by {
        assert channels[1..][j - 1] == c;
      }
      FirstEmptyAscending(channels[1..], data, c);
    }
  }

  /**
   * When every channel has intervals, `export_multi_channel` succeeds and
   * its effect is the merge of all channels in ascending order, one title
   * per channel (`MergedFile` says what the merged file holds).
   */
  lemma MultiChannelSuccess(s: Settings, startTime: Option<real>, fs: Files, outputFile: string,
                            data: map<int, seq<Interval>>, date: Option<string>)
    requires s.sampleRate != 0.0
    requires data != map[] && forall c :: c in data ==> data[c] != []
    ensures var channels := SortedInts(data.Keys);
      && |channels| == |data|
      && (forall i :: 0 <= i < |channels| ==> channels[i] in data)
      && var (clock, files) := Merged(s, startTime, fs, outputFile, channels, data, date);
         MultiChannelExport(s, startTime, fs, outputFile, data, date) == (clock, files, Ok(outputFile))
  {
    NoEmptyChannel(data);
  }

  /** When every channel has intervals, the check finds none empty, and there is one title per channel. */
  lemma NoEmptyChannel(data: map<int, seq<Interval>>)
    requires forall c :: c in data ==> data[c] != []
    ensures var channels := SortedInts(data.Keys);
      && FirstEmpty(channels, data).None? && |channels| == |data|
      && forall i :: 0 <= i < |channels| ==> channels[i] in data
  {
    var channels := SortedInts(data.Keys);
    forall i | 0 <= i < |channels|
      ensures channels[i] in data && data[channels[i]] != []
    {
      assert channels[i] in channels;
      assert channels[i] in data.Keys;
    }
    assert |data.Keys| == |data|;
  }

  lemma MergedFile(s: Settings, startTime: Option<real>, fs: Files, outputFile: string, channels: seq<int>,
                   data: map<int, seq<Interval>>, date: Option<string>)
    requires s.sampleRate != 0.0
    requires forall i :: 0 <= i < |channels| ==> channels[i] in data
    ensures var (clock, files) := Merged(s, startTime, fs, outputFile, channels, data, date);
      && files == fs[outputFile := files[outputFile]]
      && files[outputFile][..5] == MultiHeader(s, channels, date)
      && |files[outputFile]| == 5 + |RoundedTimes(Pool(s, channels, data))|
      && forall i :: 5 <= i < |files[outputFile]| ==> CountChar(files[outputFile][i], '\t') == |channels|
  {
    var groups := Groups(SortBy(Pool(s, channels, data), SampleKey));
    var times := SortedReals(groups.Keys);
    var clock := MergeClock(s, startTime, times);
    var origin := if s.absoluteTime then 0.0 else clock.value;
    var header := MultiHeader(s, channels, date);
    var rows := Rows(RowFormat(s, channels), times, groups, origin);
    assert Merged(s, startTime, fs, outputFile, channels, data, date) == (clock, fs[outputFile := header + rows]);
    RowCount(s, channels, data);
    RowsTabs(s, channels, times, groups, origin);
    HeaderThenRows(header, rows, 5, |channels|);
  }

  /** `h` header lines, then rows that each hold `n` tabs. */
  lemma HeaderThenRows(header: seq<string>, rows: seq<string>, h: nat, n: nat)
    requires |header| == h && forall i :: 0 <= i < |rows| ==> CountChar(rows[i], '\t') == n
    ensures (header + rows)[..h] == header && |header + rows| == h + |rows|
    ensures forall i :: h <= i < |header + rows| ==> CountChar((header + rows)[i], '\t') == n
  {
    assert forall i :: h <= i < |header + rows| ==> (header + rows)[i] == rows[i - h];
  }

  /** One row per distinct rounded time of the pool. */
  lemma RowCount(s: Settings, channels: seq<int>, data: map<int, seq<Interval>>)
    requires forall i :: 0 <= i < |channels| ==> channels[i] in data
    ensures |SortedReals(Groups(SortBy(Pool(s, channels, data), SampleKey)).Keys)| == |RoundedTimes(Pool(s, channels, data))|
  {
    var pool := Pool(s, channels, data);
    var sorted := SortBy(pool, SampleKey);
    GroupsKeySet(sorted);
    RoundedTimesPermutation(sorted, pool);
  }

  /** Every row of a merge has one tab per channel. */
  lemma RowsTabs(s: Settings, channels: seq<int>, times: seq<real>, groups: map<real, map<int, int>>, origin: real)
    requires forall i :: 0 <= i < |times| ==> times[i] in groups
    ensures forall i :: 0 <= i < |times| ==> CountChar(Rows(RowFormat(s, channels), times, groups, origin)[i], '\t') == |channels|
  {
    forall i | 0 <= i < |times|
      ensures CountChar(Rows(RowFormat(s, channels), times, groups, origin)[i], '\t') == |channels|
    {
      RowTabs(s, channels, times[i] - origin, groups[times[i]]);
    }
  }

  /**
   * The times of the rows ascend strictly; in relative mode the first merge
   * binds the clock to the earliest time, and a bound clock is kept.
   */
  lemma MergedTimes(s: Settings, startTime: Option<real>, fs: Files, outputFile: string, channels: seq<int>,
                    data: map<int, seq<Interval>>, date: Option<string>)
    requires s.sampleRate != 0.0
    requires forall i :: 0 <= i < |channels| ==> channels[i] in data
    ensures var groups := Groups(SortBy(Pool(s, channels, data), SampleKey));
      var times := SortedReals(groups.Keys);
      var clock := Merged(s, startTime, fs, outputFile, channels, data, date).0;
      && (forall i, j :: 0 <= i < j < |times| ==> times[i] < times[j])
      && (s.absoluteTime || startTime.Some? ==> clock == startTime)
      && (!s.absoluteTime && startTime.None? && |times| > 0 ==>
            clock == Some(times[0]) && forall t :: t in groups ==> times[0] <= t)
  {
    var groups := Groups(SortBy(Pool(s, channels, data), SampleKey));
    if !s.absoluteTime && startTime.None? && groups.Keys != {} {
      SortedRealsFirst(groups.Keys);
    }
  }

  /** In relative mode the first merge prints its first row at time 0. */
  lemma MergedFirstRow(s: Settings, fs: Files, outputFile: string, channels: seq<int>,
                       data: map<int, seq<Interval>>, date: Option<string>)
    requires s.sampleRate != 0.0 && !s.absoluteTime
    requires forall i :: 0 <= i < |channels| ==> channels[i] in data
    ensures var groups := Groups(SortBy(Pool(s, channels, data), SampleKey));
      var times := SortedReals(groups.Keys);
      var files := Merged(s, None, fs, outputFile, channels, data, date).1;
      |times| > 0 ==> |files[outputFile]| > 5 && files[outputFile][5] == Row(s, channels, 0.0, groups[times[0]])
  {
    var groups := Groups(SortBy(Pool(s, channels, data), SampleKey));
    var times := SortedReals(groups.Keys);
    if |times| > 0 {
      var header := MultiHeader(s, channels, date);
      var rows := Rows(RowFormat(s, channels), times, groups, times[0]);
      assert Merged(s, None, fs, outputFile, channels, data, date).1 == fs[outputFile := header + rows];
      assert (header + rows)[5] == rows[0];
      FirstRowAtZero(s, channels, times, groups);
    }
  }

  lemma FirstRowAtZero(s: Settings, channels: seq<int>, times: seq<real>, groups: map<real, map<int, int>>)
    requires |times| > 0 && forall i :: 0 <= i < |times| ==> times[i] in groups
    ensures Rows(RowFormat(s, channels), times, groups, times[0])[0] == Row(s, channels, 0.0, groups[times[0]])
  {
  }

  /** The first of the sorted times is the earliest. */
  lemma SortedRealsFirst(keys: set<real>)
    requires keys != {}
    ensures forall t :: t in keys ==> SortedReals(keys)[0] <= t
  {
    var times := SortedReals(keys);
    forall t | t in keys
      ensures times[0] <= t
    {
      assert t in times;
      var k :| 0 <= k < |times| && times[k] == t;
      assert k == 0 || times[0] < times[k];
    }
  }

  /** The grouping loop of `export_multi_channel`: one dictionary of cells per rounded time. */
  method GroupByTime(pool: seq<Sample>) returns (groups: map<real, map<int, int>>)
    ensures groups == Groups(pool)
  {
    groups := map[];
    var i := 0;
    while i < |pool|
      invariant 0 <= i <= |pool|
      invariant groups == Groups(pool[..i])
    {
      var x := pool[i];
      var t := Round9(x.time);
      assert pool[..i + 1][..i] == pool[..i];
      if t !in groups {
        UpdateTwice(groups, t, map[], map[][x.channel := x.value]);
        groups := groups[t := map[]];
      }
      groups := groups[t := groups[t][x.channel := x.value]];
      i := i + 1;
    }
    assert pool[..i] == pool;
  }

  /** The writing loop of `export_multi_channel`: one row per time, in order. */
  method TimedRows(format: (real, map<int, int>) -> string, times: seq<real>, groups: map<real, map<int, int>>,
                   origin: real) returns (rows: seq<string>)
    requires forall i :: 0 <= i < |times| ==> times[i] in groups
    ensures rows == Rows(format, times, groups, origin)
  {
    rows := [];
    var i := 0;
    while i < |times|
      invariant 0 <= i <= |times|
      invariant rows == Rows(format, times[..i], groups, origin)
    {
      var t := times[i];
      rows := rows + [format(t - origin, groups[t])];
      i := i + 1;
    }
    assert times[..i] == times;
  }

  /** The exporter: fixed settings and the relative-time origin, bound by the first export. */
  class LabChartExporter {
    const settings: Settings
    /** The time subtracted from every printed time in relative mode; unset until first needed. */
    var startTime: Option<real>

    constructor (settings: Settings)
      ensures this.settings == settings && startTime == None
    {
      this.settings := settings;
      startTime := None;
    }

    /** `_apply_glitch_filter`: a copy of the signal with its glitches replaced. */
    method ApplyGlitchFilter(values: seq<int>) returns (filtered: seq<int>)
      ensures filtered == GlitchFiltered(values, settings.glitchThreshold)
    {
      var threshold := settings.glitchThreshold;
      if threshold == 0 || |values| < 3 {
        return values;
      }
      filtered := values;
      var i := 1;
      while i < |values| - 1
        invariant 1 <= i <= |values| - 1 && |filtered| == |values|
        invariant forall j :: 0 <= j < |values| ==>
          filtered[j] == if 0 < j < i && IsGlitch(values, j, threshold) then (values[j - 1] + values[j + 1]) / 2 else values[j]
      {
        var diffPrev := AbsInt(values[i] - values[i - 1]);
        var diffNext := AbsInt(values[i] - values[i + 1]);
        if diffPrev > threshold && diffNext > threshold {
          filtered := filtered[i := (values[i - 1] + values[i + 1]) / 2];
        }
        i := i + 1;
      }
    }

    /**
     * `export_interval`: creates the file with its header when it is
     * missing, appends one line per filtered sample and returns how many.
     */
    method ExportInterval(fs: Files, filename: string, channel: int, values: seq<int>,
                          intervalStart: real, date: Option<string>) returns (files: Files, count: nat)
      requires settings.sampleRate != 0.0
      modifies this`startTime
      ensures count == |values|
      ensures (startTime, files)
           == IntervalExport(settings, old(startTime), fs, filename, channel, Interval(intervalStart, values), date)
    {
      ghost var isNew := filename !in fs;
      files := fs;
      if filename !in files {
        files := files[filename := Header(settings, IntToString(channel), date)];
        if !settings.absoluteTime {
          startTime := Some(intervalStart);
        }
      }
      var filtered := ApplyGlitchFilter(values);
      var start: real;
      if settings.absoluteTime {
        start := intervalStart;
      } else {
        if startTime.None? {
          startTime := Some(intervalStart);
        }
        start := intervalStart - startTime.value;
      }
      assert (startTime, start) == IntervalClock(settings, old(startTime), isNew, intervalStart);
      assert files[filename] == FileBase(settings, fs, filename, channel, date);
      var lines := TimedLines(LineFormat(settings), filtered, start, 1.0 / settings.sampleRate);
      var before := files[filename];
      files := files[filename := before + lines];
      if isNew {
        UpdateTwice(fs, filename, before, before + lines);
      }
      count := |filtered|;
    }

    /** `export_channel`: every interval into `E<n>.txt` under `outputDir`, in order. */
    method ExportChannel(fs: Files, outputDir: string, channel: int, intervals: seq<Interval>,
                         date: Option<string>) returns (files: Files, filename: string)
      requires settings.sampleRate != 0.0
      modifies this`startTime
      ensures filename == PathJoin(outputDir, ChannelFileName(channel))
      ensures (startTime, files) == ChannelExport(settings, old(startTime), fs, filename, channel, intervals, date)
    {
      filename := PathJoin(outputDir, ChannelFileName(channel));
      files := fs;
      var i := 0;
      while i < |intervals|
        invariant 0 <= i <= |intervals|
        invariant (startTime, files)
               == ChannelExport(settings, old(startTime), fs, filename, channel, intervals[..i], date)
      {
        var iv := intervals[i];
        assert intervals[..i + 1][..i] == intervals[..i];
        var count;
        files, count := ExportInterval(files, filename, channel, iv.samples, iv.start, date);
        i := i + 1;
      }
      assert intervals[..i] == intervals;
    }

    /** The samples of one interval, after the glitch filter, at the channel's own rate. */
    method CollectInterval(channel: int, iv: Interval) returns (samples: seq<Sample>)
      ensures samples == IntervalSamples(settings, channel, iv)
    {
      var filtered := ApplyGlitchFilter(iv.samples);
      var period := 1.0 / ChannelRate(channel);
      samples := [];
      var i := 0;
      while i < |filtered|
        invariant 0 <= i <= |filtered|
        invariant samples == IntervalSamples(settings, channel, iv)[..i]
      {
        samples := samples + [Sample(iv.start + i as real * period, channel, filtered[i])];
        i := i + 1;
      }
    }

    /** The collecting loops of `export_multi_channel`: channel by channel, interval by interval. */
    method CollectSamples(channels: seq<int>, data: map<int, seq<Interval>>) returns (pool: seq<Sample>)
      requires forall i :: 0 <= i < |channels| ==> channels[i] in data
      ensures pool == Pool(settings, channels, data)
    {
      pool := [];
      var k := 0;
      while k < |channels|
        invariant 0 <= k <= |channels|
        invariant pool == Pool(settings, channels[..k], data)
      {
        var c := channels[k];
        var ivs := data[c];
        ghost var before := pool;
        var j := 0;
        while j < |ivs|
          invariant 0 <= j <= |ivs|
          invariant pool == before + ChannelSamples(settings, c, ivs[..j])
        {
          var samples := CollectInterval(c, ivs[j]);
          assert ivs[..j + 1][..j] == ivs[..j];
          pool := pool + samples;
          j := j + 1;
        }
        assert ivs[..j] == ivs;
        assert channels[..k + 1][..k] == channels[..k];
        k := k + 1;
      }
      assert channels[..k] == channels;
    }

    /** The pool of every channel's samples, sorted by time and channel, grouped by rounded time. */
    method GroupSamples(channels: seq<int>, data: map<int, seq<Interval>>) returns (groups: map<real, map<int, int>>)
      requires forall i :: 0 <= i < |channels| ==> channels[i] in data
      ensures groups == Groups(SortBy(Pool(settings, channels, data), SampleKey))
    {
      var pool := CollectSamples(channels, data);
      var sorted := SortBy(pool, SampleKey);
      groups := GroupByTime(sorted);
    }

    /** Binds an unset clock to the first time in relative mode; returns what times are printed relative to. */
    method BindClock(times: seq<real>) returns (origin: real)
      modifies this`startTime
      ensures startTime == MergeClock(settings, old(startTime), times)
      ensures origin == if settings.absoluteTime then 0.0 else startTime.value
    {
      if !settings.absoluteTime && startTime.None? {
        startTime := Some(if |times| > 0 then times[0] else 0.0);
      }
      origin := if settings.absoluteTime then 0.0 else startTime.value;
    }

    /** The merge proper: header, pooled samples sorted and grouped, one row per time. */
    method Merge(fs: Files, outputFile: string, channels: seq<int>, data: map<int, seq<Interval>>,
                 date: Option<string>) returns (files: Files)
      requires settings.sampleRate != 0.0
      requires forall i :: 0 <= i < |channels| ==> channels[i] in data
      modifies this`startTime
      ensures (startTime, files) == Merged(settings, old(startTime), fs, outputFile, channels, data, date)
    {
      var header := MultiHeader(settings, channels, date);
      files := fs[outputFile := header];
      var groups := GroupSamples(channels, data);
      var times := SortedReals(groups.Keys);
      assert forall i :: 0 <= i < |times| ==> times[i] in groups by {
        forall i | 0 <= i < |times|
          ensures times[i] in groups
        {
          assert times[i] in times;
        }
      }
      var origin := BindClock(times);
      var rows := TimedRows(RowFormat(settings, channels), times, groups, origin);
      UpdateTwice(fs, outputFile, header, header + rows);
      files := files[outputFile := header + rows];
    }

    /**
     * `export_multi_channel`: every channel merged into one file, one row per
     * rounded sample time, with a cell per channel.
     */
    method ExportMultiChannel(fs: Files, outputFile: string, data: map<int, seq<Interval>>,
                              date: Option<string>) returns (files: Files, r: Result<string>)
      requires settings.sampleRate != 0.0
      modifies this`startTime
      ensures (startTime, files, r) == MultiChannelExport(settings, old(startTime), fs, outputFile, data, date)
    {
      if |data| == 0 {
        return fs, Err("No channel data provided");
      }
      var channels := SortedInts(data.Keys);
      var empty := FindEmptyChannel(channels, data);
      if empty.Some? {
        return fs, Err("Channel " + IntToString(empty.value) + " has no data");
      }
      files := Merge(fs, outputFile, channels, data, date);
      r := Ok(outputFile);
    }
  }
}
