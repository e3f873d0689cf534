/**
 * The NDF-to-text converter: for each selected channel of an archive it
 * writes `<output>/<archive name>/E<channel>.txt` in one of three layouts:
 * "simple" (one sample per line), "detailed" (interval markers, then time,
 * index and sample per line) or "csv". Files are line lists; the conversion
 * date is a parameter.
 */
module NdfToTextConverter {
  import opened Common
  import opened Text
  import opened Numerals
  import opened Sorting
  import opened Paths
  import opened Records
  import opened Intervals
  import opened NdfMetadata
  import opened NdfReader

  // ----- Channel selection -----

  /** The requested channels that are available, in request order (repeats kept). */
  function Present(requested: seq<int>, available: seq<int>): seq<int>
    decreases |requested|
  {
    if |requested| == 0 then []
    else
      var c := requested[|requested| - 1];
      Present(requested[..|requested| - 1], available) + (if c in available then [c] else [])
  }

  /** The requested channels that are not available: the ones the warning lists. */
  function Missing(requested: seq<int>, available: seq<int>): seq<int>
    decreases |requested|
  {
    if |requested| == 0 then []
    else
      var c := requested[|requested| - 1];
      Missing(requested[..|requested| - 1], available) + (if c in available then [] else [c])
  }

  /** The channels to convert: all available ones, or the requested ones that are available. */
  function SelectChannels(requested: Option<seq<int>>, available: seq<int>): seq<int> {
    if requested.None? then available else Present(requested.value, available)
  }

  /** Every requested channel is either converted or reported missing, repeats included. */
  lemma {:induction false} SelectionCounts(requested: seq<int>, available: seq<int>)
    ensures multiset(Present(requested, available)) + multiset(Missing(requested, available)) == multiset(requested)
    decreases |requested|
  {
    if |requested| > 0 {
      var init := requested[..|requested| - 1];
      var c := requested[|requested| - 1];
      SelectionCounts(init, available);
      assert requested == init + [c];
      assert multiset(requested) == multiset(init) + multiset{c};
      var present := Present(init, available);
      var missing := Missing(init, available);
      if c in available {
        assert Present(requested, available) == present + [c];
        assert Missing(requested, available) == missing;
      } else {
        assert Present(requested, available) == present;
        assert Missing(requested, available) == missing + [c];
      }
    }
  }

  /** A channel is converted exactly when it is requested and available; missing when it is not available. */
  lemma {:induction false} SelectionMembers(requested: seq<int>, available: seq<int>)
    ensures forall c :: c in Present(requested, available) <==> c in requested && c in available
    ensures forall c :: c in Missing(requested, available) <==> c in requested && c !in available
    decreases |requested|
  {
    if |requested| > 0 {
      var init := requested[..|requested| - 1];
      var c := requested[|requested| - 1];
      SelectionMembers(init, available);
      assert requested == init + [c];
    }
  }

  /**
   * Without a request every channel of the archive is converted, in
   * ascending order; with one, the requested channels the archive has, in
   * request order.
   */
  lemma SelectedChannels(ms: seq<Message>, channels: Option<seq<int>>)
    ensures var selected := Selected(ms, channels);
      && (channels.None? ==> StrictlyIncreasing(selected) && forall c :: c in selected <==> c in ChannelsOf(ms))
      && (channels.Some? ==> selected == Present(channels.value, SortedInts(ChannelsOf(ms))))
      && (channels.Some? ==> forall c :: c in selected <==> c in channels.value && c in ChannelsOf(ms))
  {
    if channels.Some? {
      SelectionMembers(channels.value, SortedInts(ChannelsOf(ms)));
    }
  }

  /** When every requested channel is available, all are converted in the order given. */
  lemma {:induction false} PresentAll(requested: seq<int>, available: seq<int>)
    requires forall i :: 0 <= i < |requested| ==> requested[i] in available
    ensures Present(requested, available) == requested && Missing(requested, available) == []
    decreases |requested|
  {
    if |requested| > 0 {
      var init := requested[..|requested| - 1];
      PresentAll(init, available);
      assert requested == init + [requested[|requested| - 1]];
    }
  }

  // ----- The line layouts -----

  /** The line of one sample, from its interval's start, its index in the interval and its value. */
  type RowFormat = (real, nat, int) -> string

  /** One line per sample of an interval, the index restarting at 0. */
  function IntervalRows(row: RowFormat, iv: Interval): (rows: seq<string>)
    ensures |rows| == |iv.samples|
  {
    seq(|iv.samples|, i requires 0 <= i < |iv.samples| => row(iv.start, i, iv.samples[i]))
  }

  /** The detailed layout's marker before each interval. */
  function IntervalStartLine(start: real): string {
    "# Interval start: " + FormatFixed(start, 6) + " seconds"
  }

  /** The lines of one interval: its marker when `marked`, then its samples. */
  function Block(marked: bool, row: RowFormat, iv: Interval): seq<string> {
    (if marked then [IntervalStartLine(iv.start)] else []) + IntervalRows(row, iv)
  }

  /** The lines of all intervals, interval after interval. */
  function Body(marked: bool, row: RowFormat, ivs: seq<Interval>): seq<string>
    decreases |ivs|
  {
    if |ivs| == 0 then []
    else Body(marked, row, ivs[..|ivs| - 1]) + Block(marked, row, ivs[|ivs| - 1])
  }

  /** One line per sample, plus one per interval when marked. */
  lemma {:induction false} BodyLength(marked: bool, row: RowFormat, ivs: seq<Interval>)
    ensures |Body(marked, row, ivs)| == (if marked then |ivs| else 0) + |AllSamples(ivs)|
    decreases |ivs|
  {
    if |ivs| > 0 {
      var init := ivs[..|ivs| - 1];
      var last := ivs[|ivs| - 1];
      BodyLength(marked, row, init);
      assert ivs == init + [last];
      AllSamplesAppend(init, [last]);
      assert AllSamples([last]) == last.samples;
    }
  }

  /** Where the lines of interval `k` begin: after the lines of all earlier intervals. */
  function BlockStart(marked: bool, ivs: seq<Interval>, k: nat): nat
    requires k <= |ivs|
  {
    (if marked then k else 0) + |AllSamples(ivs[..k])|
  }

  /**
   * Interval `k`'s lines begin after those of the earlier intervals: its
   * marker when marked, then sample `i` printed with index `i`, the index
   * restarting at 0 in every interval.
   */
  lemma BodyAt(marked: bool, row: RowFormat, ivs: seq<Interval>, k: nat, i: nat)
    requires k < |ivs| && i < |ivs[k].samples|
    ensures var m := if marked then 1 else 0;
      && BlockStart(marked, ivs, k) + m + i < |Body(marked, row, ivs)|
      && Body(marked, row, ivs)[BlockStart(marked, ivs, k) + m + i] == row(ivs[k].start, i, ivs[k].samples[i])
      && (marked ==> Body(marked, row, ivs)[BlockStart(marked, ivs, k)] == IntervalStartLine(ivs[k].start))
  {
    var m := if marked then 1 else 0;
    var block := Block(marked, row, ivs[k]);
    assert block[m + i] == IntervalRows(row, ivs[k])[i];
    BodyBlock(marked, row, ivs, k, m + i);
    if marked {
      BodyBlock(marked, row, ivs, k, 0);
    }
  }

  /** Line `j` of interval `k`'s block is line `BlockStart + j` of the body. */
  lemma {:induction false} BodyBlock(marked: bool, row: RowFormat, ivs: seq<Interval>, k: nat, j: nat)
    requires k < |ivs| && j < |Block(marked, row, ivs[k])|
    ensures BlockStart(marked, ivs, k) + j < |Body(marked, row, ivs)|
    ensures Body(marked, row, ivs)[BlockStart(marked, ivs, k) + j] == Block(marked, row, ivs[k])[j]
    decreases |ivs|
  {
    var init := ivs[..|ivs| - 1];
    var prev := Body(marked, row, init);
    assert Body(marked, row, ivs) == prev + Block(marked, row, ivs[|ivs| - 1]);
    BodyLength(marked, row, init);
    if k < |ivs| - 1 {
      assert ivs[..k] == init[..k] && init[k] == ivs[k];
      assert BlockStart(marked, ivs, k) == BlockStart(marked, init, k);
      BodyBlock(marked, row, init, k, j);
    } else {
      assert ivs[..k] == init;
      assert BlockStart(marked, ivs, k) == |prev|;
    }
  }

  /** The simple layout prints the sample alone. */
  function SimpleRow(): RowFormat {
    (start: real, index: nat, sample: int) => IntToString(sample)
  }

  /** The time of sample `index`: 512 samples per second from the start, or the start itself. */
  function RowTime(timestamps: bool, start: real, index: nat): real {
    if timestamps then start + index as real / 512.0 else start
  }

  /** The detailed layout: time, index and sample, separated by spaces. */
  function DetailedRow(timestamps: bool): RowFormat {
    (start: real, index: nat, sample: int) =>
      FormatFixed(RowTime(timestamps, start, index), 6) + " " + IntToString(index) + " " + IntToString(sample)
  }

  /** The csv fields of one sample: (sample time,) interval start, index and sample. */
  function CsvFields(timestamps: bool, start: real, index: nat, sample: int): (fields: seq<string>)
    ensures |fields| == |CsvColumns(timestamps)|
  {
    (if timestamps then [FormatFixed(RowTime(true, start, index), 6)] else [])
    + [FormatFixed(start, 6), IntToString(index), IntToString(sample)]
  }

  /** The csv layout: the fields separated by commas. */
  function CsvRow(timestamps: bool): RowFormat {
    (start: real, index: nat, sample: int) => Join(CsvFields(timestamps, start, index, sample), ",")
  }

  /** The nine metadata lines of the simple and detailed layouts. */
  function MetadataHeader(title: string, filepath: string, channel: int, created: string,
                          intervals: nat, now: string, layout: string): (h: seq<string>)
    ensures |h| == 9
  {
    [ "# " + title,
      "# Source file: " + filepath,
      "# Channel: " + IntToString(channel),
      "# Creation date: " + created,
      "# Total intervals: " + IntToString(intervals),
      "# Conversion date: " + now,
      "#",
      "# Format: " + layout,
      "#" ]
  }

  /** Every metadata line is a comment. */
  lemma MetadataComments(title: string, filepath: string, channel: int, created: string,
                         intervals: nat, now: string, layout: string)
    ensures var h := MetadataHeader(title, filepath, channel, created, intervals, now, layout);
      forall i :: 0 <= i < |h| ==> StartsWith(h[i], "#")
  {
  }

  /** `_write_simple_format`: the optional metadata, then one sample per line. */
  function SimpleText(metadata: bool, filepath: string, channel: int, created: string,
                      ivs: seq<Interval>, now: string): seq<string>
  {
    (if metadata then
       MetadataHeader("NDF to Text Conversion", filepath, channel, created, |ivs|, now,
                      "One sample value per line (16-bit integers)")
     else [])
    + Body(false, SimpleRow(), ivs)
  }

  /** `_write_detailed_format`: the optional metadata, then each interval's marker and lines. */
  function DetailedText(metadata: bool, timestamps: bool, filepath: string, channel: int, created: string,
                        ivs: seq<Interval>, now: string): seq<string>
  {
    (if metadata then
       MetadataHeader("NDF to Text Conversion - Detailed Format", filepath, channel, created, |ivs|, now,
                      "[interval_time] [sample_index] [sample_value]")
     else [])
    + Body(true, DetailedRow(timestamps), ivs)
  }

  /** The csv column names. */
  function CsvColumns(timestamps: bool): seq<string> {
    (if timestamps then ["timestamp"] else []) + ["interval_time", "sample_index", "sample_value"]
  }

  /** The csv header line. */
  function CsvHeader(timestamps: bool): string {
    Join(CsvColumns(timestamps), ",")
  }

  /** `_write_csv_format`: the column names, then one row per sample. */
  function CsvText(timestamps: bool, ivs: seq<Interval>): seq<string> {
    [CsvHeader(timestamps)] + Body(false, CsvRow(timestamps), ivs)
  }

  /** The layouts the converter knows. */
  predicate KnownFormat(format: string) {
    format == "simple" || format == "detailed" || format == "csv"
  }

  /** The text of one channel's file in `format`, or nothing for an unknown format. */
  function ChannelText(format: string, timestamps: bool, metadata: bool, filepath: string, channel: int,
                       created: string, ivs: seq<Interval>, now: string): (r: Option<seq<string>>)
    ensures r.Some? <==> KnownFormat(format)
  {
    if format == "simple" then Some(SimpleText(metadata, filepath, channel, created, ivs, now))
    else if format == "detailed" then Some(DetailedText(metadata, timestamps, filepath, channel, created, ivs, now))
    else if format == "csv" then Some(CsvText(timestamps, ivs))
    else None
  }

  // ----- Properties of the layouts -----

  /**
   * The simple layout: nine '#' lines when metadata is on, then exactly one
   * line per sample, `str(sample)`, interval after interval.
   */
  lemma SimpleShape(metadata: bool, filepath: string, channel: int, created: string, ivs: seq<Interval>, now: string)
    ensures var text := SimpleText(metadata, filepath, channel, created, ivs, now);
      var h := if metadata then 9 else 0;
      && |text| == h + |AllSamples(ivs)|
      && (forall i :: 0 <= i < h ==> StartsWith(text[i], "#"))
      && text[h..] == IntLines(AllSamples(ivs))
  {
    var header := if metadata then
       MetadataHeader("NDF to Text Conversion", filepath, channel, created, |ivs|, now,
                      "One sample value per line (16-bit integers)")
     else [];
    if metadata {
      MetadataComments("NDF to Text Conversion", filepath, channel, created, |ivs|, now,
                      "One sample value per line (16-bit integers)");
    }
    var text := SimpleText(metadata, filepath, channel, created, ivs, now);
    SimpleBody(ivs);
    assert text == header + IntLines(AllSamples(ivs));
    CommentsThenLines(text, header, if metadata then 9 else 0, IntLines(AllSamples(ivs)));
  }

  /** `h` comment lines followed by `lines`. */
  lemma CommentsThenLines(text: seq<string>, header: seq<string>, h: nat, lines: seq<string>)
    requires text == header + lines && |header| == h
    requires forall i :: 0 <= i < h ==> StartsWith(header[i], "#")
    ensures |text| == h + |lines| && text[h..] == lines
    ensures forall i :: 0 <= i < h ==> StartsWith(text[i], "#")
  {
    forall i | 0 <= i < h
      ensures StartsWith(text[i], "#")
    {
      assert text[i] == header[i];
    }
  }

  /** The simple body is the samples printed one per line. */
  lemma {:induction false} SimpleBody(ivs: seq<Interval>)
    ensures Body(false, SimpleRow(), ivs) == IntLines(AllSamples(ivs))
    decreases |ivs|
  {
    if |ivs| > 0 {
      var init := ivs[..|ivs| - 1];
      var last := ivs[|ivs| - 1];
      SimpleBody(init);
      assert ivs == init + [last];
      AllSamplesAppend(init, [last]);
      assert AllSamples([last]) == last.samples;
      assert IntervalRows(SimpleRow(), last) == IntLines(last.samples);
      IntLinesAppend(AllSamples(init), last.samples);
    }
  }

  /** `str(v)` of each value, one per line. */
  function IntLines(values: seq<int>): (lines: seq<string>)
    ensures |lines| == |values|
    ensures forall k :: 0 <= k < |values| ==> lines[k] == IntToString(values[k])
  {
    seq(|values|, k requires 0 <= k < |values| => IntToString(values[k]))
  }

  lemma IntLinesAppend(a: seq<int>, b: seq<int>)
    ensures IntLines(a + b) == IntLines(a) + IntLines(b)
  {
  }

  /**
   * Reading a simple-layout file back as a text signal gives the samples
   * that were written: the header lines are comments and every other line
   * is an integer.
   */
  lemma SimpleRoundTrip(metadata: bool, filepath: string, channel: int, created: string, ivs: seq<Interval>, now: string)
    ensures TextValues(SimpleText(metadata, filepath, channel, created, ivs, now)) == AllSamples(ivs)
  {
    var header := if metadata then
       MetadataHeader("NDF to Text Conversion", filepath, channel, created, |ivs|, now,
                      "One sample value per line (16-bit integers)")
     else [];
    if metadata {
      MetadataComments("NDF to Text Conversion", filepath, channel, created, |ivs|, now,
                      "One sample value per line (16-bit integers)");
    }
    var lines := IntLines(AllSamples(ivs));
    SimpleBody(ivs);
    assert SimpleText(metadata, filepath, channel, created, ivs, now) == header + lines;
    CommentsAreSkipped(header);
    IntLinesRead(AllSamples(ivs));
    TextValuesAppend(header, lines);
  }

  /** Lines that all start with '#' contribute no value. */
  lemma {:induction false} CommentsAreSkipped(lines: seq<string>)
    requires forall i :: 0 <= i < |lines| ==> StartsWith(lines[i], "#")
    ensures TextValues(lines) == []
    decreases |lines|
  {
    if |lines| > 0 {
      CommentsAreSkipped(lines[..|lines| - 1]);
      CommentLine(lines[|lines| - 1]);
    }
  }

  /** Integer lines read back as their values. */
  lemma {:induction false} IntLinesRead(values: seq<int>)
    ensures TextValues(IntLines(values)) == values
    decreases |values|
  {
    if |values| > 0 {
      var init := values[..|values| - 1];
      var last := values[|values| - 1];
      IntLinesRead(init);
      assert values == init + [last];
      IntLinesAppend(init, [last]);
      IntLineRead(last);
      TextValuesAppend(IntLines(init), IntLines([last]));
    }
  }

  /** One integer line reads back as its value. */
  lemma IntLineRead(n: int)
    ensures TextValues(IntLines([n])) == [n]
  {
    var lines := IntLines([n]);
    assert lines == [IntToString(n)];
    assert lines[..0] == [];
    IntegerLine(n);
  }

  /** Number of lines that start with '#'. */
  function CommentCount(lines: seq<string>): nat
    decreases |lines|
  {
    if |lines| == 0 then 0
    else CommentCount(lines[..|lines| - 1]) + (if StartsWith(lines[|lines| - 1], "#") then 1 else 0)
  }

  lemma {:induction false} CommentCountAppend(a: seq<string>, b: seq<string>)
    ensures CommentCount(a + b) == CommentCount(a) + CommentCount(b)
    decreases |b|
  {
    if |b| > 0 {
      var init := b[..|b| - 1];
      CommentCountAppend(a, init);
      assert (a + b)[..|a + b| - 1] == a + init;
      assert (a + b)[|a + b| - 1] == b[|b| - 1];
    } else {
      assert a + b == a;
    }
  }

  /** A detailed line starts with its time, so it is never a comment, and has two spaces. */
  lemma DetailedRowShape(timestamps: bool, start: real, index: nat, sample: int)
    ensures var line := DetailedRow(timestamps)(start, index, sample);
      !StartsWith(line, "#") && CountChar(line, ' ') == 2
  {
    var time := FormatFixed(RowTime(timestamps, start, index), 6);
    FixedChars(RowTime(timestamps, start, index), 6);
    FormatFixedShape(RowTime(timestamps, start, index), 6);
    NumeralHasNo(time, ' ');
    IntToStringChars(index);
    IntToStringChars(sample);
    NumeralHasNo(IntToString(index), ' ');
    NumeralHasNo(IntToString(sample), ' ');
    var line := time + " " + IntToString(index) + " " + IntToString(sample);
    assert DetailedRow(timestamps)(start, index, sample) == line;
    assert line[0] == time[0];
    CountCharAppend(time, " ", ' ');
    CountCharAppend(time + " ", IntToString(index), ' ');
    CountCharAppend(time + " " + IntToString(index), " ", ' ');
    CountCharAppend(time + " " + IntToString(index) + " ", IntToString(sample), ' ');
    assert CountChar(" ", ' ') == 1 by {
      assert " "[1..] == "";
    }
  }

  /** A numeral (digits, signs and a point) holds none of the separators used here. */
  lemma NumeralHasNo(s: string, c: char)
    requires c == ' ' || c == ','
    requires forall i :: 0 <= i < |s| ==> s[i] == '-' || s[i] == '.' || IsDigit(s[i])
    ensures CountChar(s, c) == 0
  {
    NoCharCountZero(s, c);
  }

  /** Every csv row has as many fields as there are column names. */
  lemma CsvRowShape(timestamps: bool, start: real, index: nat, sample: int)
    ensures CountChar(CsvRow(timestamps)(start, index, sample), ',') == CountChar(CsvHeader(timestamps), ',')
    ensures CountChar(CsvHeader(timestamps), ',') == (if timestamps then 3 else 2)
  {
    var fields := CsvFields(timestamps, start, index, sample);
    forall k | 0 <= k < |fields|
      ensures CountChar(fields[k], ',') == 0
    {
      if k == |fields| - 1 {
        IntToStringChars(sample);
        NumeralHasNo(IntToString(sample), ',');
      } else if k == |fields| - 2 {
        IntToStringChars(index);
        NumeralHasNo(IntToString(index), ',');
      } else if k == |fields| - 3 {
        FixedChars(start, 6);
        NumeralHasNo(FormatFixed(start, 6), ',');
      } else {
        FixedChars(RowTime(true, start, index), 6);
        NumeralHasNo(FormatFixed(RowTime(true, start, index), 6), ',');
      }
    }
    JoinSeparatorCount(fields, ',');
    var columns := CsvColumns(timestamps);
    forall k | 0 <= k < |columns|
      ensures CountChar(columns[k], ',') == 0
    {
      NoCharCountZero(columns[k], ',');
    }
    JoinSeparatorCount(columns, ',');
  }

  /**
   * The detailed layout: its comment lines are the metadata and one marker
   * per interval; every other line is a sample.
   */
  lemma DetailedShape(metadata: bool, timestamps: bool, filepath: string, channel: int, created: string,
                      ivs: seq<Interval>, now: string)
    ensures var text := DetailedText(metadata, timestamps, filepath, channel, created, ivs, now);
      var h := if metadata then 9 else 0;
      && |text| == h + |ivs| + |AllSamples(ivs)|
      && CommentCount(text) == h + |ivs|
  {
    var header := if metadata then
       MetadataHeader("NDF to Text Conversion - Detailed Format", filepath, channel, created, |ivs|, now,
                      "[interval_time] [sample_index] [sample_value]")
     else [];
    if metadata {
      MetadataComments("NDF to Text Conversion - Detailed Format", filepath, channel, created, |ivs|, now,
                      "[interval_time] [sample_index] [sample_value]");
    }
    BodyLength(true, DetailedRow(timestamps), ivs);
    DetailedBodyComments(timestamps, ivs);
    AllComments(header);
    CommentCountAppend(header, Body(true, DetailedRow(timestamps), ivs));
  }

  lemma {:induction false} AllComments(lines: seq<string>)
    requires forall i :: 0 <= i < |lines| ==> StartsWith(lines[i], "#")
    ensures CommentCount(lines) == |lines|
    decreases |lines|
  {
    if |lines| > 0 {
      AllComments(lines[..|lines| - 1]);
    }
  }

  lemma {:induction false} NoComments(lines: seq<string>)
    requires forall i :: 0 <= i < |lines| ==> !StartsWith(lines[i], "#")
    ensures CommentCount(lines) == 0
    decreases |lines|
  {
    if |lines| > 0 {
      NoComments(lines[..|lines| - 1]);
    }
  }

  /** The detailed body has one comment line per interval: its marker. */
  lemma {:induction false} DetailedBodyComments(timestamps: bool, ivs: seq<Interval>)
    ensures CommentCount(Body(true, DetailedRow(timestamps), ivs)) == |ivs|
    decreases |ivs|
  {
    if |ivs| > 0 {
      var init := ivs[..|ivs| - 1];
      var last := ivs[|ivs| - 1];
      var rows := IntervalRows(DetailedRow(timestamps), last);
      DetailedBodyComments(timestamps, init);
      forall i | 0 <= i < |rows|
        ensures !StartsWith(rows[i], "#")
      {
        DetailedRowShape(timestamps, last.start, i, last.samples[i]);
      }
      NoComments(rows);
      assert StartsWith(IntervalStartLine(last.start), "#");
      AllComments([IntervalStartLine(last.start)]);
      CommentCountAppend([IntervalStartLine(last.start)], rows);
      CommentCountAppend(Body(true, DetailedRow(timestamps), init), Block(true, DetailedRow(timestamps), last));
    }
  }

  /** A format other than simple, detailed and csv writes nothing. */
  lemma UnknownFormat(format: string, timestamps: bool, metadata: bool, filepath: string, channel: int,
                      created: string, ivs: seq<Interval>, now: string)
    requires !KnownFormat(format)
    ensures ChannelText(format, timestamps, metadata, filepath, channel, created, ivs, now) == None
  {
  }

  /**
   * The csv layout: the column names, then one row per sample; sample `i`
   * of interval `k` is on row `1 + (samples before interval k) + i` and
   * carries index `i`.
   */
  lemma CsvShape(timestamps: bool, ivs: seq<Interval>, k: nat, i: nat)
    requires k < |ivs| && i < |ivs[k].samples|
    ensures var text := CsvText(timestamps, ivs);
      && |text| == 1 + |AllSamples(ivs)|
      && text[0] == CsvHeader(timestamps)
      && 1 + BlockStart(false, ivs, k) + i < |text|
      && text[1 + BlockStart(false, ivs, k) + i] == CsvRow(timestamps)(ivs[k].start, i, ivs[k].samples[i])
  {
    BodyLength(false, CsvRow(timestamps), ivs);
    BodyAt(false, CsvRow(timestamps), ivs, k, i);
  }

  /**
   * The detailed layout: the metadata lines, then the marked body, whose
   * interval `k` holds its "# Interval start" marker and then one line per
   * sample carrying its index (see `BodyAt`).
   */
  lemma DetailedLayout(metadata: bool, timestamps: bool, filepath: string, channel: int, created: string,
                       ivs: seq<Interval>, now: string)
    ensures var text := DetailedText(metadata, timestamps, filepath, channel, created, ivs, now);
      var h := if metadata then 9 else 0;
      && h <= |text| && text[h..] == Body(true, DetailedRow(timestamps), ivs)
  {
    var header := if metadata then
       MetadataHeader("NDF to Text Conversion - Detailed Format", filepath, channel, created, |ivs|, now,
                      "[interval_time] [sample_index] [sample_value]")
     else [];
    var body := Body(true, DetailedRow(timestamps), ivs);
    assert DetailedText(metadata, timestamps, filepath, channel, created, ivs, now) == header + body;
    HeaderSplit(header, body, if metadata then 9 else 0);
  }

  /** The lines after an `h`-line header are the body. */
  lemma HeaderSplit(header: seq<string>, body: seq<string>, h: nat)
    requires |header| == h
    ensures h <= |header + body| && (header + body)[h..] == body
  {
  }

  /** Writes the lines of all intervals, interval after interval, sample after sample. */
  method WriteBody(marked: bool, row: RowFormat, ivs: seq<Interval>) returns (lines: seq<string>)
    ensures lines == Body(marked, row, ivs)
  {
    lines := [];
    for k := 0 to |ivs|
      invariant lines == Body(marked, row, ivs[..k])
    {
      var iv := ivs[k];
      var block := if marked then [IntervalStartLine(iv.start)] else [];
      for i := 0 to |iv.samples|
        invariant block == (if marked then [IntervalStartLine(iv.start)] else []) + IntervalRows(row, iv)[..i]
      {
        block := block + [row(iv.start, i, iv.samples[i])];
      }
      assert IntervalRows(row, iv)[..|iv.samples|] == IntervalRows(row, iv);
      assert ivs[..k + 1][..k] == ivs[..k];
      lines := lines + block;
    }
    assert ivs[..|ivs|] == ivs;
  }

  // ----- The converter -----

  /** Where channel `channel` of `inputFile` goes: `<outputDir>/<archive name>/E<channel>.txt`. */
  function OutputPath(inputFile: string, outputDir: string, channel: int): (p: string)
    ensures Basename(p) == ChannelFileName(channel)
  {
    var name := ChannelFileName(channel);
    JoinBasename(PathJoin(outputDir, Stem(inputFile)), name);
    PathJoin(PathJoin(outputDir, Stem(inputFile)), name)
  }

  /**
   * The file one channel yields: its path and its text, or nothing when the
   * channel has no messages or the format is unknown. `source` is the path
   * the reader was opened with, printed in the metadata.
   */
  function ChannelOutput(format: string, timestamps: bool, metadata: bool, source: string, inputFile: string,
                         outputDir: string, ms: seq<Message>, created: string, channel: int, rate: real, now: string)
    : (r: Option<(string, seq<string>)>)
  {
    var ivs := NdfIntervals(OnChannel(ms, channel), rate);
    var text := ChannelText(format, timestamps, metadata, source, channel, created, ivs, now);
    if ivs == [] || text.None? then None
    else Some((OutputPath(inputFile, outputDir, channel), text.value))
  }

  /** A channel yields its file exactly when it has intervals and the format is known. */
  lemma ChannelOutputCases(format: string, timestamps: bool, metadata: bool, source: string, inputFile: string,
                           outputDir: string, ms: seq<Message>, created: string, channel: int, rate: real, now: string)
    ensures var ivs := NdfIntervals(OnChannel(ms, channel), rate);
      var r := ChannelOutput(format, timestamps, metadata, source, inputFile, outputDir, ms, created, channel, rate, now);
      var text := ChannelText(format, timestamps, metadata, source, channel, created, ivs, now);
      && (r.Some? <==> channel in ChannelsOf(ms) && KnownFormat(format))
      && (r.Some? ==> r.value == (OutputPath(inputFile, outputDir, channel), text.value))
  {
    var ivs := NdfIntervals(OnChannel(ms, channel), rate);
    var text := ChannelText(format, timestamps, metadata, source, channel, created, ivs, now);
    ChannelHasIntervals(ms, channel, rate);
    assert text.Some? <==> KnownFormat(format);
    assert ChannelOutput(format, timestamps, metadata, source, inputFile, outputDir, ms, created, channel, rate, now)
        == if ivs == [] || text.None? then None else Some((OutputPath(inputFile, outputDir, channel), text.value));
  }

  /** A channel has intervals exactly when it has messages. */
  lemma ChannelHasIntervals(ms: seq<Message>, channel: int, rate: real)
    ensures channel in ChannelsOf(ms) <==> NdfIntervals(OnChannel(ms, channel), rate) != []
  {
    ChannelPresent(ms, channel);
  }

  /** Different channels go to different files. */
  lemma OutputPathInjective(inputFile: string, outputDir: string, a: int, b: int)
    requires OutputPath(inputFile, outputDir, a) == OutputPath(inputFile, outputDir, b)
    ensures a == b
  {
    ChannelFileNameInjective(a, b);
  }

  /** What each channel yields: a path and its text, or nothing. */
  type ChannelOutputs = int -> Option<(string, seq<string>)>

  /** The outputs of the channels of one archive, in one format. */
  function Outputs(format: string, timestamps: bool, metadata: bool, inputFile: string, outputDir: string,
                   ms: seq<Message>, created: string, rate: real, now: string): ChannelOutputs
  {
    (c: int) => ChannelOutput(format, timestamps, metadata, inputFile, inputFile, outputDir, ms, created, c, rate, now)
  }

  /** The files after writing each channel's output in turn, and the paths created, in order. */
  function Converted(output: ChannelOutputs, channels: seq<int>, fs: Files): (Files, seq<string>)
    decreases |channels|
  {
    if |channels| == 0 then (fs, [])
    else
      var (files, paths) := Converted(output, channels[..|channels| - 1], fs);
      var out := output(channels[|channels| - 1]);
      if out.None? then (files, paths) else (files[out.value.0 := out.value.1], paths + [out.value.0])
  }

  /** Converting one more channel applies that channel's output. */
  lemma ConvertedStep(output: ChannelOutputs, channels: seq<int>, k: nat, fs: Files)
    requires k < |channels|
    ensures var (files, paths) := Converted(output, channels[..k], fs);
      var out := output(channels[k]);
      Converted(output, channels[..k + 1], fs) ==
        if out.None? then (files, paths) else (files[out.value.0 := out.value.1], paths + [out.value.0])
  {
    assert channels[..k + 1][..k] == channels[..k];
  }

  /** The output of one channel of an archive. */
  lemma OutputsAt(format: string, timestamps: bool, metadata: bool, inputFile: string, outputDir: string,
                  ms: seq<Message>, created: string, rate: real, now: string, c: int)
    ensures Outputs(format, timestamps, metadata, inputFile, outputDir, ms, created, rate, now)(c) ==
      ChannelOutput(format, timestamps, metadata, inputFile, inputFile, outputDir, ms, created, c, rate, now)
  {
  }

  /**
   * When every channel yields a file and channels that share a path share
   * their output, one path is created per channel, in order, each holding
   * its channel's text; every other file is left as it was.
   */
  lemma {:induction false} ConvertedFiles(output: ChannelOutputs, channels: seq<int>, fs: Files)
    requires forall i :: 0 <= i < |channels| ==> output(channels[i]).Some?
    requires forall a, b :: (a in channels && b in channels && output(a).Some? && output(b).Some? &&
                             output(a).value.0 == output(b).value.0) ==> output(a) == output(b)
    ensures var (files, paths) := Converted(output, channels, fs);
      && |paths| == |channels|
      && (forall i :: 0 <= i < |channels| ==>
            paths[i] == output(channels[i]).value.0 && paths[i] in files && files[paths[i]] == output(channels[i]).value.1)
      && (forall p :: p !in paths ==> (p in files <==> p in fs) && (p in fs ==> files[p] == fs[p]))
    decreases |channels|
  {
    if |channels| > 0 {
      var init := channels[..|channels| - 1];
      var c := channels[|channels| - 1];
      assert forall a :: a in init ==> a in channels;
      ConvertedFiles(output, init, fs);
      var (f0, p0) := Converted(output, init, fs);
      var (files, paths) := Converted(output, channels, fs);
      var out := output(c).value;
      assert files == f0[out.0 := out.1] && paths == p0 + [out.0];
      forall i | 0 <= i < |channels|
        ensures paths[i] == output(channels[i]).value.0 && paths[i] in files
        ensures files[paths[i]] == output(channels[i]).value.1
      {
        if i < |init| {
          assert channels[i] == init[i] && paths[i] == p0[i];
          if p0[i] == out.0 {
            assert output(init[i]) == output(c);
          }
        }
      }
    }
  }

  /** When no channel yields anything, nothing is written. */
  lemma {:induction false} NothingConverted(output: ChannelOutputs, channels: seq<int>, fs: Files)
    requires forall i :: 0 <= i < |channels| ==> output(channels[i]).None?
    ensures Converted(output, channels, fs) == (fs, [])
    decreases |channels|
  {
    if |channels| > 0 {
      NothingConverted(output, channels[..|channels| - 1], fs);
    }
  }

  /** The channels `convert_ndf_file` converts: the requested ones the archive has, or all it has. */
  function Selected(ms: seq<Message>, channels: Option<seq<int>>): seq<int> {
    SelectChannels(channels, SortedInts(ChannelsOf(ms)))
  }

  /** An archive without channels has nothing to select. */
  lemma NothingSelected(ms: seq<Message>, channels: Option<seq<int>>)
    requires SortedInts(ChannelsOf(ms)) == []
    ensures Selected(ms, channels) == []
  {
    if channels.Some? {
      PresentOfNone(channels.value);
    }
  }

  lemma {:induction false} PresentOfNone(requested: seq<int>)
    ensures Present(requested, []) == []
    decreases |requested|
  {
    if |requested| > 0 {
      PresentOfNone(requested[..|requested| - 1]);
    }
  }

  /** Every selected channel has messages. */
  lemma SelectedAvailable(ms: seq<Message>, channels: Option<seq<int>>)
    ensures forall c :: c in Selected(ms, channels) ==> c in ChannelsOf(ms)
  {
    if channels.Some? {
      SelectionMembers(channels.value, SortedInts(ChannelsOf(ms)));
    }
  }

  /**
   * `convert_ndf_file` on an archive with messages `ms` and creation date
   * `created`: the files written and the paths created. Nothing is written
   * when the archive has no channel or none of the requested ones.
   */
  function ConversionOf(format: string, timestamps: bool, metadata: bool, inputFile: string, outputDir: string,
                        ms: seq<Message>, created: string, channels: Option<seq<int>>, rate: real, fs: Files,
                        now: string): (Files, seq<string>)
  {
    var selected := Selected(ms, channels);
    if SortedInts(ChannelsOf(ms)) == [] || selected == [] then (fs, [])
    else Converted(Outputs(format, timestamps, metadata, inputFile, outputDir, ms, created, rate, now), selected, fs)
  }

  /** `convert_ndf_file` on the archive `data` read from `inputFile`. */
  function Conversion(format: string, timestamps: bool, metadata: bool, inputFile: string, data: seq<byte>,
                      outputDir: string, channels: Option<seq<int>>, rate: real, fs: Files, now: string)
    : (Files, seq<string>)
  {
    ConversionOf(format, timestamps, metadata, inputFile, outputDir, MessagesFrom(data, ProbeOffset(data)),
                 CreationDate(ReadMetadata(data)), channels, rate, fs, now)
  }

  /**
   * In a known format every selected channel yields its own file, under its
   * own path; in an unknown format none yields anything.
   */
  lemma OutputsOfSelected(format: string, timestamps: bool, metadata: bool, inputFile: string, outputDir: string,
                          ms: seq<Message>, created: string, rate: real, now: string, channels: Option<seq<int>>)
    ensures var output := Outputs(format, timestamps, metadata, inputFile, outputDir, ms, created, rate, now);
      var selected := Selected(ms, channels);
      && (forall i :: 0 <= i < |selected| ==> (output(selected[i]).Some? <==> KnownFormat(format)))
      && (forall i :: 0 <= i < |selected| && output(selected[i]).Some? ==>
            output(selected[i]).value.0 == OutputPath(inputFile, outputDir, selected[i]))
      && (forall a, b :: (a in selected && b in selected && output(a).Some? && output(b).Some? &&
                          output(a).value.0 == output(b).value.0) ==> output(a) == output(b))
  {
    var output := Outputs(format, timestamps, metadata, inputFile, outputDir, ms, created, rate, now);
    var selected := Selected(ms, channels);
    SelectedAvailable(ms, channels);
    forall c | c in selected
      ensures output(c).Some? <==> KnownFormat(format)
      ensures output(c).Some? ==> output(c).value.0 == OutputPath(inputFile, outputDir, c)
    {
      ChannelOutputCases(format, timestamps, metadata, inputFile, inputFile, outputDir, ms, created, c, rate, now);
    }
    forall a, b | a in selected && b in selected && output(a).Some? && output(b).Some? &&
        output(a).value.0 == output(b).value.0
      ensures output(a) == output(b)
    {
      OutputPathInjective(inputFile, outputDir, a, b);
    }
  }

  /** `convert_ndf_file` converts the selected channels one after another. */
  lemma ConversionIsConverted(format: string, timestamps: bool, metadata: bool, inputFile: string,
                              outputDir: string, ms: seq<Message>, created: string, channels: Option<seq<int>>,
                              rate: real, fs: Files, now: string)
    ensures ConversionOf(format, timestamps, metadata, inputFile, outputDir, ms, created, channels, rate, fs, now)
      == Converted(Outputs(format, timestamps, metadata, inputFile, outputDir, ms, created, rate, now),
                   Selected(ms, channels), fs)
  {
    if SortedInts(ChannelsOf(ms)) == [] {
      NothingSelected(ms, channels);
    }
  }

  /**
   * `convert_ndf_file` in a known format creates `E<c>.txt` under the
   * archive's directory for every selected channel, in order.
   */
  lemma ConversionPaths(format: string, timestamps: bool, metadata: bool, inputFile: string, outputDir: string,
                        ms: seq<Message>, created: string, channels: Option<seq<int>>, rate: real, fs: Files,
                        now: string)
    requires KnownFormat(format)
    ensures var paths := ConversionOf(format, timestamps, metadata, inputFile, outputDir, ms, created,
                                      channels, rate, fs, now).1;
      var selected := Selected(ms, channels);
      && |paths| == |selected|
      && forall i :: 0 <= i < |selected| ==> paths[i] == OutputPath(inputFile, outputDir, selected[i])
  {
    var output := Outputs(format, timestamps, metadata, inputFile, outputDir, ms, created, rate, now);
    var selected := Selected(ms, channels);
    ConversionIsConverted(format, timestamps, metadata, inputFile, outputDir, ms, created, channels, rate, fs, now);
    OutputsOfSelected(format, timestamps, metadata, inputFile, outputDir, ms, created, rate, now, channels);
    ConvertedFiles(output, selected, fs);
  }

  /**
   * In a known format the file of every selected channel holds that
   * channel's text in the chosen layout.
   */
  lemma ConversionContents(format: string, timestamps: bool, metadata: bool, inputFile: string, outputDir: string,
                           ms: seq<Message>, created: string, channels: Option<seq<int>>, rate: real, fs: Files,
                           now: string)
    requires KnownFormat(format)
    ensures var (files, paths) := ConversionOf(format, timestamps, metadata, inputFile, outputDir, ms, created,
                                               channels, rate, fs, now);
      var selected := Selected(ms, channels);
      forall i :: 0 <= i < |selected| && i < |paths| ==>
        && paths[i] in files
        && Some(files[paths[i]]) == ChannelText(format, timestamps, metadata, inputFile, selected[i], created,
                                                NdfIntervals(OnChannel(ms, selected[i]), rate), now)
  {
    var output := Outputs(format, timestamps, metadata, inputFile, outputDir, ms, created, rate, now);
    var selected := Selected(ms, channels);
    ConversionIsConverted(format, timestamps, metadata, inputFile, outputDir, ms, created, channels, rate, fs, now);
    OutputsOfSelected(format, timestamps, metadata, inputFile, outputDir, ms, created, rate, now, channels);
    ConvertedFiles(output, selected, fs);
    forall i | 0 <= i < |selected|
      ensures output(selected[i]).value.1 ==
        ChannelText(format, timestamps, metadata, inputFile, selected[i], created,
                    NdfIntervals(OnChannel(ms, selected[i]), rate), now).value
    {
      ChannelOutputCases(format, timestamps, metadata, inputFile, inputFile, outputDir, ms, created, selected[i],
                         rate, now);
    }
  }

  /** `convert_ndf_file` changes no file other than the ones it reports as created. */
  lemma ConversionKeepsOthers(format: string, timestamps: bool, metadata: bool, inputFile: string, outputDir: string,
                              ms: seq<Message>, created: string, channels: Option<seq<int>>, rate: real, fs: Files,
                              now: string)
    ensures var (files, paths) := ConversionOf(format, timestamps, metadata, inputFile, outputDir, ms, created,
                                               channels, rate, fs, now);
      forall p :: p !in paths ==> (p in files <==> p in fs) && (p in fs ==> files[p] == fs[p])
  {
    if KnownFormat(format) {
      var output := Outputs(format, timestamps, metadata, inputFile, outputDir, ms, created, rate, now);
      ConversionIsConverted(format, timestamps, metadata, inputFile, outputDir, ms, created, channels, rate, fs, now);
      OutputsOfSelected(format, timestamps, metadata, inputFile, outputDir, ms, created, rate, now, channels);
      ConvertedFiles(output, Selected(ms, channels), fs);
    } else {
      UnknownFormatConversion(format, timestamps, metadata, inputFile, outputDir, ms, created, channels, rate, fs, now);
    }
  }

  /** In a format other than simple, detailed and csv, `convert_ndf_file` writes and creates nothing. */
  lemma UnknownFormatConversion(format: string, timestamps: bool, metadata: bool, inputFile: string,
                                outputDir: string, ms: seq<Message>, created: string, channels: Option<seq<int>>,
                                rate: real, fs: Files, now: string)
    requires !KnownFormat(format)
    ensures ConversionOf(format, timestamps, metadata, inputFile, outputDir, ms, created, channels, rate, fs, now)
      == (fs, [])
  {
    var output := Outputs(format, timestamps, metadata, inputFile, outputDir, ms, created, rate, now);
    OutputsOfSelected(format, timestamps, metadata, inputFile, outputDir, ms, created, rate, now, channels);
    NothingConverted(output, Selected(ms, channels), fs);
  }

  /** `NDFToTextConverter`: the layout options, fixed when it is built. */
  class NDFToTextConverter {
    const outputFormat: string
    const includeTimestamps: bool
    const includeMetadata: bool

    constructor (outputFormat: string, includeTimestamps: bool, includeMetadata: bool)
      ensures this.outputFormat == outputFormat
      ensures this.includeTimestamps == includeTimestamps && this.includeMetadata == includeMetadata
    {
      this.outputFormat := outputFormat;
      this.includeTimestamps := includeTimestamps;
      this.includeMetadata := includeMetadata;
    }

    /** `_write_simple_format`: `outputFile` holds the simple text, no other file changes. */
    method WriteSimpleFormat(outputFile: string, ivs: seq<Interval>, reader: NDFReader, channel: int,
                             fs: Files, now: string) returns (files: Files)
      ensures files == fs[outputFile := SimpleText(includeMetadata, reader.filepath, channel,
                                                   reader.GetCreationDate(), ivs, now)]
    {
      var lines := [];
      if includeMetadata {
        lines := MetadataHeader("NDF to Text Conversion", reader.filepath, channel, reader.GetCreationDate(),
                                |ivs|, now, "One sample value per line (16-bit integers)");
      }
      var body := WriteBody(false, SimpleRow(), ivs);
      files := fs[outputFile := lines + body];
    }

    /** `_write_detailed_format`: `outputFile` holds the detailed text, no other file changes. */
    method WriteDetailedFormat(outputFile: string, ivs: seq<Interval>, reader: NDFReader, channel: int,
                               fs: Files, now: string) returns (files: Files)
      ensures files == fs[outputFile := DetailedText(includeMetadata, includeTimestamps, reader.filepath, channel,
                                                     reader.GetCreationDate(), ivs, now)]
    {
      var lines := [];
      if includeMetadata {
        lines := MetadataHeader("NDF to Text Conversion - Detailed Format", reader.filepath, channel,
                                reader.GetCreationDate(), |ivs|, now,
                                "[interval_time] [sample_index] [sample_value]");
      }
      var body := WriteBody(true, DetailedRow(includeTimestamps), ivs);
      files := fs[outputFile := lines + body];
    }

    /** `_write_csv_format`: `outputFile` holds the csv text, no other file changes. */
    method WriteCsvFormat(outputFile: string, ivs: seq<Interval>, fs: Files) returns (files: Files)
      ensures files == fs[outputFile := CsvText(includeTimestamps, ivs)]
    {
      var body := WriteBody(false, CsvRow(includeTimestamps), ivs);
      files := fs[outputFile := [CsvHeader(includeTimestamps)] + body];
    }

    /**
     * The part of `_convert_channel` after the intervals are read: writes
     * the channel's file under the archive's directory when there are
     * intervals and the format is known, and returns its path.
     */
    method WriteChannel(ivs: seq<Interval>, reader: NDFReader, channel: int, inputFile: string, outputDir: string,
                        fs: Files, now: string) returns (files: Files, out: Option<string>)
      ensures var text := ChannelText(outputFormat, includeTimestamps, includeMetadata, reader.filepath, channel,
                                      reader.GetCreationDate(), ivs, now);
        && (ivs == [] || text.None? ==> files == fs && out == None)
        && (ivs != [] && text.Some? ==>
              var path := OutputPath(inputFile, outputDir, channel);
              files == fs[path := text.value] && out == Some(path))
    {
      if ivs == [] {
        return fs, None;
      }
      var outputFile := OutputPath(inputFile, outputDir, channel);
      if outputFormat == "simple" {
        files := WriteSimpleFormat(outputFile, ivs, reader, channel, fs, now);
      } else if outputFormat == "detailed" {
        files := WriteDetailedFormat(outputFile, ivs, reader, channel, fs, now);
      } else if outputFormat == "csv" {
        files := WriteCsvFormat(outputFile, ivs, fs);
      } else {
        return fs, None;
      }
      out := Some(outputFile);
    }

    /**
     * `_convert_channel`: reads the channel's intervals and writes its file;
     * returns the path written, or nothing (and writes nothing) when the
     * channel has no data or the format is unknown.
     */
    method ConvertChannel(reader: NDFReader, channel: int, inputFile: string, outputDir: string, rate: real,
                          fs: Files, now: string) returns (files: Files, out: Option<string>)
      requires reader.Valid()
      modifies reader`parsed, reader`channelsCache
      ensures reader.Valid()
      ensures var r := ChannelOutput(outputFormat, includeTimestamps, includeMetadata, reader.filepath, inputFile,
                                     outputDir, reader.AllMessages(), reader.GetCreationDate(), channel, rate, now);
        && files == (if r.None? then fs else fs[r.value.0 := r.value.1])
        && out == (if r.None? then None else Some(r.value.0))
    {
      var ivs := reader.ReadChannelData(channel, rate);
      files, out := WriteChannel(ivs, reader, channel, inputFile, outputDir, fs, now);
    }

    /** The loop of `convert_ndf_file`: converts the channels one by one and collects the paths created. */
    method ConvertChannels(reader: NDFReader, process: seq<int>, inputFile: string, outputDir: string, rate: real,
                           fs: Files, now: string) returns (files: Files, created: seq<string>)
      requires reader.Valid() && reader.filepath == inputFile
      modifies reader`parsed, reader`channelsCache
      ensures reader.Valid()
      ensures (files, created) == Converted(Outputs(outputFormat, includeTimestamps, includeMetadata, inputFile,
                                                    outputDir, reader.AllMessages(), reader.GetCreationDate(),
                                                    rate, now), process, fs)
    {
      ghost var ms := reader.AllMessages();
      ghost var date := reader.GetCreationDate();
      ghost var output := Outputs(outputFormat, includeTimestamps, includeMetadata, inputFile, outputDir, ms, date,
                                  rate, now);
      files, created := fs, [];
      for k := 0 to |process|
        invariant reader.Valid() && reader.AllMessages() == ms
        invariant files == Converted(output, process[..k], fs).0 && created == Converted(output, process[..k], fs).1
      {
        var out;
        files, out := ConvertChannel(reader, process[k], inputFile, outputDir, rate, files, now);
        OutputsAt(outputFormat, includeTimestamps, includeMetadata, inputFile, outputDir, ms, date, rate, now,
                  process[k]);
        ConvertedStep(output, process, k, fs);
        if out.Some? {
          created := created + [out.value];
        }
      }
      assert process[..|process|] == process;
    }

    /**
     * `convert_ndf_file`: opens the archive, picks the channels and converts
     * them one by one; returns the paths created.
     */
    method ConvertNdfFile(inputFile: string, data: seq<byte>, outputDir: string, channels: Option<seq<int>>,
                          rate: real, fs: Files, now: string) returns (files: Files, created: seq<string>)
      ensures (files, created) == Conversion(outputFormat, includeTimestamps, includeMetadata, inputFile, data,
                                             outputDir, channels, rate, fs, now)
    {
      var reader := new NDFReader(inputFile, data);
      ghost var ms := reader.AllMessages();
      ghost var date := reader.GetCreationDate();
      assert Conversion(outputFormat, includeTimestamps, includeMetadata, inputFile, data, outputDir, channels,
                        rate, fs, now)
          == ConversionOf(outputFormat, includeTimestamps, includeMetadata, inputFile, outputDir, ms, date, channels,
                          rate, fs, now);
      var available := reader.GetAvailableChannels();
      if available == [] {
        return fs, [];
      }
      var process := SelectChannels(channels, available);
      if process == [] {
        return fs, [];
      }
      files, created := ConvertChannels(reader, process, inputFile, outputDir, rate, fs, now);
    }
  }

  // ----- The default output directory -----

  /**
   * `bulk_convert_ndf_to_text`'s output directory when none is given: the
   * input file's directory plus "_text", or the input directory without
   * trailing '/' and backslash plus "_text".
   */
  function DefaultOutputDir(inputPath: string, isFile: bool): (dir: string)
    ensures EndsWith(dir, "_text")
  {
    if isFile then Dirname(inputPath) + "_text" else RStripChars(inputPath, {'/', '\\'}) + "_text"
  }

  /**
   * For a directory, the name is the input path with its trailing
   * separators removed: it starts the path, and a trailing separator
   * changes nothing.
   */
  lemma DefaultDirOfDirectory(inputPath: string, sep: char)
    requires sep == '/' || sep == '\\'
    ensures var dir := DefaultOutputDir(inputPath, false);
      && StartsWith(inputPath, dir[..|dir| - 5])
      && (forall i :: |dir| - 5 <= i < |inputPath| ==> inputPath[i] == '/' || inputPath[i] == '\\')
      && DefaultOutputDir(inputPath + [sep], false) == dir
  {
    var stripped := RStripChars(inputPath, {'/', '\\'});
    assert DefaultOutputDir(inputPath, false)[..|stripped|] == stripped;
    assert (inputPath + [sep])[..|inputPath|] == inputPath;
  }

  /** For a file, the name is its directory part, which starts the path. */
  lemma DefaultDirOfFile(inputPath: string)
    ensures var dir := DefaultOutputDir(inputPath, true);
      dir[..|dir| - 5] == Dirname(inputPath) && StartsWith(inputPath, Dirname(inputPath))
  {
    var d := Dirname(inputPath);
    assert (d + "_text")[..|d|] == d;
  }
}
