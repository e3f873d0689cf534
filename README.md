# Neuroplayer NDF to LabChart converter, modelled in Dafny

This project models the core of a Python tool that converts Neuroplayer
NDF archives (EEG telemetry recorded by Open Source Instruments
transmitters) into text files. There are two targets: LabChart's
text-import format, and a plain text, detailed or csv dump. It has three
parts.

- **The NDF reader** (`ndf_reader.py`). An `NDFReader` object does the
  following.
  - When created, it reads the metadata from the first 1024 bytes: three
    u32 header values, and the creation date and creator from the
    `<c>`…`</payload>` block.
  - Also when created, it finds the telemetry section by probing seven
    candidate offsets, with 20480 as the fallback.
  - The first time a channel is asked for, it decodes the 8-byte
    telemetry records, groups them by channel and caches the grouping and
    the sorted channel list.
  - Each channel's messages are sorted by timestamp and cut into
    one-second intervals of exactly `int(rate)` samples. A short interval
    is padded with its last sample and a long one is truncated.
  - Beside it, the binary and text signal readers cut a flat list of
    values into chunks, and the last chunk may be short.
- **The LabChart exporter** (`labchart_exporter.py`). It does the
  following.
  - It writes a 5-line header, then one `time voltage` line per sample.
  - It has a glitch filter and a decimal-comma option.
  - Its `start_time` clock makes times relative to the first interval
    of each new file.
  - Its multi-channel export pools the samples of every channel. Channel
    0 runs at 128 Hz and the others at 512 Hz. It groups them by time
    rounded to the nanosecond and writes one tab-separated row per time,
    with one cell per channel.
- **The NDF-to-text converter** (`ndf_to_text_converter.py`). It selects
  the requested channels that the archive has. For each one it writes
  `<output>/<archive name>/E<channel>.txt` in the simple, detailed or csv
  layout.

The modules follow the program.

- `NdfReader` (ndf_reader.dfy) holds the `NDFReader` class and the plain
  readers.
- `LabChart` (labchart.dfy) holds the `LabChartExporter` class.
- `NdfToTextConverter` (converter.dfy) holds the `NDFToTextConverter`
  class.
- Their vocabulary lives in smaller modules:
  - `Records`: the telemetry record and the section probe.
  - `NdfMetadata`: the metadata block.
  - `Intervals`: the two interval builders.
  - `Sorting`: stable sort and `sorted()`.
  - `Numerals`: `str()`, the sample parser, `.Nf` and `repr` formatting.
  - `Text`: `strip`, `find`, `join`, `replace`, `rstrip`.
  - `Paths`: `os.path`.
  - `Common`: bytes, `Option`, `Result`, `Interval`.

How the model stands in for the program's outside world:

- The archive is a byte sequence.
- The file system is a map from path to lines, passed in and returned.
- Times and voltages are exact rationals.
- The conversion date (`datetime.now()`) is a parameter.
- Where the source changes objects in place, the model uses classes:
  - the reader's cache, with `modifies` clauses;
  - the exporter's `start_time`;
  - the loops that build intervals, lines and groups.
- Each of those methods is proved equal to a specification function.
- The properties of each specification function are proved as lemmas.

## Model

| member | source | states |
|---|---|---|
| Common.Trunc | ndf_reader.py:272 | `int()` of a float truncates toward zero: the result is the integer between the value and zero that is less than one away from it |
| Text.Strip | ndf_reader.py:406 | `str.strip()` removes whitespace from the two ends only: the result is a contiguous slice of the line, everything before and after it is whitespace, and it neither starts nor ends with whitespace |
| Text.Find | ndf_reader.py:58-59 | `find` returns the first index at or after `start` where the pattern occurs, or -1 when it occurs nowhere from `start` on |
| Text.ReplaceChar | labchart_exporter.py:63-64 | `replace` keeps the length and swaps exactly the occurrences of one character |
| Text.RStripChars | ndf_to_text_converter.py:308 | `rstrip(chars)` keeps a prefix, drops only characters of the set, and the kept part does not end with one |
| Numerals.IntToString | ndf_to_text_converter.py:188 | `str(n)` is non-empty; it starts with '-' exactly for negative `n`, and is otherwise digits |
| Numerals.IntToStringChars | ndf_to_text_converter.py:188 | `str(n)` holds only digits and a leading minus sign |
| Numerals.ParseSample | ndf_reader.py:409 | `int(float(line))` finds a value only in a non-empty line, and a negative one only after a leading '-'; with `IntToStringParses` and `ParseTruncates` it reads every integer and every decimal numeral, truncating toward zero |
| Numerals.IntToStringParses | ndf_reader.py:409 | the sample parser reads back every integer `str()` wrote |
| Numerals.ParseTruncates | ndf_reader.py:409 | `int(float("n.f"))` is `n` and `int(float("-n.f"))` is `-n` for any fraction digits `f`: the fraction is truncated toward zero |
| Numerals.RoundHalfEven | labchart_exporter.py:290 | the result is within 0.5 of the value, and a tie goes to the even integer |
| Numerals.ScaledMagnitude | labchart_exporter.py:54-61 | the printed digits are `abs(x)·10^d` rounded to the nearest integer, ties to even |
| Numerals.FormatFixedShape | labchart_exporter.py:54-61 | `f"{x:.{d}f}"` has a minus sign exactly for negative `x`, then digits, one point and exactly `d` digits, which together spell the rounded `abs(x)·10^d` |
| Numerals.FormatFixedExact | labchart_exporter.py:54-61 | a value with an exact `d`-digit expansion is printed without rounding |
| Numerals.ReprShortest | labchart_exporter.py:85 | a value whose shortest exact decimal expansion has `d` digits after the point (1 to 17) is printed by `repr` with those digits: positionally with exactly `d` decimals when the exponent `e` of its leading digit lies in -4..15 (or the value is 0), in exponent form otherwise; `e` is fixed by `10^(e+d) <= n < 10^(e+d+1)` for the digits `n` |
| Numerals.ReprPlaces | labchart_exporter.py:85 | the number of decimals `repr` works with is the smallest one from `d` up to 17 that expresses the value exactly (17 when none does) |
| Numerals.NatToStringLength | labchart_exporter.py:85 | `str(n)` of a positive `n` has `k` digits exactly when `10^(k-1) <= n < 10^k` |
| Numerals.ScientificShape | labchart_exporter.py:85 | the exponent form prints a nonzero leading digit, then a point and the other significant digits when there are any, then `e`, the exponent's sign ('-' exactly for a negative exponent, '+' otherwise) and at least two digits spelling its magnitude; the significant digits followed by the dropped zeros spell the printed number |
| Numerals.ExponentDigits | labchart_exporter.py:85 | the exponent is printed with at least two digits and they spell its magnitude |
| Numerals.DropTrailingZeros | labchart_exporter.py:85 | the significant digits are a non-empty prefix of the digits, end in a nonzero digit when longer than one, and only zeros were dropped |
| Paths.PathJoin | labchart_exporter.py:210 | `os.path.join(d, name)` ends with `name` |
| Paths.ChannelFileName | labchart_exporter.py:210 | `E<n>.txt` starts with 'E' and holds no '/' |
| Paths.ChannelFileNameInjective | ndf_to_text_converter.py:141 | different channels get different file names |
| Paths.Basename | ndf_to_text_converter.py:136 | `basename` is the part after the last '/': a suffix of the path holding no '/', preceded by a '/' whenever it is shorter than the path |
| Paths.Dirname | ndf_to_text_converter.py:306 | `dirname` is a prefix of the path that reaches the last separator, with only slashes between it and the `basename`; it keeps all of the leading part when that is only slashes (the root), and otherwise does not end in '/' |
| Paths.DirnameBasename | ndf_to_text_converter.py:136 | a path is its `dirname`, then only slashes, then its `basename` |
| Paths.JoinBasename | ndf_to_text_converter.py:137-141 | the `basename` of a directory joined with a plain file name is that name |
| Paths.JoinSplit | ndf_to_text_converter.py:137-141 | a joined path splits back into the name and the directory without trailing slashes |
| Paths.SplitExt | ndf_to_text_converter.py:136 | `splitext` splits the path into a stem and an extension that concatenate back to it |
| Paths.SplitExtExtension | ndf_to_text_converter.py:136 | the extension is empty, or one '.' followed by neither '.' nor '/' |
| Paths.SplitExtWhole | ndf_to_text_converter.py:136 | a name without a dot, or with only a leading dot, has no extension |
| Paths.Stem | ndf_to_text_converter.py:136 | the archive name is a prefix of the `basename`, without '/' |
| Records.U16 | ndf_reader.py:201-203 | the little-endian u16 of two bytes is 16-bit; its low byte is `lo` and its high byte is `hi` |
| Records.U32 | ndf_reader.py:52 | the little-endian u32 of four bytes is below 2^32 |
| Records.DecodeRecord | ndf_reader.py:201-211 | the decoded timestamp is byte1·256 + byte0; the channel and type are the two nibbles of byte 2; all fields are in range |
| Records.IdNibbles | ndf_reader.py:205-207 | the two low nibbles of the identifier are those of its low byte |
| Records.LE16 | tests/ndf_test_utils.py:55-58 | `struct.pack("<H", v)` is two bytes that unpack to `v` |
| Records.EncodeRecord | tests/ndf_test_utils.py:44-58 | the test utilities' record writer produces one 8-byte record |
| Records.DecodeEncode | tests/ndf_test_utils.py:44-58 | decoding inverts the record writer on every well-formed message |
| Records.EncodeDecode | ndf_reader.py:205-207 | re-encoding a decoded record gives its bytes back exactly when the identifier's high byte is zero |
| Records.DecodeStream | ndf_reader.py:193-221 | one message per whole record, in file order; message `k` decodes record `k` |
| Records.MessagesFrom | ndf_reader.py:190-196 | reading from the offset gives `(size - offset) / 8` messages, and none when the offset is at or past the end |
| Records.Window | ndf_reader.py:100-101 | the probe window holds `min(1024, size - offset)` bytes |
| Records.CountNonZero | ndf_reader.py:104 | the non-zero count is at most the window size |
| Records.PlausibleCount | ndf_reader.py:124-137 | at most ten records are counted |
| Records.PlausibleAmong | ndf_reader.py:125-135 | among `k` records at most `k` are counted |
| Records.FirstAccepted | ndf_reader.py:96-110 | the offset is the first candidate from index `i` that passes every test, or the fallback when none does |
| Records.ProbeOffset | ndf_reader.py:96-116 | the telemetry section starts at a candidate. It is the first that is below the file size, has over 100 non-zero bytes in its window and passes the record test; otherwise it is 20480 |
| Records.ZeroPrefixProbe | tests/ndf_test_utils.py:28-33 | an archive whose first 17408 bytes are zero, as the test files are written, has its section at 20480 |
| NdfMetadata.AsciiDecode | ndf_reader.py:62-64 | the ASCII decode with ignored errors is ASCII, no longer than its input, and as long when every byte is ASCII |
| NdfMetadata.AsciiDecodeKeeps | ndf_reader.py:62-64 | bytes below 128 decode to the characters with those codes, in order |
| NdfMetadata.AsciiDecodeDrops | ndf_reader.py:62-64 | bytes of 128 and above are dropped: they decode to nothing |
| NdfMetadata.AsciiDecodeAppend | ndf_reader.py:62-64 | decoding works byte by byte: the decode of a concatenation is the concatenation of the decodes |
| NdfMetadata.AsciiRoundTrip | ndf_reader.py:62-64 | decoding the bytes of an ASCII string gives the string back |
| NdfMetadata.StartMarkerAscii | ndf_reader.py:58 | the searched bytes are the ASCII of `<c>` |
| NdfMetadata.EndMarkerAscii | ndf_reader.py:59 | the searched bytes are the ASCII of `</payload>` |
| NdfMetadata.Field | ndf_reader.py:68-83 | a field is absent without its label; it takes the fallback when no '.' follows the label or the first '.' comes right after it; a value other than the fallback holds no '.' |
| NdfMetadata.FieldValue | ndf_reader.py:68-83 | when the first occurrence of the label is followed by a non-empty text without '.' and then a '.', the field is that text stripped |
| NdfMetadata.ReadMetadata | ndf_reader.py:40-83 | header values exist exactly when the first 1024 bytes hold 16, and are then the three little-endian words at offsets 4, 8 and 12; the raw metadata is the marked block of the first 1024 bytes; without it there is no date or creator, with it the date is the `Date Created:` field (fallback "Unknown") and the creator the `Creator:` field (no fallback) |
| NdfMetadata.RawBlock | ndf_reader.py:58-65 | a raw block exists exactly when `<c>` occurs before `</payload>`; it is then the decode of the bytes from the first `<c>` through the end of the first `</payload>` |
| NdfMetadata.RawBlockFramed | ndf_reader.py:58-65 | the raw block starts with `<c>` and ends with `</payload>` |
| NdfMetadata.CreationDate | ndf_reader.py:316-318 | a missing creation date reads as "Unknown", and a present one is returned as it is |
| Intervals.Clamp16 | ndf_reader.py:288 | the clamped sample is 16-bit; a 16-bit sample is unchanged; others go to the nearer bound |
| Intervals.MessageSamples | ndf_reader.py:285-289 | each message contributes two samples |
| Intervals.MessageSamplesAt | ndf_reader.py:285-289 | message `k` contributes samples `2k` and `2k+1`: its sample1 then its sample2, clamped |
| Intervals.PyPrefix | ndf_reader.py:306-308 | `s[:n]` is the first `n` elements, counted from the end when `n` is negative |
| Intervals.Fit | ndf_reader.py:297-308 | the fitted buffer has exactly `spi` samples, starts with the buffer and pads with its last value |
| Intervals.PerInterval | ndf_reader.py:292-295 | a group is the fewest messages whose samples reach `spi` |
| Intervals.FlushPoint | ndf_reader.py:292-295 | the buffer is flushed exactly when it holds a whole group |
| Intervals.IntervalsFrom | ndf_reader.py:279-312 | there are no intervals exactly when there are no messages, and never more intervals than messages |
| Intervals.IntervalsShape | ndf_reader.py:272-312 | interval `j` starts at `j` seconds whatever the timestamps, and has exactly `spi` samples |
| Intervals.SortByTimestamp | ndf_reader.py:268 | the sorted messages are a permutation in ascending timestamp order |
| Intervals.SortByTimestampTwice | ndf_reader.py:268 | sorting a group again changes nothing |
| Intervals.EvenKeepsAll | ndf_reader.py:292-308 | with an even `spi`, the intervals hold every clamped sample in order, then only copies of the last one |
| Intervals.OddDropsOne | ndf_reader.py:304-308 | with an odd `spi`, a full group has `spi + 1` samples and the slice drops the last |
| Intervals.ChunksFrom | ndf_reader.py:373-377 | the chunks have `spi` samples each, the last one 1 to `spi`; chunk `j` starts at its first index divided by the rate |
| Intervals.ChunksConcat | ndf_reader.py:373-377 | the chunks concatenate back to the values |
| Intervals.Chunked | ndf_reader.py:370-377 | a zero chunk size raises (as `range` does) and a negative one gives no chunks |
| NdfReader.OnChannel | ndf_reader.py:245-249 | a channel's group is no longer than the message list |
| NdfReader.OnChannelMembers | ndf_reader.py:245-249 | a group holds messages of the list on that channel only |
| NdfReader.ChannelPresent | ndf_reader.py:245-249 | a channel is a key exactly when its group is not empty |
| NdfReader.OnChannelMultiset | ndf_reader.py:245-249 | grouping partitions the messages: each copy goes to its own channel's group and to no other |
| NdfReader.ChannelsInRange | ndf_reader.py:206 | every channel id of a parsed archive is in 0..15 |
| NdfReader.GroupByChannel | ndf_reader.py:244-249 | the keys are the channels present, and each list is that channel's messages in file order |
| NdfReader.SortGroup | ndf_reader.py:268 | a cached group sorts to the channel's messages sorted, and the cache with that group sorted in place still groups the archive's messages |
| NdfReader.CacheSort | ndf_reader.py:251-268 | sorting a cached group keeps the whole cache consistent with the archive |
| NdfReader.EmptyGroup | ndf_reader.py:264-265 | an empty message list yields no intervals and is left unchanged |
| NdfReader.BuildIntervals | ndf_reader.py:270-314 | the buffer loop emits exactly the grouped, fitted intervals |
| NdfReader.FitBuffer | ndf_reader.py:297-308 | the padding loop and the slice give the fitted buffer |
| NdfReader.NDFReader.constructor | ndf_reader.py:24-38 | a new reader has read the metadata, located the section and parsed nothing |
| NdfReader.NDFReader.ValidateTelemetryRegion | ndf_reader.py:118-137 | the result holds exactly when at least 5 of the first 10 whole records are plausible |
| NdfReader.NDFReader.FindDataSection | ndf_reader.py:89-116 | the offset set is the probed one (never None) |
| NdfReader.NDFReader.ParseTelemetryMessages | ndf_reader.py:183-227 | the read loop returns every whole record from the section start, in order |
| NdfReader.NDFReader.ParseAndGroupMessages | ndf_reader.py:229-258 | it parses at most once; later calls return the cache unchanged; the grouping is exact |
| NdfReader.NDFReader.MessagesToIntervals | ndf_reader.py:260-314 | the cached group is sorted in place, and the intervals are those of the channel's sorted messages |
| NdfReader.NDFReader.ReadChannelData | ndf_reader.py:139-181 | the intervals of the channel's messages; empty exactly when the channel has none |
| NdfReader.NDFReader.GetAvailableChannels | ndf_reader.py:320-338 | the channel ids present, ascending and without duplicates, cached |
| NdfReader.PlausibleStops | ndf_reader.py:126-128 | records after a partial one add nothing to the count |
| NdfReader.UnpackU16 | ndf_reader.py:366-367 | `struct.unpack("<nH")` gives one 16-bit value per byte pair |
| NdfReader.PackU16 | ndf_reader.py:445-449 | the bytes of a u16 signal are two per sample |
| NdfReader.UnpackPack | ndf_reader.py:362-367 | unpacking the bytes of a signal gives back its samples |
| NdfReader.ReadBinarySignal | ndf_reader.py:348-379 | an odd byte count fails; otherwise the result is the chunks of the unpacked values |
| NdfReader.BinaryRoundTrip | ndf_reader.py:348-379 | a written binary signal reads back as exactly its samples, in order |
| NdfReader.TextValues | ndf_reader.py:403-411 | a text file gives at most one value per line |
| NdfReader.CommentLine | ndf_reader.py:406-407 | a line starting with '#' gives no value |
| NdfReader.IntegerLine | ndf_reader.py:406-409 | a line holding `str(n)` gives exactly `n` |
| NdfReader.ReadTextSignal | ndf_reader.py:388-423 | the read loop keeps the values of the numeral lines, then chunks them |
| Sorting.SortBy | labchart_exporter.py:281 | the sort gives a permutation that is sorted by the key |
| Sorting.SortByStable | ndf_reader.py:268 | the sort is stable: elements with equal keys keep their order |
| Sorting.SortBySorted | ndf_reader.py:268 | sorting a sorted list leaves it as it is |
| Sorting.SortedInts | ndf_reader.py:255 | `sorted(keys)` is strictly ascending and holds exactly the keys |
| Sorting.SortedReals | labchart_exporter.py:298 | `sorted(times)` is strictly ascending and holds exactly the times |
| LabChart.FormatValueIsFixed | labchart_exporter.py:50-66 | a value is printed to 3, 6, 1 or 4 decimals, scaled by 1000 for ms and µV; comma mode turns each point into a comma and changes nothing else |
| LabChart.FormatValueChars | labchart_exporter.py:50-66 | a printed value holds only digits, a leading minus sign and the decimal separator |
| LabChart.Header | labchart_exporter.py:79-104 | a header is five lines in this order: `Interval= ` and the sample period as `str()` prints it, `DateTime= ` and the date or `Unknown` when it is missing or empty, `TimeFormat= `, `ChannelTitle= ` and the title, `Range= ` and the range with one decimal |
| LabChart.MultiHeader | labchart_exporter.py:355-377 | the merged header is five lines whose title line lists the channel ids joined by ", " |
| LabChart.MultiHeaderLines | labchart_exporter.py:355-377 | apart from the title line, the merged header has the same lines as a one-channel header |
| LabChart.DefaultHeader | labchart_exporter.py:18-27 | with the defaults the header reads `Interval= 0.001953125` and `Range= 120.0` |
| LabChart.IntervalAt16384Hz | labchart_exporter.py:81-85 | at 16384 Hz in seconds the period 1/16384 prints in exponent form, as `6.103515625e-05` |
| LabChart.ChannelTitlesCommas | labchart_exporter.py:371-372 | the multi-channel title has one comma fewer than there are channels |
| LabChart.GlitchFiltered | labchart_exporter.py:106-129 | the filtered signal has the input's length |
| LabChart.GlitchFilterBounds | labchart_exporter.py:119-127 | the filter keeps every sample inside any range that holds the input |
| LabChart.GlitchFilterKeeps | labchart_exporter.py:116-125 | endpoints, and samples that are not glitches of the original, are unchanged |
| LabChart.GlitchFilterReplaces | labchart_exporter.py:125-127 | a glitch becomes the floor of its neighbours' mean |
| LabChart.NewFileStartsAtZero | labchart_exporter.py:153-167 | in relative mode a new file rebinds the clock, and its first interval starts at 0 |
| LabChart.ClockKept | labchart_exporter.py:162-167 | for an existing file, or in absolute mode, a bound clock is kept |
| LabChart.AccumulatedExact | labchart_exporter.py:171-183 | adding the period `k` times gives `start + k·period` |
| LabChart.Timeline | labchart_exporter.py:171-183 | one timed sample per value |
| LabChart.TimelineAt | labchart_exporter.py:171-183 | sample `k` is at `start + k·period` |
| LabChart.SampleLinesAt | labchart_exporter.py:174-183 | line `k` of an interval prints sample `k` at `start + k·period` |
| LabChart.IntervalExportLines | labchart_exporter.py:152-189 | `export_interval` touches only its file and appends one line per sample after the old lines or a new header |
| LabChart.ChannelExportLines | labchart_exporter.py:191-222 | exporting a channel touches only its file, which gets one line per sample of every interval |
| LabChart.FirstSampleAtZero | labchart_exporter.py:152-167 | in relative mode a new channel file's first sample is at time 0 |
| LabChart.TimedLines | labchart_exporter.py:170-183 | the line loop gives the interval's lines at the accumulated times |
| LabChart.IntervalSamples | labchart_exporter.py:269-278 | one pooled sample per filtered sample |
| LabChart.IntervalSamplesSpacing | labchart_exporter.py:267-278 | samples of one interval start at its start and are one channel period apart: 1/128 s on channel 0, 1/512 s elsewhere |
| LabChart.Round9Close | labchart_exporter.py:290 | `round(t, 9)` moves a time by at most half a nanosecond |
| LabChart.GroupsKeys | labchart_exporter.py:285-295 | there is a row for a time exactly when some sample rounds to it |
| LabChart.GroupsCell | labchart_exporter.py:292-295 | a cell is filled exactly when some sample lands in it, and holds the last such sample |
| LabChart.Rows | labchart_exporter.py:309-334 | one row per time |
| LabChart.RowTabs | labchart_exporter.py:322-334 | every row has one tab per channel: the time, then one cell per channel, blank when missing |
| LabChart.FirstEmpty | labchart_exporter.py:253-255 | no channel is reported exactly when all have intervals; a reported one is the first without |
| LabChart.MergeClock | labchart_exporter.py:300-307 | in relative mode the clock is bound after a merge |
| LabChart.FindEmptyChannel | labchart_exporter.py:253-255 | the checking loop finds the first channel without intervals |
| LabChart.ChannelSamplesLength | labchart_exporter.py:269-278 | a channel contributes one sample per sample of its intervals |
| LabChart.PoolMembers | labchart_exporter.py:262-278 | the pool holds exactly the samples of the listed channels |
| LabChart.GroupsKeySet | labchart_exporter.py:285-295 | the rows are keyed by exactly the rounded sample times |
| LabChart.RoundedTimesPermutation | labchart_exporter.py:281 | sorting the pool does not change which times occur |
| LabChart.MultiChannelErrors | labchart_exporter.py:246-255 | an empty map, or a channel without intervals (the lowest one is named), raises and changes neither the files nor the clock |
| LabChart.LowestEmptyChannel | labchart_exporter.py:250-255 | the channel reported is the lowest without intervals |
| LabChart.MultiChannelSuccess | labchart_exporter.py:246-258 | when every channel has intervals the export succeeds with the merge of all channels in ascending order |
| LabChart.MergedFile | labchart_exporter.py:257-334 | only the output file changes; it holds the 5-line header, then one row per distinct rounded time, each with one tab per channel |
| LabChart.RowCount | labchart_exporter.py:298-334 | there is one row per distinct rounded time of the pool |
| LabChart.MergedTimes | labchart_exporter.py:298-307 | row times ascend strictly; a first relative merge binds the clock to the earliest time; a bound clock is kept |
| LabChart.MergedFirstRow | labchart_exporter.py:300-320 | in relative mode a fresh exporter's first row is at time 0 |
| LabChart.GroupByTime | labchart_exporter.py:285-295 | the grouping loop builds the cells of every rounded time |
| LabChart.TimedRows | labchart_exporter.py:309-334 | the writing loop gives one row per time, in order |
| LabChart.LabChartExporter.constructor | labchart_exporter.py:18-48 | a new exporter keeps its settings and has no clock |
| LabChart.LabChartExporter.ApplyGlitchFilter | labchart_exporter.py:106-129 | the filter loop computes the filtered signal from the original values |
| LabChart.LabChartExporter.ExportInterval | labchart_exporter.py:131-189 | returns the sample count; the files and clock are those of one interval export |
| LabChart.LabChartExporter.ExportChannel | labchart_exporter.py:191-222 | writes to `<dir>/E<n>.txt`; the files and clock are those of exporting every interval in turn |
| LabChart.LabChartExporter.CollectInterval | labchart_exporter.py:271-278 | one interval's filtered samples at the channel's rate |
| LabChart.LabChartExporter.CollectSamples | labchart_exporter.py:262-278 | the collecting loops build the pool, channel by channel |
| LabChart.LabChartExporter.GroupSamples | labchart_exporter.py:262-295 | the pool, sorted by time and channel, grouped by rounded time |
| LabChart.LabChartExporter.BindClock | labchart_exporter.py:300-307 | an unset clock is bound to the first time in relative mode; absolute mode prints raw times |
| LabChart.LabChartExporter.Merge | labchart_exporter.py:257-334 | the new files and clock are exactly those of the merge: only the output file changes, rows ascend, and the relative clock is bound to the earliest time (see MergedFile, MergedTimes) |
| LabChart.LabChartExporter.ExportMultiChannel | labchart_exporter.py:224-340 | the result is an error with files and clock unchanged for an empty map or an empty channel, and otherwise the merge of every channel in ascending order (see MultiChannelErrors, MultiChannelSuccess) |
| NdfToTextConverter.SelectionCounts | ndf_to_text_converter.py:87-88 | every requested channel is converted or reported missing, repeats included |
| NdfToTextConverter.SelectionMembers | ndf_to_text_converter.py:87-88 | a channel is converted exactly when requested and available, and missing exactly when requested and unavailable |
| NdfToTextConverter.SelectedChannels | ndf_to_text_converter.py:84-88 | without a request all channels are converted in ascending order; with one, the requested channels the archive has, in request order |
| NdfToTextConverter.PresentAll | ndf_to_text_converter.py:87-88 | when all requested channels exist, all are converted in order and none is missing |
| NdfToTextConverter.IntervalRows | ndf_to_text_converter.py:186-188 | one line per sample of an interval |
| NdfToTextConverter.BodyLength | ndf_to_text_converter.py:186-188 | one line per sample, plus one per interval when marked |
| NdfToTextConverter.BodyAt | ndf_to_text_converter.py:210-217 | interval `k`'s lines follow those of earlier intervals: its marker, then sample `i` with index `i` |
| NdfToTextConverter.CsvFields | ndf_to_text_converter.py:233-237 | a csv row has one field per column |
| NdfToTextConverter.MetadataHeader | ndf_to_text_converter.py:172-183 | the metadata block is nine lines |
| NdfToTextConverter.MetadataComments | ndf_to_text_converter.py:172-183 | every metadata line starts with '#' |
| NdfToTextConverter.ChannelText | ndf_to_text_converter.py:144-151 | a text is produced exactly for the formats simple, detailed and csv |
| NdfToTextConverter.SimpleShape | ndf_to_text_converter.py:166-188 | the simple layout is nine '#' lines (with metadata), then exactly `str(sample)` per sample, in order |
| NdfToTextConverter.IntLines | ndf_to_text_converter.py:186-188 | line `k` is `str` of value `k` |
| NdfToTextConverter.SimpleRoundTrip | ndf_to_text_converter.py:166-188 | reading a simple-layout file back as a text signal gives all the samples written |
| NdfToTextConverter.CommentsAreSkipped | ndf_reader.py:406-407 | lines that all start with '#' give no value |
| NdfToTextConverter.IntLinesRead | ndf_reader.py:403-411 | integer lines read back as their values |
| NdfToTextConverter.DetailedRowShape | ndf_to_text_converter.py:212-217 | a detailed sample line is not a comment and has two spaces |
| NdfToTextConverter.CsvRowShape | ndf_to_text_converter.py:225-237 | every csv row has as many fields as the header: 4 with timestamps, 3 without |
| NdfToTextConverter.DetailedShape | ndf_to_text_converter.py:190-217 | the detailed layout has one line per sample plus one marker per interval, and its comments are exactly the metadata and the markers |
| NdfToTextConverter.DetailedBodyComments | ndf_to_text_converter.py:210-211 | the detailed body has one comment per interval |
| NdfToTextConverter.UnknownFormat | ndf_to_text_converter.py:150-151 | an unknown format writes nothing |
| NdfToTextConverter.CsvShape | ndf_to_text_converter.py:219-237 | the csv layout is the header, then sample `i` of interval `k` on its own row with index `i` |
| NdfToTextConverter.DetailedLayout | ndf_to_text_converter.py:190-217 | after the metadata come the marked interval blocks |
| NdfToTextConverter.WriteBody | ndf_to_text_converter.py:210-217 | the writing loops give the lines of every interval in order |
| NdfToTextConverter.OutputPath | ndf_to_text_converter.py:136-141 | the output file's name is `E<channel>.txt` |
| NdfToTextConverter.ChannelOutputCases | ndf_to_text_converter.py:127-164 | a channel yields its file exactly when it has messages and the format is known |
| NdfToTextConverter.ChannelHasIntervals | ndf_to_text_converter.py:129-133 | a channel has intervals exactly when it has messages |
| NdfToTextConverter.OutputPathInjective | ndf_to_text_converter.py:136-141 | different channels go to different files |
| NdfToTextConverter.ConvertedFiles | ndf_to_text_converter.py:103-109 | each channel creates its path, in order, holding its text; other files are unchanged |
| NdfToTextConverter.NothingConverted | ndf_to_text_converter.py:103-109 | when no channel yields a file, nothing is written |
| NdfToTextConverter.NothingSelected | ndf_to_text_converter.py:78-94 | an archive without channels selects nothing |
| NdfToTextConverter.SelectedAvailable | ndf_to_text_converter.py:84-88 | every selected channel has messages |
| NdfToTextConverter.OutputsOfSelected | ndf_to_text_converter.py:104-109 | every selected channel yields a file exactly in a known format, at its `E<c>.txt` path and each under its own path |
| NdfToTextConverter.ConversionIsConverted | ndf_to_text_converter.py:78-109 | the conversion converts the selected channels one after another |
| NdfToTextConverter.ConversionPaths | ndf_to_text_converter.py:102-112 | in a known format it creates `E<c>.txt` under the archive's directory for each selected channel, in order |
| NdfToTextConverter.ConversionContents | ndf_to_text_converter.py:102-112 | each created file holds its channel's text in the chosen layout |
| NdfToTextConverter.ConversionKeepsOthers | ndf_to_text_converter.py:52-116 | no file other than those reported is changed |
| NdfToTextConverter.UnknownFormatConversion | ndf_to_text_converter.py:144-164 | an unknown format creates nothing |
| NdfToTextConverter.NDFToTextConverter.constructor | ndf_to_text_converter.py:34-50 | a new converter keeps its options |
| NdfToTextConverter.NDFToTextConverter.WriteSimpleFormat | ndf_to_text_converter.py:166-188 | the output file holds the simple text; no other file changes |
| NdfToTextConverter.NDFToTextConverter.WriteDetailedFormat | ndf_to_text_converter.py:190-217 | the output file holds the detailed text; no other file changes |
| NdfToTextConverter.NDFToTextConverter.WriteCsvFormat | ndf_to_text_converter.py:219-237 | the output file holds the csv text; no other file changes |
| NdfToTextConverter.NDFToTextConverter.WriteChannel | ndf_to_text_converter.py:131-160 | with intervals and a known format, the channel's file is written and its path returned; otherwise nothing |
| NdfToTextConverter.NDFToTextConverter.ConvertChannel | ndf_to_text_converter.py:118-164 | the channel's output is written, or nothing when it has no data or the format is unknown |
| NdfToTextConverter.NDFToTextConverter.ConvertChannels | ndf_to_text_converter.py:102-112 | the loop converts the channels in order and collects the created paths |
| NdfToTextConverter.NDFToTextConverter.ConvertNdfFile | ndf_to_text_converter.py:52-116 | the files and paths are those of converting the selected channels of the archive |
| NdfToTextConverter.DefaultOutputDir | ndf_to_text_converter.py:304-308 | the default output directory ends with "_text" |
| NdfToTextConverter.DefaultDirOfDirectory | ndf_to_text_converter.py:308 | for a directory it is the path without trailing separators, and a trailing separator changes nothing |
| NdfToTextConverter.DefaultDirOfFile | ndf_to_text_converter.py:306 | for a file it is the file's directory part |

## Left out

- I/O and printing are not modelled.
  - Opening, seeking and reading the archive is replaced by a byte sequence.
  - Output files are a path-to-lines map.
  - `os.makedirs`, `os.path.exists`, `os.path.getsize` are not modelled; existence is membership in the map.
  - Every `print` is not modelled, including the magic-bytes warning, the missing-channels warning, sample counts and file sizes.
- `datetime.now()` is a parameter `now`. The `except` branch of `_read_metadata` that uses it is not modelled, because no exception can arise there.
- Floating point is not modelled.
  - Times, rates and voltages are exact rationals.
  - `round(t, 9)`, `.Nf` and `repr` are applied to exact values, not to binary doubles. Where a double differs from the rational it stands for, the printed digits and the grouping of nearly equal times can differ.
- Numerals.ParseSample: reads only optionally signed decimal numerals (`5`, `-5.25`, `+5.`, `.5`) in ASCII digits. Python's `float()` also accepts exponents, "inf", "nan", underscores, surrounding whitespace and non-ASCII decimal digits; such lines are skipped by the model.
- Numerals.ReprDecimal: `repr` prints the shortest digit string that reads back as the same double. The model takes the shortest exact decimal expansion of the rational instead, searching at most 17 decimals, and prints it in full. For a value whose exact expansion is longer (1/3, or an integer above 2^53 with more than 17 significant digits) the digits differ from Python's.
- LabChart.Header: requires a non-zero sample rate; the source raises ZeroDivisionError there instead of writing a header.
- LabChart.LabChartExporter.ExportInterval, ExportChannel, Merge and ExportMultiChannel require a non-zero sample rate for the same reason.
- NdfReader.NDFReader.ReadChannelData: the `message_size` argument is not modelled. The source assigns it but parses with the reader's own size of 8.
- NdfReader.NDFReader.ParseTelemetryMessages: the `struct.error` handler is not modelled, because an 8-byte record always unpacks.
- The `try`/`except` blocks of `convert_ndf_file` and `_convert_channel` are not modelled for I/O errors, which the model has none of. The unknown-format error that `_convert_channel` absorbs is modelled as "no file".
- In-place list updates are modelled on values.
  - The in-place sorts (`list.sort`) are a stable insertion sort on sequences, not an in-place array algorithm.
  - The cached group is replaced by its sorted copy in the cache map.
- The `Interval` tuples, the cached dictionaries and lists are values. Aliasing between the cache and a caller's list is not modelled.
- Line breaks inside header fields (a date or path holding '\n') are not modelled. A file is a list of lines, so such a field stays one line.
- `find_ndf_files`, the rest of `bulk_convert_ndf_to_text`, `bulk_converter.py`, the command-line `main` functions and the numpy example functions are not modelled. They are file-system queries, argument parsing and demos.
- `NDFReader.get_creation_date` is modelled as `NdfReader.NDFReader.GetCreationDate`, whose meaning is stated by `NdfMetadata.CreationDate`.
