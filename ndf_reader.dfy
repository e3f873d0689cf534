/**
 * The NDF archive reader: an object that reads an archive's metadata and
 * locates its telemetry section when it is created, parses and groups the
 * telemetry records by channel the first time a channel is asked for, and
 * keeps that grouping and the sorted channel list as a cache.
 *
 * Beside it, the two plain readers of binary and text signal files, which cut
 * a flat list of samples into consecutive chunks.
 *
 * The archive is the byte sequence `data`; the source re-opens the file on
 * every call, which reads the same bytes each time.
 */
module NdfReader {
  import opened Common
  import opened Text
  import opened Numerals
  import opened Sorting
  import opened Records
  import opened NdfMetadata
  import opened Intervals

  // ----- Grouping by channel -----

  /** The messages of channel `c`, in their order in `ms`. */
  function OnChannel(ms: seq<Message>, c: int): (r: seq<Message>)
    ensures |r| <= |ms|
  {
    if |ms| == 0 then []
    else OnChannel(ms[..|ms| - 1], c) + (if ms[|ms| - 1].channel == c then [ms[|ms| - 1]] else [])
  }

  /** The channel ids that occur in `ms`. */
  function ChannelsOf(ms: seq<Message>): set<int>
  {
    if |ms| == 0 then {} else ChannelsOf(ms[..|ms| - 1]) + {ms[|ms| - 1].channel}
  }

  /** The group of a channel holds messages of `ms` on that channel only. */
  lemma {:induction false} OnChannelMembers(ms: seq<Message>, c: int, m: Message)
    requires m in OnChannel(ms, c)
    ensures m in ms && m.channel == c
  {
    var init := ms[..|ms| - 1];
    if m in OnChannel(init, c) {
      OnChannelMembers(init, c, m);
      assert m in ms[..|ms| - 1];
    }
  }

  /** A channel is present exactly when its group is not empty. */
  lemma {:induction false} ChannelPresent(ms: seq<Message>, c: int)
    ensures c in ChannelsOf(ms) <==> OnChannel(ms, c) != []
  {
    if |ms| > 0 {
      ChannelPresent(ms[..|ms| - 1], c);
    }
  }

  lemma AppendMessage(ms: seq<Message>, m: Message)
    ensures ChannelsOf(ms + [m]) == ChannelsOf(ms) + {m.channel}
    ensures forall c :: OnChannel(ms + [m], c) == OnChannel(ms, c) + (if m.channel == c then [m] else [])
  {
    assert (ms + [m])[..|ms|] == ms;
  }

  /**
   * Grouping partitions the messages: every copy of a message goes to the
   * group of its own channel and to no other.
   */
  lemma {:induction false} OnChannelMultiset(ms: seq<Message>, c: int, m: Message)
    ensures multiset(OnChannel(ms, c))[m] == if m.channel == c then multiset(ms)[m] else 0
  {
    if |ms| > 0 {
      var init := ms[..|ms| - 1];
      OnChannelMultiset(init, c, m);
      assert ms == init + [ms[|ms| - 1]];
    }
  }

  /** Every channel id of a parsed archive is a nibble. */
  lemma ChannelsInRange(data: seq<byte>, off: nat, c: int)
    requires c in ChannelsOf(MessagesFrom(data, off))
    ensures 0 <= c < 16
  {
    var ms := MessagesFrom(data, off);
    var g := OnChannel(ms, c);
    ChannelPresent(ms, c);
    assert g[0] in g;
    OnChannelMembers(ms, c, g[0]);
    var k :| 0 <= k < |ms| && ms[k] == g[0];
    assert WellFormed(ms[k]);
  }

  /** `groups` maps each channel present in `ms` to its messages, in order. */
  predicate GroupedAs(groups: map<int, seq<Message>>, ms: seq<Message>) {
    groups.Keys == ChannelsOf(ms) && forall c :: c in groups ==> groups[c] == OnChannel(ms, c)
  }

  /** Appending a message to the list of its channel keeps the grouping exact. */
  lemma GroupStep(groups: map<int, seq<Message>>, ms: seq<Message>, m: Message)
    requires GroupedAs(groups, ms)
    ensures GroupedAs(groups[m.channel := (if m.channel in groups then groups[m.channel] else []) + [m]], ms + [m])
  {
    AppendMessage(ms, m);
    ChannelPresent(ms, m.channel);
    var after := groups[m.channel := (if m.channel in groups then groups[m.channel] else []) + [m]];
    forall c | c in after ensures after[c] == OnChannel(ms + [m], c) {
      if c != m.channel {
        assert after[c] == groups[c];
      }
    }
  }

  /**
   * The grouping loop of the parser: each message is appended to the list of
   * its channel, a list being created when its channel first appears.
   */
  method GroupByChannel(msgs: seq<Message>) returns (groups: map<int, seq<Message>>)
    ensures groups.Keys == ChannelsOf(msgs)
    ensures forall c :: c in groups ==> groups[c] == OnChannel(msgs, c)
  {
    groups := map[];
    var i := 0;
    while i < |msgs|
      invariant 0 <= i <= |msgs|
      invariant GroupedAs(groups, msgs[..i])
    {
      var m := msgs[i];
      GroupStep(groups, msgs[..i], m);
      assert msgs[..i + 1] == msgs[..i] + [m];
      var list := if m.channel in groups then groups[m.channel] else [];
      groups := groups[m.channel := list + [m]];
      i := i + 1;
    }
    assert msgs[..|msgs|] == msgs;
  }

  /**
   * The cached groups of `all`: the group of each channel is that channel's
   * messages, in file order or sorted by timestamp.
   */
  predicate GroupsOf(all: seq<Message>, groups: map<int, seq<Message>>) {
    forall c :: c in groups ==>
      groups[c] == OnChannel(all, c) || groups[c] == SortByTimestamp(OnChannel(all, c))
  }

  /**
   * Sorting one cached group in place keeps the cache a grouping of `all`,
   * and gives the same list whether or not the group had been sorted before.
   */
  lemma SortGroup(all: seq<Message>, groups: map<int, seq<Message>>, c: int)
    requires GroupsOf(all, groups) && c in groups
    ensures SortByTimestamp(groups[c]) == SortByTimestamp(OnChannel(all, c))
    ensures GroupsOf(all, groups[c := SortByTimestamp(groups[c])])
  {
    SortByTimestampTwice(OnChannel(all, c));
    var after := groups[c := SortByTimestamp(groups[c])];
    forall d | d in after
      ensures after[d] == OnChannel(all, d) || after[d] == SortByTimestamp(OnChannel(all, d))
    {
      if d != c {
        assert after[d] == groups[d];
      }
    }
  }

  /**
   * The cache of a reader whose telemetry section holds `all`: the grouping
   * and the channel list are filled together; the groups are those of the
   * channels present; the list is their ids in ascending order.
   */
  predicate CacheOf(all: seq<Message>, parsed: Option<map<int, seq<Message>>>, channels: Option<seq<int>>) {
    (parsed.Some? <==> channels.Some?)
    && (parsed.Some? ==>
          parsed.value.Keys == ChannelsOf(all)
          && channels.value == SortedInts(parsed.value.Keys)
          && GroupsOf(all, parsed.value))
  }

  /** Sorting one cached group in place keeps the whole cache consistent. */
  lemma CacheSort(all: seq<Message>, p: map<int, seq<Message>>, channels: Option<seq<int>>, c: int)
    requires CacheOf(all, Some(p), channels) && c in p
    ensures SortByTimestamp(p[c]) == SortByTimestamp(OnChannel(all, c))
    ensures CacheOf(all, Some(p[c := SortByTimestamp(p[c])]), channels)
  {
    SortGroup(all, p, c);
    assert p[c := SortByTimestamp(p[c])].Keys == p.Keys;
  }

  /** An empty group stays as it is when sorted, and has no intervals. */
  lemma EmptyGroup(p: map<int, seq<Message>>, c: int, rate: real)
    requires c in p && p[c] == []
    ensures p[c := SortByTimestamp(p[c])] == p
    ensures NdfIntervals(p[c], rate) == [] && SortByTimestamp(p[c]) == []
  {
    assert SortByTimestamp([]) == [];
    assert p[c := SortByTimestamp(p[c])] == p;
  }

  // ----- Building the intervals of one channel -----

  /**
   * The loop of `_messages_to_intervals` over sorted messages: it appends the
   * clamped samples of each message to a buffer and, once the buffer holds
   * `spi` samples or the last message is reached, pads the buffer with its
   * last value or cuts it to `spi`, emits it and starts the next interval one
   * second later.
   */
  method BuildIntervals(ms: seq<Message>, spi: int) returns (ivs: seq<Interval>)
    ensures ivs == IntervalsFrom(ms, spi, 0)
  {
    ivs := [];
    var buf: seq<int> := [];
    var start := 0.0;
    ghost var g := 0;
    var i := 0;
    while i < |ms|
      invariant Building(ms, spi, g, i, buf, ivs, start)
      decreases |ms| - i
    {
      var m := ms[i];
      LoopStep(ms, spi, g, i, buf, ivs, start);
      buf := buf + [Clamp16(m.sample1), Clamp16(m.sample2)];
      if (|buf| >= spi || i == |ms| - 1) && |buf| > 0 {
        var fitted := FitBuffer(buf, spi);
        ivs := ivs + [Interval(start, fitted)];
        start := start + 1.0;
        buf := [];
        g := i + 1;
      }
      i := i + 1;
    }
    assert ms[g..] == [];
  }

  /**
   * The state of that loop before message `i`: the buffer holds the clamped
   * samples of the messages since `g`, fewer than a group, and `ivs` are the
   * intervals emitted before `g`, the next one starting at `|ivs|` seconds.
   */
  ghost predicate Building(ms: seq<Message>, spi: int, g: nat, i: nat, buf: seq<int>, ivs: seq<Interval>, start: real)
  {
    g <= i <= |ms| && i - g < PerInterval(spi) && (i == |ms| ==> g == i)
    && buf == MessageSamples(ms[g..i]) && start == |ivs| as real && Emitted(ms, spi, g, ivs)
  }

  /** One turn of the loop keeps `Building`, whether or not it emits an interval. */
  lemma LoopStep(ms: seq<Message>, spi: int, g: nat, i: nat, buf: seq<int>, ivs: seq<Interval>, start: real)
    requires Building(ms, spi, g, i, buf, ivs, start) && i < |ms|
    ensures var next := buf + [Clamp16(ms[i].sample1), Clamp16(ms[i].sample2)];
      && |next| > 0
      && ((|next| >= spi || i == |ms| - 1) ==>
            Building(ms, spi, i + 1, i + 1, [], ivs + [Interval(start, Fit(next, spi))], start + 1.0))
      && (!(|next| >= spi || i == |ms| - 1) ==> Building(ms, spi, g, i + 1, next, ivs, start))
  {
    SamplesStep(ms, g, i);
    var next := buf + [Clamp16(ms[i].sample1), Clamp16(ms[i].sample2)];
    assert |next| == 2 * (i + 1 - g);
    if |next| >= spi || i == |ms| - 1 {
      EmitStep(ms, spi, g, i, ivs);
      assert ms[i + 1..i + 1] == [];
    } else {
      KeepStep(ms, spi, g, i);
    }
  }

  /** `ivs` are the intervals `_messages_to_intervals` emits before message `g`. */
  ghost predicate Emitted(ms: seq<Message>, spi: int, g: nat, ivs: seq<Interval>)
  {
    g <= |ms| && ivs + IntervalsFrom(ms[g..], spi, |ivs|) == IntervalsFrom(ms, spi, 0)
  }

  /** A buffer that is not flushed holds less than a group, and more messages follow. */
  lemma KeepStep(ms: seq<Message>, spi: int, g: nat, i: nat)
    requires g <= i < |ms| && i - g < PerInterval(spi)
    requires !(2 * (i + 1 - g) >= spi || i == |ms| - 1)
    ensures i + 1 - g < PerInterval(spi) && i + 1 < |ms|
  {
    FlushPoint(i + 1 - g, spi);
  }

  /** Emitting the group `ms[g..i+1]` moves the emitted prefix past message `i`. */
  lemma EmitStep(ms: seq<Message>, spi: int, g: nat, i: nat, ivs: seq<Interval>)
    requires g <= i < |ms| && i - g < PerInterval(spi)
    requires 2 * (i + 1 - g) >= spi || i == |ms| - 1
    requires Emitted(ms, spi, g, ivs)
    ensures Emitted(ms, spi, i + 1, ivs + [Interval(|ivs| as real, Fit(MessageSamples(ms[g..i + 1]), spi))])
  {
    GroupEnd(ms, spi, g, i);
    var iv := Interval(|ivs| as real, Fit(MessageSamples(ms[g..i + 1]), spi));
    FlushStep(ms, spi, g, i, |ivs|);
    AppendOne(ivs, iv, IntervalsFrom(ms[i + 1..], spi, |ivs| + 1));
  }

  /** A flushed buffer holds a whole group, or the rest of the messages. */
  lemma GroupEnd(ms: seq<Message>, spi: int, g: nat, i: nat)
    requires g <= i < |ms| && i - g < PerInterval(spi)
    requires 2 * (i + 1 - g) >= spi || i == |ms| - 1
    ensures i + 1 - g == Min(PerInterval(spi), |ms| - g)
  {
    FlushPoint(i + 1 - g, spi);
  }

  lemma AppendOne<T>(a: seq<T>, x: T, b: seq<T>)
    ensures a + ([x] + b) == (a + [x]) + b && |a + [x]| == |a| + 1
  {
  }

  /**
   * Brings the buffer of one interval to `spi` samples: appends copies of its
   * last value while it is shorter, takes `buf[:spi]` when it is longer.
   */
  method FitBuffer(buf: seq<int>, spi: int) returns (out: seq<int>)
    requires |buf| > 0
    ensures out == Fit(buf, spi)
  {
    out := buf;
    if |out| < spi {
      var last := out[|out| - 1];
      while |out| < spi
        invariant |buf| <= |out| <= spi
        invariant out == buf + Repeat(last, |out| - |buf|)
        decreases spi - |out|
      {
        out := out + [last];
      }
    } else if |out| > spi {
      out := PyPrefix(out, spi);
    }
  }

  lemma SamplesStep(ms: seq<Message>, g: nat, i: nat)
    requires g <= i < |ms|
    ensures MessageSamples(ms[g..i + 1])
         == MessageSamples(ms[g..i]) + [Clamp16(ms[i].sample1), Clamp16(ms[i].sample2)]
  {
    assert ms[g..i + 1][..i - g] == ms[g..i];
  }

  /** Emitting the group `ms[g..i+1]` leaves the intervals of the messages after it. */
  lemma FlushStep(ms: seq<Message>, spi: int, g: nat, i: nat, k: nat)
    requires g <= i < |ms| && i + 1 - g == Min(PerInterval(spi), |ms| - g)
    ensures IntervalsFrom(ms[g..], spi, k)
         == [Interval(k as real, Fit(MessageSamples(ms[g..i + 1]), spi))] + IntervalsFrom(ms[i + 1..], spi, k + 1)
  {
    var rest := ms[g..];
    assert rest[..i + 1 - g] == ms[g..i + 1] && rest[i + 1 - g..] == ms[i + 1..];
  }

  // ----- The reader object -----

  class NDFReader {
    const filepath: string
    /** The bytes of the archive. */
    const data: seq<byte>
    /** The entries read from the first 1024 bytes when the reader is created. */
    const metadata: Metadata
    /** Where the telemetry records start; set when the reader is created. */
    var dataStartOffset: nat
    /** The messages grouped by channel, once parsed. */
    var parsed: Option<map<int, seq<Message>>>
    /** The sorted channel list, cached together with `parsed`. */
    var channelsCache: Option<seq<int>>

    /** The messages of the whole telemetry section, in file order. */
    function AllMessages(): seq<Message>
      reads this`dataStartOffset
    {
      MessagesFrom(data, dataStartOffset)
    }

    /** The telemetry section starts where the probe puts it. */
    predicate Located()
      reads this`dataStartOffset
    {
      dataStartOffset == ProbeOffset(data)
    }

    /** The reader's invariant: the archive facts and a consistent cache. */
    predicate Valid()
      reads this
    {
      Located() && CacheOf(AllMessages(), parsed, channelsCache)
    }

    /** Reads the metadata and locates the telemetry section; nothing is parsed yet. */
    constructor (filepath: string, data: seq<byte>)
      ensures this.filepath == filepath && this.data == data
      ensures Valid() && parsed.None? && channelsCache.None?
      ensures dataStartOffset == ProbeOffset(data) && metadata == ReadMetadata(data)
    {
      this.filepath := filepath;
      this.data := data;
      metadata := ReadMetadata(data);
      dataStartOffset := 0;
      parsed := None;
      channelsCache := None;
      new;
      FindDataSection();
    }

    /**
     * The record test at `off`: reads up to ten records, stopping at the
     * first partial one, and counts those that are not all zero and whose
     * timestamp lies strictly between 1000 and 65000.
     */
    method ValidateTelemetryRegion(off: nat) returns (ok: bool)
      ensures ok <==> TelemetryRegion(data, off)
    {
      var valid := 0;
      var i := 0;
      while i < 10 && off + RecordSize * i + RecordSize <= |data|
        invariant 0 <= i <= 10
        invariant valid == PlausibleAmong(data, off, i)
      {
        var at := off + RecordSize * i;
        var msg := data[at..at + RecordSize];
        var sum := msg[0] as int + msg[1] as int + msg[2] as int + msg[3] as int
          + msg[4] as int + msg[5] as int + msg[6] as int + msg[7] as int;
        if sum > 0 {
          var timestamp := U16(msg[0], msg[1]);
          if 1000 < timestamp < 65000 {
            valid := valid + 1;
          }
        }
        i := i + 1;
      }
      PlausibleStops(data, off, i, 10);
      ok := valid >= 5;
    }

    /**
     * The candidate loop: the first candidate below the archive size whose
     * window holds more than 100 non-zero bytes and which passes the record
     * test; 20480 when none does.
     */
    method FindDataSection()
      modifies this`dataStartOffset
      ensures dataStartOffset == ProbeOffset(data)
    {
      var found: Option<nat> := None;
      var i := 0;
      while i < |Candidates| && found.None?
        invariant 0 <= i <= |Candidates|
        invariant found.None? ==> FirstAccepted(data, i) == FirstAccepted(data, 0)
        invariant found.Some? ==> found.value == FirstAccepted(data, 0)
      {
        var off := Candidates[i];
        if off < |data| {
          var nonZero := CountNonZero(Window(data, off));
          if nonZero > 100 {
            var ok := ValidateTelemetryRegion(off);
            if ok {
              found := Some(off);
            }
          }
        }
        i := i + 1;
      }
      dataStartOffset := if found.Some? then found.value else FallbackOffset;
    }

    /**
     * Reads whole 8-byte records from the start of the telemetry section to
     * the end of the archive; a trailing partial record ends the scan.
     */
    method ParseTelemetryMessages() returns (msgs: seq<Message>)
      ensures msgs == AllMessages()
    {
      msgs := [];
      var pos := dataStartOffset;
      while pos + RecordSize <= |data|
        invariant pos == dataStartOffset + RecordSize * |msgs|
        invariant pos <= |data| || msgs == []
        invariant forall j :: 0 <= j < |msgs| ==>
          msgs[j] == DecodeRecord(data[dataStartOffset + RecordSize * j..dataStartOffset + RecordSize * j + RecordSize])
        decreases |data| - pos
      {
        msgs := msgs + [DecodeRecord(data[pos..pos + RecordSize])];
        pos := pos + RecordSize;
      }
      if dataStartOffset < |data| {
        var d := data[dataStartOffset..];
        forall j | 0 <= j < |msgs| ensures RecordAt(d, j) == data[dataStartOffset + RecordSize * j..dataStartOffset + RecordSize * j + RecordSize] {
        }
      }
    }

    /**
     * Parses and groups the messages the first time it is called and caches
     * the grouping and the sorted channel list; later calls return the cache.
     */
    method ParseAndGroupMessages() returns (grouped: map<int, seq<Message>>)
      requires Valid()
      modifies this`parsed, this`channelsCache
      ensures Valid() && parsed == Some(grouped)
      ensures old(parsed).Some? ==> parsed == old(parsed) && channelsCache == old(channelsCache)
      ensures old(parsed).None? ==> forall c :: c in grouped ==> grouped[c] == OnChannel(AllMessages(), c)
    {
      if parsed.Some? {
        return parsed.value;
      }
      var all := ParseTelemetryMessages();
      grouped := GroupByChannel(all);
      parsed := Some(grouped);
      channelsCache := Some(SortedInts(grouped.Keys));
    }

    /**
     * Sorts the cached group of channel `c` by timestamp, in place, and builds
     * its intervals of `int(rate)` samples each.
     */
    method MessagesToIntervals(c: int, rate: real) returns (ivs: seq<Interval>)
      requires Valid() && parsed.Some? && c in parsed.value
      modifies this`parsed
      ensures Valid()
      ensures parsed == Some(old(parsed.value)[c := SortByTimestamp(old(parsed.value[c]))])
      ensures ivs == NdfIntervals(OnChannel(AllMessages(), c), rate)
    {
      ghost var all := AllMessages();
      var groups := parsed.value;
      CacheSort(all, groups, channelsCache, c);
      if |groups[c]| == 0 {
        EmptyGroup(groups, c, rate);
        ivs := [];
      } else {
        var messages := SortByTimestamp(groups[c]);
        parsed := Some(groups[c := messages]);
        assert CacheOf(all, parsed, channelsCache);
        assert AllMessages() == all;
        ivs := BuildIntervals(messages, SamplesPerInterval(rate));
      }
    }

    /**
     * The intervals of channel `c`: empty when the channel has no messages;
     * otherwise its messages sorted by timestamp, in groups fitted to
     * `int(rate)` samples, starting 0, 1, 2, ... seconds.
     */
    method ReadChannelData(c: int, rate: real) returns (ivs: seq<Interval>)
      requires Valid()
      modifies this`parsed, this`channelsCache
      ensures Valid() && parsed.Some?
      ensures ivs == NdfIntervals(OnChannel(AllMessages(), c), rate)
      ensures c !in ChannelsOf(AllMessages()) <==> ivs == []
    {
      var grouped := ParseAndGroupMessages();
      ChannelPresent(AllMessages(), c);
      if c !in grouped {
        return [];
      }
      ivs := MessagesToIntervals(c, rate);
    }

    /** `metadata.get("created", "Unknown")`. */
    function GetCreationDate(): string
    {
      CreationDate(metadata)
    }

    /**
     * The channel ids present in the archive, ascending and without
     * duplicates; served from the cache once the messages are parsed.
     */
    method GetAvailableChannels() returns (chs: seq<int>)
      requires Valid()
      modifies this`parsed, this`channelsCache
      ensures Valid() && channelsCache == Some(chs)
      ensures old(parsed).Some? ==> parsed == old(parsed)
      ensures chs == SortedInts(ChannelsOf(AllMessages()))
    {
      if channelsCache.Some? {
        return channelsCache.value;
      }
      var grouped := ParseAndGroupMessages();
      chs := if channelsCache.Some? then channelsCache.value else [];
    }
  }

  /** Once a partial record is met, the later records add nothing to the count. */
  lemma {:induction false} PlausibleStops(data: seq<byte>, off: nat, i: nat, k: nat)
    requires i <= k
    requires i < k ==> off + RecordSize * i + RecordSize > |data|
    ensures PlausibleAmong(data, off, k) == PlausibleAmong(data, off, i)
  {
    if i < k {
      PlausibleStops(data, off, i, k - 1);
    }
  }

  // ----- The plain signal readers -----

  /** `struct.unpack("<{n}H", data)` for an even number of bytes. */
  function UnpackU16(b: seq<byte>): (v: seq<int>)
    requires |b| % 2 == 0
    ensures |v| == |b| / 2
    ensures forall i :: 0 <= i < |v| ==> v[i] == U16(b[2 * i], b[2 * i + 1]) && IsU16(v[i])
  {
    if |b| == 0 then [] else [U16(b[0], b[1])] + UnpackU16(b[2..])
  }

  /** The bytes of a binary signal file holding `v`: each value as a little-endian u16. */
  function PackU16(v: seq<int>): (b: seq<byte>)
    requires forall i :: 0 <= i < |v| ==> IsU16(v[i])
    ensures |b| == 2 * |v|
  {
    if |v| == 0 then [] else LE16(v[0]) + PackU16(v[1..])
  }

  /** Unpacking the bytes of a binary signal file gives back its samples. */
  lemma {:induction false} UnpackPack(v: seq<int>)
    requires forall i :: 0 <= i < |v| ==> IsU16(v[i])
    ensures UnpackU16(PackU16(v)) == v
  {
    if |v| > 0 {
      UnpackPack(v[1..]);
      var b := PackU16(v);
      assert b[2..] == PackU16(v[1..]);
      assert b[..2] == LE16(v[0]);
    }
  }

  /**
   * `SimpleBinarySignalReader.read_signal`: the file's u16 samples in chunks
   * of `int(rate * length)`; an odd byte count makes the unpack fail.
   */
  function ReadBinarySignal(bytes: seq<byte>, rate: real, length: real): (r: Result<seq<Interval>>)
    ensures |bytes| % 2 == 1 ==> r.Err?
    ensures |bytes| % 2 == 0 ==> r == Chunked(UnpackU16(bytes), rate, length)
  {
    if |bytes| % 2 == 1 then Err("unpack requires a buffer of an even number of bytes")
    else Chunked(UnpackU16(bytes), rate, length)
  }

  /**
   * A binary signal file of u16 samples reads back as exactly those samples,
   * in order, whenever at least one sample fits in an interval.
   */
  lemma BinaryRoundTrip(v: seq<int>, rate: real, length: real)
    requires forall i :: 0 <= i < |v| ==> IsU16(v[i])
    requires Trunc(rate * length) >= 1
    ensures var r := ReadBinarySignal(PackU16(v), rate, length);
      r.Ok? && AllSamples(r.value) == v
  {
    UnpackPack(v);
    ChunksConcat(v, Trunc(rate * length), rate, 0);
  }

  /** The value a text line contributes: none for blank, comment and unparseable lines. */
  function TextValue(line: string): Option<int>
  {
    var s := Strip(line);
    if |s| > 0 && !StartsWith(s, "#") then ParseSample(s) else None
  }

  /** The values of a text signal file, line after line. */
  function TextValues(lines: seq<string>): (v: seq<int>)
    ensures |v| <= |lines|
  {
    if |lines| == 0 then []
    else
      var last := TextValue(lines[|lines| - 1]);
      TextValues(lines[..|lines| - 1]) + (if last.Some? then [last.value] else [])
  }

  lemma {:induction false} TextValuesAppend(a: seq<string>, b: seq<string>)
    ensures TextValues(a + b) == TextValues(a) + TextValues(b)
    decreases |b|
  {
    if |b| == 0 {
      assert a + b == a;
    } else {
      var init := b[..|b| - 1];
      var x := TextValue(b[|b| - 1]);
      var tail := if x.Some? then [x.value] else [];
      TextValuesAppend(a, init);
      assert (a + b)[..|a + b| - 1] == a + init;
      assert (a + b)[|a + b| - 1] == b[|b| - 1];
      assert TextValues(a + b) == TextValues(a + init) + tail;
      assert TextValues(b) == TextValues(init) + tail;
    }
  }

  /** A line starting with '#' is a comment: it contributes no value. */
  lemma CommentLine(line: string)
    requires StartsWith(line, "#")
    ensures TextValue(line) == None
  {
    assert line[0] == '#' && !IsSpace(line[0]);
    assert StripLeft(line) == line;
    StripRightPrefix(line);
    var s := StripRight(line);
    assert |s| > 0;
    assert s[..1] == line[..1];
  }

  /** A line holding `str(n)` contributes exactly `n`. */
  lemma IntegerLine(n: int)
    ensures TextValue(IntToString(n)) == Some(n)
  {
    var s := IntToString(n);
    assert !IsSpace(s[|s| - 1]) by {
      if n < 0 {
        assert IsDigit(s[1..][|s| - 2]);
      }
    }
    StripUnchanged(s);
    IntToStringParses(n);
  }

  /**
   * `TextSignalReader.read_signal`: each line is stripped; blank lines,
   * lines starting with '#' and lines that are not numerals are skipped; the
   * values are then cut into chunks of `int(rate * length)`.
   */
  method ReadTextSignal(lines: seq<string>, rate: real, length: real) returns (r: Result<seq<Interval>>)
    ensures r == Chunked(TextValues(lines), rate, length)
  {
    var values: seq<int> := [];
    var i := 0;
    while i < |lines|
      invariant 0 <= i <= |lines|
      invariant values == TextValues(lines[..i])
    {
      assert lines[..i + 1][..i] == lines[..i];
      assert TextValues(lines[..i + 1]) == TextValues(lines[..i]) + (if TextValue(lines[i]).Some? then [TextValue(lines[i]).value] else []);
      var line := Strip(lines[i]);
      if |line| > 0 && !StartsWith(line, "#") {
        var v := ParseSample(line);
        if v.Some? {
          values := values + [v.value];
        }
      }
      i := i + 1;
    }
    assert lines[..|lines|] == lines;
    r := Chunked(values, rate, length);
  }
}
