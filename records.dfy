/**
 * The OSI telemetry record of an NDF archive and the rules that locate the
 * telemetry section: eight little-endian bytes per record, holding a 16-bit
 * timestamp, a 16-bit identifier (channel in the low nibble, message type in
 * the next nibble) and two 16-bit samples.
 */
module Records {
  import opened Common

  /** Size in bytes of one telemetry record. */
  const RecordSize: nat := 8

  /** One decoded telemetry record. */
  datatype Message = Message(timestamp: int, channel: int, msgType: int, sample1: int, sample2: int)

  predicate WellFormed(m: Message) {
    IsU16(m.timestamp) && 0 <= m.channel < 16 && 0 <= m.msgType < 16
    && IsU16(m.sample1) && IsU16(m.sample2)
  }

  /** The little-endian 16-bit value of two bytes. */
  function U16(lo: byte, hi: byte): (v: int)
    ensures IsU16(v) && v % 256 == lo && v / 256 == hi
  {
    lo as int + 256 * hi as int
  }

  /** The little-endian 32-bit value of four bytes. */
  function U32(b: seq<byte>): (v: int)
    requires |b| == 4
    ensures 0 <= v < 0x1_0000_0000
  {
    b[0] as int + 256 * (b[1] as int + 256 * (b[2] as int + 256 * b[3] as int))
  }

  /** Decodes one 8-byte record into its fields. */
  function DecodeRecord(r: seq<byte>): (m: Message)
    requires |r| == RecordSize
    ensures WellFormed(m)
    ensures m.timestamp == r[1] as int * 256 + r[0] as int
    ensures m.channel == r[2] % 16 && m.msgType == r[2] / 16
  {
    var id := U16(r[2], r[3]);
    IdNibbles(r[2], r[3]);
    Message(U16(r[0], r[1]), id % 16, (id / 16) % 16, U16(r[4], r[5]), U16(r[6], r[7]))
  }

  /** The two low nibbles of a little-endian identifier are those of its low byte. */
  lemma IdNibbles(lo: byte, hi: byte)
    ensures U16(lo, hi) % 16 == lo % 16 && (U16(lo, hi) / 16) % 16 == lo / 16
  {
    var id := U16(lo, hi);
    var a := lo / 16 + 16 * hi;
    assert lo == 16 * (lo / 16) + lo % 16;
    assert id == 16 * a + lo % 16;
    assert id / 16 == a && id % 16 == lo % 16;
    assert a == 16 * hi + lo / 16 && lo / 16 < 16;
  }

  /** The two little-endian bytes of a 16-bit value. */
  function LE16(v: int): (b: seq<byte>)
    requires IsU16(v)
    ensures |b| == 2 && U16(b[0], b[1]) == v
  {
    [v % 256, v / 256]
  }

  /**
   * The record writer of the test utilities: timestamp, identifier
   * `(type << 4) | channel`, then both samples, each as a little-endian u16.
   */
  function EncodeRecord(m: Message): (r: seq<byte>)
    requires WellFormed(m)
    ensures |r| == RecordSize
  {
    LE16(m.timestamp) + LE16(m.msgType * 16 + m.channel) + LE16(m.sample1) + LE16(m.sample2)
  }

  /** Decoding inverts the test encoder on every well-formed message. */
  lemma DecodeEncode(m: Message)
    requires WellFormed(m)
    ensures DecodeRecord(EncodeRecord(m)) == m
  {
    var r := EncodeRecord(m);
    var id := m.msgType * 16 + m.channel;
    assert U16(r[0], r[1]) == m.timestamp by {
      assert r[..2] == LE16(m.timestamp);
    }
    assert U16(r[2], r[3]) == id by {
      assert r[2..4] == LE16(id);
    }
    assert U16(r[4], r[5]) == m.sample1 by {
      assert r[4..6] == LE16(m.sample1);
    }
    assert U16(r[6], r[7]) == m.sample2 by {
      assert r[6..] == LE16(m.sample2);
    }
    assert id % 16 == m.channel && (id / 16) % 16 == m.msgType;
  }

  /**
   * Re-encoding a decoded record gives back its bytes exactly when the high
   * byte of the identifier is zero: the decoder ignores that byte.
   */
  lemma EncodeDecode(r: seq<byte>)
    requires |r| == RecordSize
    ensures EncodeRecord(DecodeRecord(r)) == r <==> r[3] == 0
  {
    var e := EncodeRecord(DecodeRecord(r));
    assert e[3] == 0;
    if r[3] == 0 {
      assert e[0] == r[0] && e[1] == r[1] && e[2] == r[2];
      assert e[4] == r[4] && e[5] == r[5] && e[6] == r[6] && e[7] == r[7];
      assert e == r;
    }
  }

  /** The record at index `k` of a byte stream. */
  function RecordAt(d: seq<byte>, k: nat): seq<byte>
    requires RecordSize * k + RecordSize <= |d|
  {
    d[RecordSize * k..RecordSize * k + RecordSize]
  }

  /**
   * Every whole record of `d`, in order; a trailing partial record is
   * ignored.
   */
  function DecodeStream(d: seq<byte>): (ms: seq<Message>)
    ensures |ms| == |d| / RecordSize
    ensures forall k :: 0 <= k < |ms| ==> ms[k] == DecodeRecord(RecordAt(d, k))
  {
    if |d| < RecordSize then []
    else
      var rest := DecodeStream(d[RecordSize..]);
      assert forall k :: 0 <= k < |rest| ==> RecordAt(d[RecordSize..], k) == RecordAt(d, k + 1);
      [DecodeRecord(d[..RecordSize])] + rest
  }

  /** The messages read from offset `off` to the end of the archive. */
  function MessagesFrom(data: seq<byte>, off: nat): (ms: seq<Message>)
    ensures off >= |data| ==> ms == []
    ensures off < |data| ==> |ms| == (|data| - off) / RecordSize
  {
    if off >= |data| then [] else DecodeStream(data[off..])
  }

  // ----- Locating the telemetry section -----

  /** The offsets probed for the start of the telemetry section, in order. */
  const Candidates: seq<nat> := [512, 1024, 2048, 4096, 8192, 16384, 20480]

  /** The offset assumed when no candidate passes. */
  const FallbackOffset: nat := 20480

  /** Number of bytes inspected by the non-zero test. */
  const WindowSize: nat := 1024

  /** The bytes the non-zero test reads at `off`: up to 1024 of them. */
  function Window(data: seq<byte>, off: nat): (w: seq<byte>)
    requires off <= |data|
    ensures |w| == Min(WindowSize, |data| - off)
  {
    data[off..Min(off + WindowSize, |data|)]
  }

  function CountNonZero(s: seq<byte>): (n: nat)
    ensures n <= |s|
  {
    if |s| == 0 then 0 else (if s[0] != 0 then 1 else 0) + CountNonZero(s[1..])
  }

  /** A record that is not all zero bytes and whose timestamp lies strictly between 1000 and 65000. */
  predicate Plausible(r: seq<byte>)
    requires |r| == RecordSize
  {
    r[0] as int + r[1] as int + r[2] as int + r[3] as int
    + r[4] as int + r[5] as int + r[6] as int + r[7] as int > 0
    && 1000 < U16(r[0], r[1]) < 65000
  }

  /** Number of whole records among the first ten at `off` that are plausible. */
  function PlausibleCount(data: seq<byte>, off: nat): (n: nat)
    ensures n <= 10
  {
    PlausibleAmong(data, off, 10)
  }

  /** Number of plausible records among the first `k` whole records at `off`. */
  function PlausibleAmong(data: seq<byte>, off: nat, k: nat): (n: nat)
    ensures n <= k
  {
    if k == 0 then 0
    else
      var n := PlausibleAmong(data, off, k - 1);
      var at := off + RecordSize * (k - 1);
      if at + RecordSize <= |data| && Plausible(data[at..at + RecordSize]) then n + 1 else n
  }

  /** The record test: at least five plausible records among the first ten. */
  predicate TelemetryRegion(data: seq<byte>, off: nat) {
    PlausibleCount(data, off) >= 5
  }

  /** A candidate offset is accepted when all three tests pass. */
  predicate Accepts(data: seq<byte>, off: nat) {
    off < |data| && CountNonZero(Window(data, off)) > 100 && TelemetryRegion(data, off)
  }

  /** The first accepted candidate from index `i` on, or the fallback. */
  function FirstAccepted(data: seq<byte>, i: nat): (off: nat)
    requires i <= |Candidates|
    ensures off == FallbackOffset || (off in Candidates[i..] && Accepts(data, off))
    ensures forall j :: i <= j < |Candidates| && Candidates[j] < off ==> !Accepts(data, Candidates[j])
    ensures (forall j :: i <= j < |Candidates| ==> !Accepts(data, Candidates[j])) ==> off == FallbackOffset
    decreases |Candidates| - i
  {
    if i == |Candidates| then FallbackOffset
    else if Accepts(data, Candidates[i]) then Candidates[i]
    else FirstAccepted(data, i + 1)
  }

  /**
   * Where the telemetry section of an archive starts: the first candidate
   * that passes every test, or the fallback when none does.
   */
  function ProbeOffset(data: seq<byte>): (off: nat)
    ensures off in Candidates
    ensures off == FallbackOffset || Accepts(data, off)
    ensures forall j :: 0 <= j < |Candidates| && Candidates[j] < off ==> !Accepts(data, Candidates[j])
    ensures (forall j :: 0 <= j < |Candidates| ==> !Accepts(data, Candidates[j])) ==> off == FallbackOffset
  {
    FirstAccepted(data, 0)
  }

  lemma {:induction false} CountNonZeroZeros(s: seq<byte>)
    requires forall i :: 0 <= i < |s| ==> s[i] == 0
    ensures CountNonZero(s) == 0
  {
    if |s| > 0 {
      CountNonZeroZeros(s[1..]);
    }
  }

  /**
   * An archive whose first 17408 bytes are zero (the whole window of the
   * last candidate below the fallback) has its telemetry section at 20480,
   * the layout the test utilities write.
   */
  lemma ZeroPrefixProbe(data: seq<byte>)
    requires forall i :: 0 <= i < |data| && i < 17408 ==> data[i] == 0
    ensures ProbeOffset(data) == FallbackOffset
  {
    forall j | 0 <= j < 6 && Candidates[j] < |data|
      ensures CountNonZero(Window(data, Candidates[j])) == 0
    {
      CountNonZeroZeros(Window(data, Candidates[j]));
    }
    assert forall j :: 0 <= j < 6 ==> !Accepts(data, Candidates[j]);
  }
}
