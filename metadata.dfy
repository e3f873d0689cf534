/**
 * The metadata of an NDF archive, read from its first 1024 bytes: three
 * little-endian u32 header values, and a text block delimited by `<c>` and
 * `</payload>` from which the creation date and the creator are taken.
 */
module NdfMetadata {
  import opened Common
  import opened Text
  import opened Records

  /** Number of leading bytes the metadata is read from. */
  const HeadSize: nat := 1024

  predicate IsAscii(s: string) {
    forall i :: 0 <= i < |s| ==> s[i] as int < 128
  }

  /** The bytes of an ASCII string. */
  function AsciiBytes(s: string): (b: seq<byte>)
    requires IsAscii(s)
    ensures |b| == |s| && forall i :: 0 <= i < |s| ==> b[i] == s[i] as int
  {
    if |s| == 0 then [] else [s[0] as int as byte] + AsciiBytes(s[1..])
  }

  /** `bytes.decode("ascii", errors="ignore")`: bytes above 127 are dropped. */
  function AsciiDecode(b: seq<byte>): (s: string)
    ensures |s| <= |b| && IsAscii(s)
    ensures (forall i :: 0 <= i < |b| ==> b[i] < 128) ==> |s| == |b|
  {
    if |b| == 0 then []
    else (if b[0] < 128 then [b[0] as char] else []) + AsciiDecode(b[1..])
  }

  /** ASCII bytes decode to the characters with those codes, in order. */
  lemma {:induction false} AsciiDecodeKeeps(b: seq<byte>)
    requires forall i :: 0 <= i < |b| ==> b[i] < 128
    ensures |AsciiDecode(b)| == |b| && forall i :: 0 <= i < |b| ==> AsciiDecode(b)[i] == b[i] as char
  {
    if |b| > 0 {
      AsciiDecodeKeeps(b[1..]);
      assert AsciiDecode(b) == [b[0] as char] + AsciiDecode(b[1..]);
    }
  }

  /** Bytes above 127 decode to nothing. */
  lemma {:induction false} AsciiDecodeDrops(b: seq<byte>)
    requires forall i :: 0 <= i < |b| ==> b[i] >= 128
    ensures AsciiDecode(b) == []
  {
    if |b| > 0 {
      AsciiDecodeDrops(b[1..]);
    }
  }

  /**
   * Decoding works byte by byte: with `AsciiDecodeKeeps` and
   * `AsciiDecodeDrops`, the decoded text is exactly the bytes below 128, in
   * order.
   */
  lemma {:induction false} AsciiDecodeAppend(a: seq<byte>, b: seq<byte>)
    ensures AsciiDecode(a + b) == AsciiDecode(a) + AsciiDecode(b)
  {
    if |a| > 0 {
      assert (a + b)[1..] == a[1..] + b;
      AsciiDecodeAppend(a[1..], b);
    } else {
      assert a + b == b;
    }
  }

  /** Decoding the bytes of an ASCII string gives the string back. */
  lemma {:induction false} AsciiRoundTrip(s: string)
    requires IsAscii(s)
    ensures AsciiDecode(AsciiBytes(s)) == s
  {
    if |s| > 0 {
      AsciiRoundTrip(s[1..]);
      assert AsciiBytes(s)[1..] == AsciiBytes(s[1..]);
    }
  }

  /** The metadata entries the reader records. */
  datatype Metadata = Metadata(
    headerValues: Option<seq<int>>,
    rawMetadata: Option<string>,
    created: Option<string>,
    creator: Option<string>)

  const StartMarker: string := "<c>"
  const EndMarker: string := "</payload>"
  /** The bytes searched for in the header: the ASCII of the two markers. */
  const StartMarkerBytes: seq<byte> := [0x3C, 0x63, 0x3E]
  const EndMarkerBytes: seq<byte> := [0x3C, 0x2F, 0x70, 0x61, 0x79, 0x6C, 0x6F, 0x61, 0x64, 0x3E]

  /** Bytes that agree with an ASCII string position by position are its encoding. */
  lemma AsciiBytesOf(s: string, b: seq<byte>)
    requires IsAscii(s) && |b| == |s|
    requires forall i :: 0 <= i < |s| ==> b[i] == s[i] as int
    ensures AsciiBytes(s) == b
  {
  }

  lemma StartMarkerAscii()
    ensures AsciiBytes(StartMarker) == StartMarkerBytes
  {
    AsciiBytesOf(StartMarker, StartMarkerBytes);
  }

  lemma EndMarkerAscii()
    ensures AsciiBytes(EndMarker) == EndMarkerBytes
  {
    AsciiBytesOf(EndMarker, EndMarkerBytes);
  }

  const DateLabel: string := "Date Created:"
  const CreatorLabel: string := "Creator:"

  /**
   * The value after `tag`: the stripped text from the end of its first
   * occurrence up to the next '.', or `orElse` when no '.' follows; absent
   * when `tag` does not occur.
   */
  function Field(meta: string, tag: string, orElse: Option<string>): (r: Option<string>)
    requires |tag| > 0
    ensures !Contains(meta, tag) ==> r == None
    ensures var start := Find(meta, tag, 0) + |tag|;
      Contains(meta, tag) && Find(meta, ".", start) <= start ==> r == orElse
    ensures r.Some? && r != orElse ==> CountChar(r.value, '.') == 0
  {
    if !Contains(meta, tag) then None
    else
      var start := Find(meta, tag, 0) + |tag|;
      var end := Find(meta, ".", start);
      if end > start then
        var v := Strip(meta[start..end]);
        NoPeriodBefore(meta, start, end);
        StripNoChar(meta[start..end], '.');
        Some(v)
      else orElse
  }

  /**
   * The value of a field is the stripped text between the end of the first
   * occurrence of its label and the next '.'.
   */
  lemma FieldValue(pre: string, tag: string, v: string, rest: string, orElse: Option<string>)
    requires |tag| > 0 && |v| > 0
    requires Find(pre + tag + v + "." + rest, tag, 0) == |pre|
    requires forall i :: 0 <= i < |v| ==> v[i] != '.'
    ensures Field(pre + tag + v + "." + rest, tag, orElse) == Some(Strip(v))
  {
    var meta := pre + tag + v + "." + rest;
    var start := |pre| + |tag|;
    var dot := start + |v|;
    assert meta[dot..dot + 1] == ".";
    forall i | start <= i < dot ensures !OccursAt(meta, ".", i) {
      assert meta[i] == v[i - start];
      assert meta[i..i + 1] == [meta[i]];
    }
    FindFirst(meta, ".", start, dot);
    assert meta[start..dot] == v;
  }

  /** `find` returns an index where the pattern occurs with no occurrence before it. */
  lemma FindFirst(s: string, pat: string, start: nat, k: nat)
    requires start <= k && OccursAt(s, pat, k)
    requires forall i :: start <= i < k ==> !OccursAt(s, pat, i)
    ensures Find(s, pat, start) == k
  {
  }

  lemma NoPeriodBefore(meta: string, start: nat, end: int)
    requires start < end && end == Find(meta, ".", start)
    ensures CountChar(meta[start..end], '.') == 0
  {
    forall i | start <= i < end ensures meta[i] != '.' {
      assert !OccursAt(meta, ".", i);
      assert meta[i..i + 1] == [meta[i]];
    }
    NoCharCountZero(meta[start..end], '.');
  }

  lemma {:induction false} CountCharSlice(s: string, c: char, i: nat, j: nat)
    requires i <= j <= |s| && CountChar(s, c) == 0
    ensures CountChar(s[i..j], c) == 0
  {
    forall k | 0 <= k < |s| ensures s[k] != c {
      if s[k] == c {
        CountCharAt(s, c, k);
      }
    }
    NoCharCountZero(s[i..j], c);
  }

  lemma {:induction false} CountCharAt(s: string, c: char, k: nat)
    requires k < |s| && s[k] == c
    ensures CountChar(s, c) > 0
  {
    if k > 0 {
      CountCharAt(s[1..], c, k - 1);
    }
  }

  lemma StripNoChar(s: string, c: char)
    requires CountChar(s, c) == 0
    ensures CountChar(Strip(s), c) == 0
  {
    var l := StripLeft(s);
    StripLeftSuffix(s);
    StripRightPrefix(l);
    CountCharSlice(s, c, |s| - |l|, |s|);
    assert s[|s| - |l|..|s|] == l;
    CountCharSlice(l, c, 0, |StripRight(l)|);
    assert l[0..|StripRight(l)|] == Strip(s);
  }

  /**
   * The raw metadata block: the ASCII decode of the bytes from the first
   * `<c>` to the end of the first `</payload>`, when both occur in that order.
   */
  function RawBlock(head: seq<byte>): (r: Option<string>)
    ensures var s := Find(head, StartMarkerBytes, 0);
      var e := Find(head, EndMarkerBytes, 0);
      && (r.Some? <==> 0 <= s < e)
      && (0 <= s < e ==> e + |EndMarkerBytes| <= |head| && r == Some(AsciiDecode(head[s..e + |EndMarkerBytes|])))
  {
    var s := Find(head, StartMarkerBytes, 0);
    var e := Find(head, EndMarkerBytes, 0);
    if 0 <= s < e then Some(AsciiDecode(head[s..e + |EndMarkerBytes|])) else None
  }

  /** Reads the metadata entries from an archive's bytes. */
  function ReadMetadata(data: seq<byte>): (md: Metadata)
    ensures md.headerValues.Some? <==> |data| >= 16
    ensures |data| >= 16 ==> md.headerValues == Some([U32(data[4..8]), U32(data[8..12]), U32(data[12..16])])
    ensures md.rawMetadata == RawBlock(data[..Min(HeadSize, |data|)])
    ensures md.rawMetadata.None? ==> md.created.None? && md.creator.None?
    ensures md.rawMetadata.Some? ==>
              && md.created == Field(md.rawMetadata.value, DateLabel, Some("Unknown"))
              && md.creator == Field(md.rawMetadata.value, CreatorLabel, None)
  {
    var head := data[..Min(HeadSize, |data|)];
    var hv := if |head| >= 16 then Some([U32(head[4..8]), U32(head[8..12]), U32(head[12..16])]) else None;
    assert |head| >= 16 ==> head[4..8] == data[4..8] && head[8..12] == data[8..12] && head[12..16] == data[12..16];
    match RawBlock(head)
    case Some(meta) =>
      Metadata(hv, Some(meta), Field(meta, DateLabel, Some("Unknown")), Field(meta, CreatorLabel, None))
    case None => Metadata(hv, None, None, None)
  }

  /**
   * The raw block starts with the `<c>` marker and ends with the
   * `</payload>` marker: the non-ASCII bytes dropped lie between them.
   */
  lemma RawBlockFramed(head: seq<byte>)
    requires RawBlock(head).Some?
    ensures StartsWith(RawBlock(head).value, StartMarker) && EndsWith(RawBlock(head).value, EndMarker)
  {
    var s := Find(head, StartMarkerBytes, 0);
    var e := Find(head, EndMarkerBytes, 0);
    MarkersApart(head, s, e);
    SliceFramed(head, StartMarkerBytes, EndMarkerBytes, s, e);
    FramedDecode(head[s + |StartMarkerBytes|..e]);
  }

  /** The slice from one occurrence to the end of a later one: both patterns and what lies between. */
  lemma SliceFramed<T>(h: seq<T>, a: seq<T>, b: seq<T>, s: int, e: int)
    requires OccursAt(h, a, s) && OccursAt(h, b, e) && s + |a| <= e
    ensures h[s..e + |b|] == a + h[s + |a|..e] + b
  {
    var w := h[s..e + |b|];
    assert w[..|a|] == a;
    var m, n := w[|a|..e - s], h[s + |a|..e];
    assert forall k :: 0 <= k < |m| ==> m[k] == n[k];
    assert w[e - s..] == b;
    assert w == w[..|a|] + w[|a|..e - s] + w[e - s..];
  }

  /** The end marker cannot start inside the start marker: they share no prefix. */
  lemma MarkersApart(head: seq<byte>, s: int, e: int)
    requires 0 <= s < e && OccursAt(head, StartMarkerBytes, s) && OccursAt(head, EndMarkerBytes, e)
    ensures s + 3 <= e
  {
    assert head[e] == EndMarkerBytes[0] by {
      assert head[e..e + 10][0] == head[e];
    }
  }

  lemma StartMarkerDecodes()
    ensures AsciiDecode(StartMarkerBytes) == StartMarker
  {
    assert IsAscii(StartMarker);
    calc {
      AsciiDecode(StartMarkerBytes);
      { StartMarkerAscii(); }
      AsciiDecode(AsciiBytes(StartMarker));
      { AsciiRoundTrip(StartMarker); }
      StartMarker;
    }
  }

  lemma EndMarkerDecodes()
    ensures AsciiDecode(EndMarkerBytes) == EndMarker
  {
    assert IsAscii(EndMarker);
    calc {
      AsciiDecode(EndMarkerBytes);
      { EndMarkerAscii(); }
      AsciiDecode(AsciiBytes(EndMarker));
      { AsciiRoundTrip(EndMarker); }
      EndMarker;
    }
  }

  /** Decoding marker, middle, marker keeps both markers at the two ends. */
  lemma FramedDecode(mid: seq<byte>)
    ensures var t := AsciiDecode(StartMarkerBytes + mid + EndMarkerBytes);
      StartsWith(t, StartMarker) && EndsWith(t, EndMarker)
  {
    var m := AsciiDecode(mid);
    AsciiDecodeAppend(StartMarkerBytes + mid, EndMarkerBytes);
    AsciiDecodeAppend(StartMarkerBytes, mid);
    StartMarkerDecodes();
    EndMarkerDecodes();
    var t := StartMarker + m + EndMarker;
    assert AsciiDecode(StartMarkerBytes + mid + EndMarkerBytes) == t;
    assert t[..|StartMarker|] == StartMarker;
    assert t[|t| - |EndMarker|..] == EndMarker;
  }

  /** `metadata.get("created", "Unknown")`. */
  function CreationDate(md: Metadata): (r: string)
    ensures md.created.None? ==> r == "Unknown"
    ensures md.created.Some? ==> r == md.created.value
  {
    md.created.GetOr("Unknown")
  }
}
