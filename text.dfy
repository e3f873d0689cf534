/**
 * The few Python string operations the core relies on: `strip()`, `find()`,
 * `startswith()`, `str.join`, `replace` of one character, and `rstrip(chars)`.
 * They are generic where the source applies them both to `bytes` and to `str`.
 */
module Text {

  /**
   * Python's `str.isspace()`: the characters `strip()` removes when called
   * without arguments (bidirectional classes WS, B, S and category Zs).
   */
  predicate IsSpace(c: char) {
    var k := c as int;
    (9 <= k <= 13) || (28 <= k <= 32) || k == 0x85 || k == 0xA0 || k == 0x1680
    || (0x2000 <= k <= 0x200A) || k == 0x2028 || k == 0x2029 || k == 0x202F
    || k == 0x205F || k == 0x3000
  }

  /** Drops leading whitespace. */
  function StripLeft(s: string): (r: string)
    ensures |r| <= |s|
    ensures forall i :: 0 <= i < |s| - |r| ==> IsSpace(s[i])
    ensures |r| > 0 ==> !IsSpace(r[0])
  {
    if |s| > 0 && IsSpace(s[0]) then StripLeft(s[1..]) else s
  }

  /** Drops trailing whitespace. */
  function StripRight(s: string): (r: string)
    ensures |r| <= |s|
    ensures forall i :: |r| <= i < |s| ==> IsSpace(s[i])
    ensures |r| > 0 ==> !IsSpace(r[|r| - 1])
  {
    if |s| > 0 && IsSpace(s[|s| - 1]) then StripRight(s[..|s| - 1]) else s
  }

  /** What `StripLeft` keeps is a suffix of its input. */
  lemma {:induction false} StripLeftSuffix(s: string)
    ensures StripLeft(s) == s[|s| - |StripLeft(s)|..]
  {
    if |s| > 0 && IsSpace(s[0]) {
      StripLeftSuffix(s[1..]);
    }
  }

  /** What `StripRight` keeps is a prefix of its input. */
  lemma {:induction false} StripRightPrefix(s: string)
    ensures StripRight(s) == s[..|StripRight(s)|]
  {
    if |s| > 0 && IsSpace(s[|s| - 1]) {
      StripRightPrefix(s[..|s| - 1]);
    }
  }

  /**
   * Python's `s.strip()`: the slice `s[i..i + |r|]` with whitespace only
   * outside it and no whitespace at either of its ends.
   */
  function Strip(s: string): (r: string)
    ensures |r| <= |StripLeft(s)| <= |s|
    ensures var i := |s| - |StripLeft(s)|;
      && r == s[i..i + |r|]
      && (forall k :: 0 <= k < i ==> IsSpace(s[k]))
      && (forall k :: i + |r| <= k < |s| ==> IsSpace(s[k]))
    ensures |r| > 0 ==> !IsSpace(r[0]) && !IsSpace(r[|r| - 1])
  {
    var l := StripLeft(s);
    StripLeftSuffix(s);
    StripRightPrefix(l);
    var r := StripRight(l);
    var i := |s| - |l|;
    assert forall k :: i + |r| <= k < |s| ==> s[k] == l[k - i];
    r
  }

  /** A string with no whitespace at either end is its own strip. */
  lemma {:induction false} StripUnchanged(s: string)
    requires |s| > 0 ==> !IsSpace(s[0]) && !IsSpace(s[|s| - 1])
    ensures Strip(s) == s
  {
  }

  predicate StartsWith<T(==)>(s: seq<T>, prefix: seq<T>) {
    |prefix| <= |s| && s[..|prefix|] == prefix
  }

  predicate EndsWith<T(==)>(s: seq<T>, suffix: seq<T>) {
    |suffix| <= |s| && s[|s| - |suffix|..] == suffix
  }

  /** `pat` occurs in `s` starting at index `i`. */
  predicate OccursAt<T(==)>(s: seq<T>, pat: seq<T>, i: int) {
    0 <= i && i + |pat| <= |s| && s[i..i + |pat|] == pat
  }

  /**
   * Python's `s.find(pat, start)` for a start that is not negative: the
   * first index at or after `start` where `pat` occurs, or -1.
   */
  function Find<T(==)>(s: seq<T>, pat: seq<T>, start: nat): (r: int)
    ensures r == -1 || (start <= r && OccursAt(s, pat, r))
    ensures r == -1 ==> forall i :: start <= i ==> !OccursAt(s, pat, i)
    ensures r != -1 ==> forall i :: start <= i < r ==> !OccursAt(s, pat, i)
    decreases |s| - start
  {
    if start + |pat| > |s| then -1
    else if s[start..start + |pat|] == pat then start
    else Find(s, pat, start + 1)
  }

  /** Python's `pat in s`. */
  predicate Contains<T(==)>(s: seq<T>, pat: seq<T>) {
    Find(s, pat, 0) >= 0
  }

  /** Python's `sep.join(parts)`. */
  function Join(parts: seq<string>, sep: string): string {
    if |parts| == 0 then ""
    else if |parts| == 1 then parts[0]
    else parts[0] + sep + Join(parts[1..], sep)
  }

  /** Number of occurrences of the character `c` in `s`. */
  function CountChar(s: string, c: char): nat {
    if |s| == 0 then 0 else (if s[0] == c then 1 else 0) + CountChar(s[1..], c)
  }

  lemma {:induction false} CountCharAppend(a: string, b: string, c: char)
    ensures CountChar(a + b, c) == CountChar(a, c) + CountChar(b, c)
  {
    if |a| == 0 {
      assert a + b == b;
    } else {
      assert (a + b)[1..] == a[1..] + b;
      CountCharAppend(a[1..], b, c);
    }
  }

  /** A string without `c` counts none. */
  lemma {:induction false} NoCharCountZero(s: string, c: char)
    requires forall i :: 0 <= i < |s| ==> s[i] != c
    ensures CountChar(s, c) == 0
  {
    if |s| > 0 {
      NoCharCountZero(s[1..], c);
    }
  }

  /**
   * Joining parts that do not contain the separator character yields exactly
   * one separator fewer than there are parts: the row splits back into as
   * many fields as were joined.
   */
  lemma {:induction false} JoinSeparatorCount(parts: seq<string>, sep: char)
    requires |parts| > 0
    requires forall k :: 0 <= k < |parts| ==> CountChar(parts[k], sep) == 0
    ensures CountChar(Join(parts, [sep]), sep) == |parts| - 1
  {
    if |parts| > 1 {
      JoinSeparatorCount(parts[1..], sep);
      CountCharAppend(parts[0], [sep], sep);
      CountCharAppend(parts[0] + [sep], Join(parts[1..], [sep]), sep);
      assert CountChar([sep], sep) == 1 by {
        assert [sep][1..] == [];
      }
    }
  }

  /** Python's `s.replace(a, b)` for single characters. */
  function ReplaceChar(s: string, a: char, b: char): (r: string)
    ensures |r| == |s|
    ensures forall i :: 0 <= i < |s| ==> r[i] == (if s[i] == a then b else s[i])
  {
    seq(|s|, i requires 0 <= i < |s| => if s[i] == a then b else s[i])
  }

  /** Python's `s.rstrip(chars)`: drops trailing characters that belong to `chars`. */
  function RStripChars(s: string, chars: set<char>): (r: string)
    ensures |r| <= |s| && r == s[..|r|]
    ensures forall i :: |r| <= i < |s| ==> s[i] in chars
    ensures |r| > 0 ==> r[|r| - 1] !in chars
  {
    if |s| > 0 && s[|s| - 1] in chars then RStripChars(s[..|s| - 1], chars) else s
  }

  /** Index of the last occurrence of `c` in `s`, or -1 (Python's `rfind` of one character). */
  function RFind(s: string, c: char): (r: int)
    ensures -1 <= r < |s|
    ensures r >= 0 ==> s[r] == c
    ensures forall i :: r < i < |s| ==> s[i] != c
  {
    if |s| == 0 then -1 else if s[|s| - 1] == c then |s| - 1 else RFind(s[..|s| - 1], c)
  }
}
