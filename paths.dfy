/**
 * POSIX path strings as `os.path` handles them: joining, the last component,
 * the directory part, and the extension split.
 */
module Paths {
  import opened Text
  import opened Numerals

  /** `s` does not contain the character `c`. */
  predicate NoChar(s: string, c: char) {
    forall i :: 0 <= i < |s| ==> s[i] != c
  }

  /** `os.path.join(directory, name)`: `name` alone when absolute, else one '/' between the two. */
  function PathJoin(directory: string, name: string): (p: string)
    ensures EndsWith(p, name)
  {
    if |name| > 0 && name[0] == '/' then name
    else if directory == "" || directory[|directory| - 1] == '/' then directory + name
    else directory + "/" + name
  }

  /** The file of channel `n`: `E<n>.txt`. */
  function ChannelFileName(n: int): (name: string)
    ensures |name| > 0 && name[0] == 'E' && NoChar(name, '/')
  {
    var digits := IntToString(n);
    assert forall i :: 0 <= i < |digits| ==> digits[i] != '/' by {
      IntToStringChars(n);
    }
    "E" + digits + ".txt"
  }

  /** Different channels have different file names. */
  lemma ChannelFileNameInjective(a: int, b: int)
    requires ChannelFileName(a) == ChannelFileName(b)
    ensures a == b
  {
    var x := ChannelFileName(a);
    assert x[1..|x| - 4] == IntToString(a);
    assert x[1..|x| - 4] == IntToString(b);
    IntToStringParses(a);
    IntToStringParses(b);
  }

  /** `os.path.basename(p)`: what follows the last '/'. */
  function Basename(p: string): (b: string)
    ensures EndsWith(p, b) && NoChar(b, '/')
    ensures |b| < |p| ==> p[|p| - |b| - 1] == '/'
  {
    var k := RFind(p, '/') + 1;
    assert forall i :: 0 <= i < |p| - k ==> p[k..][i] == p[k + i];
    p[k..]
  }

  /** The string is made of '/' only. */
  predicate AllSlashes(s: string) {
    forall i :: 0 <= i < |s| ==> s[i] == '/'
  }

  /**
   * `os.path.dirname(p)`: everything up to the last '/', without trailing
   * slashes unless it is made of slashes only (the root).
   */
  function Dirname(p: string): (d: string)
    ensures StartsWith(p, d)
    ensures var h := |p| - |Basename(p)|; |d| <= h && AllSlashes(p[|d|..h])
    ensures AllSlashes(d) ==> d == p[..|p| - |Basename(p)|]
    ensures !AllSlashes(d) ==> d[|d| - 1] != '/'
  {
    var head := p[..RFind(p, '/') + 1];
    assert |head| == |p| - |Basename(p)|;
    StripSlashes(head);
    var d := if head != "" && !AllSlashes(head) then RStripChars(head, {'/'}) else head;
    SlashesAfterSlashes(head, d);
    assert p[|d|..|head|] == head[|d|..];
    d
  }

  /** A string of slashes followed by slashes is made of slashes. */
  lemma SlashesAfterSlashes(head: string, d: string)
    requires |d| <= |head| && head == d + head[|d|..] && AllSlashes(head[|d|..])
    ensures AllSlashes(d) ==> AllSlashes(head)
  {
    if AllSlashes(d) {
      forall i | 0 <= i < |head| ensures head[i] == '/' {
        if i < |d| {
          assert head[i] == d[i];
        } else {
          assert head[i] == head[|d|..][i - |d|];
        }
      }
    }
  }

  /** The path splits into its directory part, the separators, and its last component. */
  lemma DirnameBasename(p: string)
    ensures var d := Dirname(p); var b := Basename(p);
      |d| + |b| <= |p| && AllSlashes(p[|d|..|p| - |b|]) && p == d + p[|d|..|p| - |b|] + b
  {
    var k := RFind(p, '/') + 1;
    var head := p[..k];
    var b := p[k..];
    assert b == Basename(p);
    var d := if head != "" && !AllSlashes(head) then RStripChars(head, {'/'}) else head;
    assert d == Dirname(p);
    assert p == head + b;
    StripSlashes(head);
    SlashesBetween(p, head, d, b);
  }

  /** Separators framed by a prefix of `head` and what follows `head`. */
  lemma SlashesBetween(p: string, head: string, d: string, b: string)
    requires p == head + b && |d| <= |head| && head == d + head[|d|..] && AllSlashes(head[|d|..])
    ensures |d| + |b| <= |p| && AllSlashes(p[|d|..|p| - |b|]) && p == d + p[|d|..|p| - |b|] + b
  {
    assert p[|d|..|p| - |b|] == head[|d|..];
  }

  /** What `Dirname` strips from the part up to the last '/' is made of slashes. */
  lemma StripSlashes(head: string)
    ensures var d := if head != "" && !AllSlashes(head) then RStripChars(head, {'/'}) else head;
      |d| <= |head| && head == d + head[|d|..] && AllSlashes(head[|d|..])
  {
  }

  /** The last component of a joined path is the plain file name joined. */
  lemma JoinBasename(directory: string, name: string)
    requires name != "" && NoChar(name, '/')
    ensures Basename(PathJoin(directory, name)) == name
  {
    var p := PathJoin(directory, name);
    if directory == "" {
      assert p == name;
    } else {
      var head := if directory[|directory| - 1] == '/' then directory else directory + "/";
      assert p == head + name;
      RFindAfter(head, name, '/');
    }
  }

  /**
   * Joining a directory with a plain file name and splitting the result
   * again gives back the name and the directory without trailing slashes.
   */
  lemma JoinSplit(directory: string, name: string)
    requires name != "" && NoChar(name, '/')
    requires !AllSlashes(directory)
    ensures Basename(PathJoin(directory, name)) == name
    ensures Dirname(PathJoin(directory, name)) == RStripChars(directory, {'/'})
  {
    var p := PathJoin(directory, name);
    var head := if directory[|directory| - 1] == '/' then directory else directory + "/";
    assert p == head + name;
    RFindAfter(head, name, '/');
    assert p[..|head|] == head;
    if directory[|directory| - 1] != '/' {
      assert RStripChars(head, {'/'}) == RStripChars(directory, {'/'}) by {
        assert head[..|head| - 1] == directory;
      }
    }
  }

  /** The last '/' of `a + b` is the last one of `a` when `b` has none and `a` ends with it. */
  lemma RFindAfter(a: string, b: string, c: char)
    requires |a| > 0 && a[|a| - 1] == c && NoChar(b, c)
    ensures RFind(a + b, c) == |a| - 1
  {
    assert (a + b)[|a| - 1] == c;
    assert forall i :: |a| <= i < |a + b| ==> (a + b)[i] == b[i - |a|];
  }

  /** Some character of `s` is not a '.'. */
  predicate NotAllDots(s: string) {
    exists i :: 0 <= i < |s| && s[i] != '.'
  }

  /**
   * `os.path.splitext(p)`: the extension runs from the last '.' of the last
   * component, unless that component has only dots before it (".bashrc").
   */
  function SplitExt(p: string): (r: (string, string))
    ensures r.0 + r.1 == p
  {
    var sep := RFind(p, '/');
    var dot := RFind(p, '.');
    if dot > sep && NotAllDots(p[sep + 1..dot]) then (p[..dot], p[dot..])
    else (p, "")
  }

  /** The extension is empty, or a '.' followed by neither a '.' nor a '/'. */
  lemma SplitExtExtension(p: string)
    ensures var ext := SplitExt(p).1;
      ext == "" || (ext[0] == '.' && NoChar(ext[1..], '.') && NoChar(ext, '/'))
  {
    var sep := RFind(p, '/');
    var dot := RFind(p, '.');
    if dot > sep && NotAllDots(p[sep + 1..dot]) {
      assert SplitExt(p).1 == p[dot..];
      LastDotSuffix(p, sep, dot);
    } else {
      assert SplitExt(p).1 == "";
    }
  }

  /** What follows the last '.', itself after the last '/', holds neither. */
  lemma LastDotSuffix(p: string, sep: int, dot: nat)
    requires -1 <= sep < dot < |p| && p[dot] == '.'
    requires forall i :: dot < i < |p| ==> p[i] != '.'
    requires forall i :: sep < i < |p| ==> p[i] != '/'
    ensures p[dot..][0] == '.' && NoChar(p[dot..][1..], '.') && NoChar(p[dot..], '/')
  {
    assert p[dot..][1..] == p[dot + 1..];
  }

  /** A file name without an extension is left whole; one with a leading-dot name keeps its dot. */
  lemma SplitExtWhole(p: string)
    requires NoChar(p, '.') || (|p| > 0 && p[0] == '.' && NoChar(p[1..], '.') && NoChar(p, '/'))
    ensures SplitExt(p) == (p, "")
  {
    assert forall i :: 1 <= i < |p| ==> p[i] == p[1..][i - 1];
  }

  /** `os.path.splitext(os.path.basename(p))[0]`: the file name without its extension. */
  function Stem(p: string): (stem: string)
    ensures NoChar(stem, '/') && StartsWith(Basename(p), stem)
  {
    var b := Basename(p);
    var r := SplitExt(b);
    assert b[..|r.0|] == r.0;
    r.0
  }
}
