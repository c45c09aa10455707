/**
 * The few Python `str` and `os.path` operations the importer relies on,
 * with their CPython semantics for the arguments the importer passes:
 * `startswith`, `endswith`, `split` on a one-character separator,
 * `'.'.join` and `os.path.splitext` (posixpath).
 */
module PyText {

  /** Python's `str.startswith`: `prefix` is a prefix of `s`. */
  predicate StartsWith(s: string, prefix: string) {
    |prefix| <= |s| && s[..|prefix|] == prefix
  }

  /** Python's `str.endswith`: `suffix` is a suffix of `s`. */
  predicate EndsWith(s: string, suffix: string) {
    |suffix| <= |s| && s[|s| - |suffix|..] == suffix
  }

  /** A character that differs from the prefix rules `startswith` out. */
  lemma NotStartsWith(s: string, prefix: string, k: nat)
    requires k < |prefix| && (|prefix| > |s| || s[k] != prefix[k])
    ensures !StartsWith(s, prefix)
  {
    if |prefix| <= |s| {
      assert s[..|prefix|][k] == s[k];
    }
  }

  /** A character that differs from the suffix rules `endswith` out. */
  lemma NotEndsWith(s: string, suffix: string, k: nat)
    requires k < |suffix| && (|suffix| > |s| || s[|s| - |suffix| + k] != suffix[k])
    ensures !EndsWith(s, suffix)
  {
    if |suffix| <= |s| {
      assert s[|s| - |suffix|..][k] == s[|s| - |suffix| + k];
    }
  }

  /** `s.split(c)`: never empty, and no part contains the separator. */
  function Split(s: string, c: char): (parts: seq<string>)
    ensures |parts| >= 1
    ensures forall i :: 0 <= i < |parts| ==> c !in parts[i]
    decreases |s|
  {
    if |s| == 0 then [""]
    else if s[0] == c then [""] + Split(s[1..], c)
    else
      var rest := Split(s[1..], c);
      [[s[0]] + rest[0]] + rest[1..]
  }

  /** Python's `str.join`: the parts with one separator between neighbours. */
  function Join(parts: seq<string>, c: char): string
    decreases |parts|
  {
    if |parts| == 0 then ""
    else if |parts| == 1 then parts[0]
    else parts[0] + [c] + Join(parts[1..], c)
  }

  /** A string without the separator splits into itself. */
  lemma {:induction false} SplitNoSeparator(s: string, c: char)
    requires c !in s
    ensures Split(s, c) == [s]
    decreases |s|
  {
    if |s| > 0 {
      assert c !in s[1..];
      SplitNoSeparator(s[1..], c);
      assert [s[0]] + s[1..] == s;
    }
  }

  /** Splitting at the first separator: the head part is the text before it. */
  lemma {:induction false} SplitAtFirst(a: string, c: char, b: string)
    requires c !in a
    ensures Split(a + [c] + b, c) == [a] + Split(b, c)
    decreases |a|
  {
    if |a| == 0 {
      assert a + [c] + b == [c] + b;
      assert ([c] + b)[1..] == b;
    } else {
      var s := a + [c] + b;
      assert s[0] == a[0];
      assert s[1..] == a[1..] + [c] + b;
      assert c !in a[1..];
      SplitAtFirst(a[1..], c, b);
      assert [a[0]] + a[1..] == a;
    }
  }

  /** A string that contains the separator splits into at least two parts. */
  lemma {:induction false} SplitHasTwoParts(s: string, c: char)
    requires c in s
    ensures |Split(s, c)| >= 2
    decreases |s|
  {
    if s[0] != c {
      assert c in s[1..];
      SplitHasTwoParts(s[1..], c);
    }
  }

  /** Round trip one way: joining the parts of a split restores the string. */
  lemma {:induction false} JoinSplit(s: string, c: char)
    ensures Join(Split(s, c), c) == s
    decreases |s|
  {
    if |s| > 0 {
      JoinSplit(s[1..], c);
      var rest := Split(s[1..], c);
      if s[0] == c {
        assert Join([""] + rest, c) == "" + [c] + Join(rest, c);
      } else if |rest| == 1 {
        assert Join([[s[0]] + rest[0]], c) == [s[0]] + rest[0];
      } else {
        assert Join(rest, c) == rest[0] + [c] + Join(rest[1..], c);
        var parts := [[s[0]] + rest[0]] + rest[1..];
        assert parts[1..] == rest[1..];
        assert Join(parts, c) == [s[0]] + rest[0] + [c] + Join(rest[1..], c);
      }
      assert [s[0]] + s[1..] == s;
    }
  }

  /** Round trip the other way: separator-free parts are recovered by split. */
  lemma {:induction false} SplitJoin(parts: seq<string>, c: char)
    requires |parts| >= 1
    requires forall i :: 0 <= i < |parts| ==> c !in parts[i]
    ensures Split(Join(parts, c), c) == parts
    decreases |parts|
  {
    if |parts| == 1 {
      SplitNoSeparator(parts[0], c);
    } else {
      SplitJoin(parts[1..], c);
      SplitAtFirst(parts[0], c, Join(parts[1..], c));
      assert [parts[0]] + parts[1..] == parts;
    }
  }

  /** `s.rfind(c)`: the last index of `c`, or -1. */
  function RFind(s: string, c: char): (i: int)
    ensures -1 <= i < |s|
    ensures i >= 0 ==> s[i] == c
    ensures forall k :: i < k < |s| ==> s[k] != c
    decreases |s|
  {
    if |s| == 0 then -1
    else if s[|s| - 1] == c then |s| - 1
    else RFind(s[..|s| - 1], c)
  }

  /**
   * `os.path.splitext(p)` on POSIX: split at the last '.' after the last
   * '/', unless everything between the '/' and that dot is dots (a leading
   * dot of the file name does not start an extension).
   */
  function SplitExt(p: string): (string, string)
  {
    var sepIndex := RFind(p, '/');
    var dotIndex := RFind(p, '.');
    if dotIndex > sepIndex && exists k :: sepIndex < k < dotIndex && p[k] != '.' then
      (p[..dotIndex], p[dotIndex..])
    else
      (p, "")
  }

  /**
   * What `splitext` promises: root + ext is the path, and ext is empty or a
   * single dot-led component containing no further '.' and no '/'.
   */
  lemma SplitExtParts(p: string)
    ensures SplitExt(p).0 + SplitExt(p).1 == p
    ensures var ext := SplitExt(p).1;
      ext == [] || (ext[0] == '.' && '.' !in ext[1..] && '/' !in ext)
  {
    var sepIndex := RFind(p, '/');
    var dotIndex := RFind(p, '.');
    if dotIndex > sepIndex && exists k :: sepIndex < k < dotIndex && p[k] != '.' {
      var ext := p[dotIndex..];
      assert p[..dotIndex] + ext == p;
      forall k | 0 <= k < |ext| ensures ext[k] != '/' && (k > 0 ==> ext[k] != '.') {
        assert ext[k] == p[dotIndex + k];
      }
    }
  }

  /**
   * For a file name (no '/') that does not start with a dot, the extension
   * is `suffix` exactly when the name ends with it, for a dot-led suffix
   * with no other dot; the root is then the text before that last dot.
   */
  lemma ExtensionOfBasename(f: string, suffix: string)
    requires '/' !in f && |f| > 0 && f[0] != '.'
    requires |suffix| >= 1 && suffix[0] == '.' && '.' !in suffix[1..]
    ensures SplitExt(f).1 == suffix <==> EndsWith(f, suffix)
    ensures EndsWith(f, suffix) ==> SplitExt(f).0 == f[..|f| - |suffix|]
  {
    SplitExtParts(f);
    var sepIndex := RFind(f, '/');
    assert sepIndex == -1;
    if EndsWith(f, suffix) {
      var d := |f| - |suffix|;
      assert f[d] == '.';
      forall k | d < k < |f| ensures f[k] != '.' {
        assert f[k] == suffix[k - d];
        assert suffix[k - d] in suffix[1..];
      }
      var dotIndex := RFind(f, '.');
      assert dotIndex == d;
      assert d > 0;
      assert sepIndex < 0 < dotIndex && f[0] != '.';
    }
  }
}
