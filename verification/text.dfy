/**
 * The JavaScript string operations the portal relies on: `startsWith`,
 * `trim` and `split` with a one-character separator, plus truthiness of an
 * optional string. Strings are sequences of Unicode scalar values.
 */
module Text {
  import opened Wrappers

  /** JavaScript truthiness of a value that is a string or missing: `undefined`, `null` and "" are falsy. */
  predicate Truthy(s: Option<string>) {
    s.Some? && s.value != ""
  }

  /** `s.startsWith(prefix)`. */
  predicate StartsWith(s: string, prefix: string) {
    |prefix| <= |s| && s[..|prefix|] == prefix
  }

  /** `s.endsWith(suffix)`. */
  predicate EndsWith(s: string, suffix: string) {
    |suffix| <= |s| && s[|s| - |suffix|..] == suffix
  }

  /**
   * The code points `String.prototype.trim` removes: WhiteSpace and
   * LineTerminator of ECMA-262 (sections 12.2 and 12.3), including every
   * Space_Separator.
   */
  predicate IsSpace(c: char) {
    c == '\U{0009}' || c == '\U{000A}' || c == '\U{000B}' || c == '\U{000C}' || c == '\U{000D}'
    || c == ' ' || c == '\U{00A0}' || c == '\U{1680}' || ('\U{2000}' <= c <= '\U{200A}')
    || c == '\U{2028}' || c == '\U{2029}' || c == '\U{202F}' || c == '\U{205F}'
    || c == '\U{3000}' || c == '\U{FEFF}'
  }

  /** Every character of `s` is trimmable whitespace. */
  predicate AllSpace(s: string) {
    forall i :: 0 <= i < |s| ==> IsSpace(s[i])
  }

  /** Length of the longest all-whitespace prefix of `s`. */
  function LeadingSpaces(s: string): (n: nat)
    ensures n <= |s| && AllSpace(s[..n])
    ensures n < |s| ==> !IsSpace(s[n])
  {
    if s != [] && IsSpace(s[0]) then
      var n := LeadingSpaces(s[1..]);
      assert s[..n + 1] == [s[0]] + s[1..][..n];
      n + 1
    else 0
  }

  /** Length of the longest all-whitespace suffix of `s[..end]`. */
  function SpacesBefore(s: string, end: nat): (n: nat)
    requires end <= |s|
    ensures n <= end
    ensures forall i :: end - n <= i < end ==> IsSpace(s[i])
    ensures n < end ==> !IsSpace(s[end - 1 - n])
    decreases end
  {
    if end > 0 && IsSpace(s[end - 1]) then SpacesBefore(s, end - 1) + 1 else 0
  }

  /** Length of the longest all-whitespace suffix of `s`. */
  function TrailingSpaces(s: string): (n: nat)
    ensures n <= |s| && AllSpace(s[|s| - n..])
    ensures n < |s| ==> !IsSpace(s[|s| - 1 - n])
  {
    var n := SpacesBefore(s, |s|);
    SpaceSuffix(s, n);
    n
  }

  lemma SpaceSuffix(s: string, n: nat)
    requires n <= |s| && forall i :: |s| - n <= i < |s| ==> IsSpace(s[i])
    ensures AllSpace(s[|s| - n..])
  {
    var suffix := s[|s| - n..];
    forall k | 0 <= k < |suffix| ensures IsSpace(suffix[k]) {
      assert suffix[k] == s[|s| - n + k];
    }
  }

  /** `s.trimStart()`: drops the longest all-whitespace prefix. */
  function TrimStart(s: string): (r: string)
    ensures r != [] ==> !IsSpace(r[0])
  {
    s[LeadingSpaces(s)..]
  }

  /** `s.trimEnd()`: drops the longest all-whitespace suffix. */
  function TrimEnd(s: string): (r: string)
    ensures r != [] ==> !IsSpace(r[|r| - 1])
  {
    s[..|s| - TrailingSpaces(s)]
  }

  /** `s.trim()`: the slice of `s` between its leading and trailing whitespace. */
  function Trim(s: string): (r: string)
    ensures |r| <= |s|
    ensures r != [] ==> !IsSpace(r[0]) && !IsSpace(r[|r| - 1])
  {
    TrimEnd(TrimStart(s))
  }

  /** Every character of a trimmed string comes from the original. */
  lemma TrimKeepsChars(s: string, c: char)
    requires c in Trim(s)
    ensures c in s
  {
    var t := TrimStart(s);
    SliceMember(t, 0, |t| - TrailingSpaces(t), c);
    SliceMember(s, LeadingSpaces(s), |s|, c);
  }

  lemma SliceMember<T>(s: seq<T>, i: nat, j: nat, c: T)
    requires i <= j <= |s| && c in s[i..j]
    ensures c in s
  {
    var k :| 0 <= k < j - i && s[i..j][k] == c;
    assert s[i + k] == c;
  }

  /** Trimming a string that has no whitespace at either end leaves it as it is. */
  lemma TrimUnpadded(s: string)
    requires s != [] ==> !IsSpace(s[0]) && !IsSpace(s[|s| - 1])
    ensures Trim(s) == s
  {
    assert TrimStart(s) == s;
  }

  /** Whitespace added around a string does not change its trim. */
  lemma TrimIgnoresPadding(left: string, s: string, right: string)
    requires AllSpace(left) && AllSpace(right)
    ensures Trim(left + s + right) == Trim(s)
  {
    calc {
      Trim(left + s + right);
      { assert left + s + right == left + (s + right); }
      TrimEnd(TrimStart(left + (s + right)));
      { TrimStartPadding(left, s + right); }
      TrimEnd(TrimStart(s + right));
      { TrimStartSuffix(s, right); }
      TrimEnd(TrimStart(s) + right);
      { TrimEndPadding(TrimStart(s), right); }
      Trim(s);
    }
  }

  /** Whitespace before a string lengthens its whitespace prefix by exactly that much. */
  lemma {:induction false} LeadingSpacesPadding(left: string, s: string)
    requires AllSpace(left)
    ensures LeadingSpaces(left + s) == |left| + LeadingSpaces(s)
    decreases |left|
  {
    if left != [] {
      assert (left + s)[1..] == left[1..] + s;
      LeadingSpacesPadding(left[1..], s);
    } else {
      assert left + s == s;
    }
  }

  /** Whitespace after a string lengthens its whitespace suffix by exactly that much. */
  lemma TrailingSpacesPadding(s: string, right: string)
    requires AllSpace(right)
    ensures TrailingSpaces(s + right) == TrailingSpaces(s) + |right|
  {
    SpacesBeforePadding(s, right, |right|);
  }

  lemma {:induction false} SpacesBeforePadding(s: string, right: string, k: nat)
    requires AllSpace(right) && k <= |right|
    ensures SpacesBefore(s + right, |s| + k) == SpacesBefore(s, |s|) + k
    decreases k
  {
    if k > 0 {
      assert (s + right)[|s| + k - 1] == right[k - 1];
      SpacesBeforePadding(s, right, k - 1);
    } else {
      SpacesBeforeAgree(s + right, s, |s|);
    }
  }

  /** The count only looks at the characters before `end`. */
  lemma {:induction false} SpacesBeforeAgree(a: string, b: string, end: nat)
    requires end <= |a| && end <= |b| && a[..end] == b[..end]
    ensures SpacesBefore(a, end) == SpacesBefore(b, end)
    decreases end
  {
    if end > 0 {
      assert a[end - 1] == a[..end][end - 1] == b[..end][end - 1] == b[end - 1];
      assert a[..end - 1] == a[..end][..end - 1];
      assert b[..end - 1] == b[..end][..end - 1];
      SpacesBeforeAgree(a, b, end - 1);
    }
  }

  /** Text after a string that is not all whitespace leaves its whitespace prefix alone. */
  lemma {:induction false} LeadingSpacesPrefix(s: string, right: string)
    requires LeadingSpaces(s) < |s|
    ensures LeadingSpaces(s + right) == LeadingSpaces(s)
    decreases |s|
  {
    if IsSpace(s[0]) {
      assert (s + right)[1..] == s[1..] + right;
      LeadingSpacesPrefix(s[1..], right);
    }
  }

  lemma TrimStartPadding(left: string, s: string)
    requires AllSpace(left)
    ensures TrimStart(left + s) == TrimStart(s)
  {
    LeadingSpacesPadding(left, s);
    assert (left + s)[|left| + LeadingSpaces(s)..] == s[LeadingSpaces(s)..];
  }

  lemma TrimEndPadding(s: string, right: string)
    requires AllSpace(right)
    ensures TrimEnd(s + right) == TrimEnd(s)
  {
    TrailingSpacesPadding(s, right);
    var k := |s| - TrailingSpaces(s);
    assert TrimEnd(s + right) == (s + right)[..k];
    assert (s + right)[..k] == s[..k];
  }

  /** Trimming the start of `s + right` trims the start of `s`, unless `s` is all whitespace. */
  lemma TrimStartSuffix(s: string, right: string)
    requires AllSpace(right)
    ensures TrimEnd(TrimStart(s + right)) == TrimEnd(TrimStart(s) + right)
  {
    if LeadingSpaces(s) < |s| {
      TrimStartKeepsSuffix(s, right);
    } else {
      TrimStartAllSpace(s, right);
    }
  }

  lemma TrimStartKeepsSuffix(s: string, right: string)
    requires LeadingSpaces(s) < |s|
    ensures TrimStart(s + right) == TrimStart(s) + right
  {
    var n := LeadingSpaces(s);
    LeadingSpacesPrefix(s, right);
    DropThenAppend(s, right, n);
  }

  lemma DropThenAppend<T>(s: seq<T>, t: seq<T>, n: nat)
    requires n <= |s|
    ensures (s + t)[n..] == s[n..] + t
  {
  }

  lemma TrimStartAllSpace(s: string, right: string)
    requires LeadingSpaces(s) == |s| && AllSpace(right)
    ensures TrimEnd(TrimStart(s + right)) == [] == TrimEnd(TrimStart(s) + right)
  {
    assert s[..|s|] == s;
    AllSpaceIsLeading(right);
    LeadingSpacesPadding(s, right);
    assert |TrimStart(s + right)| == 0;
    AllSpaceIsTrailing(right);
    assert |TrimStart(s)| == 0;
    assert TrimStart(s) + right == right;
    assert |TrimEnd(right)| == 0;
  }

  lemma AllSpaceIsLeading(s: string)
    requires AllSpace(s)
    ensures LeadingSpaces(s) == |s|
  {
  }

  lemma AllSpaceIsTrailing(s: string)
    requires AllSpace(s)
    ensures TrailingSpaces(s) == |s|
  {
  }

  /** Number of occurrences of `c` in `s`. */
  function Occurrences(s: string, c: char): nat
  {
    if s == [] then 0 else (if s[0] == c then 1 else 0) + Occurrences(s[1..], c)
  }

  lemma {:induction false} OccursPositive(s: string, c: char)
    requires c in s
    ensures Occurrences(s, c) >= 1
  {
    if s[0] != c {
      assert c in s[1..];
      OccursPositive(s[1..], c);
    }
  }

  /**
   * `s.split(sep)` for a one-character separator: the pieces between
   * consecutive separators, in order; "" splits to [""].
   */
  function Split(s: string, sep: char): (r: seq<string>)
    ensures |r| == Occurrences(s, sep) + 1
    ensures forall i :: 0 <= i < |r| ==> sep !in r[i]
  {
    if s == [] then [[]]
    else
      var rest := Split(s[1..], sep);
      if s[0] == sep then [[]] + rest
      else
        assert sep !in [s[0]] + rest[0];
        [[s[0]] + rest[0]] + rest[1..]
  }

  /** Every character of a piece comes from the split string. */
  lemma {:induction false} SplitKeepsChars(s: string, sep: char, i: nat, c: char)
    requires i < |Split(s, sep)| && c in Split(s, sep)[i]
    ensures c in s
  {
    if s != [] {
      var rest := Split(s[1..], sep);
      if s[0] == sep {
        if i > 0 { SplitKeepsChars(s[1..], sep, i - 1, c); }
      } else if i == 0 {
        if c != s[0] {
          assert c in rest[0];
          SplitKeepsChars(s[1..], sep, 0, c);
        }
      } else {
        SplitKeepsChars(s[1..], sep, i, c);
      }
    }
  }

  /** `parts.join(sep)` for a non-empty list. */
  function Join(parts: seq<string>, sep: char): string
    requires |parts| >= 1
  {
    if |parts| == 1 then parts[0] else parts[0] + [sep] + Join(parts[1..], sep)
  }

  /** Joining the pieces of a split with the same separator gives the original string back. */
  lemma {:induction false} JoinSplit(s: string, sep: char)
    ensures Join(Split(s, sep), sep) == s
  {
    if s != [] {
      var rest := Split(s[1..], sep);
      JoinSplit(s[1..], sep);
      if s[0] == sep {
        assert Split(s, sep)[1..] == rest;
        assert s == [sep] + s[1..];
      } else {
        var parts := Split(s, sep);
        assert parts[1..] == rest[1..];
        if |rest| > 1 {
          assert Join(rest, sep) == rest[0] + [sep] + Join(rest[1..], sep);
          assert s == [s[0]] + s[1..];
        }
      }
    }
  }

  /** Splitting `word + [sep] + rest` where `word` holds no separator gives `word` followed by the split of `rest`. */
  lemma {:induction false} SplitAfterWord(word: string, sep: char, rest: string)
    requires sep !in word
    ensures Split(word + [sep] + rest, sep) == [word] + Split(rest, sep)
  {
    if word == [] {
      assert [] + [sep] + rest == [sep] + rest;
      assert ([sep] + rest)[1..] == rest;
    } else {
      var s := word + [sep] + rest;
      assert s[1..] == word[1..] + [sep] + rest;
      SplitAfterWord(word[1..], sep, rest);
      assert [word[0]] + word[1..] == word;
    }
  }

  /** The first piece of a split is the longest prefix holding no separator. */
  lemma {:induction false} SplitFirstPiece(s: string, sep: char)
    ensures var w := Split(s, sep)[0];
      |w| <= |s| && w == s[..|w|] && (|w| < |s| ==> s[|w|] == sep)
  {
    if s != [] && s[0] != sep {
      SplitFirstPiece(s[1..], sep);
    }
  }
}
