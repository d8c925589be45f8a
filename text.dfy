/**
 * The string operations the views rely on, with the semantics of the
 * JavaScript built-ins they call: `String.prototype.trim`,
 * `toLowerCase` (ASCII letters only) and `split` on a fixed separator.
 */
module Text {

  /**
   * The characters `trim` removes: ECMAScript WhiteSpace (TAB, VT, FF, SPACE,
   * NBSP, ZWNBSP and every category Zs code point) and LineTerminator
   * (LF, CR, LINE SEPARATOR, PARAGRAPH SEPARATOR).
   */
  predicate IsJsWhitespace(c: char) {
    var n := c as int;
    n == 0x09 || n == 0x0A || n == 0x0B || n == 0x0C || n == 0x0D ||
    n == 0x20 || n == 0xA0 || n == 0x1680 || (0x2000 <= n <= 0x200A) ||
    n == 0x2028 || n == 0x2029 || n == 0x202F || n == 0x205F ||
    n == 0x3000 || n == 0xFEFF
  }

  /** True when `s` has at least one character `trim` keeps. */
  ghost predicate HasVisibleChar(s: string) {
    exists i :: 0 <= i < |s| && !IsJsWhitespace(s[i])
  }

  /** Drops leading whitespace: the result is the suffix that starts at the first kept character. */
  function TrimStart(s: string): (r: string)
    ensures |r| <= |s| && r == s[|s| - |r|..]
    ensures forall i :: 0 <= i < |s| - |r| ==> IsJsWhitespace(s[i])
    ensures r == [] || !IsJsWhitespace(r[0])
  {
    if |s| > 0 && IsJsWhitespace(s[0]) then TrimStart(s[1..]) else s
  }

  /** Drops trailing whitespace: the result is the prefix that ends at the last kept character. */
  function TrimEnd(s: string): (r: string)
    ensures |r| <= |s| && r == s[..|r|]
    ensures forall i :: |r| <= i < |s| ==> IsJsWhitespace(s[i])
    ensures r == [] || !IsJsWhitespace(r[|r| - 1])
  {
    if |s| > 0 && IsJsWhitespace(s[|s| - 1]) then TrimEnd(s[..|s| - 1]) else s
  }

  /** `s.trim()` */
  function Trim(s: string): string {
    TrimEnd(TrimStart(s))
  }

  /** `s.trim()` is the empty string exactly when every character of `s` is whitespace. */
  lemma TrimEmptyIff(s: string)
    ensures Trim(s) != [] <==> HasVisibleChar(s)
  {
    var t := TrimStart(s);
    assert t != [] ==> t[0] == s[|s| - |t|];
    if HasVisibleChar(s) {
      var i :| 0 <= i < |s| && !IsJsWhitespace(s[i]);
      assert |s| - |t| <= i;
    }
  }

  /** A string with a visible character is not empty, so a non-empty `trim()` implies a non-empty string. */
  lemma VisibleIsNonEmpty(s: string)
    requires Trim(s) != []
    ensures s != []
  {
    assert |Trim(s)| <= |TrimStart(s)| <= |s|;
  }

  /** `toLowerCase` on one ASCII character; all other characters are left as they are. */
  function LowerChar(c: char): (d: char)
    ensures ('A' <= c <= 'Z') ==> d as int == c as int + 32
    ensures !('A' <= c <= 'Z') ==> d == c
  {
    if 'A' <= c <= 'Z' then (c as int + 32) as char else c
  }

  /** `s.toLowerCase()`, character by character. */
  function Lower(s: string): (r: string)
    ensures |r| == |s|
    ensures forall i :: 0 <= i < |s| ==> r[i] == LowerChar(s[i])
  {
    if s == [] then [] else [LowerChar(s[0])] + Lower(s[1..])
  }

  /** The paragraph separator of article bodies: a blank line. */
  const ParagraphBreak: string := "\n\n"

  /** True when an occurrence of the separator starts at position `i` of `s`. */
  predicate BreakAt(s: string, i: int) {
    0 <= i < |s| - 1 && s[i] == '\n' && s[i + 1] == '\n'
  }

  /** True when `s` contains the separator somewhere. */
  predicate ContainsBreak(s: string) {
    exists i :: 0 <= i < |s| - 1 && BreakAt(s, i)
  }

  /**
   * `s.split("\n\n")`: cut at every occurrence of the separator, scanning left
   * to right without overlap. The empty string yields one empty segment.
   */
  function Split(s: string): (parts: seq<string>)
    ensures |parts| >= 1
    decreases |s|
  {
    if |s| < 2 then [s]
    else if s[0] == '\n' && s[1] == '\n' then [""] + Split(s[2..])
    else
      var rest := Split(s[1..]);
      [[s[0]] + rest[0]] + rest[1..]
  }

  /** `parts.join("\n\n")`: the first part, then each further part behind a separator. */
  function Join(parts: seq<string>): string
    requires |parts| >= 1
  {
    parts[0] + SeparatedTail(parts[1..])
  }

  /** Each part preceded by the separator, concatenated in order. */
  function SeparatedTail(parts: seq<string>): string {
    if parts == [] then "" else ParagraphBreak + parts[0] + SeparatedTail(parts[1..])
  }

  /** Joining the segments of a split with the separator gives back the original text. */
  lemma {:induction false} JoinSplit(s: string)
    ensures Join(Split(s)) == s
    decreases |s|
  {
    if |s| < 2 {
      assert s + "" == s;
    } else if s[0] == '\n' && s[1] == '\n' {
      JoinSplit(s[2..]);
      JoinEmptyFirst(Split(s[2..]));
      assert s == ParagraphBreak + s[2..];
    } else {
      JoinSplit(s[1..]);
      JoinExtendFirst(s[0], Split(s[1..]));
      assert s == [s[0]] + s[1..];
    }
  }

  /** An empty first part contributes only the separator in front of the rest. */
  lemma JoinEmptyFirst(parts: seq<string>)
    requires |parts| >= 1
    ensures Join([""] + parts) == ParagraphBreak + Join(parts)
  {
    assert ([""] + parts)[1..] == parts;
  }

  /** Prefixing the first part with a character prefixes the joined text with it. */
  lemma JoinExtendFirst(c: char, parts: seq<string>)
    requires |parts| >= 1
    ensures Join([[c] + parts[0]] + parts[1..]) == [c] + Join(parts)
  {
    var tail := SeparatedTail(parts[1..]);
    assert ([[c] + parts[0]] + parts[1..])[1..] == parts[1..];
    assert ([c] + parts[0]) + tail == [c] + (parts[0] + tail);
  }

  /** No segment of a split still contains the separator: every occurrence was cut. */
  lemma {:induction false} SplitSegmentsHaveNoBreak(s: string)
    ensures forall k :: 0 <= k < |Split(s)| ==> !ContainsBreak(Split(s)[k])
    decreases |s|
  {
    if |s| < 2 {
    } else if s[0] == '\n' && s[1] == '\n' {
      SplitSegmentsHaveNoBreak(s[2..]);
      assert Split(s) == [""] + Split(s[2..]);
    } else {
      var rest := Split(s[1..]);
      SplitSegmentsHaveNoBreak(s[1..]);
      var parts := [[s[0]] + rest[0]] + rest[1..];
      assert Split(s) == parts;
      var head := parts[0];
      forall i | 0 <= i < |head| - 1 ensures !BreakAt(head, i) {
        if i == 0 {
          FirstSegmentPrefix(s[1..]);
          assert head[1] == rest[0][0] == s[1];
        } else {
          assert head[i] == rest[0][i - 1] && head[i + 1] == rest[0][i];
          assert !ContainsBreak(rest[0]);
          assert !BreakAt(rest[0], i - 1);
        }
      }
      forall k | 1 <= k < |parts| ensures !ContainsBreak(parts[k]) {
        assert parts[k] == rest[k];
      }
    }
  }

  /** The first segment of a split is a prefix of the text. */
  lemma {:induction false} FirstSegmentPrefix(s: string)
    ensures |Split(s)[0]| <= |s| && Split(s)[0] == s[..|Split(s)[0]|]
    decreases |s|
  {
    if |s| < 2 {
    } else if s[0] == '\n' && s[1] == '\n' {
    } else {
      var first := Split(s[1..])[0];
      FirstSegmentPrefix(s[1..]);
      assert Split(s)[0] == [s[0]] + first;
      assert s[..|first| + 1] == [s[0]] + s[1..][..|first|];
    }
  }

  /**
   * The split cuts at the leftmost occurrence of the separator: none starts
   * inside the first segment; when there are more segments one starts right
   * after it, and the remaining segments are the split of the text behind
   * that occurrence; a single segment is the whole text.
   */
  lemma {:induction false} SplitCutsAtFirstBreak(s: string)
    ensures forall i :: 0 <= i < |Split(s)[0]| ==> !BreakAt(s, i)
    ensures |Split(s)| > 1 ==>
      BreakAt(s, |Split(s)[0]|) && Split(s)[1..] == Split(s[|Split(s)[0]| + 2..])
    ensures |Split(s)| == 1 ==> Split(s) == [s]
    decreases |s|
  {
    if |s| < 2 {
    } else if s[0] == '\n' && s[1] == '\n' {
      assert Split(s) == [""] + Split(s[2..]);
    } else {
      var t := s[1..];
      var rest := Split(t);
      SplitCutsAtFirstBreak(t);
      assert Split(s) == [[s[0]] + rest[0]] + rest[1..];
      forall i | 0 <= i < |Split(s)[0]| ensures !BreakAt(s, i) {
        if i > 0 {
          assert !BreakAt(t, i - 1);
          assert s[i] == t[i - 1];
          assert i + 1 < |s| ==> s[i + 1] == t[i];
        }
      }
      if |rest| > 1 {
        var n := |rest[0]|;
        assert s[n + 1] == t[n] && s[n + 2] == t[n + 1];
        assert t[n + 2..] == s[n + 3..];
      } else {
        assert [s[0]] + t == s;
      }
    }
  }

  /** A text without the separator is a single paragraph. */
  lemma {:induction false} SplitWithoutBreak(s: string)
    requires !ContainsBreak(s)
    ensures Split(s) == [s]
    decreases |s|
  {
    if |s| >= 2 {
      assert !BreakAt(s, 0);
      var t := s[1..];
      forall i | 0 <= i < |t| - 1 ensures !BreakAt(t, i) {
        assert t[i] == s[i + 1] && t[i + 1] == s[i + 2];
        assert !BreakAt(s, i + 1);
      }
      SplitWithoutBreak(t);
      assert [s[0]] + t == s;
    }
  }
}
