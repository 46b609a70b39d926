/**
 * Text operations the decoders use, with the semantics of the JavaScript and
 * Python string methods they stand for: `split` on one character, `trim` /
 * `strip`, `startsWith`, `endsWith`, `includes`, `replace` of the first
 * occurrence, `substring` / slicing, and case mapping for comparisons.
 */
module Strings {

  /** A dynamically typed argument that ought to be a string. */
  datatype Payload = Absent | Text(s: string) | NonText

  predicate StartsWith(s: string, p: string) {
    |p| <= |s| && s[..|p|] == p
  }

  predicate EndsWith(s: string, p: string) {
    |p| <= |s| && s[|s| - |p|..] == p
  }

  /** `s.includes(p)` / `p in s`: p occurs somewhere in s. */
  predicate Contains(s: string, p: string)
    decreases |s|
  {
    StartsWith(s, p) || (|s| > 0 && Contains(s[1..], p))
  }

  /** p occurs in s at offset i. */
  predicate OccursAt(s: string, p: string, i: int) {
    0 <= i <= |s| - |p| && s[i..i + |p|] == p
  }

  /** Contains is exactly "p occurs at some offset of s". */
  lemma {:induction false} ContainsIff(s: string, p: string)
    ensures Contains(s, p) <==> exists i :: OccursAt(s, p, i)
    decreases |s|
  {
    if StartsWith(s, p) {
      assert OccursAt(s, p, 0);
    } else if |s| > 0 {
      ContainsIff(s[1..], p);
      if Contains(s[1..], p) {
        var i :| OccursAt(s[1..], p, i);
        assert s[i + 1..i + 1 + |p|] == s[1..][i..i + |p|];
        assert OccursAt(s, p, i + 1);
      } else {
        forall i | 0 <= i <= |s| - |p| ensures !OccursAt(s, p, i) {
          if i == 0 {
            assert s[..|p|] == s[i..i + |p|];
          } else {
            assert s[1..][i - 1..i - 1 + |p|] == s[i..i + |p|];
            assert !OccursAt(s[1..], p, i - 1);
          }
        }
      }
    }
  }

  /** Position of the first occurrence of c. */
  function IndexOf(s: string, c: char): (i: nat)
    requires c in s
    ensures i < |s| && s[i] == c && c !in s[..i]
  {
    if s[0] == c then 0
    else
      var j := IndexOf(s[1..], c);
      assert s[1..][..j] == s[1..j + 1];
      assert s[..j + 1] == [s[0]] + s[1..j + 1];
      j + 1
  }

  /** `s.split(sep)` for a one-character separator: the pieces between separators. */
  function Split(s: string, sep: char): (parts: seq<string>)
    ensures |parts| >= 1
    decreases |s|
  {
    if sep !in s then [s]
    else
      var i := IndexOf(s, sep);
      [s[..i]] + Split(s[i + 1..], sep)
  }

  /** Glue the pieces back together with `sep` in between. */
  function Join(parts: seq<string>, sep: char): string
    requires |parts| >= 1
  {
    if |parts| == 1 then parts[0] else parts[0] + [sep] + Join(parts[1..], sep)
  }

  /** Number of occurrences of c in s. */
  function Count(s: string, c: char): nat {
    if |s| == 0 then 0 else (if s[0] == c then 1 else 0) + Count(s[1..], c)
  }

  lemma {:induction false} CountAppend(x: string, y: string, c: char)
    ensures Count(x + y, c) == Count(x, c) + Count(y, c)
    decreases |x|
  {
    if |x| > 0 {
      assert (x + y)[1..] == x[1..] + y;
      CountAppend(x[1..], y, c);
    } else {
      assert x + y == y;
    }
  }

  lemma {:induction false} CountAbsent(s: string, c: char)
    requires c !in s
    ensures Count(s, c) == 0
    decreases |s|
  {
    if |s| > 0 {
      assert c !in s[1..] by { assert forall k :: 0 <= k < |s[1..]| ==> s[1..][k] == s[k + 1]; }
      CountAbsent(s[1..], c);
    }
  }

  /** The first piece of a split ending right before a separator. */
  lemma SplitAt(x: string, y: string, sep: char)
    requires sep !in x
    ensures Split(x + [sep] + y, sep) == [x] + Split(y, sep)
  {
    var s := x + [sep] + y;
    assert s[|x|] == sep;
    var i := IndexOf(s, sep);
    assert i == |x| by {
      assert forall k :: 0 <= k < |x| ==> s[k] == x[k];
      assert forall k :: 0 <= k < i ==> s[..i][k] == s[k];
    }
    assert s[..i] == x;
    assert s[i + 1..] == y;
  }

  /** Splitting text that holds no separator gives that text alone. */
  lemma SplitNone(s: string, sep: char)
    requires sep !in s
    ensures Split(s, sep) == [s]
  {
  }

  /** The pieces of a split are one more than the separators. */
  lemma {:induction false} SplitCount(s: string, sep: char)
    ensures |Split(s, sep)| == Count(s, sep) + 1
    decreases |s|
  {
    if sep !in s {
      CountAbsent(s, sep);
    } else {
      var i := IndexOf(s, sep);
      var x, y := s[..i], s[i + 1..];
      assert s == x + ([sep] + y);
      SplitCount(y, sep);
      CountAbsent(x, sep);
      CountAppend(x, [sep] + y, sep);
      assert ([sep] + y)[1..] == y;
    }
  }

  /** No piece of a split holds the separator. */
  lemma {:induction false} SplitFree(s: string, sep: char)
    ensures forall k :: 0 <= k < |Split(s, sep)| ==> sep !in Split(s, sep)[k]
    decreases |s|
  {
    if sep in s {
      var i := IndexOf(s, sep);
      SplitFree(s[i + 1..], sep);
      var parts := Split(s, sep);
      assert parts[1..] == Split(s[i + 1..], sep);
      forall k | 1 <= k < |parts|
        ensures sep !in parts[k]
      {
        assert parts[k] == parts[1..][k - 1];
      }
    }
  }

  /** Split and Join are inverse: joining the pieces of a split restores the text. */
  lemma {:induction false} SplitJoin(s: string, sep: char)
    ensures Join(Split(s, sep), sep) == s
    decreases |s|
  {
    if sep in s {
      var i := IndexOf(s, sep);
      var x, y := s[..i], s[i + 1..];
      assert s == x + [sep] + y;
      SplitJoin(y, sep);
      var parts := Split(s, sep);
      assert parts[1..] == Split(y, sep);
    }
  }

  /** Join of one-character-free pieces is undone by Split (the other direction). */
  lemma {:induction false} JoinSplit(parts: seq<string>, sep: char)
    requires |parts| >= 1
    requires forall k :: 0 <= k < |parts| ==> sep !in parts[k]
    ensures Split(Join(parts, sep), sep) == parts
    decreases |parts|
  {
    if |parts| > 1 {
      JoinSplit(parts[1..], sep);
      assert Join(parts, sep) == parts[0] + [sep] + Join(parts[1..], sep);
      SplitAt(parts[0], Join(parts[1..], sep), sep);
    }
  }

  /** The join begins with the first piece. */
  lemma JoinFirst(parts: seq<string>, sep: char)
    requires |parts| >= 1
    ensures |parts[0]| <= |Join(parts, sep)| && Join(parts, sep)[..|parts[0]|] == parts[0]
  {
    if |parts| > 1 {
      assert Join(parts, sep) == parts[0] + ([sep] + Join(parts[1..], sep));
    }
  }

  /** White space at neither end: trimming changes nothing. */
  lemma TrimNoop(s: string, ws: CharClass)
    requires |s| > 0 && !In(s[0], ws) && !In(s[|s| - 1], ws)
    ensures Trim(s, ws) == s
  {
    assert TrimLeft(s, ws) == s;
  }

  /** A character that is neither the separator nor in any piece is not in their join. */
  lemma {:induction false} JoinFree(parts: seq<string>, sep: char, c: char)
    requires |parts| >= 1 && c != sep
    requires forall k :: 0 <= k < |parts| ==> c !in parts[k]
    ensures c !in Join(parts, sep)
    decreases |parts|
  {
    if |parts| > 1 {
      JoinFree(parts[1..], sep, c);
      assert Join(parts, sep) == parts[0] + [sep] + Join(parts[1..], sep);
    }
  }

  /** Drop leading characters satisfying ws. */
  function TrimLeft(s: string, ws: CharClass): (r: string)
    ensures |r| <= |s|
    decreases |s|
  {
    if |s| > 0 && In(s[0], ws) then TrimLeft(s[1..], ws) else s
  }

  /** TrimLeft removes exactly the leading run of ws characters. */
  lemma {:induction false} TrimLeftSpec(s: string, ws: CharClass)
    ensures var r := TrimLeft(s, ws);
      r == s[|s| - |r|..] && (r == [] || !In(r[0], ws)) && forall i :: 0 <= i < |s| - |r| ==> In(s[i], ws)
    decreases |s|
  {
    if |s| > 0 && In(s[0], ws) {
      TrimLeftSpec(s[1..], ws);
      var r := TrimLeft(s, ws);
      assert forall i :: 1 <= i < |s| - |r| ==> s[i] == s[1..][i - 1];
    }
  }

  /** Drop trailing characters satisfying ws. */
  function TrimRight(s: string, ws: CharClass): (r: string)
    ensures |r| <= |s|
    decreases |s|
  {
    if |s| > 0 && In(s[|s| - 1], ws) then TrimRight(s[..|s| - 1], ws) else s
  }

  /** TrimRight removes exactly the trailing run of ws characters. */
  lemma {:induction false} TrimRightSpec(s: string, ws: CharClass)
    ensures var r := TrimRight(s, ws);
      r == s[..|r|] && (r == [] || !In(r[|r| - 1], ws)) && forall i :: |r| <= i < |s| ==> In(s[i], ws)
    decreases |s|
  {
    if |s| > 0 && In(s[|s| - 1], ws) {
      TrimRightSpec(s[..|s| - 1], ws);
      var r := TrimRight(s, ws);
      assert forall i :: |r| <= i < |s| - 1 ==> s[i] == s[..|s| - 1][i];
    }
  }

  function Trim(s: string, ws: CharClass): string {
    TrimRight(TrimLeft(s, ws), ws)
  }

  /** The characters `String.prototype.trim` removes (WhiteSpace and LineTerminator of ECMAScript). */
  predicate IsJsSpace(c: char) {
    c == '\t' || c == '\n' || c == '\U{000B}' || c == '\U{000C}' || c == '\r' || c == ' '
    || c == '\U{00A0}' || c == '\U{1680}' || ('\U{2000}' <= c <= '\U{200A}')
    || c == '\U{2028}' || c == '\U{2029}' || c == '\U{202F}' || c == '\U{205F}'
    || c == '\U{3000}' || c == '\U{FEFF}'
  }

  /** The characters Python's `str.strip()` removes (`str.isspace`). */
  predicate IsPySpace(c: char) {
    c == '\t' || c == '\n' || c == '\U{000B}' || c == '\U{000C}' || c == '\r'
    || ('\U{001C}' <= c <= '\U{001F}') || c == ' ' || c == '\U{0085}' || c == '\U{00A0}'
    || c == '\U{1680}' || ('\U{2000}' <= c <= '\U{200A}')
    || c == '\U{2028}' || c == '\U{2029}' || c == '\U{202F}' || c == '\U{205F}' || c == '\U{3000}'
  }

  predicate IsDigit(c: char) {
    '0' <= c <= '9'
  }

  predicate IsHexDigit(c: char) {
    IsDigit(c) || 'a' <= c <= 'f' || 'A' <= c <= 'F'
  }

  /** Classes of characters that trimming and digit scanning look for. */
  datatype CharClass = JsSpace | PySpace | Exactly(c: char) | Decimal | Hex

  predicate In(c: char, k: CharClass) {
    match k
    case JsSpace => IsJsSpace(c)
    case PySpace => IsPySpace(c)
    case Exactly(x) => c == x
    case Decimal => IsDigit(c)
    case Hex => IsHexDigit(c)
  }

  /** `s.trim()` in JavaScript. */
  function JsTrim(s: string): string {
    Trim(s, JsSpace)
  }

  /** `s.strip()` in Python. */
  function PyStrip(s: string): string {
    Trim(s, PySpace)
  }

  /** `s.strip(c)` in Python: every leading and trailing c removed. */
  function PyStripChar(s: string, c: char): string {
    Trim(s, Exactly(c))
  }

  /** JavaScript `s.replace(c, '')` with a one-character string: only the first c goes. */
  function RemoveFirst(s: string, c: char): string {
    if c !in s then s
    else
      var i := IndexOf(s, c);
      s[..i] + s[i + 1..]
  }

  /**
   * Lower-case mapping used only to compare against ASCII text: it agrees
   * with `toLowerCase` on every character whose lower case is ASCII (the
   * Latin capitals and the Kelvin sign) and leaves other characters alone,
   * which never turns a non-match into a match.
   */
  function LowerChar(c: char): char {
    if 'A' <= c <= 'Z' then (c as int + 32) as char
    else if c == '\U{212A}' then 'k'
    else c
  }

  function ToLower(s: string): (r: string)
    ensures |r| == |s| && forall i :: 0 <= i < |s| ==> r[i] == LowerChar(s[i])
  {
    if |s| == 0 then [] else [LowerChar(s[0])] + ToLower(s[1..])
  }

  /**
   * JavaScript `s.substring(a, b)` and Python `s[a:b]` for 0 <= a <= b:
   * both bounds are clipped to the length of s.
   */
  function Slice(s: string, a: nat, b: nat): (r: string)
    requires a <= b
    ensures |r| == (if b <= |s| then b else |s|) - (if a <= |s| then a else |s|)
  {
    var lo := if a <= |s| then a else |s|;
    var hi := if b <= |s| then b else |s|;
    s[lo..hi]
  }

  /**
   * `s.substring(i, i + 2)` and `s[i:i + 2]`: the two characters at offset i,
   * fewer at the end of s.
   */
  function Pair(s: string, i: nat): (r: string)
    ensures |r| <= 2
  {
    if i + 1 < |s| then [s[i], s[i + 1]] else if i < |s| then [s[i]] else ""
  }

  /** Pair is the slice from i to i + 2 with both ends clipped to the length of s. */
  lemma PairSlice(s: string, i: nat)
    ensures Pair(s, i) == Slice(s, i, i + 2)
  {
  }

  /**
   * The stand-in for one half of a UTF-16 surrogate pair. Like a lone
   * surrogate it is neither white space nor a sign nor a digit, which is all
   * `parseInt` asks of a character.
   */
  const SurrogateHalf: char := '\U{FFFD}'

  /**
   * The UTF-16 code units of s, which JavaScript's `length` and `substring`
   * count: a character above U+FFFF becomes its two surrogate halves, each
   * written SurrogateHalf; every other character is one unit.
   */
  function Utf16(s: string): (r: string)
    ensures |s| <= |r| <= 2 * |s|
  {
    if s == "" then ""
    else (if s[0] <= '\U{FFFF}' then [s[0]] else [SurrogateHalf, SurrogateHalf]) + Utf16(s[1..])
  }

  /** A character above U+FFFF is two code units, both surrogate halves. */
  lemma Utf16Astral(c: char)
    requires c > '\U{FFFF}'
    ensures Utf16([c]) == [SurrogateHalf, SurrogateHalf]
  {
    assert [c][1..] == "";
  }

  /** The code units of s are those of its first n characters followed by those of the rest. */
  lemma {:induction false} Utf16Split(s: string, n: nat)
    requires n <= |s|
    ensures Utf16(s) == Utf16(s[..n]) + Utf16(s[n..])
  {
    if n > 0 {
      Utf16Split(s[1..], n - 1);
      assert s[..n][0] == s[0];
      assert s[..n][1..] == s[1..][..n - 1];
      assert s[1..][n - 1..] == s[n..];
    } else {
      assert s[..0] == "" && s[0..] == s;
    }
  }

  /** Text made only of characters above U+FFFF is twice as many surrogate halves. */
  lemma {:induction false} Utf16AllAstral(s: string)
    requires forall i :: 0 <= i < |s| ==> s[i] > '\U{FFFF}'
    ensures |Utf16(s)| == 2 * |s| && forall k :: 0 <= k < |Utf16(s)| ==> Utf16(s)[k] == SurrogateHalf
  {
    if s != "" {
      Utf16AllAstral(s[1..]);
    }
  }

  /** A leading run of characters up to U+FFFF is kept unit for unit. */
  lemma {:induction false} Utf16Prefix(s: string, n: nat)
    requires n <= |s| && forall i :: 0 <= i < n ==> s[i] <= '\U{FFFF}'
    ensures n <= |Utf16(s)| && forall i :: 0 <= i < n ==> Utf16(s)[i] == s[i]
  {
    if n > 0 {
      Utf16Prefix(s[1..], n - 1);
      assert Utf16(s) == [s[0]] + Utf16(s[1..]);
    }
  }

  /** Text without characters above U+FFFF is its own code units. */
  lemma Utf16Bmp(s: string)
    requires forall i :: 0 <= i < |s| ==> s[i] <= '\U{FFFF}'
    ensures Utf16(s) == s
  {
    Utf16Prefix(s, |s|);
    assert |Utf16(s)| == |s|;
  }

  /**
   * Direction strings whose upper case (`toUpperCase()`, `upper()`) is "S" or
   * "W": U+017F, the long s, upper-cases to "S"; no other string does.
   */
  predicate SouthOrWest(dir: string) {
    dir == "S" || dir == "s" || dir == "\U{017F}" || dir == "W" || dir == "w"
  }

  predicate AllDigits(s: string) {
    forall i :: 0 <= i < |s| ==> IsDigit(s[i])
  }

  /** The simple heartbeat pattern `^\d{15};?$`: fifteen decimal digits and an optional `;`. */
  predicate IsSimpleHeartbeat(m: string) {
    (|m| == 15 || (|m| == 16 && m[15] == ';')) && forall i :: 0 <= i < 15 ==> IsDigit(m[i])
  }

  /** Text without one trailing `#`. */
  function DropHash(m: string): (r: string)
    ensures |m| > 0 && m[|m| - 1] == '#' ==> r + "#" == m
    ensures |m| - 1 <= |r| <= |m| && r == m[..|r|]
    ensures |r| < |m| ==> m[|m| - 1] == '#'
  {
    if |m| > 0 && m[|m| - 1] == '#' then m[..|m| - 1] else m
  }

  /** Appending `#` and dropping it again gives back the text; text not ending in `#` is kept as it is. */
  lemma DropHashRoundTrip(s: string)
    ensures DropHash(s + "#") == s
    ensures !EndsWith(s, "#") ==> DropHash(s) == s
  {
    assert (s + "#")[..|s|] == s;
    if |s| > 0 && s[|s| - 1] == '#' {
      assert s[|s| - 1..] == "#";
    }
  }

  /** `parts[i]` in JavaScript, where an index past the end reads as undefined (falsy, like ""). */
  function At(parts: seq<string>, i: nat): string {
    if i < |parts| then parts[i] else ""
  }
}
