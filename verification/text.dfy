/**
 * String operations the pages apply to form input: ECMAScript `trim`, the
 * "blank after trim" test, lower-casing and `includes`.
 */
module Text {

  /**
   * The code points `String.prototype.trim` strips: the ECMAScript WhiteSpace
   * set (tab, vertical tab, form feed, space, no-break space, the byte order
   * mark and the Zs category) and the LineTerminator set (LF, CR, U+2028, U+2029).
   */
  predicate IsSpace(c: char) {
    var n := c as int;
    n == 0x09 || n == 0x0A || n == 0x0B || n == 0x0C || n == 0x0D || n == 0x20 ||
    n == 0xA0 || n == 0x1680 || (0x2000 <= n <= 0x200A) || n == 0x2028 ||
    n == 0x2029 || n == 0x202F || n == 0x205F || n == 0x3000 || n == 0xFEFF
  }

  /** Every character of `s` is white space (vacuously so for the empty string). */
  predicate AllSpace(s: string) {
    forall i :: 0 <= i < |s| ==> IsSpace(s[i])
  }

  /** The length of the longest all-space prefix of `s`. */
  function LeadingSpaces(s: string): (n: nat)
    ensures n <= |s|
    ensures AllSpace(s[..n])
    ensures n < |s| ==> !IsSpace(s[n])
  {
    if s == [] || !IsSpace(s[0]) then 0 else 1 + LeadingSpaces(s[1..])
  }

  /** The length of the longest all-space suffix of `s`. */
  function TrailingSpaces(s: string): (n: nat)
    ensures n <= |s|
    ensures AllSpace(s[|s| - n..])
    ensures n < |s| ==> !IsSpace(s[|s| - 1 - n])
  {
    if s == [] || !IsSpace(s[|s| - 1]) then 0 else 1 + TrailingSpaces(s[..|s| - 1])
  }

  /**
   * `s.trim()`: `s` without its leading and trailing white space. The result is
   * the run of `s` that starts right after the leading white space, and only white
   * space follows it.
   */
  function Trim(s: string): (r: string)
    ensures |r| <= |s|
    ensures r == [] || (!IsSpace(r[0]) && !IsSpace(r[|r| - 1]))
    ensures r == [] <==> AllSpace(s)
    ensures LeadingSpaces(s) + |r| <= |s| && r == s[LeadingSpaces(s)..LeadingSpaces(s) + |r|]
    ensures AllSpace(s[LeadingSpaces(s) + |r|..])
  {
    var a := LeadingSpaces(s);
    var rest := s[a..];
    var r := rest[..|rest| - TrailingSpaces(rest)];
    TrimParts(s, a, rest, TrailingSpaces(rest), r);
    r
  }

  /**
   * `s` split into `a` leading space characters, then `rest` ending in `t` trailing
   * space characters: the middle `r` of `rest` has non-space ends, is empty exactly
   * when `s` is all space, and only space follows it in `s`.
   */
  lemma TrimParts(s: string, a: nat, rest: string, t: nat, r: string)
    requires a <= |s| && AllSpace(s[..a]) && (a < |s| ==> !IsSpace(s[a])) && rest == s[a..]
    requires t <= |rest| && AllSpace(rest[|rest| - t..]) && (t < |rest| ==> !IsSpace(rest[|rest| - 1 - t]))
    requires r == rest[..|rest| - t]
    ensures |r| <= |s|
    ensures r == [] || (!IsSpace(r[0]) && !IsSpace(r[|r| - 1]))
    ensures r == [] <==> AllSpace(s)
    ensures a + |r| <= |s| && r == s[a..a + |r|]
    ensures AllSpace(s[a + |r|..])
  {
    SuffixSlices(s, a, |r|);
    if r == [] {
      if a < |s| {
        // a non-space first character of `rest` would have survived
        assert false;
      }
      assert s == s[..a];
    } else {
      assert r[0] == s[a];
      assert r[|r| - 1] == rest[|rest| - 1 - t];
    }
  }

  /** Cutting `s` at `a` and then at `m` past `a` gives the same pieces as cutting `s` directly. */
  lemma SuffixSlices<T>(s: seq<T>, a: nat, m: nat)
    requires a + m <= |s|
    ensures s[a..][..m] == s[a..a + m]
    ensures s[a + m..] == s[a..][m..]
  {
  }

  /** JavaScript's `!s.trim()`: the text is empty once trimmed. */
  predicate IsBlank(s: string) {
    Trim(s) == []
  }

  /** Trimming is idempotent: a trimmed text has nothing left to strip. */
  lemma TrimIdempotent(s: string)
    ensures Trim(Trim(s)) == Trim(s)
  {
    var t := Trim(s);
    if t != [] {
      assert LeadingSpaces(t) == 0;
      assert TrailingSpaces(t) == 0;
    }
  }

  /** ASCII upper case letters mapped to lower case; every other character is kept. */
  function LowerChar(c: char): char {
    if 'A' <= c <= 'Z' then (c as int + 32) as char else c
  }

  /** `s.toLowerCase()` restricted to ASCII letters. */
  function ToLower(s: string): (r: string)
    ensures |r| == |s|
    ensures forall i :: 0 <= i < |s| ==> r[i] == LowerChar(s[i])
  {
    seq(|s|, i requires 0 <= i < |s| => LowerChar(s[i]))
  }

  /** `hay.includes(needle)`: `needle` occurs as a contiguous run of `hay`. */
  predicate Includes(hay: string, needle: string) {
    exists i | 0 <= i <= |hay| - |needle| :: OccursAt(hay, needle, i)
  }

  /** `needle` is the run of `hay` starting at index `i`. */
  predicate OccursAt(hay: string, needle: string, i: int)
    requires 0 <= i <= |hay| - |needle|
  {
    hay[i..i + |needle|] == needle
  }

  /** JavaScript `a || b` on strings: the empty string is falsy. */
  function OrElse(a: string, b: string): (r: string)
    ensures r == a || r == b
    ensures r == a <==> a != [] || a == b
  {
    if a != [] then a else b
  }
}
