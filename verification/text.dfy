/**
 The string vocabulary the scraper's regular expressions and string methods rely on,
 stated on `seq<char>`: the ECMAScript whitespace set (what `trim` strips and `\s`
 matches), the ASCII digit and word classes (`\d`, `\w`, hence `\b`), ASCII case
 folding, substring search, maximal digit runs and the UTF-16 length behind `.length`.
 */
module Text {

  /** ECMAScript WhiteSpace and LineTerminator code points: the set `String.prototype.trim` removes and `\s` matches. */
  predicate IsSpace(c: char) {
    || c == '\t' || c == '\n' || c == '\U{000B}' || c == '\U{000C}' || c == '\r' || c == ' '
    || c == '\U{00A0}' || c == '\U{1680}' || ('\U{2000}' <= c <= '\U{200A}')
    || c == '\U{2028}' || c == '\U{2029}' || c == '\U{202F}' || c == '\U{205F}'
    || c == '\U{3000}' || c == '\U{FEFF}'
  }

  /** `\d` without the `u` flag. */
  predicate IsDigit(c: char) {
    '0' <= c <= '9'
  }

  /** `\w` without the `u` flag: `[A-Za-z0-9_]`. */
  predicate IsWordChar(c: char) {
    IsDigit(c) || ('A' <= c <= 'Z') || ('a' <= c <= 'z') || c == '_'
  }

  predicate AllSpace(s: string) {
    forall k :: 0 <= k < |s| ==> IsSpace(s[k])
  }

  /** Every character of `s[i..j]` is an ASCII digit. */
  predicate DigitsBetween(s: string, i: int, j: int)
    requires 0 <= i <= j <= |s|
  {
    forall k :: i <= k < j ==> IsDigit(s[k])
  }

  predicate AllDigits(s: string) {
    DigitsBetween(s, 0, |s|)
  }

  /** `s` with its leading whitespace removed (the `\s*` after a literal, and the first half of `trim`). */
  function TrimStart(s: string): (r: string)
    ensures |r| <= |s| && r == s[|s| - |r|..]
    ensures AllSpace(s[..|s| - |r|])
    ensures |r| == 0 || !IsSpace(r[0])
    decreases |s|
  {
    if |s| > 0 && IsSpace(s[0]) then TrimStart(s[1..]) else s
  }

  /** `s` with its trailing whitespace removed. */
  function TrimEnd(s: string): (r: string)
    ensures |r| <= |s| && r == s[..|r|]
    ensures AllSpace(s[|r|..])
    ensures |r| == 0 || !IsSpace(r[|r| - 1])
    decreases |s|
  {
    if |s| > 0 && IsSpace(s[|s| - 1]) then TrimEnd(s[..|s| - 1]) else s
  }

  /** How many leading whitespace characters `trim` removes from `s`. */
  function TrimOffset(s: string): (i: nat)
    ensures i <= |s|
  {
    |s| - |TrimStart(s)|
  }

  /** `String.prototype.trim`: the middle of `s` between its leading and trailing whitespace. */
  function Trim(s: string): (r: string)
    ensures TrimOffset(s) + |r| <= |s|
    ensures r == s[TrimOffset(s)..TrimOffset(s) + |r|]
    ensures AllSpace(s[..TrimOffset(s)]) && AllSpace(s[TrimOffset(s) + |r|..])
    ensures |r| == 0 || (!IsSpace(r[0]) && !IsSpace(r[|r| - 1]))
  {
    var t := TrimStart(s);
    var r := TrimEnd(t);
    var i := |s| - |t|;
    assert r == s[i..i + |r|];
    assert s[i + |r|..] == t[|r|..];
    r
  }

  /** Trimming removes exactly the whitespace: the result is empty iff the input is all whitespace. */
  lemma {:induction false} TrimEmptyIffBlank(s: string)
    ensures Trim(s) == [] <==> AllSpace(s)
  {
    var r := Trim(s);
    var i := TrimOffset(s);
    if r == [] {
      assert i == |s|;
      forall k | 0 <= k < |s| ensures IsSpace(s[k]) {
        assert s[..i][k] == s[k];
      }
    } else {
      assert s[i] == r[0];
    }
  }

  /** A string without surrounding whitespace is its own trim. */
  lemma TrimOfTrimmed(s: string)
    requires |s| == 0 || (!IsSpace(s[0]) && !IsSpace(s[|s| - 1]))
    ensures Trim(s) == s
  {
  }

  /** A non-whitespace character of `s` lies inside its trim. */
  lemma TrimKeeps(s: string, j: int)
    requires 0 <= j < |s| && !IsSpace(s[j])
    ensures TrimOffset(s) <= j < TrimOffset(s) + |Trim(s)|
    ensures Trim(s)[j - TrimOffset(s)] == s[j]
  {
  }

  /** JavaScript's `a || b` on two strings: `a` unless it is empty. */
  function Or(a: string, b: string): string {
    if a != [] then a else b
  }

  /** `s.replace(/^\+/, '')`: one leading plus sign removed. */
  function StripPlus(s: string): (r: string)
    ensures |s| > 0 && s[0] == '+' ==> r == s[1..]
    ensures |s| == 0 || s[0] != '+' ==> r == s
  {
    if |s| > 0 && s[0] == '+' then s[1..] else s
  }

  /** ASCII case folding of one character (the only folding the model performs). */
  function LowerChar(c: char): (d: char)
    ensures ('A' <= c <= 'Z') ==> ('a' <= d <= 'z') && d as int == c as int + 32
    ensures !('A' <= c <= 'Z') ==> d == c
  {
    if 'A' <= c <= 'Z' then (c as int + 32) as char else c
  }

  /** `toLowerCase`, restricted to ASCII letters. */
  function Lower(s: string): (r: string)
    ensures |r| == |s|
    ensures forall k {:trigger r[k]} :: 0 <= k < |s| ==> r[k] == LowerChar(s[k])
  {
    seq(|s|, k requires 0 <= k < |s| => LowerChar(s[k]))
  }

  /** Case folding commutes with slicing. */
  lemma LowerSlice(s: string, a: int, b: int)
    requires 0 <= a <= b <= |s|
    ensures Lower(s[a..b]) == Lower(s)[a..b]
  {
  }

  /** Inside the kept middle, the folded trim reads what the folded input reads. */
  lemma LowerOfTrimSlice(s: string, a: int, b: int)
    requires TrimOffset(s) <= a <= b <= TrimOffset(s) + |Trim(s)|
    ensures Lower(Trim(s))[a - TrimOffset(s)..b - TrimOffset(s)] == Lower(s)[a..b]
  {
    LowerWindow(s, TrimOffset(s), |Trim(s)|, a, b);
  }

  /** Folding a window and then slicing it is slicing the folded string. */
  lemma LowerWindow(s: string, o: int, n: int, a: int, b: int)
    requires 0 <= o <= a <= b <= o + n <= |s|
    ensures Lower(s[o..o + n])[a - o..b - o] == Lower(s)[a..b]
  {
    LowerSlice(s, o, o + n);
    assert Lower(s)[o..o + n][a - o..b - o] == Lower(s)[a..b];
  }

  /** Folding is idempotent: a folded string has nothing left to fold. */
  lemma LowerIdempotent(s: string)
    ensures Lower(Lower(s)) == Lower(s)
  {
    assert forall k :: 0 <= k < |s| ==> Lower(Lower(s))[k] == Lower(s)[k];
  }

  /** `s.startsWith(p)`. */
  predicate StartsWith(s: string, p: string) {
    |p| <= |s| && s[..|p|] == p
  }

  /** `p` occurs in `s` starting at offset `i`. */
  predicate OccursAt(s: string, p: string, i: int) {
    0 <= i <= |s| - |p| && s[i..i + |p|] == p
  }

  /** `s.includes(p)`: `p` occurs in `s` at some offset. */
  predicate Contains(s: string, p: string) {
    exists i :: 0 <= i <= |s| - |p| && OccursAt(s, p, i)
  }

  /** A case-insensitive regular-expression test `/p/i` for a lower-case ASCII pattern `p`. */
  predicate ContainsIgnoringCase(s: string, p: string) {
    Contains(Lower(s), p)
  }

  /** The empty string occurs in every string, so `"".includes("")` holds. */
  lemma ContainsEmpty(s: string)
    ensures Contains(s, "")
  {
    assert OccursAt(s, "", 0);
  }

  /** Length of the maximal run of ASCII digits starting at `i`. */
  function RunLength(s: string, i: nat): (n: nat)
    requires i <= |s|
    ensures i + n <= |s|
    ensures DigitsBetween(s, i, i + n)
    ensures i + n == |s| || !IsDigit(s[i + n])
    decreases |s| - i
  {
    if i < |s| && IsDigit(s[i]) then 1 + RunLength(s, i + 1) else 0
  }

  /** A digit run is determined by where it starts: any all-digit stretch from `i` ending at a non-digit is the run. */
  lemma RunLengthUnique(s: string, i: nat, n: nat)
    requires i + n <= |s| && DigitsBetween(s, i, i + n)
    requires i + n == |s| || !IsDigit(s[i + n])
    ensures RunLength(s, i) == n
  {
  }

  /** The number of UTF-16 code units of `s`, which is what JavaScript's `.length` counts. */
  function Utf16Length(s: string): (n: nat)
    ensures |s| <= n <= 2 * |s|
  {
    if |s| == 0 then 0
    else (if s[0] as int >= 0x1_0000 then 2 else 1) + Utf16Length(s[1..])
  }
}
