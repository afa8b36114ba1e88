/**
 One-time-code search. The scraper has two `extractOtp` functions whose regular
 expressions differ only in what may not touch the 4-8 digit code:
 `\b\d{4,8}\b` (no word character, `[A-Za-z0-9_]`, on either side) and
 `(?<!\d)\d{4,8}(?!\d)` (no digit on either side). Both are stated here as the
 regular expressions read, and computed by one scanner that hops over whole digit
 runs; the scanner is proved to return the leftmost match.
 */
module Otp {
  import opened Optional
  import opened Text

  /** `\b` at offset `p`: exactly one of the two characters around `p` is a word character. */
  predicate WordBoundary(s: string, p: int)
    requires 0 <= p <= |s|
  {
    (p > 0 && IsWordChar(s[p - 1])) != (p < |s| && IsWordChar(s[p]))
  }

  /** `\b\d{4,8}\b` matches `s[i..i + k]`. */
  predicate WordCodeAt(s: string, i: int, k: int) {
    && 0 <= i && 4 <= k <= 8 && i + k <= |s|
    && DigitsBetween(s, i, i + k)
    && WordBoundary(s, i) && WordBoundary(s, i + k)
  }

  /** `(?<!\d)\d{4,8}(?!\d)` matches `s[i..i + k]`. */
  predicate IsolatedCodeAt(s: string, i: int, k: int) {
    && 0 <= i && 4 <= k <= 8 && i + k <= |s|
    && DigitsBetween(s, i, i + k)
    && (i == 0 || !IsDigit(s[i - 1]))
    && (i + k == |s| || !IsDigit(s[i + k]))
  }

  /** Which neighbours a code may not touch: word characters (`\b`) or digits (lookarounds). */
  datatype Fence = WordFence | DigitFence

  predicate Fenced(fence: Fence, c: char) {
    match fence
    case WordFence => IsWordChar(c)
    case DigitFence => IsDigit(c)
  }

  /** The regular expression selected by `fence` matches `s[i..i + k]`. */
  predicate CodeAt(fence: Fence, s: string, i: int, k: int) {
    match fence
    case WordFence => WordCodeAt(s, i, k)
    case DigitFence => IsolatedCodeAt(s, i, k)
  }

  /** No match of either length starts before offset `i`. */
  ghost predicate NoCodeBefore(fence: Fence, s: string, i: int) {
    forall j, k :: 0 <= j < i ==> !CodeAt(fence, s, j, k)
  }

  /** The match the regular-expression engine reports: the leftmost start. */
  ghost predicate LeftmostCodeAt(fence: Fence, s: string, i: int, k: int) {
    CodeAt(fence, s, i, k) && NoCodeBefore(fence, s, i)
  }

  /**
   A match is a whole digit run that no fenced character touches; in particular
   greedy backtracking can only ever settle on the full run.
   */
  lemma CodeIsWholeRun(fence: Fence, s: string, i: int, k: int)
    requires CodeAt(fence, s, i, k)
    ensures k == RunLength(s, i)
    ensures i == 0 || !Fenced(fence, s[i - 1])
    ensures i + k == |s| || !Fenced(fence, s[i + k])
  {
    assert IsDigit(s[i]) && IsDigit(s[i + k - 1]);
    RunLengthUnique(s, i, k);
  }

  /** A run of 4-8 digits that no fenced character touches is a match. */
  lemma RunIsCode(fence: Fence, s: string, i: nat)
    requires i < |s| && 4 <= RunLength(s, i) <= 8
    requires i == 0 || !Fenced(fence, s[i - 1])
    requires i + RunLength(s, i) == |s| || !Fenced(fence, s[i + RunLength(s, i)])
    ensures CodeAt(fence, s, i, RunLength(s, i))
  {
    var n := RunLength(s, i);
    assert IsDigit(s[i]) && IsDigit(s[i + n - 1]);
  }

  /** No match starts strictly inside a digit run: the digit before it is fenced either way. */
  lemma NoCodeInsideRun(fence: Fence, s: string, i: nat, j: int, k: int)
    requires i <= |s| && i < j < i + RunLength(s, i)
    ensures !CodeAt(fence, s, j, k)
  {
    assert IsDigit(s[j - 1]) && IsDigit(s[j]);
  }

  /**
   The scan: skip non-digits, measure each digit run once, and report its start
   if it qualifies; otherwise continue after the run.
   */
  function Scan(fence: Fence, s: string, i: nat): (r: Option<nat>)
    requires i <= |s|
    ensures NoCodeBefore(fence, s, i) && r.Some? ==> i <= r.value < |s| && LeftmostCodeAt(fence, s, r.value, RunLength(s, r.value))
    ensures NoCodeBefore(fence, s, i) && r.None? ==> forall j, k :: !CodeAt(fence, s, j, k)
    decreases |s| - i
  {
    if i == |s| then
      None
    else if !IsDigit(s[i]) then
      assert forall k :: !CodeAt(fence, s, i, k);
      Scan(fence, s, i + 1)
    else
      var n := RunLength(s, i);
      if 4 <= n <= 8 && (i == 0 || !Fenced(fence, s[i - 1])) && (i + n == |s| || !Fenced(fence, s[i + n])) then
        RunIsCode(fence, s, i);
        Some(i)
      else
        assert forall k :: !CodeAt(fence, s, i, k) by {
          forall k | CodeAt(fence, s, i, k) ensures false {
            CodeIsWholeRun(fence, s, i, k);
          }
        }
        assert forall j, k :: i < j < i + n ==> !CodeAt(fence, s, j, k) by {
          forall j, k | i < j < i + n ensures !CodeAt(fence, s, j, k) {
            NoCodeInsideRun(fence, s, i, j, k);
          }
        }
        Scan(fence, s, i + n)
  }

  /** The code the regular expression selected by `fence` finds in `s`, or none. */
  function FirstCode(fence: Fence, s: string): (r: Option<string>)
    ensures r.None? <==> forall i, k :: !CodeAt(fence, s, i, k)
    ensures r.Some? ==> exists i :: LeftmostCodeAt(fence, s, i, |r.value|) && r.value == s[i..i + |r.value|]
  {
    match Scan(fence, s, 0)
    case None => None
    case Some(i) =>
      var code := s[i..i + RunLength(s, i)];
      assert LeftmostCodeAt(fence, s, i, |code|);
      Some(code)
  }

  /** Two leftmost matches are the same match. */
  lemma LeftmostUnique(fence: Fence, s: string, i: int, k: int, i': int, k': int)
    requires LeftmostCodeAt(fence, s, i, k) && LeftmostCodeAt(fence, s, i', k')
    ensures i == i' && k == k'
  {
    CodeIsWholeRun(fence, s, i, k);
    CodeIsWholeRun(fence, s, i', k');
  }

  /** Whatever `\b\d{4,8}\b` matches, `(?<!\d)\d{4,8}(?!\d)` matches too. */
  lemma WordCodeIsIsolated(s: string, i: int, k: int)
    requires WordCodeAt(s, i, k)
    ensures IsolatedCodeAt(s, i, k)
  {
    CodeIsWholeRun(WordFence, s, i, k);
  }

  /**
   On text where every word character is a digit (no letters, no `_`), the two
   regular expressions match the same places.
   */
  lemma FencesAgreeWithoutLetters(s: string, i: int, k: int)
    requires forall c :: c in s && IsWordChar(c) ==> IsDigit(c)
    ensures WordCodeAt(s, i, k) <==> IsolatedCodeAt(s, i, k)
  {
    if WordCodeAt(s, i, k) {
      WordCodeIsIsolated(s, i, k);
    }
    if IsolatedCodeAt(s, i, k) {
      assert IsDigit(s[i]) && IsDigit(s[i + k - 1]);
      if i > 0 {
        assert s[i - 1] in s;
      }
      if i + k < |s| {
        assert s[i + k] in s;
      }
    }
  }

  /** So on such text both searches return the same code. */
  lemma {:induction false} FirstCodeAgreesWithoutLetters(s: string)
    requires forall c :: c in s && IsWordChar(c) ==> IsDigit(c)
    ensures FirstCode(WordFence, s) == FirstCode(DigitFence, s)
  {
    if FirstCode(WordFence, s).None? {
      NoWordCodeNoDigitCode(s);
    } else {
      SameFirstCode(s);
    }
  }

  lemma SameFirstCode(s: string)
    requires forall c :: c in s && IsWordChar(c) ==> IsDigit(c)
    requires FirstCode(WordFence, s).Some?
    ensures FirstCode(WordFence, s) == FirstCode(DigitFence, s)
  {
    var k := |FirstCode(WordFence, s).value|;
    var i :| LeftmostCodeAt(WordFence, s, i, k);
    LeftmostCarries(s, i, k);
    LeftmostIsFirstCode(WordFence, s, i, k);
    LeftmostIsFirstCode(DigitFence, s, i, k);
  }

  lemma NoWordCodeNoDigitCode(s: string)
    requires forall c :: c in s && IsWordChar(c) ==> IsDigit(c)
    requires forall i, k :: !CodeAt(WordFence, s, i, k)
    ensures forall i, k :: !CodeAt(DigitFence, s, i, k)
  {
    forall i, k ensures !IsolatedCodeAt(s, i, k) {
      assert !CodeAt(WordFence, s, i, k);
      FencesAgreeWithoutLetters(s, i, k);
    }
  }

  lemma LeftmostCarries(s: string, i: int, k: int)
    requires forall c :: c in s && IsWordChar(c) ==> IsDigit(c)
    requires LeftmostCodeAt(WordFence, s, i, k)
    ensures LeftmostCodeAt(DigitFence, s, i, k)
  {
    FencesAgreeWithoutLetters(s, i, k);
    forall j, m | 0 <= j < i ensures !IsolatedCodeAt(s, j, m) {
      assert !CodeAt(WordFence, s, j, m);
      FencesAgreeWithoutLetters(s, j, m);
    }
  }

  /**
   A run of 4-8 digits after digit-free text is the code found, provided no fenced
   character touches it.
   */
  lemma {:induction false} CodeAfterDigitFreeText(fence: Fence, a: string, d: string, b: string)
    requires forall m :: 0 <= m < |a| ==> !IsDigit(a[m])
    requires 4 <= |d| <= 8 && AllDigits(d)
    requires |a| == 0 || !Fenced(fence, a[|a| - 1])
    requires |b| == 0 || !Fenced(fence, b[0])
    ensures FirstCode(fence, a + d + b) == Some(d)
  {
    var s := a + d + b;
    assert s[|a|..|a| + |d|] == d;
    assert DigitsBetween(s, |a|, |a| + |d|) by {
      forall m | |a| <= m < |a| + |d| ensures IsDigit(s[m]) {
        assert s[m] == d[m - |a|];
      }
    }
    assert |a| > 0 ==> s[|a| - 1] == a[|a| - 1];
    assert |b| > 0 ==> s[|a| + |d|] == b[0];
    RunLengthUnique(s, |a|, |d|);
    RunIsCode(fence, s, |a|);
    assert NoCodeBefore(fence, s, |a|) by {
      forall j, k | 0 <= j < |a| ensures !CodeAt(fence, s, j, k) {
        assert s[j] == a[j];
      }
    }
    LeftmostIsFirstCode(fence, s, |a|, |d|);
  }

  /** The leftmost match is what the search returns. */
  lemma LeftmostIsFirstCode(fence: Fence, s: string, i: int, k: int)
    requires LeftmostCodeAt(fence, s, i, k)
    ensures FirstCode(fence, s) == Some(s[i..i + k])
  {
    var r := FirstCode(fence, s);
    var i' :| LeftmostCodeAt(fence, s, i', |r.value|) && r.value == s[i'..i' + |r.value|];
    LeftmostUnique(fence, s, i, k, i', |r.value|);
  }

  /** A digit run longer than eight, between digit-free texts, yields no code at all. */
  lemma {:induction false} LongRunHasNoCode(fence: Fence, a: string, d: string, b: string)
    requires forall m :: 0 <= m < |a| ==> !IsDigit(a[m])
    requires forall m :: 0 <= m < |b| ==> !IsDigit(b[m])
    requires |d| > 8 && AllDigits(d)
    ensures FirstCode(fence, a + d + b) == None
  {
    var s := a + d + b;
    assert forall m :: |a| <= m < |a| + |d| ==> s[m] == d[m - |a|];
    assert |b| > 0 ==> s[|a| + |d|] == b[0];
    RunLengthUnique(s, |a|, |d|);
    forall j, k | CodeAt(fence, s, j, k) ensures false {
      CodeIsWholeRun(fence, s, j, k);
    }
  }

  /**
   The only digit run of the text, glued to a letter (or `_`) on its left, is no
   word-bounded code.
   */
  lemma {:induction false} GluedRunHasNoWordCode(a: string, d: string, b: string)
    requires forall m :: 0 <= m < |a| ==> !IsDigit(a[m])
    requires forall m :: 0 <= m < |b| ==> !IsDigit(b[m])
    requires |a| > 0 && IsWordChar(a[|a| - 1]) && AllDigits(d)
    ensures FirstCode(WordFence, a + d + b) == None
  {
    var s := a + d + b;
    forall j, k ensures !CodeAt(WordFence, s, j, k) {
      GluedRunNotAt(a, d, b, j, k);
    }
  }

  lemma GluedRunNotAt(a: string, d: string, b: string, j: int, k: int)
    requires forall m :: 0 <= m < |a| ==> !IsDigit(a[m])
    requires forall m :: 0 <= m < |b| ==> !IsDigit(b[m])
    requires |a| > 0 && IsWordChar(a[|a| - 1]) && AllDigits(d)
    ensures !CodeAt(WordFence, a + d + b, j, k)
  {
    var s := a + d + b;
    if j < 0 || j >= |s| {
    } else if j < |a| {
      assert s[j] == a[j];
    } else if j >= |a| + |d| {
      assert s[j] == b[j - |a| - |d|];
    } else if j == |a| {
      assert s[j - 1] == a[|a| - 1];
    } else {
      assert s[j - 1] == d[j - 1 - |a|];
    }
  }
}
