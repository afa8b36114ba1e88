/**
 The content classifiers of src/providers/sms24.js: the word-bounded `extractOtp`
 that the message parser calls, sender clean-up (`cleanFrom`) and the boilerplate
 filter of the fallback layout (`isLikelyNoise`).
 */
module Classify {
  import opened Optional
  import opened Text
  import Otp

  /** sms24.js `extractOtp`: the first match of `\b\d{4,8}\b`, or null. */
  function ExtractOtp(text: string): (r: Option<string>)
    ensures r.None? <==> forall i, k :: !Otp.WordCodeAt(text, i, k)
    ensures r.Some? ==> exists i :: Otp.LeftmostCodeAt(Otp.WordFence, text, i, |r.value|) && r.value == text[i..i + |r.value|]
    ensures r.Some? ==> 4 <= |r.value| <= 8 && AllDigits(r.value)
    ensures r.Some? ==> exists i :: Isolated(text, r.value, i)
  {
    var r := Otp.FirstCode(Otp.WordFence, text);
    assert forall i, k :: Otp.CodeAt(Otp.WordFence, text, i, k) == Otp.WordCodeAt(text, i, k);
    assert r.Some? ==> exists i :: Isolated(text, r.value, i) by {
      if r.Some? {
        var i :| Otp.LeftmostCodeAt(Otp.WordFence, text, i, |r.value|) && r.value == text[i..i + |r.value|];
        Otp.CodeIsWholeRun(Otp.WordFence, text, i, |r.value|);
        assert Isolated(text, r.value, i);
      }
    }
    r
  }

  /** `code` occurs in `text` at `i` and neither neighbour is a letter, digit or `_`. */
  predicate Isolated(text: string, code: string, i: int) {
    && OccursAt(text, code, i)
    && (i == 0 || !IsWordChar(text[i - 1]))
    && (i + |code| == |text| || !IsWordChar(text[i + |code|]))
  }

  /** Example: in "Your code is 48213, expires soon" the code 48213 is found. */
  lemma ExtractOtpFindsCode()
    ensures ExtractOtp("Your code is 48213, expires soon") == Some("48213")
  {
    var a, d, b := "Your code is ", "48213", ", expires soon";
    assert a + d + b == "Your code is 48213, expires soon";
    Otp.CodeAfterDigitFreeText(Otp.WordFence, a, d, b);
  }

  /** Example: "order #12345678901" has no code, its eleven-digit run is too long. */
  lemma ExtractOtpRejectsLongRun()
    ensures ExtractOtp("order #12345678901") == None
  {
    var a, d, b := "order #", "12345678901", "";
    assert a + d + b == "order #12345678901";
    Otp.LongRunHasNoCode(Otp.WordFence, a, d, b);
  }

  const Unknown: string := "unknown"

  // The regular expression `^From:\s*` (case-insensitive) consumed exactly `p`:
  // the label in any case, then whitespace only.
  predicate IsFromLabel(p: string) {
    |p| >= 5 && Lower(p[..5]) == "from:" && AllSpace(p[5..])
  }

  /** `/^\+\d+$/`: a plus sign followed by one or more digits and nothing else. */
  predicate IsBarePhone(s: string) {
    |s| >= 2 && s[0] == '+' && DigitsBetween(s, 1, |s|)
  }

  // `.replace(/^From:\s*/i, '')`: drops one leading label and the whitespace after it.
  function StripFromLabel(f: string): (r: string)
    ensures |r| <= |f| && r == f[|f| - |r|..]
    ensures |r| == |f| || IsFromLabel(f[..|f| - |r|])
    ensures |r| < |f| <==> |f| >= 5 && Lower(f[..5]) == "from:"
    ensures |r| < |f| ==> |r| == 0 || !IsSpace(r[0])
  {
    if |f| >= 5 && Lower(f[..5]) == "from:" then
      var rest := TrimStart(f[5..]);
      assert f[..|f| - |rest|][5..] == f[5..][..|f[5..]| - |rest|];
      rest
    else
      f
  }

  /**
   sms24.js `cleanFrom`: trim, strip one leading `From:` label, and replace a bare
   phone number or an empty result by "unknown".
   */
  function CleanFrom(raw: string): (r: string)
    ensures r != []
    ensures !IsBarePhone(r)
    ensures AllSpace(raw) ==> r == Unknown
    ensures r != Unknown ==>
      var f := Trim(raw);
      && |r| <= |f| && r == f[|f| - |r|..]
      && (|r| == |f| || IsFromLabel(f[..|f| - |r|]))
      && !IsSpace(r[0]) && !IsSpace(r[|r| - 1])
    ensures var f := Trim(raw);
      f != [] && !(|f| >= 5 && Lower(f[..5]) == "from:") && !IsBarePhone(f) ==> r == f
    ensures var f := Trim(raw);
      |f| >= 5 && Lower(f[..5]) == "from:" ==> r == Unknown || (|r| < |f| && IsFromLabel(f[..|f| - |r|]))
    ensures var g := StripFromLabel(Trim(raw));
      Trim(raw) != [] ==> r == (if g == [] || IsBarePhone(g) then Unknown else g)
  {
    var f := Trim(raw);
    TrimEmptyIffBlank(raw);
    if f == [] then Unknown
    else
      var g := StripFromLabel(f);
      assert |g| > 0 ==> g[|g| - 1] == f[|f| - 1];
      if g == [] || IsBarePhone(g) then Unknown else g
  }

  /** A sender that is only a phone number, once trimmed, is reported as unknown. */
  lemma BarePhoneSenderIsUnknown(raw: string)
    requires IsBarePhone(Trim(raw))
    ensures CleanFrom(raw) == Unknown
  {
    var f := Trim(raw);
    if |f| >= 5 {
      assert Lower(f[..5])[0] == LowerChar(f[0]);
    }
  }

  /** A `From: ` label in front of a trimmed name is dropped, leaving the name. */
  lemma {:induction false} LabelledSenderIsName(x: string)
    requires |x| > 0 && !IsSpace(x[0]) && !IsSpace(x[|x| - 1])
    requires !IsBarePhone(x)
    ensures CleanFrom("From: " + x) == x
  {
    var f := "From: " + x;
    assert f[0] == 'F' && f[|f| - 1] == x[|x| - 1];
    TrimOfTrimmed(f);
    LabelIsStripped(x);
  }

  /** A labelled phone number is hidden like a bare one. */
  lemma {:induction false} LabelledPhoneIsUnknown(x: string)
    requires IsBarePhone(x)
    ensures CleanFrom("From: " + x) == Unknown
  {
    var f := "From: " + x;
    assert f[0] == 'F' && f[|f| - 1] == x[|x| - 1];
    TrimOfTrimmed(f);
    LabelIsStripped(x);
  }

  /** The sender example "From: Support" reads as "Support". */
  lemma CleanFromDropsLabel()
    ensures CleanFrom("From: Support") == "Support"
  {
    assert "From: " + "Support" == "From: Support";
    LabelledSenderIsName("Support");
  }

  /** The label and the one space after it are what `StripFromLabel` removes. */
  lemma LabelIsStripped(x: string)
    requires |x| > 0 && !IsSpace(x[0])
    ensures StripFromLabel("From: " + x) == x
  {
    var f := "From: " + x;
    assert f[..5] == "From:";
    LowerOfLabel();
    assert f[5..] == [' '] + x;
    assert TrimStart([' '] + x) == TrimStart(x) by {
      assert ([' '] + x)[1..] == x;
    }
  }

  lemma LowerOfLabel()
    ensures Lower("From:") == "from:"
  {
    var l := Lower("From:");
    assert l[0] == 'f' && l[1] == 'r' && l[2] == 'o' && l[3] == 'm' && l[4] == ':';
  }

  /** The sender example "+12025550123": a bare number is hidden. */
  lemma CleanFromHidesNumber()
    ensures CleanFrom("+12025550123") == Unknown
  {
    var a := "+12025550123";
    TrimOfTrimmed(a);
    assert IsBarePhone(a);
    BarePhoneSenderIsUnknown(a);
  }

  /** Lower-case phrases whose case-insensitive presence marks text as site boilerplate. */
  const NoisePhrases: seq<string> := [
    "sms24", "new number from", "refresh this page",
    "short-term", "shortterm", "rental", "aggregator", "our platform", "pricing model"
  ]

  predicate MentionsBoilerplate(t: string) {
    exists p :: p in NoisePhrases && ContainsIgnoringCase(t, p)
  }

  /** `\+\d{7,}` matches at `p`: a plus sign followed by at least seven digits. */
  predicate PhoneAt(t: string, p: int) {
    0 <= p < |t| && t[p] == '+' && RunLength(t, p + 1) >= 7
  }

  /**
   The number of matches `t.match(/\+\d{7,}/g)` returns from offset `i` on: after a
   match the search resumes behind its greedy digit run.
   */
  function PhoneMatchesFrom(t: string, i: nat): nat
    requires i <= |t|
    decreases |t| - i
  {
    if i == |t| then 0
    else if PhoneAt(t, i) then 1 + PhoneMatchesFrom(t, i + 1 + RunLength(t, i + 1))
    else PhoneMatchesFrom(t, i + 1)
  }

  /** There are phone-shaped matches at offsets `p < q`, both at or after `i`. */
  ghost predicate TwoPhonesFrom(t: string, i: int) {
    exists p, q :: i <= p < q && PhoneAt(t, p) && PhoneAt(t, q)
  }

  /** Counting the global matches finds one iff there is a match at some offset. */
  lemma {:induction false} PhoneMatchesSome(t: string, i: nat)
    requires i <= |t|
    ensures PhoneMatchesFrom(t, i) >= 1 <==> exists p :: i <= p && PhoneAt(t, p)
    decreases |t| - i
  {
    if i < |t| && !PhoneAt(t, i) {
      PhoneMatchesSome(t, i + 1);
      if exists p :: i <= p && PhoneAt(t, p) {
        var p :| i <= p && PhoneAt(t, p);
        assert i + 1 <= p;
      }
    }
  }

  /** No global match starts inside the digits of the previous one. */
  lemma NoPhoneInsideMatch(t: string, i: nat, p: int)
    requires PhoneAt(t, i) && i < p < i + 1 + RunLength(t, i + 1)
    ensures !PhoneAt(t, p)
  {
    assert IsDigit(t[p]);
  }

  /** Counting the global matches finds two iff there are matches at two offsets. */
  lemma {:induction false} PhoneMatchesCount(t: string, i: nat)
    requires i <= |t|
    ensures PhoneMatchesFrom(t, i) >= 2 <==> TwoPhonesFrom(t, i)
    decreases |t| - i
  {
    if i == |t| {
    } else if PhoneAt(t, i) {
      var j := i + 1 + RunLength(t, i + 1);
      assert PhoneMatchesFrom(t, i) == 1 + PhoneMatchesFrom(t, j);
      PhoneMatchesSome(t, j);
      if TwoPhonesFrom(t, i) {
        var p, q :| i <= p < q && PhoneAt(t, p) && PhoneAt(t, q);
        if q < j {
          NoPhoneInsideMatch(t, i, q);
        }
        assert j <= q && PhoneAt(t, q);
      }
      if PhoneMatchesFrom(t, j) >= 1 {
        var q :| j <= q && PhoneAt(t, q);
        assert i <= i < q && PhoneAt(t, i) && PhoneAt(t, q);
      }
    } else {
      PhoneMatchesCount(t, i + 1);
      assert PhoneMatchesFrom(t, i) == PhoneMatchesFrom(t, i + 1);
      if TwoPhonesFrom(t, i) {
        var p, q :| i <= p < q && PhoneAt(t, p) && PhoneAt(t, q);
        assert i + 1 <= p;
      }
    }
  }

  /** Longest trimmed text, in UTF-16 code units, that the length rule tolerates without a code. */
  const MaxCodelessLength := 200

  /** sms24.js `isLikelyNoise`. */
  function IsLikelyNoise(text: string): (r: bool)
    ensures text == [] ==> r
    ensures r <==>
      var t := Trim(text);
      || text == []
      || MentionsBoilerplate(t)
      || (Utf16Length(t) > MaxCodelessLength && forall i, k :: !Otp.WordCodeAt(t, i, k))
      || TwoPhonesFrom(t, 0)
  {
    if text == [] then true
    else
      var t := Trim(text);
      PhoneMatchesCount(t, 0);
      || MentionsBoilerplate(t)
      || (Utf16Length(t) > MaxCodelessLength && ExtractOtp(t).None?)
      || PhoneMatchesFrom(t, 0) >= 2
  }

  /** A case-insensitive occurrence that starts and ends on non-whitespace survives trimming. */
  lemma OccurrenceSurvivesTrim(s: string, p: string, i: int)
    requires OccursAt(Lower(s), p, i) && |p| > 0
    requires !IsSpace(s[i]) && !IsSpace(s[i + |p| - 1])
    ensures OccursAt(Lower(Trim(s)), p, i - TrimOffset(s))
  {
    TrimKeeps(s, i);
    TrimKeeps(s, i + |p| - 1);
    LowerOfTrimSlice(s, i, i + |p|);
    assert Lower(Trim(s))[i - TrimOffset(s)..i + |p| - TrimOffset(s)] == p;
  }

  /** The brand name marks text as noise whatever its case and surrounding whitespace. */
  lemma BrandIsNoise(text: string)
    requires ContainsIgnoringCase(text, "sms24")
    ensures IsLikelyNoise(text)
  {
    var i :| 0 <= i <= |Lower(text)| - 5 && OccursAt(Lower(text), "sms24", i);
    var w := Lower(text)[i..i + 5];
    assert w == "sms24";
    assert LowerChar(text[i]) == w[0] == 's';
    assert LowerChar(text[i + 4]) == w[4] == '4';
    OccurrenceSurvivesTrim(text, "sms24", i);
    assert "sms24" in NoisePhrases;
    assert ContainsIgnoringCase(Trim(text), "sms24");
  }
}
