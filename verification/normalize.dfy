/**
 The string helpers of src/utils/normalize.js: `normalizePhone`, which strips
 whitespace and phone punctuation, and the lookaround `extractOtp`, which only
 requires that no digit touch the code. `toIso` is not modelled here; the message
 parser takes it as a parameter.
 */
module Normalize {
  import opened Optional
  import opened Text
  import opened Seqs
  import Otp
  import Classify

  /** Characters `normalizePhone` removes: `\s`, then `(`, `)`, `-` and the no-break space. */
  predicate Dropped(c: char) {
    IsSpace(c) || c == '(' || c == ')' || c == '-' || c == '\U{00A0}'
  }

  predicate NotSpace(c: char) {
    !IsSpace(c)
  }

  predicate NotPunctuation(c: char) {
    !(c == '(' || c == ')' || c == '-' || c == '\U{00A0}')
  }

  predicate Kept(c: char) {
    !Dropped(c)
  }

  /**
   `normalizePhone`: `None` and "" (the falsy inputs) give "", anything else has its
   whitespace removed (`/\s+/g`) and then its punctuation (`/[()\-\u00A0]/g`).
   */
  function NormalizePhone(s: Option<string>): (r: string)
    ensures s.None? || s.value == [] ==> r == []
    ensures forall k :: 0 <= k < |r| ==> !Dropped(r[k])
  {
    match s
    case None => []
    case Some(t) => Filter(Filter(t, NotSpace), NotPunctuation)
  }

  /** The two replacements act as one filter: exactly the dropped characters go, the rest stay in order. */
  lemma NormalizeIsOneFilter(t: string)
    ensures NormalizePhone(Some(t)) == Filter(t, Kept)
  {
    FilterTwice(t, NotSpace, NotPunctuation, Kept);
  }

  /**
   So the result is a subsequence of the input that keeps every character not dropped,
   as many times as it occurs: "55" stays "55".
   */
  lemma NormalizeKeepsTheRest(t: string)
    ensures IsSubsequence(NormalizePhone(Some(t)), t)
    ensures |NormalizePhone(Some(t))| <= |t|
    ensures forall k :: 0 <= k < |t| && !Dropped(t[k]) ==> t[k] in NormalizePhone(Some(t))
    ensures forall c :: multiset(NormalizePhone(Some(t)))[c] == if Dropped(c) then 0 else multiset(t)[c]
  {
    NormalizeIsOneFilter(t);
    FilterIsSubsequence(t, Kept);
  }

  /** Normalising a normalised number changes nothing. */
  lemma NormalizeIdempotent(s: Option<string>)
    ensures NormalizePhone(Some(NormalizePhone(s))) == NormalizePhone(s)
  {
    var r := NormalizePhone(s);
    NormalizeIsOneFilter(r);
    FilterKeepsAll(r, Kept);
  }

  /**
   normalize.js `extractOtp`: null for a falsy input, otherwise the first match of
   `(?<!\d)\d{4,8}(?!\d)`.
   */
  function ExtractOtp(text: Option<string>): (r: Option<string>)
    ensures text.None? || text.value == [] ==> r.None?
    ensures text.Some? ==> (r.None? <==> forall i, k :: !Otp.IsolatedCodeAt(text.value, i, k))
    ensures r.Some? ==> exists i :: Otp.LeftmostCodeAt(Otp.DigitFence, text.value, i, |r.value|) && r.value == text.value[i..i + |r.value|]
    ensures r.Some? ==> 4 <= |r.value| <= 8 && AllDigits(r.value)
  {
    match text
    case None => None
    case Some(t) =>
      if t == [] then None
      else
        var r := Otp.FirstCode(Otp.DigitFence, t);
        assert forall i, k :: Otp.CodeAt(Otp.DigitFence, t, i, k) == Otp.IsolatedCodeAt(t, i, k);
        assert r.Some? ==> 4 <= |r.value| <= 8 && AllDigits(r.value) by {
          if r.Some? {
            var i :| Otp.LeftmostCodeAt(Otp.DigitFence, t, i, |r.value|) && r.value == t[i..i + |r.value|];
            assert forall m :: 0 <= m < |r.value| ==> r.value[m] == t[i + m];
          }
        }
        r
  }

  /** Whenever the word-bounded search finds a code, the lookaround search finds one too. */
  lemma WordCodeImpliesLookaroundCode(t: string)
    requires Classify.ExtractOtp(t).Some?
    ensures ExtractOtp(Some(t)).Some?
  {
    var w := Classify.ExtractOtp(t).value;
    var i :| Otp.LeftmostCodeAt(Otp.WordFence, t, i, |w|) && w == t[i..i + |w|];
    Otp.WordCodeIsIsolated(t, i, |w|);
  }

  /** Without letters or `_` in the text, the two searches return the same code. */
  lemma SearchesAgreeWithoutLetters(t: string)
    requires forall c :: c in t && IsWordChar(c) ==> IsDigit(c)
    ensures ExtractOtp(Some(t)) == Classify.ExtractOtp(t)
  {
    Otp.FirstCodeAgreesWithoutLetters(t);
  }

  /** Digits glued to letters: "code12345" is a code for the lookaround search and none for the word-bounded one. */
  lemma GluedCodeDisagreement()
    ensures ExtractOtp(Some("code12345")) == Some("12345")
    ensures Classify.ExtractOtp("code12345") == None
  {
    var a, d, b := "code", "12345", "";
    assert a + d + b == "code12345";
    Otp.CodeAfterDigitFreeText(Otp.DigitFence, a, d, b);
    Otp.GluedRunHasNoWordCode(a, d, b);
  }
}
