/**
 The message page parser of src/providers/sms24.js (`parseMessages`). Element lookups
 are given as records of the strings the selectors yield; the clock and `toIso` are
 parameters; the `From:` cut of the legacy layout is a parameter too.

 Two passes: the primary `dl` layout, and, only when that yields nothing, the legacy
 container layout. The candidates are then deduplicated on `text|time` (first
 occurrence wins) and cut to fifty.
 */
module Messages {
  import opened Optional
  import opened Text
  import opened Seqs
  import Classify

  /** What `toIso` is given: a timestamp string read from the page, or a `Date.now()` reading in milliseconds. */
  datatype TimeSource = Stamp(raw: string) | Clock(ms: int)

  /** `msg-<i>` for the i-th `dl`; `fb-<now>-<i>` for the i-th legacy element (its clock part is not modelled). */
  datatype MessageId = Primary(index: nat) | Fallback(index: nat)

  datatype Message = Message(id: MessageId, from: string, text: string, otp: Option<string>, time: string)

  /**
   One `dl` of the primary layout as its selectors see it. An attribute is `None` when
   no element carries it; a text is "" when nothing matches (cheerio's `.text()` of an
   empty selection). `clockMs` is what `Date.now()` reads while this `dl` is handled.
   */
  datatype DefinitionList = DefinitionList(
    createdAttr: Option<string>,   // `dt div[data-created]`, attribute `data-created`
    datetimeAttr: Option<string>,  // `dt time`, attribute `datetime`
    dtDivText: string,             // first `dt div`
    labelLinkText: string,         // first `dd label a`
    labelText: string,             // first `dd label`
    strongText: string,            // first `dd strong`
    spanText: string,              // first `dd span.text-break`
    paragraphText: string,         // first `dd p`
    ddText: string,                // every `dd`, concatenated
    clockMs: int)

  /** One element of the legacy layouts (`.list-group-item, .sms-item, ...`) as its selectors see it. */
  datatype LegacyItem = LegacyItem(
    senderText: string,  // first `.from,.sender,.name`
    boldText: string,    // first `strong,b`
    bodyText: string,    // first `.body,.text,.message-text,p`
    wholeText: string,   // the element's own text
    timeText: string,    // first `.time,.date,.created`
    clockMs: int)

  /** An attribute read: absent and empty are both falsy, so both read as "". */
  function Attr(a: Option<string>): string {
    a.GetOr([])
  }

  /** No whitespace at either end, as every `.trim()` result. */
  predicate Trimmed(s: string) {
    |s| == 0 || (!IsSpace(s[0]) && !IsSpace(s[|s| - 1]))
  }

  /** The first trimmed text that is not blank, or "" (the `x.trim() || y.trim() || z.trim()` chains). */
  function FirstTrimmed(a: string, b: string, c: string): (r: string)
    ensures r == [] <==> AllSpace(a) && AllSpace(b) && AllSpace(c)
    ensures !AllSpace(a) ==> r == Trim(a)
    ensures AllSpace(a) && !AllSpace(b) ==> r == Trim(b)
    ensures AllSpace(a) && AllSpace(b) ==> r == Trim(c)
    ensures Trimmed(r)
  {
    TrimEmptyIffBlank(a);
    TrimEmptyIffBlank(b);
    TrimEmptyIffBlank(c);
    Or(Trim(a), Or(Trim(b), Trim(c)))
  }

  /** The primary time chain: `data-created`, then `datetime`, then the first `dt div` text, then the clock. */
  function PrimaryTime(dl: DefinitionList): (r: TimeSource)
    ensures Attr(dl.createdAttr) != [] ==> r == Stamp(dl.createdAttr.value)
    ensures Attr(dl.createdAttr) == [] && Attr(dl.datetimeAttr) != [] ==> r == Stamp(dl.datetimeAttr.value)
    ensures Attr(dl.createdAttr) == [] && Attr(dl.datetimeAttr) == [] && !AllSpace(dl.dtDivText) ==> r == Stamp(Trim(dl.dtDivText))
    ensures r.Clock? <==> Attr(dl.createdAttr) == [] && Attr(dl.datetimeAttr) == [] && AllSpace(dl.dtDivText)
    ensures r.Clock? ==> r.ms == dl.clockMs
    ensures r.Stamp? ==> r.raw != []
  {
    TrimEmptyIffBlank(dl.dtDivText);
    var s := Or(Attr(dl.createdAttr), Or(Attr(dl.datetimeAttr), Trim(dl.dtDivText)));
    if s == [] then Clock(dl.clockMs) else Stamp(s)
  }

  /** The primary sender chain: `dd label a`, then `dd label`, then `dd strong`. */
  function PrimarySender(dl: DefinitionList): (r: string)
    ensures r == [] <==> AllSpace(dl.labelLinkText) && AllSpace(dl.labelText) && AllSpace(dl.strongText)
    ensures Trimmed(r)
  {
    FirstTrimmed(dl.labelLinkText, dl.labelText, dl.strongText)
  }

  /** Every place the primary body is looked for holds only whitespace. */
  predicate BlankBody(dl: DefinitionList) {
    AllSpace(dl.spanText) && AllSpace(dl.paragraphText) && AllSpace(dl.ddText)
  }

  /** The primary body chain: `dd span.text-break`, then `dd p`, then all of `dd`. */
  function PrimaryText(dl: DefinitionList): (r: string)
    ensures r == [] <==> BlankBody(dl)
    ensures Trimmed(r)
  {
    FirstTrimmed(dl.spanText, dl.paragraphText, dl.ddText)
  }

  /**
   The message the i-th `dl` yields: none when its body is blank, otherwise one with
   a cleaned sender and the word-bounded code. The noise filter is not applied here.
   */
  function PrimaryMessage(dl: DefinitionList, i: nat, iso: TimeSource -> string): (r: Option<Message>)
    ensures r.None? <==> BlankBody(dl)
    ensures r.Some? ==> && r.value.id == Primary(i)
                        && r.value.text == PrimaryText(dl) && r.value.text != [] && Trimmed(r.value.text)
                        && r.value.from == Classify.CleanFrom(PrimarySender(dl))
                        && r.value.otp == Classify.ExtractOtp(r.value.text)
                        && r.value.time == iso(PrimaryTime(dl))
  {
    var text := PrimaryText(dl);
    if text == [] then None
    else Some(Message(Primary(i), Classify.CleanFrom(PrimarySender(dl)), text, Classify.ExtractOtp(text), iso(PrimaryTime(dl))))
  }

  /** What every parsed message satisfies: a non-empty trimmed text and a non-empty sender. */
  predicate WellFormed(m: Message) {
    m.text != [] && Trimmed(m.text) && m.from != []
  }

  /** Message ids appear in strictly increasing element order. */
  predicate IncreasingIds(ms: seq<Message>) {
    forall a, b :: 0 <= a < b < |ms| ==> ms[a].id.index < ms[b].id.index
  }

  /**
   The messages that `f` yields for the elements of `xs`, in element order, where
   `f(x, j)` is the message (if any) of the j-th element and carries `j` in its id.
   */
  function Collect<T>(xs: seq<T>, f: (T, nat) -> Option<Message>): (r: seq<Message>)
    requires forall j :: 0 <= j < |xs| && f(xs[j], j).Some? ==> f(xs[j], j).value.id.index == j
    ensures forall k :: 0 <= k < |r| ==> r[k].id.index < |xs| && f(xs[r[k].id.index], r[k].id.index) == Some(r[k])
    ensures forall j :: 0 <= j < |xs| && f(xs[j], j).Some? ==> f(xs[j], j).value in r
    ensures IncreasingIds(r)
    decreases |xs|
  {
    if |xs| == 0 then []
    else
      var n := |xs| - 1;
      var rest := Collect(xs[..n], f);
      assert forall j :: 0 <= j < n ==> xs[..n][j] == xs[j];
      match f(xs[n], n)
      case None => rest
      case Some(m) => rest + [m]
  }

  /** The primary pass over the `dl` elements in document order. */
  function PrimaryPass(dls: seq<DefinitionList>, iso: TimeSource -> string): (r: seq<Message>)
    ensures forall k :: 0 <= k < |r| ==>
      && r[k].id.Primary? && r[k].id.index < |dls|
      && PrimaryMessage(dls[r[k].id.index], r[k].id.index, iso) == Some(r[k])
      && WellFormed(r[k])
    ensures forall j :: 0 <= j < |dls| && PrimaryMessage(dls[j], j, iso).Some? ==> PrimaryMessage(dls[j], j, iso).value in r
    ensures IncreasingIds(r)
  {
    Collect(dls, (dl, j) => PrimaryMessage(dl, j, iso))
  }

  /**
   The legacy sender: `.from` text, else `strong` text, each untrimmed, then cleaned.
   The trailing `|| 'unknown'` of the source never fires: `CleanFrom` is never empty.
   */
  function FallbackSender(item: LegacyItem): (r: string)
    ensures r != [] && !Classify.IsBarePhone(r)
    ensures item.senderText != [] ==> r == Classify.CleanFrom(item.senderText)
    ensures item.senderText == [] ==> r == Classify.CleanFrom(item.boldText)
  {
    Classify.CleanFrom(Or(item.senderText, item.boldText))
  }

  /**
   The legacy body: the trimmed body text, else the trimmed element text; then, when
   the `From:` cut yields a non-empty trailing group, that group trimmed.
   */
  function FallbackText(item: LegacyItem, cutFrom: string -> Option<string>): (r: string)
    ensures Trimmed(r)
    ensures var t := FirstTrimmed(item.bodyText, item.wholeText, []);
      && (cutFrom(t).None? || cutFrom(t).value == [] ==> r == t)
      && (cutFrom(t).Some? && cutFrom(t).value != [] ==> r == Trim(cutFrom(t).value))
  {
    var t := FirstTrimmed(item.bodyText, item.wholeText, []);
    match cutFrom(t)
    case Some(tail) =>
      if tail != [] then Trim(tail) else t
    case None => t
  }

  /** The legacy time: the trimmed `.time` text, else the clock. */
  function FallbackTime(item: LegacyItem): (r: TimeSource)
    ensures r.Clock? <==> AllSpace(item.timeText)
    ensures r.Stamp? ==> r.raw == Trim(item.timeText) && r.raw != []
    ensures r.Clock? ==> r.ms == item.clockMs
  {
    TrimEmptyIffBlank(item.timeText);
    var t := Trim(item.timeText);
    if t != [] then Stamp(t) else Clock(item.clockMs)
  }

  /** The message the i-th legacy element yields: none when its body is empty or noise. */
  function FallbackMessage(item: LegacyItem, i: nat, iso: TimeSource -> string, cutFrom: string -> Option<string>): (r: Option<Message>)
    ensures var text := FallbackText(item, cutFrom);
      r.None? <==> text == [] || Classify.IsLikelyNoise(text)
    ensures r.Some? ==> && r.value.id == Fallback(i)
                        && r.value.text == FallbackText(item, cutFrom) && r.value.text != [] && Trimmed(r.value.text)
                        && !Classify.IsLikelyNoise(r.value.text)
                        && r.value.from == FallbackSender(item)
                        && r.value.otp == Classify.ExtractOtp(r.value.text)
                        && r.value.time == iso(FallbackTime(item))
  {
    var text := FallbackText(item, cutFrom);
    if text == [] || Classify.IsLikelyNoise(text) then None
    else Some(Message(Fallback(i), FallbackSender(item), text, Classify.ExtractOtp(text), iso(FallbackTime(item))))
  }

  /** The legacy pass over the container elements in document order. */
  function FallbackPass(items: seq<LegacyItem>, iso: TimeSource -> string, cutFrom: string -> Option<string>): (r: seq<Message>)
    ensures forall k :: 0 <= k < |r| ==>
      && r[k].id.Fallback? && r[k].id.index < |items|
      && FallbackMessage(items[r[k].id.index], r[k].id.index, iso, cutFrom) == Some(r[k])
      && WellFormed(r[k]) && !Classify.IsLikelyNoise(r[k].text)
    ensures forall j :: 0 <= j < |items| && FallbackMessage(items[j], j, iso, cutFrom).Some? ==>
      FallbackMessage(items[j], j, iso, cutFrom).value in r
    ensures IncreasingIds(r)
  {
    Collect(items, (item, j) => FallbackMessage(item, j, iso, cutFrom))
  }

  /** Some `dl` has a non-blank body, so the primary pass yields a message. */
  predicate PrimaryHasText(dls: seq<DefinitionList>) {
    exists j :: 0 <= j < |dls| && !BlankBody(dls[j])
  }

  /** The candidates before deduplication: the primary pass, or the legacy pass when that is empty. */
  function Candidates(dls: seq<DefinitionList>, items: seq<LegacyItem>, iso: TimeSource -> string, cutFrom: string -> Option<string>): (r: seq<Message>)
    ensures PrimaryHasText(dls) ==> forall k :: 0 <= k < |r| ==> r[k].id.Primary? && WellFormed(r[k])
    ensures !PrimaryHasText(dls) ==> forall k :: 0 <= k < |r| ==> r[k].id.Fallback? && WellFormed(r[k]) && !Classify.IsLikelyNoise(r[k].text)
    ensures forall k :: 0 <= k < |r| ==> WellFormed(r[k])
  {
    var primary := PrimaryPass(dls, iso);
    if |primary| == 0 then
      assert !PrimaryHasText(dls) by {
        forall j | 0 <= j < |dls| ensures BlankBody(dls[j]) {
          if !BlankBody(dls[j]) {
            assert false;
          }
        }
      }
      FallbackPass(items, iso, cutFrom)
    else
      var j := primary[0].id.index;
      assert PrimaryMessage(dls[j], j, iso).Some?;
      primary
  }

  /** Which pass the candidates come from, as the source chooses it. */
  lemma CandidatesChoosePass(dls: seq<DefinitionList>, items: seq<LegacyItem>, iso: TimeSource -> string, cutFrom: string -> Option<string>)
    ensures PrimaryHasText(dls) ==> Candidates(dls, items, iso, cutFrom) == PrimaryPass(dls, iso)
    ensures !PrimaryHasText(dls) ==> Candidates(dls, items, iso, cutFrom) == FallbackPass(items, iso, cutFrom)
  {
    var primary := PrimaryPass(dls, iso);
    if |primary| > 0 {
      var j := primary[0].id.index;
      assert PrimaryMessage(dls[j], j, iso).Some?;
    }
  }

  /** Messages returned per page. */
  const MaxMessages := 50

  /** The deduplication key `${text}|${time}`. */
  function Key(m: Message): string {
    m.text + "|" + m.time
  }

  /** The first fifty messages of distinct key, each the first carrying its key. */
  function FirstDistinct(ms: seq<Message>): (r: seq<Message>)
    ensures |r| <= MaxMessages
    ensures |r| <= |Dedup(ms, Key)| && r == Dedup(ms, Key)[..|r|]
    ensures IsSubsequence(r, ms)
    ensures DistinctKeys(r, Key)
    ensures forall k :: 0 <= k < |r| ==> Key(r[k]) in KeySet(ms, Key) && r[k] == FirstWithKey(ms, Key, Key(r[k]))
    ensures |r| < MaxMessages ==> KeySet(r, Key) == KeySet(ms, Key)
  {
    DedupThenTake(ms, Key, MaxMessages);
    Take(Dedup(ms, Key), MaxMessages)
  }

  /** Up to fifty messages of distinct key are all kept, in their order. */
  lemma FewDistinctKept(ms: seq<Message>)
    requires DistinctKeys(ms, Key) && |ms| <= MaxMessages
    ensures FirstDistinct(ms) == ms
  {
    DedupFromDistinct(ms, Key, {});
  }

  /** Beyond fifty messages of distinct key, exactly the first fifty are kept. */
  lemma ManyDistinctCut(ms: seq<Message>)
    requires DistinctKeys(ms, Key) && |ms| > MaxMessages
    ensures FirstDistinct(ms) == ms[..MaxMessages]
  {
    DedupFromDistinct(ms, Key, {});
  }

  /**
   `parseMessages`: at most fifty messages of distinct key, all from the primary layout
   or all from the legacy one (the primary one whenever some `dl` has a body), each
   with a non-empty trimmed text and a non-empty sender; fewer than fifty only when
   every candidate key is represented.
   */
  function ParseMessages(dls: seq<DefinitionList>, items: seq<LegacyItem>, iso: TimeSource -> string, cutFrom: string -> Option<string>): (r: seq<Message>)
    ensures |r| <= MaxMessages && DistinctKeys(r, Key)
    ensures forall k :: 0 <= k < |r| ==> WellFormed(r[k])
    ensures IsSubsequence(r, Candidates(dls, items, iso, cutFrom))
    ensures |r| < MaxMessages ==> KeySet(r, Key) == KeySet(Candidates(dls, items, iso, cutFrom), Key)
  {
    var ms := Candidates(dls, items, iso, cutFrom);
    var r := FirstDistinct(ms);
    SubsequenceKeeps(r, ms, WellFormed);
    r
  }

  /** The parse is the first fifty distinct messages of the pass the candidates come from. */
  lemma ParseOfPass(dls: seq<DefinitionList>, items: seq<LegacyItem>, iso: TimeSource -> string, cutFrom: string -> Option<string>)
    ensures PrimaryHasText(dls) ==> ParseMessages(dls, items, iso, cutFrom) == FirstDistinct(PrimaryPass(dls, iso))
    ensures !PrimaryHasText(dls) ==> ParseMessages(dls, items, iso, cutFrom) == FirstDistinct(FallbackPass(items, iso, cutFrom))
  {
    CandidatesChoosePass(dls, items, iso, cutFrom);
  }

  /**
   When some `dl` has a body, the result is the first fifty distinct messages of the
   primary pass, drawn from it alone.
   */
  lemma ParsePrefersPrimary(dls: seq<DefinitionList>, items: seq<LegacyItem>, iso: TimeSource -> string, cutFrom: string -> Option<string>)
    requires PrimaryHasText(dls)
    ensures ParseMessages(dls, items, iso, cutFrom) == FirstDistinct(PrimaryPass(dls, iso))
    ensures var r := ParseMessages(dls, items, iso, cutFrom);
      && IsSubsequence(r, PrimaryPass(dls, iso))
      && forall k :: 0 <= k < |r| ==> r[k].id.Primary?
  {
    ParseOfPass(dls, items, iso, cutFrom);
    var p := PrimaryPass(dls, iso);
    var r := FirstDistinct(p);
    assert forall k :: 0 <= k < |p| ==> p[k].id.Primary?;
    SubsequenceKeeps(r, p, (m: Message) => m.id.Primary?);
  }

  /**
   Otherwise it is the first fifty distinct messages of the legacy pass, drawn from
   it alone, and none of them is noise.
   */
  lemma ParseFallsBack(dls: seq<DefinitionList>, items: seq<LegacyItem>, iso: TimeSource -> string, cutFrom: string -> Option<string>)
    requires !PrimaryHasText(dls)
    ensures ParseMessages(dls, items, iso, cutFrom) == FirstDistinct(FallbackPass(items, iso, cutFrom))
    ensures var r := ParseMessages(dls, items, iso, cutFrom);
      && IsSubsequence(r, FallbackPass(items, iso, cutFrom))
      && forall k :: 0 <= k < |r| ==> r[k].id.Fallback?
  {
    var ms := Candidates(dls, items, iso, cutFrom);
    CandidatesChoosePass(dls, items, iso, cutFrom);
    SubsequenceKeeps(FirstDistinct(ms), ms, (m: Message) => m.id.Fallback?);
  }

  /** The two layouts never mix in one result. */
  lemma ParseNeverMixes(dls: seq<DefinitionList>, items: seq<LegacyItem>, iso: TimeSource -> string, cutFrom: string -> Option<string>)
    ensures var r := ParseMessages(dls, items, iso, cutFrom);
      (forall k :: 0 <= k < |r| ==> r[k].id.Primary?) || (forall k :: 0 <= k < |r| ==> r[k].id.Fallback?)
  {
    if PrimaryHasText(dls) {
      ParsePrefersPrimary(dls, items, iso, cutFrom);
    } else {
      ParseFallsBack(dls, items, iso, cutFrom);
    }
  }

  /** The part of `w` after its last `c` (all of `w` when there is none). */
  function AfterLast(w: string, c: char): (r: string)
    ensures c !in r
    decreases |w|
  {
    if |w| == 0 || w[|w| - 1] == c then []
    else AfterLast(w[..|w| - 1], c) + [w[|w| - 1]]
  }

  /** Joining with a separator that the right part lacks can be undone from the right. */
  lemma {:induction false} AfterLastOfJoin(t: string, c: char, u: string)
    requires c !in u
    ensures AfterLast(t + [c] + u, c) == u
    decreases |u|
  {
    var w := t + [c] + u;
    if |u| > 0 {
      var u' := u[..|u| - 1];
      assert w[..|w| - 1] == t + [c] + u';
      AfterLastOfJoin(t, c, u');
      assert u == u' + [u[|u| - 1]];
    }
  }

  /**
   The key separates text from time: two keys agree only if texts and times agree,
   provided neither time contains `|` (an ISO timestamp never does).
   */
  lemma KeyInjective(m: Message, n: Message)
    requires '|' !in m.time && '|' !in n.time
    ensures Key(m) == Key(n) <==> m.text == n.text && m.time == n.time
  {
    if Key(m) == Key(n) {
      AfterLastOfJoin(m.text, '|', m.time);
      AfterLastOfJoin(n.text, '|', n.time);
      assert m.text == Key(m)[..|m.text|];
      assert n.text == Key(n)[..|n.text|];
    }
  }

  /**
   A `.from` element holding only whitespace is truthy, so it shadows the `strong`
   fallback, and cleaning it leaves "unknown" whatever the `strong` text says.
   */
  lemma BlankSenderShadowsBold(item: LegacyItem)
    requires item.senderText != [] && AllSpace(item.senderText)
    ensures FallbackSender(item) == Classify.Unknown
  {
  }

  /** A legacy element whose text mentions the site's brand yields no message. */
  lemma FallbackDropsBrand(item: LegacyItem, i: nat, iso: TimeSource -> string, cutFrom: string -> Option<string>)
    requires ContainsIgnoringCase(FallbackText(item, cutFrom), "sms24")
    ensures FallbackMessage(item, i, iso, cutFrom) == None
  {
    Classify.BrandIsNoise(FallbackText(item, cutFrom));
  }

  /**
   The same text in a `dl` is kept: the primary layout applies no noise filter, so a
   primary message may be text the legacy pass would drop as noise.
   */
  lemma PrimaryKeepsBrand(dl: DefinitionList, i: nat, iso: TimeSource -> string)
    requires ContainsIgnoringCase(PrimaryText(dl), "sms24")
    ensures PrimaryMessage(dl, i, iso).Some?
    ensures PrimaryMessage(dl, i, iso).value.text == PrimaryText(dl)
    ensures Classify.IsLikelyNoise(PrimaryMessage(dl, i, iso).value.text)
  {
    Classify.BrandIsNoise(PrimaryText(dl));
  }
}
