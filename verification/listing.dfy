/**
 The number listing of src/providers/sms24.js (`getNumbers`): five list pages are
 visited in order; each either fails (navigation or cookie loading threw) or yields
 the anchors that the `a.callout[href*="/en/numbers/"]` selector matched. Each anchor
 with a number in its link becomes a record, a number already seen on this or an
 earlier page is skipped, and the first 300 records are returned.
 */
module Listing {
  import opened Optional
  import opened Text
  import opened Seqs

  const Base := "https://sms24.me"

  /** The path segment that precedes a number's digits in its link. */
  const Marker := "/en/numbers/"

  /** List pages visited, numbered 1 to 5. */
  const ListPages: nat := 5

  /** `out.slice(0, 300)`. */
  const MaxNumbers: nat := 300

  /** Digits the regular expression takes at most. */
  const MaxIdDigits: nat := 15

  /** What the page gives for one matched anchor: its `href`, the flag's `data-flag`, the heading text. */
  datatype Anchor = Anchor(href: Option<string>, flag: Option<string>, heading: string)

  datatype NumberRecord = NumberRecord(
    id: string,
    phone: string,
    display: string,
    provider: string,
    href: string,
    countryCode: Option<string>,
    country: Option<string>)

  /** `/\/en\/numbers\/(\d{7,15})/` can match at `p`: the marker, then at least seven digits. */
  predicate IdAt(href: string, p: int) {
    OccursAt(href, Marker, p) && RunLength(href, p + |Marker|) >= 7
  }

  /** The first offset at or after `i` where the pattern matches. */
  function IdFrom(href: string, i: nat): (r: Option<nat>)
    requires i <= |href|
    ensures r.Some? ==> i <= r.value && IdAt(href, r.value) && forall q :: i <= q < r.value ==> !IdAt(href, q)
    ensures r.None? ==> forall q :: i <= q ==> !IdAt(href, q)
    decreases |href| - i
  {
    if i == |href| then None
    else if IdAt(href, i) then Some(i)
    else IdFrom(href, i + 1)
  }

  /** The leftmost offset where the pattern matches. */
  ghost predicate LeftmostIdAt(href: string, p: int) {
    IdAt(href, p) && forall q :: 0 <= q < p ==> !IdAt(href, q)
  }

  /** What the greedy `\d{7,15}` captures at a match: the digit run after the marker, cut at fifteen. */
  function IdDigits(href: string, p: int): (d: string)
    requires IdAt(href, p)
    ensures 7 <= |d| <= MaxIdDigits && AllDigits(d)
  {
    var start := p + |Marker|;
    var d := href[start..start + Min(RunLength(href, start), MaxIdDigits)];
    assert forall k :: 0 <= k < |d| ==> d[k] == href[start + k];
    d
  }

  /** The digits captured by the first match of `/\/en\/numbers\/(\d{7,15})/`, or `None`. */
  function NumberId(href: string): (r: Option<string>)
    ensures r.None? <==> forall p :: !IdAt(href, p)
    ensures r.Some? ==> exists p :: LeftmostIdAt(href, p) && r.value == IdDigits(href, p)
  {
    match IdFrom(href, 0)
    case None => None
    case Some(p) =>
      assert LeftmostIdAt(href, p);
      Some(IdDigits(href, p))
  }

  function Min(a: int, b: int): int {
    if a <= b then a else b
  }

  /** `href.startsWith('http') ? href : BASE + href`. */
  function Absolute(href: string): (r: string)
    ensures StartsWith(r, "http")
    ensures StartsWith(href, "http") ==> r == href
    ensures !StartsWith(href, "http") ==> r == Base + href
  {
    if StartsWith(href, "http") then href
    else
      assert (Base + href)[..4] == "http";
      Base + href
  }

  /** `s || null` on a string. */
  function NonEmpty(s: string): (r: Option<string>)
    ensures r.None? <==> s == []
    ensures r.Some? ==> r.value == s
  {
    if s == [] then None else Some(s)
  }

  /** The record an anchor yields, or `None` when its link carries no number. */
  function BuildRecord(a: Anchor): (r: Option<NumberRecord>)
    ensures r.None? <==> NumberId(a.href.GetOr("")).None?
    ensures r.Some? ==>
      && r.value.id == NumberId(a.href.GetOr("")).value
      && r.value.phone == "+" + r.value.id && r.value.display == r.value.phone
      && r.value.provider == "sms24"
      && StartsWith(r.value.href, "http") && r.value.href == Absolute(a.href.GetOr(""))
    ensures r.Some? ==> (r.value.countryCode.None? <==> AllSpace(a.flag.GetOr("")))
    ensures r.Some? ==> (r.value.country.None? <==> AllSpace(a.heading))
    ensures r.Some? && r.value.countryCode.Some? ==> r.value.countryCode.value == Lower(Trim(a.flag.GetOr("")))
    ensures r.Some? && r.value.country.Some? ==> r.value.country.value == Trim(a.heading)
    ensures r.Some? && r.value.countryCode.Some? ==> Lower(r.value.countryCode.value) == r.value.countryCode.value
    ensures r.Some? && r.value.country.Some? ==> Trim(r.value.country.value) == r.value.country.value
  {
    var href := a.href.GetOr("");
    match NumberId(href)
    case None => None
    case Some(digits) =>
      var phone := "+" + digits;
      TrimEmptyIffBlank(a.flag.GetOr(""));
      TrimEmptyIffBlank(a.heading);
      LowerIdempotent(Trim(a.flag.GetOr("")));
      TrimOfTrimmed(Trim(a.heading));
      Some(NumberRecord(
        digits, phone, phone, "sms24", Absolute(href),
        NonEmpty(Lower(Trim(a.flag.GetOr("")))),
        NonEmpty(Trim(a.heading))))
  }

  /** The deduplication key of the listing. */
  function Phone(r: NumberRecord): string {
    r.phone
  }

  /**
   The records a page visit offers before deduplication, `build` turning each anchor
   into its record: none when the visit failed. (The listing's builder is
   `BuildRecord`; the walk below is stated for any builder.)
   */
  function PageRecords(page: Option<seq<Anchor>>, build: Anchor -> Option<NumberRecord>): seq<NumberRecord> {
    match page
    case None => []
    case Some(anchors) => FilterMap(anchors, build)
  }

  /** The records of the visits in order, before deduplication. */
  function Offered(pages: seq<Option<seq<Anchor>>>, build: Anchor -> Option<NumberRecord>): (r: seq<NumberRecord>)
    decreases |pages|
  {
    if |pages| == 0 then []
    else PageRecords(pages[0], build) + Offered(pages[1..], build)
  }

  lemma {:induction false} OfferedAppend(a: seq<Option<seq<Anchor>>>, b: seq<Option<seq<Anchor>>>, build: Anchor -> Option<NumberRecord>)
    ensures Offered(a + b, build) == Offered(a, build) + Offered(b, build)
    decreases |a|
  {
    if |a| == 0 {
      assert a + b == b;
    } else {
      assert (a + b)[1..] == a[1..] + b;
      assert (a + b)[0] == a[0];
      OfferedAppend(a[1..], b, build);
    }
  }

  /** Reading one more page appends its records. */
  lemma OfferedSnoc(pages: seq<Option<seq<Anchor>>>, p: int, build: Anchor -> Option<NumberRecord>)
    requires 0 <= p < |pages|
    ensures Offered(pages[..p + 1], build) == Offered(pages[..p], build) + PageRecords(pages[p], build)
  {
    assert pages[..p + 1] == pages[..p] + [pages[p]];
    OfferedAppend(pages[..p], [pages[p]], build);
    assert [pages[p]][1..] == [];
  }

  /** A page that failed contributes nothing, and the pages after it are still read. */
  lemma FailedPageSkipped(before: seq<Option<seq<Anchor>>>, after: seq<Option<seq<Anchor>>>, build: Anchor -> Option<NumberRecord>)
    ensures Offered(before + [None] + after, build) == Offered(before + after, build)
  {
    var failed: seq<Option<seq<Anchor>>> := [None];
    assert failed[1..] == [];
    assert Offered(failed, build) == [];
    OfferedAppend(before, failed, build);
    assert Offered(before + failed, build) == Offered(before, build);
    OfferedAppend(before + failed, after, build);
    OfferedAppend(before, after, build);
  }

  /**
   The walk over the anchors of one page: `added` are the records kept, and
   `seenAfter` the phones taken once the page is done.
   */
  method ReadPage(anchors: seq<Anchor>, build: Anchor -> Option<NumberRecord>, seen: set<string>)
    returns (added: seq<NumberRecord>, seenAfter: set<string>)
    ensures added == DedupFrom(FilterMap(anchors, build), Phone, seen)
    ensures seenAfter == seen + KeySet(FilterMap(anchors, build), Phone)
  {
    added := [];
    seenAfter := seen;
    var j := 0;
    while j < |anchors|
      invariant 0 <= j <= |anchors|
      invariant added == DedupFrom(FilterMap(anchors[..j], build), Phone, seen)
      invariant seenAfter == seen + KeySet(FilterMap(anchors[..j], build), Phone)
    {
      var before := FilterMap(anchors[..j], build);
      var one: seq<NumberRecord> := match build(anchors[j]) case None => [] case Some(y) => [y];
      FilterMapSnoc(anchors, j, build);
      DedupFromAppend(before, one, Phone, seen);
      KeySetAppend(before, one, Phone);
      match build(anchors[j]) {
        case None =>
        case Some(rec) =>
          if rec.phone !in seenAfter {
            added := added + [rec];
            seenAfter := seenAfter + {rec.phone};
          }
      }
      j := j + 1;
    }
    assert anchors[..j] == anchors;
  }

  /** The cross-page walk: one set of phones taken, carried from page to page. */
  method Walk(pages: seq<Option<seq<Anchor>>>, build: Anchor -> Option<NumberRecord>) returns (out: seq<NumberRecord>)
    ensures out == Dedup(Offered(pages, build), Phone)
  {
    out := [];
    var seen: set<string> := {};
    var p := 0;
    while p < |pages|
      invariant 0 <= p <= |pages|
      invariant out == DedupFrom(Offered(pages[..p], build), Phone, {})
      invariant seen == KeySet(Offered(pages[..p], build), Phone)
    {
      OfferedSnoc(pages, p, build);
      DedupFromAppend(Offered(pages[..p], build), PageRecords(pages[p], build), Phone, {});
      KeySetAppend(Offered(pages[..p], build), PageRecords(pages[p], build), Phone);
      assert {} + KeySet(Offered(pages[..p], build), Phone) == seen;
      match pages[p] {
        case None =>
          assert PageRecords(pages[p], build) == [];
        case Some(anchors) =>
          var added, seenAfter := ReadPage(anchors, build, seen);
          out := out + added;
          seen := seenAfter;
      }
      p := p + 1;
    }
    assert pages[..p] == pages;
  }

  /** The page visits as the listing makes them: pages 1 to 5 in order. */
  function Visits(visit: nat -> Option<seq<Anchor>>): (pages: seq<Option<seq<Anchor>>>)
    ensures |pages| == ListPages && forall k :: 0 <= k < ListPages ==> pages[k] == visit(k + 1)
  {
    seq(ListPages, (k: nat) => visit(k + 1))
  }

  /**
   `getNumbers`, `visit(n)` standing for the outcome of loading list page `n`: the
   cross-page walk keeps the first record for each phone, and at most 300 are
   returned.
   */
  method GetNumbers(visit: nat -> Option<seq<Anchor>>) returns (r: seq<NumberRecord>)
    ensures r == Take(Dedup(Offered(Visits(visit), BuildRecord), Phone), MaxNumbers)
    ensures |r| <= MaxNumbers
    ensures IsSubsequence(r, Offered(Visits(visit), BuildRecord))
    ensures DistinctKeys(r, Phone)
    ensures forall k :: 0 <= k < |r| ==> r[k] == FirstWithKey(Offered(Visits(visit), BuildRecord), Phone, r[k].phone)
    ensures |r| < MaxNumbers ==> KeySet(r, Phone) == KeySet(Offered(Visits(visit), BuildRecord), Phone)
  {
    var offered := Offered(Visits(visit), BuildRecord);
    var out := Walk(Visits(visit), BuildRecord);
    r := Take(out, MaxNumbers);
    DedupThenTake(offered, Phone, MaxNumbers);
  }

  /** A link whose first match is at offset 0 yields the digits captured there. */
  lemma MatchAtStart(h: string)
    requires IdAt(h, 0)
    ensures NumberId(h) == Some(IdDigits(h, 0))
  {
    var r := NumberId(h);
    assert r.Some?;
    var p :| LeftmostIdAt(h, p) && r.value == IdDigits(h, p);
  }

  /** A canonical number link yields its digits as the id. */
  lemma CanonicalLinkId(digits: string)
    requires 7 <= |digits| <= MaxIdDigits && AllDigits(digits)
    ensures NumberId(Marker + digits) == Some(digits)
  {
    var h := Marker + digits;
    assert h[..|Marker|] == Marker;
    assert forall k :: 0 <= k < |digits| ==> h[|Marker| + k] == digits[k];
    RunLengthUnique(h, |Marker|, |digits|);
    assert IdAt(h, 0);
    MatchAtStart(h);
    assert h[|Marker|..|Marker| + |digits|] == digits;
  }

  /** A run longer than fifteen digits is not rejected: its first fifteen digits are the id. */
  lemma LongRunIsCut(digits: string)
    requires |digits| > MaxIdDigits && AllDigits(digits)
    ensures NumberId(Marker + digits) == Some(digits[..MaxIdDigits])
  {
    var h := Marker + digits;
    assert h[..|Marker|] == Marker;
    assert forall k :: 0 <= k < |digits| ==> h[|Marker| + k] == digits[k];
    RunLengthUnique(h, |Marker|, |digits|);
    assert IdAt(h, 0);
    MatchAtStart(h);
    assert h[|Marker|..|Marker| + MaxIdDigits] == digits[..MaxIdDigits];
  }
}
