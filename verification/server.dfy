/**
 The pure parts of the HTTP routes in server.js: the `?country` filter of the number
 list, the phone a route derives from its `:id`, the pick of the first message with a
 one-time code, and the bodies the number, message and code routes send. The number
 list comes from the cache (module NumbersCache) and the messages from
 `getMessages` (module Navigation); both reach the routes here as values.
 */
module Server {
  import opened Optional
  import opened Text
  import opened Seqs
  import Listing
  import Messages
  import Navigation

  /** The filter's needle: the query trimmed and folded to lower case. */
  function Needle(q: string): string {
    Lower(Trim(q))
  }

  /** A number matches a needle when its folded code or its folded name contains it; a missing field reads as "". */
  predicate Matches(n: Listing.NumberRecord, needle: string) {
    Contains(Lower(n.countryCode.GetOr("")), needle) || Contains(Lower(n.country.GetOr("")), needle)
  }

  /**
   The `?country` filter: an absent or empty query (both falsy) keeps the list as it
   is; any other query keeps, in order, exactly the numbers that match its needle.
   */
  function FilterByCountry(numbers: seq<Listing.NumberRecord>, country: Option<string>): (r: seq<Listing.NumberRecord>)
    ensures country.None? || country.value == [] ==> r == numbers
    ensures |r| <= |numbers|
    ensures country.Some? && country.value != [] ==> forall k :: 0 <= k < |r| ==> r[k] in numbers && Matches(r[k], Needle(country.value))
    ensures country.Some? && country.value != [] ==> forall k :: 0 <= k < |numbers| ==> (numbers[k] in r <==> Matches(numbers[k], Needle(country.value)))
  {
    match country
    case None => numbers
    case Some(q) =>
      if q == [] then numbers
      else
        var needle := Needle(q);
        Filter(numbers, (n: Listing.NumberRecord) => Matches(n, needle))
  }

  /** The filtered list keeps the order of the cached one. */
  lemma FilterKeepsOrder(numbers: seq<Listing.NumberRecord>, country: Option<string>)
    ensures IsSubsequence(FilterByCountry(numbers, country), numbers)
  {
    if country.Some? && country.value != [] {
      var needle := Needle(country.value);
      FilterIsSubsequence(numbers, (n: Listing.NumberRecord) => Matches(n, needle));
    } else {
      SubsequenceReflexive(numbers);
    }
  }

  /** A query of whitespace only is truthy but trims to "", which every field contains: nothing is dropped. */
  lemma BlankQueryKeepsAll(numbers: seq<Listing.NumberRecord>, q: string)
    requires AllSpace(q)
    ensures FilterByCountry(numbers, Some(q)) == numbers
  {
    if q != [] {
      TrimEmptyIffBlank(q);
      var needle := Needle(q);
      assert needle == [];
      forall k | 0 <= k < |numbers| ensures Matches(numbers[k], needle) {
        ContainsEmpty(Lower(numbers[k].countryCode.GetOr("")));
      }
      FilterKeepsAll(numbers, (n: Listing.NumberRecord) => Matches(n, needle));
    }
  }

  /** Surrounding whitespace in the query changes nothing: the query and its trim filter alike. */
  lemma QueryTrimIrrelevant(numbers: seq<Listing.NumberRecord>, q: string)
    ensures FilterByCountry(numbers, Some(q)) == FilterByCountry(numbers, Some(Trim(q)))
  {
    TrimOfTrimmed(Trim(q));
    if Trim(q) == [] {
      TrimEmptyIffBlank(q);
      BlankQueryKeepsAll(numbers, q);
    }
  }

  /** The number list body: `{ provider, count, numbers }`. */
  datatype NumbersResponse = NumbersResponse(provider: string, count: nat, numbers: seq<Listing.NumberRecord>)

  /** `GET /api/numbers`: the filtered cached list with its length. */
  function NumbersRoute(cached: seq<Listing.NumberRecord>, country: Option<string>): (r: NumbersResponse)
    ensures r.provider == "sms24"
    ensures r.numbers == FilterByCountry(cached, country)
    ensures r.count == |r.numbers| <= |cached|
    ensures forall k :: 0 <= k < |r.numbers| ==> r.numbers[k] in cached
  {
    var numbers := FilterByCountry(cached, country);
    NumbersResponse("sms24", |numbers|, numbers)
  }

  /** The phone a route derives from its `:id`: one leading `+` removed, then `+` put in front. */
  function RoutePhone(id: string): (r: string)
    ensures |r| >= 1 && r[0] == '+'
    ensures |r| == |id| + 1 || (|r| == |id| && id[0] == '+')
    ensures r[1..] == StripPlus(id)
  {
    "+" + StripPlus(id)
  }

  /** Deriving the phone from an already derived phone changes nothing. */
  lemma RoutePhoneIdempotent(id: string)
    ensures RoutePhone(RoutePhone(id)) == RoutePhone(id)
  {
    assert RoutePhone(id)[1..] == StripPlus(id);
  }

  /** An id with or without its `+` names the same phone, and the phone opens the id's own page. */
  lemma RoutePhoneSamePage(id: string)
    ensures RoutePhone("+" + id) == RoutePhone(id) || (|id| > 0 && id[0] == '+')
    ensures Navigation.NumberPageUrl(RoutePhone(id)) == Navigation.NumberPageUrl(id)
  {
    assert ("+" + id)[1..] == id;
    assert RoutePhone(id)[1..] == StripPlus(id);
  }

  /** Only one plus sign is removed: "++1" stays "++1". */
  lemma OnlyOnePlusRemoved()
    ensures RoutePhone("++1") == "++1"
  {
    assert "++1"[1..] == "+1";
  }

  /** `m.otp` is truthy: there is a code and it is not "". */
  predicate HasOtp(m: Messages.Message) {
    m.otp.Some? && m.otp.value != []
  }

  /** `messages.find(m => m.otp)`, as an index: the first message with a code. */
  function FirstWithOtp(ms: seq<Messages.Message>): (r: Option<nat>)
    ensures r.None? <==> forall k :: 0 <= k < |ms| ==> !HasOtp(ms[k])
    ensures r.Some? ==> r.value < |ms| && HasOtp(ms[r.value]) && forall k :: 0 <= k < r.value ==> !HasOtp(ms[k])
    decreases |ms|
  {
    if |ms| == 0 then None
    else if HasOtp(ms[0]) then Some(0)
    else
      match FirstWithOtp(ms[1..])
      case None =>
        assert forall k :: 1 <= k < |ms| ==> ms[k] == ms[1..][k - 1];
        None
      case Some(j) =>
        assert forall k :: 1 <= k <= j + 1 ==> ms[k] == ms[1..][k - 1];
        Some(j + 1)
  }

  /** Messages without a code in front of the list do not change which message is picked. */
  lemma {:induction false} PickSkipsCodelessPrefix(pre: seq<Messages.Message>, ms: seq<Messages.Message>)
    requires forall k :: 0 <= k < |pre| ==> !HasOtp(pre[k])
    ensures FirstWithOtp(pre + ms) == match FirstWithOtp(ms) case None => None case Some(j) => Some(|pre| + j)
    decreases |pre|
  {
    if |pre| == 0 {
      assert pre + ms == ms;
    } else {
      assert (pre + ms)[0] == pre[0];
      assert (pre + ms)[1..] == pre[1..] + ms;
      PickSkipsCodelessPrefix(pre[1..], ms);
    }
  }

  /** The body of the code route. */
  datatype OtpResponse =
    | UpstreamFailed(message: string)
    | NoOtp(phone: string)
    | OtpFound(phone: string, otp: string, from: string, time: string)

  /**
   `GET /api/numbers/:id/otp`: `messages` is what `getMessages` gave for the derived
   phone (`None` when it threw with `error`). The first message with a code is
   reported with its sender and time; without one the body says there is no code.
   */
  function OtpRoute(id: string, messages: Option<seq<Messages.Message>>, error: string): (r: OtpResponse)
    ensures r.UpstreamFailed? <==> messages.None?
    ensures r.NoOtp? <==> messages.Some? && forall k :: 0 <= k < |messages.value| ==> !HasOtp(messages.value[k])
    ensures r.NoOtp? || r.OtpFound? ==> r.phone == RoutePhone(id)
    ensures r.OtpFound? ==>
      exists j :: 0 <= j < |messages.value| && HasOtp(messages.value[j])
        && (forall k :: 0 <= k < j ==> !HasOtp(messages.value[k]))
        && r.otp == messages.value[j].otp.value && r.from == messages.value[j].from && r.time == messages.value[j].time
  {
    match messages
    case None => UpstreamFailed(error)
    case Some(ms) =>
      match FirstWithOtp(ms)
      case None => NoOtp(RoutePhone(id))
      case Some(j) => OtpFound(RoutePhone(id), ms[j].otp.value, ms[j].from, ms[j].time)
  }

  /** The body of the message route: the derived phone and the parsed messages with their number. */
  datatype MessagesResponse = MessagesFailed(message: string) | MessageList(phone: string, count: nat, messages: seq<Messages.Message>)

  /** `GET /api/numbers/:id/messages`. */
  function MessagesRoute(id: string, messages: Option<seq<Messages.Message>>, error: string): (r: MessagesResponse)
    ensures r.MessagesFailed? <==> messages.None?
    ensures r.MessageList? ==> r.phone == RoutePhone(id) && r.messages == messages.value && r.count == |r.messages|
  {
    match messages
    case None => MessagesFailed(error)
    case Some(ms) => MessageList(RoutePhone(id), |ms|, ms)
  }

  /** The code route and the message route agree: a code is reported iff one of the listed messages has one. */
  lemma OtpRouteAgreesWithMessages(id: string, messages: Option<seq<Messages.Message>>, error: string)
    ensures OtpRoute(id, messages, error).OtpFound? <==>
      (MessagesRoute(id, messages, error).MessageList? && exists k :: 0 <= k < MessagesRoute(id, messages, error).count && HasOtp(MessagesRoute(id, messages, error).messages[k]))
  {
  }
}
