/**
 Page navigation in src/providers/sms24.js: `safeGoto` tries a page load up to three
 times with no pause and throws after the third failure; `getMessages` opens the home
 page, loads the cookies, opens the number's page and parses it. Whether the n-th load
 attempt succeeds is given as a function of `n`.
 */
module Navigation {
  import opened Optional
  import opened Text
  import Messages

  /** Load attempts `safeGoto` makes before it gives up. */
  const GotoAttempts: nat := 3

  const Base := "https://sms24.me"

  /** The first attempt among `0 .. limit - 1` that succeeds, if any. */
  function FirstSuccess(succeeds: nat -> bool, limit: nat): (r: Option<nat>)
    ensures r.Some? ==> r.value < limit && succeeds(r.value) && forall k :: 0 <= k < r.value ==> !succeeds(k)
    ensures r.None? <==> forall k :: 0 <= k < limit ==> !succeeds(k)
  {
    FirstSuccessFrom(succeeds, 0, limit)
  }

  function FirstSuccessFrom(succeeds: nat -> bool, from: nat, limit: nat): (r: Option<nat>)
    requires from <= limit
    ensures r.Some? ==> from <= r.value < limit && succeeds(r.value) && forall k :: from <= k < r.value ==> !succeeds(k)
    ensures r.None? <==> forall k :: from <= k < limit ==> !succeeds(k)
    decreases limit - from
  {
    if from == limit then None
    else if succeeds(from) then Some(from)
    else FirstSuccessFrom(succeeds, from + 1, limit)
  }

  /** How a `safeGoto` call ends: the page loaded on attempt `attempts`, or it threw after three failures. */
  datatype GotoOutcome = Loaded(attempts: nat) | GaveUp

  /** `safeGoto` as a function of the attempt outcomes. */
  function Goto(loads: nat -> bool): (r: GotoOutcome)
    ensures r.Loaded? <==> exists k :: 0 <= k < GotoAttempts && loads(k)
    ensures r.Loaded? ==> 1 <= r.attempts <= GotoAttempts && loads(r.attempts - 1)
    ensures r.Loaded? ==> forall k :: 0 <= k < r.attempts - 1 ==> !loads(k)
  {
    match FirstSuccess(loads, GotoAttempts)
    case Some(k) => Loaded(k + 1)
    case None => GaveUp
  }

  /**
   `safeGoto` as the source writes it: a counted loop that returns on the first
   successful load, and gives up once three attempts have failed.
   */
  method SafeGoto(loads: nat -> bool) returns (r: GotoOutcome)
    ensures r == Goto(loads)
    ensures r.GaveUp? ==> forall k :: 0 <= k < GotoAttempts ==> !loads(k)
  {
    var i := 0;
    while i < GotoAttempts
      invariant 0 <= i <= GotoAttempts
      invariant forall k :: 0 <= k < i ==> !loads(k)
    {
      if loads(i) {
        return Loaded(i + 1);
      }
      i := i + 1;
    }
    return GaveUp;
  }

  /** The address of a number's page: the digits after one optional leading `+`. */
  function NumberPageUrl(phone: string): string {
    Base + "/en/numbers/" + StripPlus(phone)
  }

  /** A number and the same number with a leading `+` open the same page. */
  lemma PlusDoesNotChangePage(digits: string)
    requires |digits| == 0 || digits[0] != '+'
    ensures NumberPageUrl("+" + digits) == NumberPageUrl(digits)
  {
    assert ("+" + digits)[1..] == digits;
  }

  /**
   `getMessages`: `None` stands for the thrown error. Both page loads must succeed
   and the cookies must load; the parse then runs on the number's page.
   */
  function GetMessages(
    homeLoads: nat -> bool, cookiesLoad: bool, numberLoads: nat -> bool,
    dls: seq<Messages.DefinitionList>, items: seq<Messages.LegacyItem>,
    iso: Messages.TimeSource -> string, cutFrom: string -> Option<string>): (r: Option<seq<Messages.Message>>)
    ensures r.Some? <==> Goto(homeLoads).Loaded? && cookiesLoad && Goto(numberLoads).Loaded?
    ensures r.Some? ==> |r.value| <= Messages.MaxMessages
    ensures r.Some? ==> r.value == Messages.ParseMessages(dls, items, iso, cutFrom)
  {
    if Goto(homeLoads).GaveUp? || !cookiesLoad || Goto(numberLoads).GaveUp? then None
    else Some(Messages.ParseMessages(dls, items, iso, cutFrom))
  }

  /**
   Once both pages load and the cookies with them, the messages are the first fifty
   distinct ones of the layout the page uses: the primary one when some `dl` has a
   body, the legacy one otherwise.
   */
  lemma LoadedPageIsParsed(
    homeLoads: nat -> bool, numberLoads: nat -> bool,
    dls: seq<Messages.DefinitionList>, items: seq<Messages.LegacyItem>,
    iso: Messages.TimeSource -> string, cutFrom: string -> Option<string>)
    requires Goto(homeLoads).Loaded? && Goto(numberLoads).Loaded?
    ensures var r := GetMessages(homeLoads, true, numberLoads, dls, items, iso, cutFrom);
      && (Messages.PrimaryHasText(dls) ==> r == Some(Messages.FirstDistinct(Messages.PrimaryPass(dls, iso))))
      && (!Messages.PrimaryHasText(dls) ==> r == Some(Messages.FirstDistinct(Messages.FallbackPass(items, iso, cutFrom))))
  {
    if Messages.PrimaryHasText(dls) {
      Messages.ParsePrefersPrimary(dls, items, iso, cutFrom);
    } else {
      Messages.ParseFallsBack(dls, items, iso, cutFrom);
    }
  }

  /** A load that fails three times and then succeeds is still a failure. */
  lemma FourthAttemptIsTooLate(loads: nat -> bool)
    requires !loads(0) && !loads(1) && !loads(2) && loads(3)
    ensures Goto(loads) == GaveUp
  {
  }
}
