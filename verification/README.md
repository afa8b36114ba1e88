# sms24 scraper — a Dafny model

This project models the logic of a small Node.js service. The service scrapes sms24.me, a site that lists temporary public phone numbers and the SMS messages they receive, and serves the numbers, messages and one-time codes over HTTP.

Once the browser, the HTML parser, the clock and the file system are taken away, what remains is sequential string and list processing. The model keeps that logic:

- **Listing fold** (`getNumbers`). Five list pages are read. Each page either failed or gave the anchors its selector matched. Each anchor's link yields a number id, and each id becomes a record. A number seen earlier is skipped, a failed page is skipped, and the first 300 records are kept.
- **Message parser** (`parseMessages`):
  - the primary `dl` layout, where each field is the first non-empty value of a fixed chain of lookups;
  - the legacy layout, used only when the primary one yields nothing, with its noise filter;
  - deduplication on `text|time`, first occurrence winning;
  - the cap of fifty.
- **Classifiers**:
  - the two one-time-code searches: the word-bounded one that the parser uses, and the look-around one in the normalisation helpers;
  - `cleanFrom`;
  - `isLikelyNoise`;
  - `normalizePhone`.
- **Retries**:
  - `safeGoto`: three attempts, no pause;
  - `fetchRetry`: `retries + 1` attempts with linear back-off;
  - the header merge of `politeFetch`.
- **Server logic**:
  - the 30-second number cache;
  - the `?country` filter;
  - the country grouping and its sort;
  - the phone derived from a route's `:id`;
  - the pick of the first message with a code;
  - the response bodies.
- **Small transforms**: the exported-cookie conversion, and the `--name=value` argument lookup of the message script.

Inputs are given as values:

- A DOM lookup is a record of the strings its selectors yield.
- A navigation or fetch attempt's outcome is a function of the attempt number.
- `toIso` is a function parameter, and so is the `From:` cut regular expression of the legacy layout.
- `Date.now()` is a number parameter.

Modules follow the program's files:

| Module | Source it models |
|---|---|
| `Otp`, `Classify` | the helpers of `src/providers/sms24.js` |
| `Messages` | `parseMessages` |
| `Navigation` | `safeGoto` and `getMessages` |
| `Listing` | `getNumbers` |
| `Normalize` | `src/utils/normalize.js` |
| `Http` | `src/utils/http.js` |
| `NumbersCache`, `Server`, `Countries` | `server.js` |
| `Cookies` | `src/utils/simple.js` and `loadCookies` |
| `Args` | `scripts/test-messages.js` |

`Optional`, `Seqs` and `Text` hold the shared vocabulary:

- optional values;
- subsequences, first-occurrence deduplication, filters;
- JavaScript whitespace, `trim`, ASCII case folding, `includes` and digit runs.

Details of the code that the model follows:

- **Cookie loading:** `getNumbers` loads the cookies after each list page has loaded; `getMessages` loads them once, after the home page, and then opens the number's page.
- **Link pattern:** number links are matched on `/en/numbers/` followed by seven or more digits, of which the first fifteen are kept.
- **Parser code search:** the search used by the parser is word-bounded (`\b`), while the helper in `src/utils/normalize.js` only asks for no digit on either side. `Normalize.GluedCodeDisagreement` shows where the two differ.
- **Legacy time:** the legacy layout's time comes from a single selector, then from the clock.

## Model

| member | source | states |
|---|---|---|
| Otp.CodeIsWholeRun | src/providers/sms24.js:228 | a match of `\d{4,8}` fenced on both sides is a whole digit run, so a run that is part of a longer run never matches |
| Otp.RunIsCode | src/providers/sms24.js:228 | a digit run of 4–8 with no fenced character on either side is a match |
| Otp.NoCodeInsideRun | src/providers/sms24.js:228 | no match starts inside a digit run |
| Otp.Scan | src/providers/sms24.js:228 | the left-to-right scan finds the leftmost match after a prefix without one, or shows there is none |
| Otp.FirstCode | src/providers/sms24.js:228-229 | the search returns nothing iff there is no match anywhere; otherwise it returns the leftmost match as a substring of the text |
| Otp.LeftmostUnique | src/providers/sms24.js:228 | the leftmost match is unique, in both position and length |
| Otp.WordCodeIsIsolated | src/utils/normalize.js:8 | every word-bounded match is also a look-around match |
| Otp.FencesAgreeWithoutLetters | src/utils/normalize.js:8 | with no letters or `_` in the text, the two patterns match at the same places |
| Otp.FirstCodeAgreesWithoutLetters | src/utils/normalize.js:6-10 | with no letters or `_` in the text, both searches return the same code |
| Otp.CodeAfterDigitFreeText | src/providers/sms24.js:228-229 | a 4–8 digit run after digit-free text, with nothing fenced next to it, is the code found |
| Otp.LeftmostIsFirstCode | src/providers/sms24.js:228-229 | a leftmost match is what the search returns |
| Otp.LongRunHasNoCode | src/providers/sms24.js:228 | a run of nine or more digits among digit-free text yields no code |
| Otp.GluedRunHasNoWordCode | src/providers/sms24.js:228 | digits glued to a letter yield no word-bounded code |
| Classify.ExtractOtp | src/providers/sms24.js:227-230 | returns null iff no word-bounded 4–8 digit run exists; otherwise the leftmost one, made of 4–8 digits, with no word character touching it |
| Classify.ExtractOtpFindsCode | src/providers/sms24.js:228 | "Your code is 48213, expires soon" gives "48213" |
| Classify.ExtractOtpRejectsLongRun | src/providers/sms24.js:228 | "order #12345678901" gives no code |
| Classify.StripFromLabel | src/providers/sms24.js:247 | removes a leading case-insensitive `From:` and the whitespace after it exactly when present; what remains is a suffix of the input |
| Classify.CleanFrom | src/providers/sms24.js:244-248 | never "" and never a bare `+digits` string; blank input gives "unknown"; otherwise the trimmed input with one leading label removed (as `StripFromLabel` characterises it), replaced by "unknown" when that leaves nothing or a bare phone; a labelled input either loses its whole label or gives "unknown"; unchanged when there is no label and no bare phone |
| Classify.BarePhoneSenderIsUnknown | src/providers/sms24.js:247 | a sender that trims to `+digits` becomes "unknown" |
| Classify.LabelledSenderIsName | src/providers/sms24.js:247 | "From: " in front of a trimmed, non-phone name leaves exactly the name |
| Classify.LabelIsStripped | src/providers/sms24.js:247 | the label and the space after it are what the replacement removes |
| Classify.LabelledPhoneIsUnknown | src/providers/sms24.js:247 | "From: " in front of a bare `+digits` number gives "unknown": the label goes first, then the number is hidden |
| Classify.CleanFromDropsLabel | src/providers/sms24.js:244-248 | "From: Support" gives "Support" |
| Classify.CleanFromHidesNumber | src/providers/sms24.js:244-248 | "+12025550123" gives "unknown" |
| Classify.PhoneMatchesFrom | src/providers/sms24.js:240 | the number of matches `t.match(/\+\d{7,}/g)` returns from an offset on, each match resuming behind its greedy digit run; PhoneMatchesSome and PhoneMatchesCount characterise it |
| Classify.PhoneMatchesSome | src/providers/sms24.js:240 | the global `\+\d{7,}` count is positive iff a `+` followed by seven or more digits occurs |
| Classify.NoPhoneInsideMatch | src/providers/sms24.js:240 | a global match consumes its whole digit run, so no second match starts inside it |
| Classify.PhoneMatchesCount | src/providers/sms24.js:240 | the count is at least two iff two non-overlapping phone-shaped matches occur |
| Classify.IsLikelyNoise | src/providers/sms24.js:232-242 | true exactly when the text is empty, its trim mentions a boilerplate phrase in any case, it is over 200 UTF-16 units with no word-bounded code, or it holds two phone-shaped runs |
| Classify.OccurrenceSurvivesTrim | src/providers/sms24.js:234-235 | a case-insensitive occurrence that starts and ends on non-whitespace is still there after trimming |
| Classify.BrandIsNoise | src/providers/sms24.js:235 | any text mentioning "sms24" in any case is noise |
| Messages.FirstTrimmed | src/providers/sms24.js:155-157 | the first of three trimmed texts that is not blank, and "" iff all three are blank |
| Messages.PrimaryTime | src/providers/sms24.js:148-152 | `data-created`, else `datetime`, else the trimmed first `dt div` text; the clock is used iff all three are empty or blank |
| Messages.PrimarySender | src/providers/sms24.js:154-157 | the first non-blank of link, label and bold text, trimmed; "" iff all are blank |
| Messages.PrimaryText | src/providers/sms24.js:159-162 | the first non-blank of span, paragraph and whole `dd` text; "" exactly for a blank body |
| Messages.PrimaryMessage | src/providers/sms24.js:147-173 | a `dl` is skipped iff its body is blank; otherwise its message carries `msg-i`, the cleaned sender, the text, its code and its converted time |
| Messages.Collect | src/providers/sms24.js:147-173 | the messages of a pass, in element order, each coming from its own element and none lost |
| Messages.PrimaryPass | src/providers/sms24.js:147-173 | every primary message comes from its `dl`, every non-blank `dl` gives one, ids increase; no noise filter is applied |
| Messages.FallbackSender | src/providers/sms24.js:178-182 | `cleanFrom` of the sender text, or of the bold text when that is empty; never empty, never a bare phone |
| Messages.FallbackText | src/providers/sms24.js:184-189 | the trimmed body or element text, replaced by the cut's second group when that is non-empty |
| Messages.FallbackTime | src/providers/sms24.js:194-196 | the trimmed time text, or the clock iff it is blank |
| Messages.FallbackMessage | src/providers/sms24.js:177-205 | a legacy element is dropped iff its text is empty or noise |
| Messages.FallbackPass | src/providers/sms24.js:176-206 | every legacy message comes from its element, is not noise, and none is lost; ids increase |
| Messages.Candidates | src/providers/sms24.js:146-206 | all candidates come from the primary layout when some `dl` has a body; otherwise all come from the legacy layout and none is noise |
| Messages.CandidatesChoosePass | src/providers/sms24.js:176 | the legacy pass runs only when the primary pass produced nothing |
| Messages.FirstDistinct | src/providers/sms24.js:214-221 | at most fifty messages, pairwise distinct keys, each the first with its key, in first-seen order; a prefix of the deduplicated list that covers every key when shorter than fifty |
| Messages.FewDistinctKept | src/providers/sms24.js:214-221 | up to fifty candidates with distinct keys are all returned, in their order |
| Messages.ManyDistinctCut | src/providers/sms24.js:214-221 | more than fifty candidates with distinct keys give exactly the first fifty |
| Messages.ParseMessages | src/providers/sms24.js:142-222 | at most fifty well-formed messages with distinct `text|time` keys, an in-order selection of the candidates that is shorter than fifty only when it holds a message of every candidate key |
| Messages.ParseOfPass | src/providers/sms24.js:176-221 | the result is the first fifty distinct messages of the primary pass when some `dl` has a body, of the legacy pass otherwise |
| Messages.ParsePrefersPrimary | src/providers/sms24.js:176 | when a `dl` has a body the result is exactly the first fifty distinct messages of the primary pass, all primary |
| Messages.ParseFallsBack | src/providers/sms24.js:176-221 | otherwise it is exactly the first fifty distinct messages of the legacy pass, all legacy |
| Messages.ParseNeverMixes | src/providers/sms24.js:176 | a result never mixes the two layouts |
| Messages.AfterLast | src/providers/sms24.js:217 | what follows the last separator contains no separator |
| Messages.AfterLastOfJoin | src/providers/sms24.js:217 | the time can be read back from a key when it has no `\|` |
| Messages.KeyInjective | src/providers/sms24.js:217 | when times contain no `\|`, two keys are equal iff text and time are |
| Messages.BlankSenderShadowsBold | src/providers/sms24.js:180-182 | a whitespace-only sender element hides the bold text and gives "unknown" |
| Messages.FallbackDropsBrand | src/providers/sms24.js:192 | a legacy message mentioning the brand is dropped |
| Messages.PrimaryKeepsBrand | src/providers/sms24.js:164-172 | a `dl` whose body mentions the brand still yields its message, whose text the legacy noise filter would reject |
| Navigation.FirstSuccess | src/providers/sms24.js:35-42 | the first successful attempt below the limit, or none iff all fail |
| Navigation.Goto | src/providers/sms24.js:34-44 | loaded iff one of the first three attempts succeeds; the success is the first one and every earlier attempt failed |
| Navigation.SafeGoto | src/providers/sms24.js:34-44 | the loop makes at most three attempts, returns at the first success and gives up only when all three fail |
| Navigation.FourthAttemptIsTooLate | src/providers/sms24.js:35 | a page that would load on the fourth try counts as failed |
| Navigation.NumberPageUrl | src/providers/sms24.js:125-126 | the number page address: the base, `/en/numbers/`, then the phone with one leading `+` removed |
| Navigation.PlusDoesNotChangePage | src/providers/sms24.js:125-126 | a phone with or without its `+` opens the same page |
| Navigation.GetMessages | src/providers/sms24.js:115-137 | messages are returned iff the home page, the cookies and the number page all load, and they are then the parse of the number's page |
| Navigation.LoadedPageIsParsed | src/providers/sms24.js:115-137 | once every load succeeds, the messages are the first fifty distinct ones of the primary pass when a `dl` has a body, of the legacy pass otherwise |
| Listing.IdFrom | src/providers/sms24.js:72 | the leftmost position at or after `i` where the marker is followed by seven or more digits |
| Listing.IdDigits | src/providers/sms24.js:72-75 | the captured id has 7 to 15 digits |
| Listing.NumberId | src/providers/sms24.js:72-73 | no id iff no marker is followed by seven digits; otherwise the greedy capture at the leftmost such marker |
| Listing.Absolute | src/providers/sms24.js:90 | the link starts with `http`; it is kept when it already does, otherwise the base is put in front |
| Listing.NonEmpty | src/providers/sms24.js:79-82 | `x \|\| null` on a string: null exactly for "" |
| Listing.BuildRecord | src/providers/sms24.js:70-93 | an anchor gives a record iff its link holds an id; phone and display are `+id`; provider "sms24"; the link made absolute as `Absolute` characterises it; code and country are null exactly when blank, otherwise the folded trimmed flag (already lower case) and the trimmed heading (already trimmed, not folded) |
| Listing.PageRecords | src/providers/sms24.js:59-94 | the records one list page offers before deduplication: none for a page whose visit threw, otherwise one per anchor the builder accepts, in anchor order |
| Listing.Offered | src/providers/sms24.js:59-94 | the records of the visited pages in page order, before deduplication |
| Listing.OfferedAppend | src/providers/sms24.js:59-94 | the records offered by consecutive pages concatenate |
| Listing.OfferedSnoc | src/providers/sms24.js:59-94 | one more page adds exactly its own records |
| Listing.FailedPageSkipped | src/providers/sms24.js:95-97 | a failed page contributes nothing and does not stop later pages |
| Listing.ReadPage | src/providers/sms24.js:70-94 | one page's loop adds the first occurrence of each phone not already seen, in order, and grows the seen set by the page's phones |
| Listing.Walk | src/providers/sms24.js:58-103 | the five-page loop with its cross-page seen set yields the first-occurrence deduplication of all offered records |
| Listing.Visits | src/providers/sms24.js:59-60 | pages 1 to 5 are visited in order |
| Listing.GetNumbers | src/providers/sms24.js:49-110 | at most 300 records, an in-order selection of those offered, distinct phones, each the first with its phone; all phones are covered when fewer than 300 |
| Listing.MatchAtStart | src/providers/sms24.js:72 | an id right at the start is the one captured |
| Listing.CanonicalLinkId | src/providers/sms24.js:72-76 | the id of `/en/numbers/<7-15 digits>` is those digits |
| Listing.LongRunIsCut | src/providers/sms24.js:72 | a longer digit run is cut to its first fifteen digits |
| Normalize.NormalizePhone | src/utils/normalize.js:1-4 | falsy input gives ""; the output has no whitespace, `(`, `)`, `-` or no-break space |
| Normalize.NormalizeIsOneFilter | src/utils/normalize.js:3 | the two replacements remove exactly the dropped characters and keep the rest in order |
| Normalize.NormalizeKeepsTheRest | src/utils/normalize.js:3 | the output is a subsequence of the input, no longer, and keeps every character that is not dropped as many times as it occurs, so "55" stays "55" |
| Normalize.NormalizeIdempotent | src/utils/normalize.js:1-4 | normalising twice is normalising once |
| Normalize.ExtractOtp | src/utils/normalize.js:6-10 | null for falsy input; null iff no 4–8 digit run is free of adjacent digits; otherwise the leftmost such run |
| Normalize.WordCodeImpliesLookaroundCode | src/utils/normalize.js:8 | whenever the parser's search finds a code, this one finds one too |
| Normalize.SearchesAgreeWithoutLetters | src/utils/normalize.js:6-10 | without letters or `_` the two searches return the same code |
| Normalize.GluedCodeDisagreement | src/utils/normalize.js:8 | "code12345" gives "12345" here and no code from the parser's search |
| Http.MaxFetchAttempts | src/utils/http.js:33-40 | at least one attempt and at least `retries + 1`; exactly `max(1, retries + 1)` |
| Http.Backoff | src/utils/http.js:41 | the pause after the failed attempt k (from 0): `backoffMs * (k + 1)`, since `attempt` has already been incremented |
| Http.FetchRetry | src/utils/http.js:32-44 | returns the first ok response and stops there; a non-ok status is a failure; after `max(1, retries + 1)` failures it rethrows the last one; the k-th pause is `backoffMs * (k + 1)` |
| Http.BackoffIncreasing | src/utils/http.js:41 | with a positive base the pauses grow strictly |
| Http.DefaultSchedule | src/utils/http.js:32 | the defaults give three attempts with pauses of 600 and 1200 ms |
| Http.RequestHeaders | src/utils/http.js:23 | every default name is sent, every caller header carries the caller's value, and other defaults keep theirs |
| Http.NoOverrideSendsDefaults | src/utils/http.js:3-13 | without caller headers exactly the nine defaults go out |
| NumbersCache.Hit | server.js:30 | the cached list is served iff there is one (an empty list counts) and `now - ts` is below the thirty-second time to live |
| NumbersCache.GetNumbersCached | server.js:28-36 | a hit serves the stored list and keeps the cache; a miss serves the scrape and stores it with the time read before it; the cache always holds what was served |
| NumbersCache.FirstCallScrapes | server.js:25-35 | the first call after start-up scrapes |
| NumbersCache.ServedUntilExpiry | server.js:29-34 | after a scrape at t, a call that does not overlap another scrape is served the same list when it comes before t + 30000, and scrapes again from then on |
| NumbersCache.EmptyListIsCached | server.js:30 | an empty list counts as cached |
| Server.Needle | server.js:54 | the query trimmed and folded to lower case |
| Server.Matches | server.js:55-59 | a number matches iff its folded code or its folded name, a missing one read as "", contains the needle |
| Server.FilterByCountry | server.js:53-61 | a falsy query keeps the list; otherwise a number is kept iff its folded code or country contains the trimmed, folded query |
| Server.FilterKeepsOrder | server.js:55-60 | the result is an in-order subsequence of the list |
| Server.BlankQueryKeepsAll | server.js:53-59 | a whitespace-only query keeps every number |
| Server.QueryTrimIrrelevant | server.js:54 | a query and its trim filter alike |
| Server.NumbersRoute | server.js:50-63 | the numbers sent are the `?country` filter of the cached list, and `count` is their length |
| Server.RoutePhone | server.js:75 | starts with `+`, and the rest is the id without one leading `+` |
| Server.RoutePhoneIdempotent | server.js:91 | deriving the phone again changes nothing |
| Server.RoutePhoneSamePage | server.js:75-76 | an id with or without `+` names the same phone and opens the id's page |
| Server.OnlyOnePlusRemoved | server.js:75 | only one `+` is removed: "++1" stays "++1" |
| Server.FirstWithOtp | server.js:94 | the first message with a truthy code, or none iff no message has one |
| Server.PickSkipsCodelessPrefix | server.js:94 | messages without a code in front do not change which message is picked |
| Server.OtpRoute | server.js:88-108 | upstream failure iff fetching threw; "no code" iff no message has one; otherwise the first such message's code, sender and time with the derived phone |
| Server.MessagesRoute | server.js:72-82 | the derived phone, the messages and their count, or the upstream failure |
| Server.OtpRouteAgreesWithMessages | server.js:88-104 | a code is reported iff one of the messages the message route would list has one |
| Countries.FirstWithKeyOf | server.js:138-145 | the first included number with a key, present iff the key's count is positive |
| Countries.CountAppend | server.js:138-148 | counts, included counts and first occurrences compose over appended lists |
| Countries.SumBump | server.js:147 | bumping one group's count raises the total by one |
| Countries.FindGroup | server.js:140 | finds a group with the key iff one exists |
| Countries.AddNumber | server.js:138-148 | one turn of the loop: a number without country or code is skipped; otherwise the count of the group keyed by its lower-cased country is raised by one, a missing group being opened with the number's name and code (created at 0, then raised, so at 1) |
| Countries.AddKeepsTally | server.js:138-148 | one turn of the loop keeps the tally invariant: distinct keys, exact counts, first name and code, coverage, total |
| Countries.TallyExcluded | server.js:139 | a number without country or code changes nothing |
| Countries.TallyBump | server.js:147 | a number with a known key bumps that group only |
| Countries.TallyNew | server.js:140-147 | a number with a new key opens a group with count one, its name and its code |
| Countries.GroupCountries | server.js:137-148 | distinct keys; each count is at least one and equals the number of included numbers with that key; the first-seen name and code are kept; every included number is covered; counts sum to the number included |
| Countries.CountPositive | server.js:147 | an included number makes its key's count positive |
| Countries.NameLeTotal | server.js:151 | the stand-in order on names is total |
| Countries.Insert | server.js:151 | insertion keeps the groups sorted and is a permutation |
| Countries.SortByName | server.js:150-151 | a sorted permutation of the groups |
| Countries.ListCountries | server.js:132-157 | `count` equals the number of groups; sorted by name; each count is at least one and exact; every included number's country is listed |
| Cookies.OrElse | src/utils/simple.js:11-12 | `s \|\| fallback`: the fallback exactly when `s` is absent or "" |
| Cookies.FloorOf | src/utils/simple.js:16 | present iff the expiration date is truthy, and then its floor |
| Cookies.ToBrowserCookie | src/utils/simple.js:8-20 | copies name and value; a falsy domain becomes the host and a falsy path "/"; flags are booleans; `expires` is present only for a truthy date and is its floor; `sameSite` only when truthy; `url` is the base |
| Cookies.ToPuppeteerCookies | src/utils/simple.js:5-22 | one cookie per input, same order, each converted with every default `ToBrowserCookie` states |
| Cookies.ConversionSplits | src/utils/simple.js:7 | the conversion works cookie by cookie |
| Cookies.WholeExpiryKept | src/utils/simple.js:16 | a whole, non-zero expiration date is kept as it is |
| Cookies.LoadedCookie | src/providers/sms24.js:18-27 | the older mapping: domain falls back to "sms24.me", url is the site, and there is never a `sameSite` |
| Cookies.LoadedDiffersOnlyInSameSite | src/providers/sms24.js:18-27 | with the default base the two mappings differ only in `sameSite` |
| Args.Split | scripts/test-messages.js:5 | at least one piece, none containing the separator |
| Args.JoinSplit | scripts/test-messages.js:5 | joining the pieces gives back the string |
| Args.SplitAtFirst | scripts/test-messages.js:5 | the first piece ends at the first separator |
| Args.FirstIndex | scripts/test-messages.js:5 | the position of the first `=` |
| Args.SplitJoinIsAfterFirst | scripts/test-messages.js:5 | split, drop the first piece, join: everything after the first `=`, later `=` included |
| Args.FindArg | scripts/test-messages.js:4 | the first argument with the prefix, or none iff no argument has it |
| Args.Arg | scripts/test-messages.js:3-6 | null iff no argument starts with `--name=` |
| Args.ArgValue | scripts/test-messages.js:3-6 | for a name without `=`, the value is the first matching argument minus its prefix |
| Args.ArgKeepsLaterEquals | scripts/test-messages.js:5 | `--phone=a=b` gives "a=b" |
| Args.ArgEmptyValue | scripts/test-messages.js:4-5 | only the first match counts, and `--phone=` gives "" rather than null |
| Args.ChoosePhone | scripts/test-messages.js:10-17 | a truthy `--phone` is used; otherwise the first listed number; with no numbers, the error |
| Args.EmptyPhoneFallsBack | scripts/test-messages.js:10-15 | `--phone=` counts as absent |
| Seqs.KeyIndex | src/providers/sms24.js:215-219 | the position of the first element carrying a key |
| Seqs.DedupFromOrdered | src/providers/sms24.js:215-219 | the kept elements appear in the order in which their keys first occur |
| Seqs.DedupFromDistinct | src/providers/sms24.js:215-219 | a list with distinct, unseen keys is its own deduplication |
| Seqs.Dedup | src/providers/sms24.js:215-219 | first-occurrence deduplication: a subsequence with distinct keys, each element the first with its key, covering every key, in first-seen order of the keys |
| Seqs.DedupThenTake | src/providers/sms24.js:221 | cutting the deduplicated list keeps its properties |
| Seqs.Filter | server.js:55 | keeps exactly the elements that satisfy the test, each as many times as it occurs, and nothing else |
| Seqs.PermutationKeeps | server.js:150-151 | sorting loses no group property |
| Text.Trim | src/providers/sms24.js:245 | the middle of the string between its leading and trailing whitespace |
| Text.TrimEmptyIffBlank | src/providers/sms24.js:245-246 | trimming gives "" iff the string is all whitespace |
| Text.StripPlus | server.js:75 | one leading `+` removed, if there is one |
| Text.Lower | server.js:54 | ASCII letters folded, other characters kept, same length |
| Text.Utf16Length | src/providers/sms24.js:239 | `length` counts UTF-16 units, one or two per character, so it lies between the character count and twice it |

## Left out

- Browser and HTML parsing. The model leaves out puppeteer launch, page creation, `goto` itself, `page.content()`, cheerio selector matching and browser close. Selector results come in as records of strings. A list page is `None` when its navigation or cookie loading threw. Browser launch failure is not modelled.
- The file system:
  - reading the cookie file in `loadCookies`;
  - the `debug.html` and `last_failed.html` writes;
  - the cookie-file read and the self-running browser script in `src/utils/simple.js`.
- `toIso` and `Date.now()`. `toIso` is a function parameter, and a clock reading is a number field of the input record. The time part of the `fb-<now>-<i>` ids is dropped; only the index is kept.
- The legacy layout's `From:` cut regular expression. Its result depends on backtracking, on greedy `[^\n]+` and on `.` not matching a newline, so it is a function parameter.
- `localeCompare`. Country names are sorted by code-point order, which stands in for it. Locale collation is not claimed.
- `new URL(baseUrl).hostname`: the host name is a parameter.
- Timers and aborts: the 2-second pause between list pages, the navigation and fetch time-outs, the `AbortController` of `politeFetch`, and the actual sleeping between retries. Back-off pauses are returned as numbers.
- Express wiring, rate limiting, CORS, `app.listen`, the health and status routes, console output and HTTP status codes. The routes are modelled by the bodies they send.
- cli.js, scripts/test-sm24.js and scripts/test-numbers.js: interactive and network-driven scripts with no logic of their own.
- Unicode beyond ASCII in `toLowerCase`. Only `A`–`Z` are folded; other letters are kept. Whitespace for `trim` and `\s` is the full ECMAScript whitespace and line-terminator set.
- Messages.FallbackSender: the trailing `|| 'unknown'` is not written out, because `cleanFrom` never returns "".
- NumbersCache.GetNumbersCached: each call is modelled as atomic. Requests overlap in the server: two misses can both be scraping at once, and the last scrape to finish overwrites the cache with its own list, stamped with the clock it read before its scrape began. Such overlapping calls are not modelled, so NumbersCache.ServedUntilExpiry holds only for calls that do not overlap a scrape.
- Server.FilterByCountry: a `?country` given twice arrives as an array, whose `trim` throws. The model takes the query as a string.
- Http.RequestHeaders: header names are compared as written, as the object spread does. The HTTP client's case-insensitive handling of names is not modelled.
- Normalize.ExtractOtp and Normalize.NormalizePhone: non-string inputs, which `String(...)` or `replace` would coerce or reject, are not modelled. The input is an optional string.
- Cookies.FloorOf: a `NaN` expiration date is falsy in JavaScript and has no `real` counterpart. Non-boolean flag values are modelled as absent or boolean.
- Listing.GetNumbers: the list-page URL `/en/numbers/page/<n>` is not built; page n's outcome is given directly.
- Countries.ListCountries: the per-group first name and code, and the distinct keys, are proved for Countries.GroupCountries before the sort. They are not restated for the sorted list.
- Args.Arg: a name that itself contains `=` would make the value start inside the prefix. The caller only asks for `phone`, so only Args.ArgValue's name-without-`=` case is proved.
