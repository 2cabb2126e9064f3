# Reservation understanding of the voice restaurant assistant

This project models the part of the assistant that works out what a caller wants:

- the rule-based intent classifier `fallback_process`;
- the temporal resolver `parse_reservation_time`, which finds a reservation date-time and a party size in an utterance;
- the hours responder `get_hours_info` and the menu responder `get_menu_info`;
- the deterministic part of `process_with_gemini`: whether the language model is consulted, how a JSON candidate is cut out of its reply, and when the assistant falls back to the rules.

All four live in `app/routes.py`.

Each regular expression the source uses is written as a matcher. A matcher says whether the engine's attempt at position `i` succeeds and what it captures. `Scan.Leftmost` then gives the semantics of `re.search`, and the loop `Scan.Search` is proved to compute it.

Time is a local date-time in the restaurant's fixed zone. The date is a day ordinal, where day 1 is a Monday as in Python's `date.toordinal`, followed by hour, minute, second and microsecond. The order on these values is lexicographic. The clock reading, the `dateparser.parse` result, the model's reply and `json.loads` are all inputs: the first two are values, and `json.loads` is a function `string -> Option<Json>`.

Several failures of the source are modelled as values of `Faults.Fault`, because the source does not catch them:

- `datetime.replace` raising on an hour or minute that is out of range;
- the unbound `gemini_model`;
- an unreadable `response.text`.

Modules, one per file:

- `Wrappers` and `Faults` (`wrappers.dfy`);
- `Text`: lower-casing, whitespace, digits, substring tests, join;
- `Scan`: first-match scanning and `\s*`/`\d+` runs;
- `Clock`;
- `ReservationTime`;
- `RestaurantInfo`;
- `Fallback`;
- `Gemini`;
- two files of worked examples: `ResolverExamples` and `GeminiExamples`.

Facts about the code that the model keeps:

- The code accepts a party size of 0, as in "0 people"; nothing requires the party size to be positive.
- For "table for 4 tomorrow at 7pm" the code gives party size 2, not 4, because "4" is not followed by people, person or guest. `ResolverExamples.TomorrowAtSevenPmHasNoPartySize` shows this, and `ReservationTime.PartySizeIndependent` shows it holds whatever the date parser returns.
- The result is not guaranteed to lie strictly in the future:
  - a `dateparser` result on an earlier date is returned unchanged;
  - a pattern time equal to `now` is not moved.

  `ReservationTime.PatternTimesNotPast` proves the property that does hold: a pattern time is never before `now`.
- The model's decoded object is returned as soon as it has an `intent` key (lines 118-120). Nothing checks `reservation_details` or any other key.

## Model

| member | source | states |
|---|---|---|
| `Scan.Leftmost` | app/routes.py:174 | the `re.search` result: the first position from `from` where the pattern matches, with no match before it; none exactly when no position matches |
| `Scan.Rightmost` | app/routes.py:114 | the last position below `upto` where the pattern matches, with no match after it; none exactly when none matches |
| `Scan.LeftmostIsUnique` | app/routes.py:174 | any match with no match before it is the `re.search` result |
| `Scan.Search` | app/routes.py:222 | the left-to-right scan returns exactly the leftmost match |
| `Scan.SkipSpace` | app/routes.py:174 | greedy `\s*`: every skipped character is whitespace and the one after the run is not |
| `Scan.SkipDigits` | app/routes.py:222 | greedy `\d+`: every skipped character is a digit and the one after the run is not |
| `Text.Lower` | app/routes.py:128 | `lower()`: same length, every character lowered one by one |
| `Text.Capitalize` | app/routes.py:240 | `capitalize()`: same length, the first character upper-cased and the rest lower-cased |
| `Text.IsSpace` | app/routes.py:107 | `str.isspace` and `\s` on one character: the ASCII and Unicode whitespace code points (definition, used by `Scan.SkipSpace`) |
| `Text.DigitsValue` | app/routes.py:176 | `int()` of a run of ASCII digits, most significant first (definition; `ReservationTime.ShortNumber` bounds it below 100 for at most two digits) |
| `Text.Contains` | app/routes.py:130 | the `in` test on strings: some position holds the word (definition; `Text.ContainsAt`, `Text.ContainsTransitive` and `Text.JoinContainsItem` give its properties) |
| `Text.ContainsAt` | app/routes.py:130 | a word found at one position is contained |
| `Text.ContainsTransitive` | app/routes.py:133-136 | a word contained in a contained word is contained |
| `Text.Join` | app/routes.py:249 | `str.join` (definition; its property is the row below) |
| `Text.JoinContainsItem` | app/routes.py:249 | the joined text contains each item |
| `Clock.Before` | app/routes.py:214 | `parsed_date < now_ist`: compares the date first, then hour, minute, second and microsecond (definition; its properties are the two rows below) |
| `Clock.BeforeIsTimeline` | app/routes.py:214 | the lexicographic comparison agrees with comparing instants as microsecond counts on one timeline |
| `Clock.WeekdayOf` | app/routes.py:236 | the weekday of an ordinal date; Mondays are exactly the ordinals that are 1 mod 7 |
| `Clock.NextDay` | app/routes.py:216 | `timedelta(days=1)`: the very next date at the same time of day, which is later and on another date |
| `Clock.BeforeIsStrictTotalOrder` | app/routes.py:214 | the comparison of date-times is irreflexive, asymmetric, transitive and total |
| `Clock.NextDayWeekday` | app/routes.py:245 | the weekday of the next date is the next weekday mod 7 |
| `ReservationTime.HourDigitsEnd` | app/routes.py:174 | greedy `\d{1,2}`: two characters exactly when the second one is a digit, else one |
| `ReservationTime.OclockAt` | app/routes.py:174 | the o'clock pattern tried at one position: it matches exactly when a digit starts there and "o'clock" follows the one or two digits after optional whitespace; the captured hour is the number those digits spell, below 100 |
| `ReservationTime.MeridiemAt` | app/routes.py:191 | the `am|pm|a.m.|p.m.` alternative at one position, ignoring case: it matches exactly when one of the four markers starts there, and it reads afternoon exactly for pm or p.m. |
| `ReservationTime.MinutedMeridiem` | app/routes.py:191 | the branch with the optional `:\d{2}` present: a colon and two digits, optional whitespace, then a marker (definition, used by the row below) |
| `ReservationTime.AmPmAt` | app/routes.py:191 | the am/pm pattern tried at one position: it matches exactly when a digit starts there and either the minuted branch or, failing that, a marker after optional whitespace follows the one or two hour digits; the hour is the number those digits spell; in the minuted branch the minute is the two digits after the colon and the marker is the one after them, otherwise the minute is 0; pm holds exactly for a pm or p.m. marker; hour and minute are below 100 |
| `ReservationTime.EveningHour` | app/routes.py:178-179 | the o'clock evening bias (definition; its property is `ReservationTime.EveningBias`) |
| `ReservationTime.To24Hour` | app/routes.py:197-200 | the 12-to-24-hour conversion (definition; its property is `ReservationTime.TwelveHourClock`) |
| `ReservationTime.BaseDay` | app/routes.py:183-186 | today's date, or tomorrow's when the lower-cased utterance contains "tomorrow"; the same rule is repeated at lines 204-209 (definition, used by both patterns) |
| `ReservationTime.OclockAttempt` | app/routes.py:174-189 | the o'clock strategy (definition; its contract is `ReservationTime.OclockReading`) |
| `ReservationTime.AmPmAttempt` | app/routes.py:191-212 | the am/pm strategy (definition; its contract is `ReservationTime.AmPmReading`) |
| `ReservationTime.FirstAttempt` | app/routes.py:167-212 | the strategies in source order: `dateparser`, then o'clock, then am/pm (definition; its contracts are `ReservationTime.DateparserResultWins`, `ReservationTime.UnresolvedExactly` and `ReservationTime.RaisesExactly`) |
| `ReservationTime.PartyAt` | app/routes.py:222 | the party pattern tried at one position: it matches exactly when a digit starts there and people, person or guest follows the whole run of digits after optional whitespace; the number is the one that run spells |
| `ReservationTime.Resolve` | app/routes.py:160-232 | the resolver as a function: only a pattern can raise, and only with an out-of-range date; a resolved reservation carries `PartySize` of the utterance and is not before `now` when it falls on today's date |
| `ReservationTime.AtTime` | app/routes.py:188 | `replace(hour, minute, 0, 0)` succeeds exactly when hour < 24 and minute < 60, giving that time on the given date |
| `ReservationTime.RollForward` | app/routes.py:214-216 | a time before `now` on today's date moves exactly one day; every other time is unchanged; a same-day result is never before `now` |
| `ReservationTime.PartySize` | app/routes.py:221-224 | the number captured by the first "digits people/person/guest(s)" match, or 2 when there is none |
| `ReservationTime.ParseReservationTime` | app/routes.py:160-232 | the step-by-step resolver returns exactly the specification `Resolve` |
| `ReservationTime.DateparserResultWins` | app/routes.py:167-173 | a `dateparser` result is used, rolled forward, and neither pattern is consulted |
| `ReservationTime.OclockReading` | app/routes.py:174-189 | when the oracle fails, the first "N o'clock" match decides: hour `EveningHour(N)`, minute 0, base day today or tomorrow, rolled forward; an hour over 23 raises |
| `ReservationTime.AmPmReading` | app/routes.py:191-212 | when the oracle and o'clock fail, the first am/pm match decides with the 12-to-24-hour conversion and its minute; out-of-range values raise |
| `ReservationTime.UnresolvedExactly` | app/routes.py:173-232 | the result is `None` exactly when the oracle and both patterns fail |
| `ReservationTime.RaisesExactly` | app/routes.py:188-211 | the resolver raises exactly when the deciding pattern gives an hour or minute out of range |
| `ReservationTime.PatternTimesNotPast` | app/routes.py:181-216 | a pattern time is not before `now`, lies on today's or tomorrow's date, and has zero seconds and microseconds |
| `ReservationTime.PartySizeIndependent` | app/routes.py:221-224 | the party size does not depend on `now` or on which strategy produced the date |
| `ReservationTime.TwelveHourClock` | app/routes.py:197-200 | for 1..12 the conversion keeps the hour mod 12, stays below 24, and gives an afternoon hour exactly for pm |
| `ReservationTime.EveningBias` | app/routes.py:178-179 | 5..10 o'clock become 17..22, that is, the same as pm; every other hour is unchanged |
| `ResolverExamples.NineOclockInTheMorning` | app/routes.py:174-189 | "book a table at 9 o'clock" said at 08:00 resolves to 21:00 the same day, for 2, when `dateparser` finds nothing |
| `ResolverExamples.TomorrowAtSevenPmHasNoPartySize` | app/routes.py:222-224 | "table for 4 tomorrow at 7pm" has no party-size match |
| `ResolverExamples.TomorrowAtSevenPmAtTen` | app/routes.py:191-224 | that utterance at 10:00 resolves to 19:00 the next day, for 2, when `dateparser` finds nothing |
| `ResolverExamples.SevenPmAfterNine` | app/routes.py:214-216 | "7pm" at 21:00 has passed today and resolves to 19:00 tomorrow, when `dateparser` finds nothing |
| `RestaurantInfo.FirstNamedDayFrom` | app/routes.py:238-240 | the first weekday, in Monday..Sunday order, whose name occurs; none occur before it; none when no name occurs |
| `RestaurantInfo.HoursInfo` | app/routes.py:234-250 | the hours reply as a function (definition; its contract is the row below) |
| `RestaurantInfo.HoursInfoCases` | app/routes.py:234-250 | the first named weekday selects that day's sentence; otherwise "today" selects today; otherwise "tomorrow" selects the next weekday; otherwise all days are listed |
| `RestaurantInfo.GetHoursInfo` | app/routes.py:234-250 | the loop with early return gives exactly `HoursInfo` |
| `RestaurantInfo.MenuInfo` | app/routes.py:252-254 | the menu sentence names every menu highlight |
| `RestaurantInfo.MenuIgnoresInput` | app/routes.py:252 | the menu reply is the same whatever was said |
| `RestaurantInfo.WeekListingCoversEveryDay` | app/routes.py:249-250 | the all-days listing holds each weekday's own "Day: hours" entry, and so names every weekday and gives its hours |
| `RestaurantInfo.TomorrowWrapsRound` | app/routes.py:245-246 | tomorrow is today + 1, and after Sunday comes Monday |
| `RestaurantInfo.TomorrowIsNextDate` | app/routes.py:236 | "tomorrow" picks the weekday of the next calendar date |
| `RestaurantInfo.HoursIgnoreCase` | app/routes.py:239-244 | the hours reply does not depend on the letter case of the input |
| `Fallback.Mentions` | app/routes.py:130-136 | `any(word in user_input for word in ...)` on the lower-cased utterance (definition, used by the row below) |
| `Fallback.Classify` | app/routes.py:128-152 | hours if an hours keyword occurs; else menu if a menu keyword occurs; else reservation if a reservation keyword occurs; else unknown, each as an if-and-only-if |
| `Fallback.FallbackProcess` | app/routes.py:126-157 | the intent is the classification; reservation details are present exactly for a reservation whose time resolved, with the confirmation for that time and party; every other reply is a plain sentence; only a raising resolver makes it raise |
| `Fallback.RepliesByCategory` | app/routes.py:130-152 | the exact reply for hours, menu, an unresolved reservation, and unknown |
| `Fallback.ClassifyIgnoresCase` | app/routes.py:128 | classification does not depend on letter case |
| `Fallback.SeatIsNeverReservation` | app/routes.py:133-136 | an utterance containing "seat" is never a reservation, because "eat" is a menu keyword |
| `Fallback.ReserveIsNeverReservation` | app/routes.py:133-136 | an utterance containing "reserve" is never a reservation, because "serve" is a menu keyword |
| `Fallback.HoursWordWins` | app/routes.py:130-131 | an hours keyword decides the category whatever else is said |
| `Fallback.NoLetterMentionsNothing` | app/routes.py:130-136 | an utterance without letters contains none of a list of words that start with a letter |
| `Fallback.BareNumberIsUnknown` | app/routes.py:128-152 | "42" mentions no keyword and is classified unknown |
| `Gemini.GeminiResult` | app/routes.py:73-124 | the corrected flow, with the two defects under "Findings" removed: the model's object is returned exactly when the model is set up, the reply is readable, its candidate decodes and the decoded value has an "intent" key; otherwise the rule-based answer |
| `Gemini.GeminiResultAsWritten` | app/routes.py:73-124 | as in the source: with no API key it raises a name error; when the reply text is unreadable it raises from the handler |
| `Gemini.ProcessWithGemini` | app/routes.py:73-124 | the corrected flow step by step: reassigning the reply text as at lines 104-116 gives exactly the corrected `GeminiResult` |
| `Gemini.LeadsWithBrace` | app/routes.py:107 | `response_text.strip().startswith('{')`: the first non-whitespace character is `{` (definition, used by `Gemini.CandidateOrder`) |
| `Gemini.HasIntent` | app/routes.py:119 | the decoded value is an object with an `intent` key (definition, used by `Gemini.GeminiResult`) |
| `Gemini.FenceAt` | app/routes.py:109 | the fenced-block pattern tried at one position: it matches exactly when "```json" starts there and three backquotes occur somewhere from the start of the body on; its body occurs in the text right after the whitespace that follows, and a closing fence follows the body after optional whitespace; the body ends at the first position from which optional whitespace and "```" follow |
| `Gemini.NoClosingFence` | app/routes.py:109 | when no closing fence is found from a position, no three backquotes occur from there on |
| `Gemini.BraceAt` | app/routes.py:114 | the brace pattern tried at one position: a match is a piece of the text at that position, at least two characters long, opening with `{` and closing with `}`; a `{` before the last `}` of the text matches up to that last `}` |
| `Gemini.JsonCandidate` | app/routes.py:107-116 | the text handed to `json.loads`; whatever is chosen is a substring of the reply |
| `Gemini.LazyGroupEndsOnText` | app/routes.py:109 | the lazy body of a fenced block never ends on whitespace |
| `Gemini.LazyGroupHasNoFence` | app/routes.py:109 | the lazy body of a fenced block holds no closing fence |
| `Gemini.FenceBodyTrimmed` | app/routes.py:109-111 | the extracted fenced body has no whitespace at either end and contains no three backquotes |
| `Gemini.BraceSpanFirstToLast` | app/routes.py:114-116 | the brace pattern matches exactly when the first `{` comes before the last `}`, and captures the text from the one to the other |
| `Gemini.CandidateOrder` | app/routes.py:107-116 | the candidate order: the whole text when it leads with `{`; else the first fenced body; else first `{` to last `}`; else the text |
| `Gemini.MissingApiKeyRaises` | app/routes.py:75-77 | without an API key the source raises while the corrected flow gives the rule-based answer |
| `Gemini.MissingApiKeyOnBareNumber` | app/routes.py:75-77 | for the utterance "42" the source raises, where the rules would answer "unknown" |
| `Gemini.UnreadableReplyRaises` | app/routes.py:121-124 | an unreadable reply text makes the source raise, where the corrected flow gives the rule-based answer |
| `Gemini.AsWrittenAgreesOtherwise` | app/routes.py:73-124 | outside those two situations the source and the corrected flow agree |
| `GeminiExamples.FencedReplyCandidate` | app/routes.py:109-111 | from "Sure:", a newline and a fenced `{}` block, the candidate is `{}` |
| `GeminiExamples.GreedyReplyCandidate` | app/routes.py:114-116 | from "a {} b {} c" the candidate is "{} b {}", because the span is greedy |

## Left out

- The Twilio endpoints `voice_response` and `process_voice`, the Flask blueprint and `configure_routes`, and `app.py`: telephony and web I/O.
- The calendar event with its two-hour end computed in `process_voice`: calendar I/O.
- Reading the environment and the credentials, and constructing the clients. Only their outcome for the model is kept, as `Gemini.ModelSetup`.
- Appending to the conversation log, and all logging: side effects only.
- The prompt text and the `generate_content` call: a network call, whose outcome is the input `Gemini.ModelReply`.
- `dateparser.parse` and `json.loads`: library internals, taken as oracles. Floating-point JSON numbers are not modelled.
- The `strftime` and `isoformat` wording of the confirmation sentence and of the details: calendar formatting. The details carry the date as a day ordinal, and the confirmation is kept as its date-time and party size.
- Time zones: the restaurant's zone is a fixed offset, so all times are local. The clock reading `now` is an input, and one reading serves both the hours responder and the resolver. The source reads the clock separately in each.
- Date overflow when adding a day to the last representable date.
- Text handling is ASCII-only in the following ways:
  - lower-casing and `re.IGNORECASE` cover ASCII letters only;
  - `\d` covers the ASCII digits only.

  Whitespace follows Python's `str.isspace` in full.
- ReservationTime.PartySize: the model returns the value of any run of digits. From CPython 3.11 on, `int()` at line 224 raises `ValueError` for a run longer than 4300 digits; that limit is not modelled.
- `Leftmost`: the per-position matchers follow the backtracking of each pattern. They do not model a general regular-expression engine.

## Findings

| source | as written | input that shows it | evidently intended | confidence | as-written member | corrected member |
|---|---|---|---|---|---|---|
| app/routes.py:75 | when `GOOGLE_API_KEY` is unset, `gemini_model` is never bound, so `if not gemini_model` raises `NameError` | no API key, any non-empty utterance, e.g. "42" | fall back to `fallback_process`, as the comment at line 76 says | high, not executed | `Gemini.MissingApiKeyOnBareNumber` | `Gemini.GeminiResult` |
| app/routes.py:123 | when `response.text` raises at line 104, the handler evaluates `response.text` again because `response` is bound, so the exception escapes | a model reply without text parts, e.g. a blocked reply | log and fall back to `fallback_process` | medium, not executed | `Gemini.UnreadableReplyRaises` | `Gemini.GeminiResult` |
