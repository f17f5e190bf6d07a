# Receipt processor: verified model

The receipt processor is a small HTTP service written in Go. A client
POSTs a JSON receipt to `/receipts/process`. The service validates the
receipt and scores it. It then stores the points under a freshly drawn
UUID and answers with that id. A later `GET /receipts/{id}/points`
answers the stored points, or 404 for an unknown id. Every other request
that reaches the handler gets 400 "Bad request". Go's default request
multiplexer sits in front of the handler. It answers a path with repeated
slashes or `.`/`..` segments with a 301 redirect to the cleaned path, so
such a path never reaches the handler.

The model covers the logic of `main.go`:

- **The validator and scorer `calculatePoints`.**
  - Validation: every one of the five receipt fields and both fields of each item must be present. The purchase time, split on `:`, must give two parts that `strconv.Atoi` reads, with the hour in 0..23 and the minute in 0..59. The purchase date must parse under Go's layout `2006-01-02` as a day that exists.
  - Scoring: the score adds seven contributions:
    - one point per ASCII letter or digit of the retailer name;
    - 50 points for a whole-dollar total;
    - 25 points for a total that is a multiple of 0.25;
    - 5 points per pair of items;
    - the ceiling of a fifth of the price, for each item whose trimmed description has a byte length divisible by 3;
    - 10 points for a purchase from 14:00 up to and including 16:00;
    - 6 points for an odd day of the month.
- **The points store.** This is the map from id to points, with `generateId`, the insert in `processReciept` and `getPoints`.
- **The request router `handleRequests`.** It trims the outer `/` from the path, splits it on `/`, and dispatches on the method and the segments.

Modules:

| file | module | contents |
|---|---|---|
| `wrappers.dfy` | `Wrappers` | `Option` |
| `strings.dfy` | `Strings` | Go's `strings.Split`, `strings.Trim`, `strings.TrimSpace`, `len` as a UTF-8 byte count, the `[^a-zA-Z0-9]+` filter |
| `strconv.dfy` | `Strconv` | Go's `strconv.Atoi`; decimal digit strings |
| `calendar.dfy` | `Calendar` | `time.Parse("2006-01-02", ·)`, Go's leap-year and days-in-month rules |
| `money.dfy` | `Money` | exact decimal amounts and the three money rules |
| `scorer.dfy` | `Scorer` | the receipt shape, the validation and scoring rules (`Score`), `calculatePoints` as a method with its two item loops (`CalculatePoints`), and the scorer as written, null dereferences included (`ScoreAsWritten`) |
| `scorer_examples.dfy` | `ScorerExamples` | worked receipts and boundary cases, and the inputs behind the findings |
| `store.dfy` | `Store` | the points store as a class over a `map`, and the id supply |
| `routing.dfy` | `Routing` | the route classifier |
| `server.dfy` | `Server` | `processReciept`, `getPoints` and `handleRequests`: `Respond` states their behaviour as a function, and the methods perform it on the store |

Modelling decisions:

- **Receipts.** A receipt is the value the JSON decoder produces. Each pointer field becomes an `Option`, and so does each element of the item list. The body `null` decodes to a null receipt, `None`.
- **Strings.** A string is a sequence of Unicode scalar values. A string decoded from JSON is valid UTF-8, so it is such a sequence. The URL path that `Routing.Classify` takes is not always valid UTF-8: percent-decoding can put any byte into it (`%FF`). Such bytes can only sit in the id segment of a lookup, and an id holding them is never a key of the store (every key is a UUID), so the answer is still 404. Go's `len` is the byte length of the UTF-8 encoding (`Utf8Len`).
- **Money.** Amounts are exact decimals `Decimal(units, scale)`, worth `units / 10^scale`.
  - "total equals its floor" becomes `units % 10^scale == 0`.
  - "total / 0.25 is integral" becomes `4 * units % 10^scale == 0`.
  - `ceil(price * 0.2)` becomes the ceiling of `units / (5 * 10^scale)`.
- **Ids.** The UUID generator becomes a sequence of candidate ids. `generateId` takes the first candidate that is not yet a key.
- **Outcomes.** The scorer's result is `Ok(points)` or `Invalid`. A request's result is a `Reply` and the new contents of the store.

## Model

| member | source | states |
|---|---|---|
| Strings.Split | main.go:79 | `strings.Split` on one character: the result is never empty; `SplitPieces` and `SplitJoin` pin it down |
| Strings.SplitPieces | main.go:79 | `strings.Split` on one character: there is one more piece than there are separators, no piece holds the separator, and joining the pieces with the separator gives back the input |
| Strings.SplitJoin | main.go:200 | splitting the join of one or more separator-free pieces gives back exactly those pieces |
| Strings.TrimSpace | main.go:129 | `strings.TrimSpace` over the Unicode White_Space set; `TrimSpaceKeepsMiddle` and `TrimSpaceSurrounded` pin it down |
| Strings.TrimSpaceKeepsMiddle | main.go:129 | `strings.TrimSpace` returns a slice of its input that neither starts nor ends with white space, and everything it cuts off on either side is white space |
| Strings.TrimSpaceSurrounded | main.go:129 | white space around a middle that starts and ends with other characters is removed exactly, and the middle is kept whole |
| Strings.Trim | main.go:200 | `strings.Trim(s, cutset)`; `TrimKeepsMiddle`, `TrimSurrounded` and `TrimEquals` pin it down |
| Strings.TrimKeepsMiddle | main.go:200 | `strings.Trim(s, cutset)` returns a slice of its input that neither starts nor ends with a cut character, and everything it cuts off on either side is made of cut characters |
| Strings.TrimEquals | main.go:200 | for a middle that starts and ends with kept characters, `Trim(s, cutset)` is that middle exactly when `s` is the middle with only cut characters before and after it |
| Strings.TrimSurrounded | main.go:200 | `strings.Trim(s, cutset)` removes exactly the cut characters around a middle that starts and ends with kept characters |
| Strings.Utf8Len | main.go:116 | Go's `len` on a string: the byte length of its UTF-8 encoding, never less than the number of characters; `Utf8LenAscii` gives equality on ASCII text |
| Strings.Utf8LenAscii | main.go:116 | Go's byte length equals the number of characters exactly when every character is ASCII |
| Strings.StripNonAlnum | main.go:114 | removing the runs of non-alphanumerics leaves only ASCII letters and digits, and never lengthens the string |
| Strings.StripNonAlnumAppend | main.go:114 | the filter works character by character: filtering a concatenation concatenates the filtered parts |
| Strings.StripNonAlnumKeepsAlnum | main.go:114 | a string of ASCII letters and digits passes the filter unchanged |
| Strconv.Atoi | main.go:85-90 | `strconv.Atoi` succeeds only on an optional sign followed by at least one ASCII digit, with the value in the int64 range, and the value is negative only after a `-` |
| Strconv.AtoiAccepts | main.go:85-90 | a digit string in range is read as its decimal value, also with a leading `+`, and negated after a `-` |
| Strconv.AtoiPadded | main.go:85-90 | a zero-padded rendering of a number is read back as that number |
| Strconv.PadDigitsValue | main.go:100-101 | a number below 10^width, zero-padded to that width, reads back as the same number |
| Strconv.DigitsValuePad | main.go:100-101 | a digit string is the zero-padded rendering of its own value |
| Calendar.DaysIn | main.go:100-101 | a month has 28 to 31 days, and February has 29 exactly in a leap year |
| Calendar.ParseDate | main.go:100-104 | a date accepted under the layout `2006-01-02` names an existing day of a year from 0000 to 9999 |
| Calendar.ParseFormatDate | main.go:100-101 | every existing day of the years 0000 to 9999 is accepted in its `YYYY-MM-DD` form and read back as that day |
| Calendar.FormatParseDate | main.go:100-101 | every accepted string is the canonical `YYYY-MM-DD` form of the day it names |
| Calendar.ParseDateOfFields | main.go:100-104 | a string of four digits, a dash, two digits, a dash and two digits is accepted exactly when the day it spells exists, and then it is that day |
| Calendar.ParseDateDigits | main.go:100-104 | the same, character by character: the date's value is read off its ten characters |
| Calendar.LeapDay2024Accepted | main.go:100-104 | 2024-02-29 is accepted |
| Calendar.LeapDay2000Accepted | main.go:100-104 | 2000-02-29 is accepted (a century divisible by 400 is a leap year) |
| Calendar.LeapDay2023Rejected | main.go:100-104 | 2023-02-29 is rejected |
| Calendar.LeapDay1900Rejected | main.go:100-104 | 1900-02-29 is rejected (a century not divisible by 400 is not a leap year) |
| Calendar.ThirtyFirstOfAprilRejected | main.go:100-104 | 2022-04-31 is rejected |
| Calendar.ThirteenthMonthRejected | main.go:100-104 | a 13th month is rejected |
| Calendar.MalformedLayoutRejected | main.go:100-104 | a one-digit month and trailing text are rejected |
| Money.IsWhole | main.go:118 | `total - math.Floor(total) == 0` on an exact decimal; `CentsRules` and `RescaleKeepsAnswers` pin it down |
| Money.IsQuarterMultiple | main.go:122 | `total / 0.25 - math.Floor(total / 0.25) == 0` on an exact decimal; `WholeIsQuarterMultiple`, `CentsRules` and `RescaleKeepsAnswers` pin it down |
| Money.FifthCeil | main.go:130 | `math.Ceil(price * 0.2)` on an exact decimal; `FifthCeilIsCeiling` gives it as the least `n` with `price <= 5 * n` |
| Money.CeilDivIsCeiling | main.go:130 | the ceiling division gives the least integer `n` with `a <= n * d` |
| Money.FifthCeilIsCeiling | main.go:130 | the item bonus is the least integer `n` with `price <= 5 * n`, i.e. `ceil(price * 0.2)` |
| Money.FifthCeilNonNegative | main.go:130 | a non-negative price earns a non-negative bonus |
| Money.WholeIsQuarterMultiple | main.go:118-124 | a whole amount is also a multiple of 0.25 |
| Money.RescaleKeepsAnswers | main.go:118-130 | the three money rules give the same answers however many decimal places the amount is written with |
| Money.RescaleKeepsFifthCeil | main.go:130 | the item bonus does not change when a zero digit is appended to the amount |
| Money.CentsRules | main.go:118-130 | in cents: whole exactly when divisible by 100, a quarter multiple exactly when divisible by 25, and the item bonus is the ceiling of cents / 500 |
| Scorer.ParseTime | main.go:79-97 | an accepted time has an hour in 0..23 and a minute in 0..59 |
| Scorer.ParseTimeOneColon | main.go:79-83 | an accepted time holds exactly one `:` |
| Scorer.ParseTimeOfParts | main.go:79-97 | a time with one colon is accepted exactly when `Atoi` reads both sides with the hour in 0..23 and the minute in 0..59, and then it is that hour and minute |
| Scorer.ParseTimeFormat | main.go:79-97 | every clock time 00:00 to 23:59 is accepted in its `HH:MM` form |
| Scorer.RetailerPoints | main.go:114-116 | the byte length of the retailer name with its non-alphanumerics removed; `RetailerPointsCountsKept`, `RetailerPointsPerCharacter` and `RetailerPointsAllAlnum` pin it down |
| Scorer.RetailerPointsCountsKept | main.go:114-116 | the retailer contribution is the number of characters the filter keeps, and at most the name's length |
| Scorer.RetailerPointsPerCharacter | main.go:114-116 | inserting a character anywhere in the name adds one point when it is an ASCII letter or digit and nothing otherwise |
| Scorer.RetailerPointsAllAlnum | main.go:114-116 | a name made only of letters and digits scores its length |
| Scorer.TotalPoints | main.go:118-124 | 50 for a whole total plus 25 for a multiple of 0.25; `TotalPointsCases` and `TotalPointsInCents` pin it down |
| Scorer.TotalPointsCases | main.go:118-124 | a whole total earns 75, any other multiple of 0.25 earns 25, and every other total earns 0 |
| Scorer.TotalPointsInCents | main.go:118-124 | for a total with two decimals: 75 when the cents are divisible by 100, else 25 when they are divisible by 25, else 0 |
| Scorer.PairPoints | main.go:126 | 5 points per complete pair of items; `PairPointsPerPair` pins it down |
| Scorer.PairPointsPerPair | main.go:126 | the pair bonus is 5 times `k`, for `2k` or `2k + 1` items |
| Scorer.Qualifies | main.go:129 | an item qualifies when its trimmed description has a UTF-8 byte length divisible by 3; `LinePointsRule` uses it |
| Scorer.LinePoints | main.go:129-130 | the bonus of one item: `ceil(price * 0.2)` if it qualifies, else 0; `LinePointsRule` pins it down |
| Scorer.LinePointsRule | main.go:128-131 | a qualifying item earns the least `n` with `price <= 5 * n`; any other item earns nothing |
| Scorer.LinesPoints | main.go:128-132 | the sum of the item bonuses over the item list; `LinesPointsAppend`, `LinesPointsNoneQualify` and `LinesPointsNonNegative` pin it down |
| Scorer.LinesPointsAppend | main.go:128-132 | the description bonus of a list of items is the sum of the bonuses of its parts |
| Scorer.LinesPointsNoneQualify | main.go:128-132 | items none of which qualifies earn no description bonus |
| Scorer.LinesPointsNonNegative | main.go:128-132 | with no negative price, the description bonus is not negative |
| Scorer.AfternoonPoints | main.go:134-136 | 10 points inside the afternoon window; `AfternoonWindow` pins it down |
| Scorer.AfternoonWindow | main.go:134-136 | for a valid time, the 10 points are paid exactly when the minute of the day lies in [14:00, 16:00] |
| Scorer.OddDayPoints | main.go:138-140 | 6 points for an odd day of the month; `OddDayFromText` pins it down |
| Scorer.OddDayFromText | main.go:138-140 | for an accepted date text, the odd-day bonus is 6 exactly when the last digit of the text is odd |
| Scorer.Points | main.go:113-142 | the sum of the seven contributions; `ScoreAccepts` and `CalculatePoints` tie it to the scorer |
| Scorer.Score | main.go:74-76 | a null receipt, a missing field or an item that is null or lacks a field makes the receipt invalid |
| Scorer.ScoreRejectsMalformed | main.go:79-104 | a malformed purchase time or date makes the receipt invalid |
| Scorer.ScoreAccepts | main.go:113-142 | a complete receipt with a well-formed time and date is scored with the sum of the seven contributions |
| Scorer.ScoreOfFields | main.go:113-142 | the same, for a receipt given field by field |
| Scorer.ScoreNonNegative | main.go:113-142 | when no price is negative, the score is not negative |
| Scorer.CalculatePoints | main.go:68-143 | the service's computation, with its checks in order, its successive additions and its two loops over the items, returns exactly `Score` |
| Scorer.CheckItemsAsWritten | main.go:107-111 | the item loop as written passes exactly when every item is complete, and it reaches a null dereference only when some item is null |
| Scorer.ScoreAsWritten | main.go:68-111 | where the scorer as written returns, it agrees with `Score`; where it dereferences null, `Score` calls the receipt invalid |
| ScorerExamples.TimeThirteenOhOne | main.go:79-97 | "13:01" is 13 h 1 min |
| ScorerExamples.OneDigitMinute | main.go:90-93 | "14:5" is accepted as 14:05, because `Atoi` reads a one-digit minute |
| ScorerExamples.SignedHour | main.go:85-88 | "+14:05" is accepted, because `Atoi` reads a leading sign |
| ScorerExamples.ParseTimeDigits | main.go:79-97 | a time written `HH:MM` is the hour and minute its digits spell when both are in range, and is rejected otherwise |
| ScorerExamples.HourTwentyFourRejected | main.go:85-88 | "24:00" is rejected |
| ScorerExamples.MinuteSixtyRejected | main.go:90-93 | "12:60" is rejected |
| ScorerExamples.ColonCountRejected | main.go:79-96 | "1200" and "12:00:00" are rejected, having no colon and two colons |
| ScorerExamples.FourOClock | main.go:79-97 | "16:00" is 16 h 0 min |
| ScorerExamples.OneMinutePastFour | main.go:79-97 | "16:01" is 16 h 1 min |
| ScorerExamples.AfternoonBoundaries | main.go:134-136 | 14:00 and 16:00 earn the afternoon bonus; 13:59 and 16:01 do not |
| ScorerExamples.TotalExamples | main.go:118-124 | 100.00 earns 75, 35.25 earns 25, 35.35 earns 0 |
| ScorerExamples.SampleRetailer | main.go:114-116 | "M&M" earns 2: the ampersand is dropped |
| ScorerExamples.PaddedLineEarnsOne | main.go:128-131 | " abc " trims to 3 characters and, at 2.25, earns ceil(2.25 * 0.2) = 1 |
| ScorerExamples.ShortLineEarnsNothing | main.go:128-131 | "ab" has 2 characters and earns nothing |
| ScorerExamples.SampleItems | main.go:128-132 | the two sample items are complete and earn 1 + 0 |
| ScorerExamples.SampleTotal | main.go:118-124 | a total of 9.00 earns 50 + 25 |
| ScorerExamples.SampleScores | main.go:113-142 | a receipt from "M&M" totalling 9.00 with those two items is accepted at every valid time and date and scores 2 + 75 + 5 + 1 = 83 plus the afternoon and odd-day bonuses |
| ScorerExamples.SampleAtFourScores99 | main.go:113-142 | at a time that reads 16:00 on a date that reads 2022-03-21, that receipt scores 99 |
| ScorerExamples.SampleAtFourOhOneScores89 | main.go:113-142 | at 16:01 on the same date it scores 89 |
| ScorerExamples.NullBodyPanics | main.go:74 | the body `null` makes the scorer as written dereference a null receipt; the corrected scorer calls it invalid |
| ScorerExamples.NullItemPanics | main.go:107-108 | a receipt whose items are `[null]` makes the scorer as written dereference a null item; the corrected scorer calls it invalid |
| ScorerExamples.NegativeLineEarnsMinusTwenty | main.go:128-131 | an item "abc" priced -100.00 contributes ceil(-100.00 * 0.2) = -20 |
| ScorerExamples.NegativePriceScores | main.go:113-142 | nothing rejects a negative price: a receipt with that item is accepted at every valid time and date, and its score is -20 plus the afternoon and odd-day bonuses, so at most -4 |
| Store.FirstFresh | main.go:184-195 | the id chosen is a candidate not yet in use, and every candidate drawn before it was in use |
| Store.FreshId | main.go:184-195 | the id `generateId` returns: the first candidate that is not a key; `FirstFresh` and `InsertKeepsOthers` pin it down |
| Store.Insert | main.go:172 | the map after `pointsMap[id] = points` under the fresh id; `InsertKeepsOthers` pins it down |
| Store.InsertKeepsOthers | main.go:172 | after recording, the new id was free before, now maps to the points, is the only key added, and every earlier entry is unchanged |
| Store.InsertTwiceDistinct | main.go:184-195 | two receipts recorded one after the other get different ids |
| Store.PointsStore.constructor | main.go:31 | the store starts empty |
| Store.PointsStore.GenerateId | main.go:184-195 | the redraw loop returns the first candidate that is not a key of the store |
| Store.PointsStore.Put | main.go:170-172 | a new entry is recorded under the fresh id, and nothing else changes |
| Store.PointsStore.GetPoints | main.go:44-63 | the lookup finds an entry exactly when the id is a key, and then it gives the stored points |
| Routing.Classify | main.go:198-219 | the route `handleRequests` takes: a lookup only for GET and a submission only for POST; `LookupExactly`, `SubmitExactly`, `LookupOnRawPath`, `SubmitOnRawPath` and `OtherMethodsRejected` characterise it |
| Routing.LookupExactly | main.go:200-208 | a request is a lookup of `id` exactly when it is a GET whose path, without its outer slashes, reads `receipts/{id}/points` and `id` holds no slash (it may be empty) |
| Routing.SubmitExactly | main.go:210-216 | a request is a submission exactly when it is a POST whose path, without its outer slashes, reads `receipts/process` |
| Routing.LookupOnRawPath | main.go:198-208 | a request is a lookup of `id` exactly when it is a GET whose raw path is `receipts/{id}/points` with only slashes before and after it, and `id` holds no slash |
| Routing.SubmitOnRawPath | main.go:198-216 | a request is a submission exactly when it is a POST whose raw path is `receipts/process` with only slashes before and after it |
| Routing.OtherMethodsRejected | main.go:217-218 | any method other than GET and POST is a bad request |
| Routing.LookupAnySlashes | main.go:200-205 | the handler ignores any number of leading and trailing slashes around a lookup path |
| Routing.SubmitAnySlashes | main.go:210-213 | the handler ignores any number of leading and trailing slashes around the submission path |
| Routing.SlashedIdNeverLookedUp | main.go:200-205 | an id containing a slash can never be looked up |
| Routing.CanonicalLookup | main.go:200-205 | `GET /receipts/{id}/points` is a lookup of `id` whenever `id` holds no slash |
| Routing.EmptyIdLookup | main.go:200-205 | the handler classifies `GET /receipts//points` as a lookup of the empty id (the multiplexer redirects that path before it reaches the handler) |
| Routing.SubmitExamples | main.go:200-216 | `POST /receipts/process` and `POST /receipts/process/` submit; `GET /receipts/process` is a bad request |
| Server.Process | main.go:146-181 | `processReciept`: 500 on a read failure, 400 on an undecodable receipt or one the corrected scorer `Score` calls invalid (the null receipt and null items included), and otherwise the fresh id with the score recorded under it; `SubmissionRecordsScore` and `RefusedSubmissionStoresNothing` pin it down |
| Server.LookupReply | main.go:44-63 | `getPoints`: the stored points, or 404 "No receipt found for that id"; `UnknownIdNotFound` and `SubmitThenLookup` use it |
| Server.Respond | main.go:198-219 | `handleRequests`: the handler the route names, or 400 "Bad request"; `OnlyAcceptedSubmissionsWrite` and `SubmitThenLookup` pin it down |
| Server.OnlyAcceptedSubmissionsWrite | main.go:146-181 | only a submission that is routed, decoded and scored changes the store |
| Server.SubmissionRecordsScore | main.go:163-181 | a POST routed to the submission handler whose receipt is valid answers a fresh id, stores the receipt's score under it, adds no other key and keeps every earlier entry |
| Server.RefusedSubmissionStoresNothing | main.go:156-166 | an undecodable receipt, or one the corrected scorer `Score` calls invalid (the null receipt and null items included), answers 400 "The receipt is invalid" and leaves the store as it was |
| Server.UnknownIdNotFound | main.go:59-62 | looking up an id that was never issued answers 404 "No receipt found for that id" |
| Server.SubmitThenLookup | main.go:44-52 | after an accepted submission on any path routed to the submission handler, `GET /receipts/{id}/points` with the id it returned answers the receipt's score |
| Server.ProcessReceipt | main.go:146-181 | the handler on the store gives the reply and the new store that `Process` states |
| Server.GetPoints | main.go:44-63 | the handler answers the stored points or 404, as `LookupReply` states |
| Server.HandleRequests | main.go:198-219 | the dispatcher on the store gives the reply and the new store that `Respond` states |

## Left out

- HTTP plumbing is not modelled: reading the body, headers, writing the status and `http.HandleFunc`/`ListenAndServe`. A read failure is kept as the `Unreadable` body, answered with 500 and its error text.
- JSON decoding and encoding are not modelled. The model starts from the decoded receipt, and a body the decoder refuses is the `Malformed` body. The `,string` number tags and the encoding of the `{"id"}` and `{"points"}` replies are out of scope.
- A failure to encode a reply (main.go:54-57, main.go:177-180) is an I/O error and is not modelled.
- `uuid.NewString` is random, foreign code. It is replaced by a sequence of candidate ids, and the redraw loop's termination becomes the precondition that some candidate is fresh.
- Store.PointsStore.GenerateId: assumes the supply holds a fresh candidate, while the service relies on random UUIDs colliding only with negligible probability.
- Amounts are exact decimals. The service holds them as `float64`. The binary rounding when the JSON decoder turns the decimal text of an amount into a `float64`, and the rounding of `* 0.2`, are not modelled. (`math.Floor`, `math.Ceil` and the division by 0.25 are exact on a `float64`.) The stored points are integers here, not `float64`.
- The global `pointsMap` is accessed without synchronisation by concurrent handlers. Concurrency is out of scope, and the store is single-threaded.
- Go's default request multiplexer (`http.HandleFunc("/", …)` at main.go:223-224) is not modelled. It cleans the URL path and answers a path with repeated slashes or `.`/`..` segments with a 301 redirect before `handleRequests` runs. `Routing.Classify` describes `handleRequests` on whatever path reaches it. So `Routing.EmptyIdLookup` and the runs of several slashes allowed by `Routing.LookupAnySlashes` and `Routing.SubmitAnySlashes` are properties of the handler, not of the running service.
- Server.Process: the handlers use the corrected scorer `Score` of the two findings. A `null` body and a receipt with a `null` item therefore answer 400 "The receipt is invalid" here, while the service as written panics in `calculatePoints` (main.go:74, main.go:108); net/http recovers the panic and closes the connection without a reply. The as-written behaviour is stated at the scorer level only, by `Scorer.ScoreAsWritten`, `ScorerExamples.NullBodyPanics` and `ScorerExamples.NullItemPanics`. The same holds for `Server.Respond`, `Server.RefusedSubmissionStoresNothing` and the two handler methods.
- `time.Parse` is modelled only for the fixed layout `2006-01-02`, on years 0000 to 9999.
- The service's documentation presents scores as never negative. The code does not reject a negative price, so a receipt can score below zero (`ScorerExamples.NegativePriceScores`). The model follows the code. `Scorer.ScoreNonNegative` proves non-negativity only when no price is negative.
- The documentation's sample receipts are not restated letter for letter. `ScorerExamples.SampleScores` exercises every rule on a shorter receipt instead.

## Findings

| source | as written | input that shows it | evidently intended | confidence | as-written member | corrected member |
|---|---|---|---|---|---|---|
| main.go:74 | `calculatePoints` reads `receipt.Retailer` without checking that `receipt` itself is non-nil | the request body `null`, which `json.Unmarshal` decodes into a nil `*Receipt` without error | answer 400 "The receipt is invalid" | not executed | ScorerExamples.NullBodyPanics | Scorer.Score |
| main.go:108 | the item loop reads `(*receipt.Items)[i].ShortDescription` without checking that the item is non-nil | a receipt otherwise valid with `"items": [null]` | answer 400 "The receipt is invalid" | not executed | ScorerExamples.NullItemPanics | Scorer.CalculatePoints |
