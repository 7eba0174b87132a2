# Lead-capture backend of psicologianavet-website, in Dafny

The site collects e-mail subscriptions for two mailing lists, tutors and
vets, and watches for bots. This project models the server side of that
flow and proves properties of it:

- **Configuration** (`BotDetectionConfig`): thresholds and switches built
  from environment strings with fixed defaults, and the detection reasons.
- **Telemetry log** (`BotDetectionLogger`): a class over a sequence
  holding at most 1000 results, evicting the oldest. It computes
  statistics, exports CSV, and stores a 32-bit rolling hash in place of
  e-mail addresses.
- **Payload schema** (`Schemas`): the subscription schema as a parser
  from a JSON value to a payload or an error.
- **Subscription service and route** (`SubscriptionService`,
  `SubscribeRoute`): the fixed order of checks, the registry call, and the
  mapping of outcomes to HTTP statuses.
- **Admin stats route** (`StatsRoute`): token gates for reading and for
  clearing the log, and dispatch on the query string.
- **PDF download route** (`PdfDownloadRoute`): the clinic-name check and
  the file-name sanitising chain.
- **Testimonial initials** (`Testimonials`): `getInitials`.
- **JavaScript semantics** (`Js`): the parts of the built-ins the code
  relies on. These are `\s` and `trim`, `split`/`join` on one character,
  UTF-16 `length` and `charCodeAt`, 32-bit truncation, `toString(radix)`,
  `parseInt`, and Latin-1 case mapping.

Where the code behaves differently from what its names and comments suggest:

- A numeric setting that is set but not numeric is not replaced by its
  default. `parseInt` turns it into NaN (`NumericSettingSemantics`).
- A filled decoy field is refused by the schema parser. That error is not
  a `ValidationError`, so the request is answered 500 with
  `INTERNAL_ERROR`, not rejected as a honeypot hit (`FilledDecoyAnswers500`).
- The service's own honeypot check reads a key the schema never keeps, so
  it can never fire (`HoneypotCheckUnreachable`).
- Reading the stats fails open when no admin token is configured
  (`GetFailsOpen`).
- No temporal or behavioural threshold is checked anywhere. The schema
  only carries those fields, and acceptance does not depend on their
  values (`AcceptanceIgnoresBehaviour`).

## Model

| member | source | states |
|---|---|---|
| BotDetectionConfig.DefaultConfig | src/config/botDetection.ts:60-84 | computes the configuration from the environment: each numeric setting is `parseInt` of the variable or its default text, each switch is `!== 'false'` (captcha `=== 'true'`), the level is the variable or `warn`, and the decoy names, console and persistence are fixed |
| BotDetectionConfig.DefaultsWhenUnset | src/config/botDetection.ts:60-84 | with every variable unset or empty, the configuration is the documented one: a 2000 to 3600000 ms window, 2 interactions, focus, mouse, honeypot and logging on, level `warn`, console on, persistence off, captcha off with threshold 3 |
| BotDetectionConfig.MinFormTimeDefaultParses | src/config/botDetection.ts:62 | the default text `2000` parses to 2000 |
| BotDetectionConfig.MaxFormTimeDefaultParses | src/config/botDetection.ts:63 | the default text `3600000` parses to 3600000 |
| BotDetectionConfig.SmallDefaultsParse | src/config/botDetection.ts:66-82 | the defaults `2` and `3` parse to 2 and 3 |
| BotDetectionConfig.SwitchSemantics | src/config/botDetection.ts:67-81 | focus, mouse, honeypot and logging are off exactly when their variable is the string `false`; captcha is on exactly when its variable is `true` |
| BotDetectionConfig.FixedSettings | src/config/botDetection.ts:72-78 | the decoy field names are `website`, `phone`, `company`, console logging is on and persistence off, whatever the environment |
| BotDetectionConfig.LogLevelSemantics | src/config/botDetection.ts:76 | the level is `warn` when unset or empty, otherwise the variable's value, unchecked |
| BotDetectionConfig.NumericSettingParsesVariable | src/config/botDetection.ts:62-82 | for each of `BOT_MIN_FORM_TIME_MS`, `BOT_MAX_FORM_TIME_MS`, `BOT_MIN_INTERACTIONS` and `BOT_CAPTCHA_THRESHOLD`, a set non-empty variable gives `parseInt` of its own text, never the default |
| BotDetectionConfig.NumericSettingSemantics | src/config/botDetection.ts:62-82 | for each of the four numeric variables, one holding a decimal number gives that number; one not starting with a digit, sign or whitespace gives NaN, with no fall-back |
| BotDetectionConfig.ReasonName | src/config/botDetection.ts:97-104 | every reason has a non-empty string value |
| BotDetectionConfig.ReasonNameInjective | src/config/botDetection.ts:97-104 | no two reasons share a string value |
| BotDetectionLogger.LastN | src/utils/botDetectionLogger.ts:136 | `slice(-n)` for n > 0 (the code uses 50): the last min(n, length) elements, in order |
| BotDetectionLogger.Pushed | src/utils/botDetectionLogger.ts:44-47 | push then shift on overflow: the new entry is last; under the cap it is appended; at the cap the length stays and exactly the oldest entry is gone |
| BotDetectionLogger.PushedKeepsNewest | src/utils/botDetectionLogger.ts:44-47 | on a log within the cap, one push keeps the newest 1000 results and stays within the cap |
| BotDetectionLogger.LastNOfLastN | src/utils/botDetectionLogger.ts:44-47 | keeping the newest `n`, appending more and keeping the newest `n` again is keeping the newest `n` of everything |
| BotDetectionLogger.PushAllKeepsNewest | src/utils/botDetectionLogger.ts:44-47 | after any sequence of pushes the log is exactly the newest 1000 of everything pushed, in arrival order |
| BotDetectionLogger.OverflowEvictsOldest | src/utils/botDetectionLogger.ts:45-46 | 1001 results into an empty log lose exactly the first |
| BotDetectionLogger.RollingHash | src/utils/botDetectionLogger.ts:161-166 | the hash is always a signed 32-bit integer |
| BotDetectionLogger.ShiftSubtractIsTimes31 | src/utils/botDetectionLogger.ts:164-165 | `(h << 5) - h + c` followed by `& hash` is ToInt32(31 * h + c) |
| BotDetectionLogger.EmailHash | src/utils/botDetectionLogger.ts:159-168 | computes the stored text: the rolling hash of the address's UTF-16 code units written in base 36 |
| BotDetectionLogger.HashEmail | src/utils/botDetectionLogger.ts:159-168 | the loop over the code units returns the rolling hash written in base 36 |
| BotDetectionLogger.EmailHashHasNoAt | src/utils/botDetectionLogger.ts:167 | a stored hash never contains `@` |
| BotDetectionLogger.EmailHashFaithful | src/utils/botDetectionLogger.ts:167 | two addresses get the same text exactly when their rolling hashes agree |
| BotDetectionLogger.StoredEmail | src/utils/botDetectionLogger.ts:40 | something is stored exactly when the address is present and non-empty |
| BotDetectionLogger.StoredEmailNeverRaw | src/utils/botDetectionLogger.ts:40 | what is stored for an address is never the address |
| BotDetectionLogger.CountBots | src/utils/botDetectionLogger.ts:123 | the bot count never exceeds the log length |
| BotDetectionLogger.BreakdownAddsUp | src/utils/botDetectionLogger.ts:128-133 | the per-reason counts add up to the number of bot results that have a reason |
| BotDetectionLogger.BreakdownStep | src/utils/botDetectionLogger.ts:128-133 | tallying one more result keeps a breakdown exact: a bot result with a reason adds one to that reason, any other result changes nothing |
| BotDetectionLogger.StatsDetermined | src/utils/botDetectionLogger.ts:114-146 | two statistics of the same log are equal, so computing them twice gives the same answer |
| BotDetectionLogger.StatsBounds | src/utils/botDetectionLogger.ts:122-125 | the bot share is between 0 and 100 and the bot and legitimate counts add up to the total |
| BotDetectionLogger.ShareIsPercentage | src/utils/botDetectionLogger.ts:125 | a part of a whole, divided by it and times 100, lies between 0 and 100 |
| BotDetectionLogger.UnescapeEscape | src/utils/botDetectionLogger.ts:179 | undoing quote doubling (section 2, rule 7 of RFC 4180) gives back the details text |
| BotDetectionLogger.UnquoteQuote | src/utils/botDetectionLogger.ts:179-180 | the quoted Details field reads back as the original details |
| BotDetectionLogger.CsvRow | src/utils/botDetectionLogger.ts:175-181 | computes one row: ISO timestamp, `TRUE` or `FALSE`, the reason name or `N/A`, and the details in double quotes with inner quotes doubled |
| BotDetectionLogger.ExportCsv | src/utils/botDetectionLogger.ts:173-184 | computes the export: the header line `Timestamp,IsBot,Reason,Details`, a line feed, and one row per entry joined by line feeds |
| BotDetectionLogger.ReasonNameSingleLine | src/utils/botDetectionLogger.ts:178 | no reason name contains a line break |
| BotDetectionLogger.CsvRowSingleLine | src/utils/botDetectionLogger.ts:175-181 | a row holds no line break when the timestamp and details text hold none |
| BotDetectionLogger.ExportLines | src/utils/botDetectionLogger.ts:173-184 | splitting the export on line breaks gives the header and then exactly one row per entry, in log order, or the header and an empty line for an empty log |
| BotDetectionLogger.Logger.constructor | src/utils/botDetectionLogger.ts:18 | the process starts with an empty log and the one configuration object built from the environment |
| BotDetectionLogger.Logger.LogBotDetection | src/utils/botDetectionLogger.ts:24-47 | with logging off the log is unchanged; otherwise a bot result with the reason, details, time and stored e-mail is pushed, and the log stays within the cap |
| BotDetectionLogger.Logger.LogLegitimateSubmission | src/utils/botDetectionLogger.ts:81-100 | with logging off the log is unchanged; otherwise a non-bot result with no reason and no e-mail is pushed, and the log stays within the cap |
| BotDetectionLogger.Logger.GetStats | src/utils/botDetectionLogger.ts:114-146 | changes nothing and returns the statistics of the log: total, bot count, legitimate count, 0 share for an empty log, a breakdown holding exactly the reasons of bot results with their counts, and the last min(50, total) entries in order |
| BotDetectionLogger.Logger.Clear | src/utils/botDetectionLogger.ts:151-153 | the log is empty afterwards |
| Schemas.Parse | src/shared/schemas.ts:7-46 | computes `parse`: an error unless the body is an object whose every declared field has its type and passes its checks and, for vets, whose trimmed clinic name has at least 2 characters; otherwise the payload with undeclared keys dropped and the clinic name trimmed |
| Schemas.ClinicNameLength | src/shared/schemas.ts:12-15 | a clinic name passing the checks is 2 to 100 characters |
| Schemas.ListNameOf | src/shared/schemas.ts:9 | the list is tutors or vets exactly for the strings `tutors` and `vets` |
| Schemas.ToObject | src/shared/schemas.ts:7-33 | the parsed object has only declared keys |
| Schemas.AcceptedShape | src/shared/schemas.ts:8-32 | an accepted body is an object whose e-mail passes the address check, whose list name is `tutors` or `vets`, whose clinic name, when present, passes the clinic-name checks for either list, whose present decoy fields are empty, whose times are positive integers, whose count is a non-negative integer and whose flags are booleans |
| Schemas.FilledDecoyRejected | src/shared/schemas.ts:21-23 | a non-empty `website`, `phone` or `company` makes the parser fail |
| Schemas.VetsNeedClinicName | src/shared/schemas.ts:12-46 | an accepted vets body has a clinic name that passes the checks and has at least 2 characters once trimmed |
| Schemas.TutorsClinicNameOptional | src/shared/schemas.ts:17-41 | an accepted tutors body stays accepted without its clinic name |
| Schemas.ParsedClinicNameTrimmed | src/shared/schemas.ts:16 | the parsed clinic name is present exactly when given, and is then the given name trimmed |
| Schemas.ChecksPrecedeTrim | src/shared/schemas.ts:12-38 | the checks run before trimming: `" a"` is accepted as `a` for tutors and refused for vets |
| Schemas.ReplaceBehaviourField | src/shared/schemas.ts:26-32 | replacing one timing or behaviour field by another value of its type keeps a body accepted |
| Schemas.AcceptanceIgnoresBehaviour | src/shared/schemas.ts:26-32 | acceptance depends neither on the order of the timestamps nor on the count nor on the flags |
| Schemas.UnknownKeysIgnored | src/shared/schemas.ts:7-33 | an undeclared key changes neither acceptance nor the result |
| SubscriptionService.Subscribe | src/services/subscriptionService.ts:49-84 | computes one run of `subscribe`: the schema error, the honeypot check, the `ValidationError` for a list without an id, or one registry call with the e-mail and the parsed list id and its answer translated |
| SubscriptionService.RegistryOutcome | src/services/subscriptionService.ts:67-84 | computes the `catch` block: success stays success, `duplicate_parameter` becomes `EmailExistsError`, any other rejection is rethrown |
| SubscriptionService.HoneypotCheckUnreachable | src/services/subscriptionService.ts:51-56 | the parsed payload never has a `honeypot` field, so the bot check cannot fire |
| SubscriptionService.CheckOrder | src/services/subscriptionService.ts:49-70 | a refused body throws the parser's error without calling the registry; an accepted one calls the registry exactly when its list has a non-empty id, and otherwise throws `ValidationError` |
| SubscriptionService.RegistryCallContents | src/services/subscriptionService.ts:59-70 | the registry gets the validated e-mail and exactly one list id, the parsed id of the chosen list, and the outcome is its answer translated |
| SubscriptionService.RegistryAnswerDecides | src/services/subscriptionService.ts:69-84 | once the registry is called, its answer alone decides how `subscribe` ends |
| SubscriptionService.RegistryOutcomeMapping | src/services/subscriptionService.ts:69-84 | success is success; `duplicate_parameter` becomes `EmailExistsError`; any other rejection is rethrown unchanged |
| SubscriptionService.ValidationErrorMeansNoListId | src/services/subscriptionService.ts:54-62 | a `ValidationError` always means the list has no id, never the bot message |
| SubscribeRoute.Answer | src/app/api/v1/subscribe/route.ts:20-65 | computes the response to an outcome: 200 with `{}` for success, 400 `VALIDATION_ERROR`, 409 `EMAIL_EXISTS`, otherwise 500 `INTERNAL_ERROR`, each error with empty details |
| SubscribeRoute.Post | src/app/api/v1/subscribe/route.ts:13-66 | computes `POST`: 500 `INTERNAL_ERROR` for an unreadable body, otherwise the answer to the service's outcome |
| SubscribeRoute.EnvelopeWellFormed | src/app/api/v1/subscribe/route.ts:22-65 | each response has exactly one of data and error, errors have empty details, and the status is 200 exactly when there is data, otherwise 400, 409 or 500 |
| SubscribeRoute.AnswerWellFormed | src/app/api/v1/subscribe/route.ts:22-65 | whatever the service outcome, the answer has exactly one of data and error, no error details, and status 200, 400, 409 or 500 with 200 exactly for data |
| SubscribeRoute.StatusMapping | src/app/api/v1/subscribe/route.ts:13-66 | 200 exactly for a subscription; 400 `VALIDATION_ERROR` exactly for `ValidationError`; 409 `EMAIL_EXISTS` exactly for `EmailExistsError`; 500 `INTERNAL_ERROR` for an unreadable body, a schema error or a rethrown registry error |
| SubscribeRoute.FilledDecoyAnswers500 | src/app/api/v1/subscribe/route.ts:57-65 | a filled decoy field is answered 500 and the registry is not called |
| SubscribeRoute.DuplicateAnswers409 | src/app/api/v1/subscribe/route.ts:43-53 | a duplicate reported by the registry is answered 409 `EMAIL_EXISTS` |
| StatsRoute.GetAuthorized | src/app/api/v1/bot-detection/stats/route.ts:22-30 | decides the GET gate: refused only when a non-empty token is configured and the header differs from it |
| StatsRoute.DeleteAuthorized | src/app/api/v1/bot-detection/stats/route.ts:70-78 | decides the DELETE gate: refused when the token is unset or empty or the header differs from it |
| StatsRoute.Get | src/app/api/v1/bot-detection/stats/route.ts:18-60 | refused exactly when a non-empty token is set and the header differs; `export=csv` returns the CSV export under `bot-detection-logs-<time>.csv`; otherwise the statistics of the log, the time, and the configuration exactly when `config=true`; the log is not changed |
| StatsRoute.Delete | src/app/api/v1/bot-detection/stats/route.ts:68-88 | an authorized request empties the log and succeeds; any other is refused and leaves the log as it was |
| StatsRoute.GetFailsOpen | src/app/api/v1/bot-detection/stats/route.ts:22-30 | with no token or an empty one every read passes; otherwise exactly the matching header passes |
| StatsRoute.DeleteFailsClosed | src/app/api/v1/bot-detection/stats/route.ts:70-78 | with no token or an empty one every clear is refused; otherwise exactly the matching header passes |
| StatsRoute.DeleteGateStricter | src/app/api/v1/bot-detection/stats/route.ts:25-73 | whoever may clear may read, and the gates differ exactly when no non-empty token is set |
| StatsRoute.StatusOfResponses | src/app/api/v1/bot-detection/stats/route.ts:26-87 | the status is 401 exactly for a refusal and 200 otherwise |
| PdfDownloadRoute.SafeFileName | src/app/api/v1/pdf/download/route.ts:34-41 | computes the file name: lower-case, strip accents, replace every character outside `a-z0-9-` by a dash, collapse dash runs, trim one dash at each end, and cut at 50 characters |
| PdfDownloadRoute.Get | src/app/api/v1/pdf/download/route.ts:10-58 | computes `GET`: 400 for a missing or failing name, 500 when rendering fails, otherwise the PDF as an attachment named `material-apoio-<safe name>.pdf` with its byte count as length |
| PdfDownloadRoute.StripMark | src/app/api/v1/pdf/download/route.ts:36-37 | letters, digits and `-` are their own decomposition |
| PdfDownloadRoute.CollapseDashesSpec | src/app/api/v1/pdf/download/route.ts:39 | collapsing keeps the first and last character and safe characters, leaves no two dashes together, and changes nothing when there were none |
| PdfDownloadRoute.TrimDashesSpec | src/app/api/v1/pdf/download/route.ts:40 | after collapsing, trimming leaves no dash at either end and no two dashes together |
| PdfDownloadRoute.TakeSpec | src/app/api/v1/pdf/download/route.ts:41 | the cut is a prefix of at most 50 characters that keeps the first character, safe characters and the absence of double dashes |
| PdfDownloadRoute.PerCharacterStages | src/app/api/v1/pdf/download/route.ts:35-38 | lower-casing, mark removal and replacement act character by character |
| PdfDownloadRoute.SafeFileNameShape | src/app/api/v1/pdf/download/route.ts:34-41 | the file name has only `a-z`, `0-9` and `-`, no two dashes together, no leading dash, and at most 50 characters |
| PdfDownloadRoute.AccentsFolded | src/app/api/v1/pdf/download/route.ts:35-37 | accented Latin letters of either case become their base letter, and capitals become small letters |
| PdfDownloadRoute.PlainCharactersKept | src/app/api/v1/pdf/download/route.ts:35-38 | small letters and digits pass through unchanged |
| PdfDownloadRoute.TrailingDashSurvives | src/app/api/v1/pdf/download/route.ts:40-41 | the cut at 50 can leave a trailing dash: 49 letters, a space and a letter give the 49 letters and a dash |
| PdfDownloadRoute.ExampleFileName | src/app/api/v1/pdf/download/route.ts:34-41 | `São José` gives `sao-jose` |
| PdfDownloadRoute.ValidationGate | src/app/api/v1/pdf/download/route.ts:13-31 | 400 exactly for a missing name or one failing the checks, and then nothing is rendered; otherwise the renderer gets the name as given, which has 2 to 100 characters |
| PdfDownloadRoute.DownloadResponse | src/app/api/v1/pdf/download/route.ts:31-58 | a rendering failure is answered 500; a rendered PDF is sent whole as `material-apoio-<safe name>.pdf` with its byte count as Content-Length |
| Testimonials.StripTitle | src/components/composite/TestimonialsCarousel.tsx:54 | computes the `replace`: a leading `Dr.` or `Dra.` followed by whitespace is removed with all that whitespace; any other name is kept |
| Testimonials.GetInitials | src/components/composite/TestimonialsCarousel.tsx:53-59 | computes `getInitials`: split the untitled name on spaces; with two or more parts, the first characters of the first and last part (`undefined` for an empty one), otherwise the first two characters of the only part, upper-cased |
| Testimonials.TitleRemoved | src/components/composite/TestimonialsCarousel.tsx:54 | a leading `Dr.` or `Dra.` and all the whitespace after it are removed |
| Testimonials.StripTitleOnlyAtStart | src/components/composite/TestimonialsCarousel.tsx:54 | the name changes exactly when it opens with a title and whitespace, and the result is always an ending of the name |
| Testimonials.InitialsOfSeveralParts | src/components/composite/TestimonialsCarousel.tsx:55-57 | for an untitled name of two or more space-free parts whose first and last are non-empty, the initials are the first characters of those two parts upper-cased, whatever the middle parts |
| Testimonials.InitialsOfOnePart | src/components/composite/TestimonialsCarousel.tsx:58 | a single word gives its first two characters upper-cased, or all of it when shorter |
| Testimonials.EmptyPartWritesUndefined | src/components/composite/TestimonialsCarousel.tsx:55-57 | an empty first or last part contributes the text `undefined` |
| Testimonials.InitialsAfterTitle | src/components/composite/TestimonialsCarousel.tsx:53-59 | a titled name of capitalised words gives the capitals of its first and last words |
| Testimonials.ShippedInitials | src/components/composite/TestimonialsCarousel.tsx:26-59 | the three shipped names give `DR`, `VP` and `MP` |
| Js.Trim | src/shared/schemas.ts:16 | computes `trim`: the leading whitespace, then the trailing whitespace, removed |
| Js.TrimStart | src/shared/schemas.ts:16 | removes exactly the leading whitespace |
| Js.TrimIdempotent | src/shared/schemas.ts:16 | trimming twice is trimming once |
| Js.TrimIsInfix | src/shared/schemas.ts:16 | the trimmed string is the stretch of the input that starts right after its leading whitespace |
| Js.TrimEndsNotBlank | src/shared/schemas.ts:16 | a non-empty trimmed string neither starts nor ends with whitespace |
| Js.Split | src/components/composite/TestimonialsCarousel.tsx:54 | computes `split` on one character: the pieces between separators, empty ones included; never an empty list |
| Js.Join | src/utils/botDetectionLogger.ts:183 | computes `join` on one character: the pieces with the separator between each two |
| Js.JoinSplit | src/components/composite/TestimonialsCarousel.tsx:54 | joining the pieces of a split gives back the string |
| Js.SplitJoin | src/components/composite/TestimonialsCarousel.tsx:54 | splitting a join of pieces without the separator gives back the pieces |
| Js.SplitPiecesAvoidSeparator | src/components/composite/TestimonialsCarousel.tsx:54 | no piece of a split contains the separator |
| Js.LengthOfBmp | src/shared/schemas.ts:13-14 | on the Basic Multilingual Plane `length` counts characters |
| Js.ToInt32 | src/utils/botDetectionLogger.ts:165 | the result is a signed 32-bit integer congruent to the input modulo 2^32 |
| Js.ToRadixString | src/utils/botDetectionLogger.ts:167 | computes `toString(radix)` of an integer: a minus sign for a negative number, then its digits, never empty |
| Js.RadixDigitsWellFormed | src/utils/botDetectionLogger.ts:167 | `toString(radix)` of a natural number uses only digits of the radix, with no leading zero |
| Js.DigitsRoundTrip | src/utils/botDetectionLogger.ts:167 | reading back the digits of a number gives the number |
| Js.RadixStringRoundTrip | src/utils/botDetectionLogger.ts:167 | reading back `toString(radix)` of any integer gives the integer |
| Js.RadixStringInjective | src/utils/botDetectionLogger.ts:167 | different integers have different texts |
| Js.ParseInt | src/config/botDetection.ts:62-66 | computes `parseInt(s, 10)`: skip leading whitespace, take an optional sign and the longest run of decimal digits; NaN when there is no digit |
| Js.ParseIntOfDecimal | src/config/botDetection.ts:62-66 | `parseInt` of the decimal text of an integer gives the integer |
| Js.ParseIntStopsAtNonDigit | src/config/botDetection.ts:62-66 | `parseInt` of a number's digits followed by text starting with a non-digit gives the number: the rest is ignored |
| Js.ParseIntNaN | src/config/botDetection.ts:62-66 | the result is NaN exactly when no digit follows the leading whitespace and the optional sign |
| Js.ToUpper | src/components/composite/TestimonialsCarousel.tsx:56-58 | computes `toUpperCase` on Latin-1: each small letter to its capital, `ß` to `SS`, `ÿ` to `Ÿ`, `µ` to `Μ`, anything else kept |
| Js.ToUpperOfAsciiLetters | src/components/composite/TestimonialsCarousel.tsx:57-58 | on ASCII letters `toUpperCase` maps character by character |
| Js.LowerCaseSpec | src/app/api/v1/pdf/download/route.ts:35 | `toLowerCase` keeps the length, leaves no capital of `A-Z` or `À-Þ` (bar `×`), changes exactly those capitals, each to its small letter, and is idempotent |

## Left out

- Console output and the log-level switch in the logger are I/O only and are not modelled.
- `Date.now()`, `toISOString` and `JSON.stringify` of the details are not modelled. Times are integer parameters, the ISO formatter is a function parameter `iso`, and details are the text the serialiser made.
- BotDetectionLogger.Logger.GetStats: the share is the exact rational `bots / total * 100`. The rounding to two decimals (`Math.round(x * 100) / 100`) is floating point and is left out.
- Schemas.Parse: the Zod e-mail check is the function parameter `isEmail`, and the Zod error carries no issue list.
- The mailing-list registry (the Brevo SDK) is the function parameter `registry`, answering created or rejected with an optional body code. Network failures count as rejections without a code.
- The PDF renderer (`personalizePDF`, pdf-lib) is the function parameter `render`, returning nothing when it throws. The constant `Content-Type` and `Cache-Control` headers are not modelled.
- PdfDownloadRoute.StripMark: NFD normalisation and mark removal are modelled on Latin-1 only. A validated clinic name holds nothing else, apart from the spaces U+2000 and U+2001, which end up as `-` either way.
- Js.ToUpperChar and Js.ToLowerChar cover Latin-1 only. Other characters are kept.
- Testimonials.GetInitials: works on characters, not UTF-16 code units. Names outside the Basic Multilingual Plane, where `[0]` and `substring` would split a surrogate pair, are not modelled.
- Js.ParseInt: the result is an exact integer. Very long digit strings, where JavaScript rounds to a double, are not modelled.
- The message bodies of the stats route (`Unauthorized`, `Bot detection logs cleared successfully`) are not modelled; the response kind and status are.
- Concurrent requests sharing the module-level log are not modelled. The log has one sequential owner.
- Temporal and behavioural threshold checks (`TOO_FAST` and the others) are not implemented in the code. Only the reason enumeration exists, and it is modelled. Nothing on the subscription path writes to the telemetry log, and the model adds no such call.
- The UI, the PDF personalisation service and route, the `fetch` wrapper, the image script and the build configuration are not part of this model.
