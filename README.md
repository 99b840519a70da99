# MPA assistant core in Dafny

This project models the rule-based personal assistant `MPA` (`mpa.js`) and the trial and paywall logic of its app-store page (`iiskills-cloud/trial-enforcer.js` and `iiskills-cloud/landing.js`). It then proves properties of that model.

The assistant works in four stages:

- It serves only its registered user.
- It routes a lower-cased message through an ordered chain of keyword tests: obscene, joke, quote, remind, translate, `call `, video, song, WhatsApp, general.
- Each handler pulls its slots out of the message with regular expressions and builds a reply.
- Actions travel inside the reply as bracketed action codes such as `[SET_REMINDER: <iso>]` and `[WHATSAPP_LINK: phone|text]`. `parseActionCodes` reads them back and `cleanResponse` strips them.

The store page adds three pieces:

- a one-hour trial recorded at download;
- an enforcer object that checks the trial every minute;
- the registration and sign-in forms over a map of user records.

Modules, in dependency order:

| Module | File | Contents |
|---|---|---|
| `Text` | text.dfy | ASCII lower-casing, `includes`, `trim`, character classes, decimal rendering |
| `ActionCodec` | codec.dfy | actions, `parseActionCodes`, `cleanResponse`, `generateWhatsAppLink` / `encodeURIComponent` |
| `TimeResolver` | time.dfy | `parseTimeToISO`: clock parsing, the 12-hour rule, rolling past times to the next day, a proleptic Gregorian `toISOString` |
| `Patterns` | patterns.dfy | each regular expression of the handlers as a matcher; `String.prototype.match` as the leftmost match; the "first pattern that matches" loop |
| `Canned` | canned.dfy | jokes, quotes and general replies; `Math.random` becomes a `pick` parameter |
| `Handlers` | handlers.dfy | the reminder, WhatsApp, translation, call, video and song handlers |
| `Assistant` | assistant.dfy | the `Mpa` class with its preferences, the user gate and `processMessage` |
| `Trial` | trial.dfy | `checkTrialStatus`, `getRemainingTrialTime`, the notice thresholds, the `Enforcer` class and its interval |
| `Landing` | landing.dfy | `handleRegister`, `handleSignIn`, `handleDownload`, `initiateDownload`, `checkTrialAndAccess`, `enforceTrialRestriction` over a `Store` class |
| `Scenarios` | scenarios.dfy | the messages of test.js taken through the extractors and the handlers |

## Modelling choices

- **Clocks and time zones:**
  - "Now" is always a parameter: `nowUtc` in milliseconds, plus the zone `offset` that `setHours` works in.
  - Local time is `nowUtc + offset`, and the ISO string is rendered from the UTC instant.
- **Local storage:**
  - For the assistant it is a `map<string, string>` field of `Mpa`. The setters write through to it, and the constructor reads it back with the `getItem(key) || default` rule.
  - For the store page it is the `users`, `currentUser` and `install` fields of `Store`.
- **Timers:**
  - The handle `setInterval` returns is a parameter.
  - The running intervals are a `set<nat>` of the enforcer, so "the check is stopped" can be stated.
- **Where the code misses its evident intent, the handlers, the router and `cleanResponse` follow the code as written.** Each such place is one row under "## Findings". It pairs an as-written member with a corrected member, which stands beside the model. No handler calls the corrected member. Rows of corrected members start with "corrected:". The four places are:
  - The comment at mpa.js:507 says the common words "aren't song names". Yet a denylisted capture stays the song name when no later pattern matches.
  - mpa.js:60 says the action codes "will be hidden from the user". Yet one pass of `cleanResponse` can join two halves of a code into a new code.
  - test.js:24 asks for a reminder "tomorrow at 10 AM". Yet only the time phrase "10 AM" reaches `parseTimeToISO`, so its test for "tomorrow" fails.
  - The third translation pattern (mpa.js:401) lets `(\w+)` give up the language's last letter to `(.+)`.

## Model

| member | source | states |
|---|---|---|
| Text.LowerStr | mpa.js:160 | lower-casing keeps the length and sends each character through the ASCII lower-case rule |
| Text.Contains | mpa.js:168 | `includes` holds if and only if the word occurs at some position |
| Text.ContainsAny | mpa.js:214-216 | an obscene or motivational keyword list matches if and only if one of its words is contained |
| Text.TrimShape | mpa.js:619 | the trimmed string has no whitespace at either end and is a slice of the input |
| Text.TrimIdempotent | mpa.js:619 | trimming twice is trimming once |
| Text.NatToString | iiskills-cloud/trial-enforcer.js:72 | the digits printed for a minute count read back as that number |
| ActionCodec.Normalize | mpa.js:530-598 | a parsed action keeps its kind; its fields are the trimmed captures |
| ActionCodec.Exec | mpa.js:527-603 | one `exec` step finds the leftmost code of a kind and leaves a shorter rest. The scan of the whole is that action followed by the scan of the rest. No match means no action of that kind. |
| ActionCodec.CollectKind | mpa.js:527-603 | the `while (exec)` loop of one kind collects the scan of that kind and nothing else |
| ActionCodec.ParseActionCodes | mpa.js:523-606 | the parser returns the actions of all six kinds, kind by kind in the source's order |
| ActionCodec.TagsDiffer | mpa.js:527-596 | a position opens a code of at most one kind |
| ActionCodec.FieldsTranslate | mpa.js:556-565 | the translate code's three fields read back, with the mode "oral" recognised |
| ActionCodec.ScanEncodedAll | mpa.js:527-603 | scanning a run of encoded actions for one kind yields the actions of that kind, in order, and no others |
| ActionCodec.ParseEncodedAll | mpa.js:523-606 | text without `[`, followed by encoded actions, parses back to those actions grouped by kind |
| ActionCodec.ParseEncoded | mpa.js:523-606 | text followed by one encoded action parses back to that single action, fields trimmed |
| ActionCodec.ParsePlain | mpa.js:523-620 | text without `[` parses to no action, and cleaning it only trims it |
| ActionCodec.RemoveCodes | mpa.js:613-618 | removing codes of one kind never lengthens the text |
| ActionCodec.StripCodes | mpa.js:612-618 | removing the six kinds in turn never lengthens the text |
| ActionCodec.RemoveEncodedAll | mpa.js:613-618 | removing one kind's codes from encoded actions removes the actions of that kind and keeps the rest |
| ActionCodec.CleanEncodedAll | mpa.js:611-620 | `cleanResponse` of text plus encoded actions is the trimmed text |
| ActionCodec.CleanEncoded | mpa.js:611-620 | `cleanResponse` of text plus one encoded action is the trimmed text |
| ActionCodec.StripFixpoint | mpa.js:612-618 | stripping leaves the text unchanged if and only if no code is left; otherwise the text gets shorter |
| ActionCodec.StripCodeFree | mpa.js:612-618 | text with no code is left as it is |
| ActionCodec.StripShrinks | mpa.js:612-618 | text holding a code gets strictly shorter |
| ActionCodec.PlainCodeFree | mpa.js:612-618 | text without `[` holds no code |
| ActionCodec.StripIsPrefix | mpa.js:612-618 | stripping text followed by encoded actions leaves only the text |
| ActionCodec.CleanResponseNotIdempotent | mpa.js:611-620 | as written, cleaning the nested code `Nested` leaves a new code, and cleaning again gives the empty string |
| ActionCodec.CleanFully | mpa.js:611-620 | corrected: the result is trimmed and holds no action code |
| ActionCodec.CleanFullyIdempotent | mpa.js:611-620 | corrected: cleaning is idempotent |
| ActionCodec.CleanFullyAgrees | mpa.js:611-620 | corrected: cleaning equals `cleanResponse` whenever one pass leaves no code |
| ActionCodec.CleanFullyEncodedAll | mpa.js:611-620 | corrected: cleaning text plus encoded actions gives the trimmed text |
| ActionCodec.CleanFullyNested | mpa.js:611-620 | corrected: cleaning removes the nested code entirely |
| ActionCodec.DigitsOnlyChar | mpa.js:374 | `replace(/\D/g, '')` keeps a single character if and only if it is a digit |
| ActionCodec.DigitsOnlyAppend | mpa.js:374 | `replace(/\D/g, '')` works piece by piece over concatenation, so every digit is kept, in order, and every other character is dropped |
| ActionCodec.DigitsOnlyKeeps | mpa.js:374 | a string of digits is left as it is |
| ActionCodec.TestPhoneDigits | mpa.js:374 | the test.js:40 number `+1234567890` becomes `1234567890` |
| ActionCodec.EncodeUriComponent | mpa.js:375 | the encoding uses only unreserved characters and `%XX` escapes, and never shortens |
| ActionCodec.EncodeUnreserved | mpa.js:375 | unreserved text encodes to itself |
| ActionCodec.EncodeAppend | mpa.js:375 | encoding works piece by piece over concatenation |
| ActionCodec.WhatsAppUrlShape | mpa.js:372-377 | the link is `https://wa.me/`, then the phone's digits, then `?text=`, then the encoded message. The phone part holds no `?`, and the encoded message holds no `&`, `#`, `?` or space. |
| ActionCodec.TestWhatsAppLink | mpa.js:372-377 | for the test.js:40 number and text, the link is `https://wa.me/1234567890?text=Hey%20there!` |
| TimeResolver.FindClock | mpa.js:318 | a clock is found if and only if the phrase holds a digit; hour and minute have at most two digits |
| TimeResolver.FindClockAtFirstDigit | mpa.js:318 | the clock found is the one read at the phrase's first digit |
| TimeResolver.ClockAtHour | mpa.js:318-319 | `(\d{1,2})` reads the hour as the value of one digit, or of two when a second digit follows |
| TimeResolver.ClockAtMinute | mpa.js:318-320 | `(?::(\d{2}))?` reads the minute from two digits after a colon, and gives 0 when they are absent |
| TimeResolver.ClockAtMeridiem | mpa.js:318-321 | am or pm is set only when the matched clock text ends in that word, in any case |
| TimeResolver.TwelveHourClock | mpa.js:322-329 | with am/pm and hours 1..12: am gives hours below 12, pm gives 12..23, and the hour is kept modulo 12 |
| TimeResolver.DayStart | mpa.js:332 | the local midnight of an instant is a day boundary at most one day before it |
| TimeResolver.TimeOfDay | mpa.js:332 | a valid clock lies within one day |
| TimeResolver.ResolveNotPast | mpa.js:334-337 | without "tomorrow", the resolved time is never before now |
| TimeResolver.ResolveInstantNotPast | mpa.js:309-341 | the same holds for the UTC instant whatever the zone offset |
| TimeResolver.ResolveNoClock | mpa.js:309-341 | with no time and no "tomorrow", the result is now |
| TimeResolver.ResolveTomorrowNoClock | mpa.js:313-315 | with "tomorrow" and no time, the result is one day later |
| TimeResolver.ResolveNextOccurrence | mpa.js:332-337 | without "tomorrow", the result is the first occurrence of the clock at or after now: today if not yet passed, else tomorrow |
| TimeResolver.ResolveNextDay | mpa.js:313-332 | with the tomorrow flag, the result is the clock on the day after today |
| TimeResolver.ResolveTomorrow | mpa.js:313-332 | a phrase saying "tomorrow" resolves to the clock on the next day and is not rolled further |
| TimeResolver.ResolveSameDay | mpa.js:332-337 | a clock not yet passed today resolves to today |
| TimeResolver.ResolveInstantFor | mpa.js:309-341 | with the tomorrow flag, the instant is the clock on the next local day, or now plus one day without a clock. Without the flag, it is never before now. Given the flag the phrase itself yields, it is `parseTimeToISO`'s instant. |
| TimeResolver.YearOf | mpa.js:340 | a day count `d` from the start of year `y` falls in year `r.0` at day `r.1`: the day is inside that year, and `YearStart(r.0) + r.1 == YearStart(y) + d` |
| TimeResolver.MonthOf | mpa.js:340 | a day of the year splits into a valid month and day that add back up to it |
| TimeResolver.DateOf | mpa.js:340 | every day number has a valid calendar date |
| TimeResolver.IsoString | mpa.js:340 | the ISO text uses only date and time characters, ends in `Z` and starts with a digit or sign |
| TimeResolver.IsoShape | mpa.js:340 | the ISO text is non-empty, trimmed and holds none of the characters that end an action code |
| Patterns.MatchAtClock | mpa.js:269 | `at (\d{1,2}(?::\d{2})?\s*(?:am\|pm)?)` matches if and only if "at " and a digit stand at `j`. The group starts at that digit and reads as the clock found there. |
| Patterns.MatchClockMeridiem | mpa.js:270 | the clock pattern with a required am/pm matches if and only if a digit stands at `j` and the clock read there has a meridiem. The group starts at that digit, ends in am/pm and reads as that clock. |
| Patterns.MatchDayWord | mpa.js:271 | matches if and only if one of tomorrow, today or tonight stands at `j`, in any case; the group is that word as written |
| Patterns.MatchOnWeekday | mpa.js:272 | matches if and only if "on " and a weekday stand at `j`; the group is the weekday as written |
| Patterns.MatchRemindUntilTime | mpa.js:289 | the lazy task group follows "remind me to ", stays on one line and ends at the first place where whitespace and then `at`, `tomorrow`, `today`, `on` or a digit follow |
| Patterns.MatchRemindRest | mpa.js:296 | matches if and only if "remind me to " is followed by a character on the same line; the group is the rest of that line |
| Patterns.MatchPhoneNumber | mpa.js:348 | the group stands at `j` and is an optional `+` and 10 to 15 digits, followed by another digit only when it already has 15 |
| Patterns.PhoneNumberFound | mpa.js:348 | a phone number standing at `j` makes the pattern match there |
| Patterns.MatchContactName | mpa.js:349 | the group is the run of ASCII letters that follows "message", "text" or "whatsapp" and whitespace |
| Patterns.ContactFound | mpa.js:349 | a keyword, whitespace and a letter make the pattern match, capturing the whole letter run |
| Patterns.MatchQuotedMessage | mpa.js:355 | the group is the text inside the first quote pair that a "say", "tell" or "message" is followed by on the same line |
| Patterns.SaidFound | mpa.js:355 | a first quote after the keyword that opens a closed quotation makes the pattern match, capturing the quoted text |
| Patterns.MatchMessageRest | mpa.js:356 | the group is the rest of the line after "message", an optional colon and whitespace |
| Patterns.QuotedToAt | mpa.js:399 | the text group is lazy, quoted and on one line; after it come a closing quote, whitespace, "to", whitespace and the language, taken as a whole word |
| Patterns.QuotedToFound | mpa.js:399 | the first quote that closes the text, with "to" and a word after it, makes the pattern match with those groups |
| Patterns.TranslateQuotedCaptures | mpa.js:399 | the first translation pattern's groups are "translate", whitespace, then the quoted groups of `QuotedToAt` |
| Patterns.UntilToAt | mpa.js:400 | the text group is lazy and on one line, and ends at the first ` to ` that a word follows; the language is that whole word |
| Patterns.UntilToFound | mpa.js:400 | the first place where " to " and a word follow makes the pattern match with those groups |
| Patterns.TranslateUntilToCaptures | mpa.js:400 | the second translation pattern's groups are "translate", whitespace, then the groups of `UntilToAt` |
| Patterns.ToFirstAt | mpa.js:401 | "to", whitespace, then a language of word characters, then the rest of the line after an optional colon and whitespace |
| Patterns.TranslateToFirstCaptures | mpa.js:401 | the third translation pattern's groups are "translate", whitespace, then the groups of `ToFirstAt` |
| Patterns.ToFirstSplitsWord | mpa.js:401 | as written, "to French" with nothing after it captures language "Frenc" and text "h" |
| Patterns.WordAndRest | mpa.js:401 | corrected: with `wholeWord`, the language is the whole word, and the pattern fails instead of splitting it |
| Patterns.MatchCallNumber | mpa.js:435 | the group follows "call" and whitespace: an optional `+`, a digit, then at least one more digit, space or `-`, running to the end of that run |
| Patterns.MatchCallName | mpa.js:436 | the group follows "call" and whitespace: a letter, then letters and spaces, lazily up to whitespace and `at` or `on`, or up to the end of the message |
| Patterns.CalledNameFound | mpa.js:436 | the first stop after a letter run of at least two characters makes the pattern match with that name |
| Patterns.MatchMediaQuoted | mpa.js:465-495 | the video or song keyword stands at `j`, and an optional "song" or "music" follows it; after whitespace the group is the quoted text |
| Patterns.MatchMediaRest | mpa.js:466-497 | the same keywords, then whitespace; the group is the rest of the line |
| Patterns.Match | mpa.js:279 | `String.prototype.match` yields groups that are slices of the message, with a non-empty first group |
| Patterns.SearchFromLeftmost | mpa.js:279 | a reported match is the one at the leftmost position where the pattern matches |
| Patterns.SearchFromNone | mpa.js:279 | no match is reported only when the pattern matches at no position |
| Patterns.MatchLeftmost | mpa.js:279 | a match is the matcher's result at some position where no earlier position matches |
| Patterns.MatchLeftmostAt | mpa.js:279 | the matcher's result at the leftmost matching position is the match |
| Patterns.MatchAbsent | mpa.js:279 | a pattern that matches nowhere gives no match |
| Patterns.FirstOf | mpa.js:278-285 | the first pattern of a list that matches, with nothing earlier matching; none if and only if no pattern matches |
| Patterns.FirstCaptureIsFirstOf | mpa.js:278-285 | the first matching pattern and its groups are what the search returns |
| Patterns.FindFirst | mpa.js:278-285 | the `for … of` loop with `break` finds the first pattern that matches |
| Canned.Pick | mpa.js:222 | the random pick is an element of the list |
| Canned.JokeReply | mpa.js:221-224 | `getJoke` is one of the jokes followed by the offer of help, and opens no code |
| Canned.QuoteReply | mpa.js:229-232 | `getQuote` is one of the quotes followed by the call to action, and opens no code |
| Canned.GeneralReply | mpa.js:382-391 | `getGeneralResponse` is one of the four general replies, and opens no code |
| Handlers.RenderParse | mpa.js:523-620 | a well-formed reply parses back to its one action, and cleaning it gives the trimmed text |
| Handlers.CodedByParse | mpa.js:523-606 | a reply carrying one code of kind k parses to at most one action, of kind k |
| Handlers.FirstFoldFrom | mpa.js:299 | finds the first case-insensitive occurrence, with none before it |
| Handlers.FirstFoldFound | mpa.js:299 | the first occurrence is the one the search returns |
| Handlers.RemoveFirstFold | mpa.js:299 | `replace(new RegExp(time, 'i'), '')` cuts out the first case-insensitive occurrence of the time, and leaves the text alone when there is none |
| Handlers.TimeOf | mpa.js:268-285 | the time phrase is the group of the first time pattern that matches, and is empty if and only if none matches |
| Handlers.TaskOf | mpa.js:287-301 | the task is the trimmed lazy `remind me to` group; failing that, the trimmed rest of the line with the time cut out; failing both, empty |
| Handlers.ReminderInfoOf | mpa.js:267-304 | the time and the task as `TimeOf` and `TaskOf` characterise them |
| Handlers.ExtractReminderInfo | mpa.js:267-304 | the extraction loop computes the reminder slots |
| Handlers.TomorrowLostAsWritten | mpa.js:244 | as written, the message says "tomorrow", the time phrase does not, and the time has not yet passed: the reminder lands today. Counting the message's "tomorrow" puts it on the next day. |
| Handlers.ReminderIso | mpa.js:244 | corrected: the instant counts a "tomorrow" anywhere in the message. It renders as non-empty trimmed text that cannot break the code. It is the as-written `parseTimeToISO` result whenever the message and the phrase agree on "tomorrow". |
| Handlers.HandleReminder | mpa.js:237-262 | the handler returns the reminder reply, dated by `parseTimeToISO` of the time phrase |
| Handlers.ReminderReplyOfParses | mpa.js:240-259 | the reply parses to one reminder at the given instant, or to nothing when its task or time is missing |
| Handlers.ReminderReplyParses | mpa.js:237-262 | a reminder reply to a message without `[` carries one reminder at `parseTimeToISO(time)`, or nothing when task or time is missing |
| Handlers.PhoneOf | mpa.js:348-351 | the phone is the phone-number group, an optional `+` and 10 to 15 digits, or empty without a match |
| Handlers.ContactOf | mpa.js:349-350 | the contact is the letter group after the keyword, or "contact" without a match |
| Handlers.MessageTextOf | mpa.js:355-358 | the text is the quoted group; failing that, the `message:` rest; failing both, "Hello!" |
| Handlers.WhatsAppReplyOfParses | mpa.js:360-366 | the drafted reply parses back to the phone and text |
| Handlers.WhatsAppReplyParses | mpa.js:346-367 | without a phone number no code is emitted; with one, the WhatsApp code with the slots |
| Handlers.TranslationSlotsOf | mpa.js:398-419 | text and language are the groups of the first translation pattern that matches, swapped for the third pattern; both are empty when none matches |
| Handlers.ExtractTranslation | mpa.js:398-419 | the translation loop computes the translation slots |
| Handlers.HandleTranslation | mpa.js:396-428 | the handler returns the translation reply |
| Handlers.TranslationReplyOfParses | mpa.js:421-427 | the reply parses back to the text, language and oral mode |
| Handlers.TranslationReplyParses | mpa.js:396-428 | no code when no pattern matches; otherwise the translate code with the slots |
| Handlers.RemoveSpacesChar | mpa.js:443 | `replace(/\s/g, '')` drops a single character if and only if it is whitespace |
| Handlers.RemoveSpacesAppend | mpa.js:443 | `replace(/\s/g, '')` works piece by piece over concatenation, so every other character is kept, in order |
| Handlers.CallPhoneOf | mpa.js:435-444 | the number is the call-number group with its whitespace removed: non-empty, and only digits, `-` and `+`. It is empty without a match. |
| Handlers.CallContactOf | mpa.js:441-450 | with a number, the contact is that number; otherwise the trimmed name group; otherwise empty |
| Handlers.CallSlotsOf | mpa.js:441-445 | a number after "call" is both the number and the contact |
| Handlers.CallReplyOfParses | mpa.js:452-456 | the reply parses back to the contact and number |
| Handlers.CallReplyParses | mpa.js:433-457 | no code without a contact; otherwise the call code with the slots |
| Handlers.VideoNameOf | mpa.js:464-479 | the video name is the trimmed group of the first video pattern that matches, and empty when none matches |
| Handlers.ExtractVideoName | mpa.js:464-479 | the video loop computes the video name |
| Handlers.HandleVideo | mpa.js:462-486 | the handler returns the video reply |
| Handlers.VideoReplyOfParses | mpa.js:481-485 | the reply parses to the video code with the name, or to nothing for an empty name |
| Handlers.VideoReplyParses | mpa.js:462-486 | a video reply to a message without brackets carries that one code |
| Handlers.SongNameAsWritten | mpa.js:502-511 | as written, the song name is drawn from the message and trimmed |
| Handlers.ExtractSongName | mpa.js:502-511 | the song loop assigns each capture, stops at one that is not denylisted, and so computes the as-written name |
| Handlers.DeniedNameLeaks | mpa.js:502-511 | as written, a denylisted capture such as "music" stays the song name when no later pattern matches |
| Handlers.SongNameOf | mpa.js:502-511 | corrected: the name is never a denylisted word, and is empty unless some pattern matched |
| Handlers.SongLoopsAgree | mpa.js:502-511 | the as-written name is the corrected one, unless it is a denylisted word and the corrected name is then empty |
| Handlers.HandleSong | mpa.js:491-518 | the handler returns the song reply for the as-written name |
| Handlers.SongReplyOfParses | mpa.js:513-517 | the reply parses to the song code with the name, or to nothing for a name shorter than two |
| Handlers.SongReplyParses | mpa.js:491-518 | a song reply to a message without brackets carries the song code with the as-written name, or nothing for a name shorter than two |
| Assistant.Authorized | mpa.js:135-142 | with nobody registered every caller is served; once a user is registered, that user and nobody else is |
| Assistant.Unauthorized | mpa.js:147-150 | the refusal names the registered user, or "my registered user" |
| Assistant.StrangerRefused | mpa.js:155-159 | anyone but the registered user gets the refusal, whatever the message, and it carries no code |
| Assistant.UnregisteredServesAll | mpa.js:135-142 | with nobody registered, the reply does not depend on the caller |
| Assistant.ObsceneFirst | mpa.js:162-165 | an obscene word wins over every other request, and the refusal carries no code |
| Assistant.RemindBeforeCall | mpa.js:177-190 | a reminder that mentions a call is routed as a reminder |
| Assistant.CannedRoute | mpa.js:162-175 | messages routed to no handler get the refusal, a joke, a quote or a general reply |
| Assistant.CodedAnswer | mpa.js:177-205 | a message routed to a handler is answered by that handler |
| Assistant.CodedReplies | mpa.js:177-205 | each handler's reply to a message without `[`, `]` or `\|` is well formed, with a code of its own kind only |
| Assistant.PlainAnswers | mpa.js:162-208 | the refusal and the canned replies carry no code |
| Assistant.CodedReplyActions | mpa.js:177-205 | a handler's reply parses to at most one action, of the handler's kind |
| Assistant.AnswerActions | mpa.js:155-209 | every answer carries at most one action, and only of the kind its route allows |
| Assistant.Stored | mpa.js:9-11 | `getItem(key) \|\| default`: a missing or empty entry gives the default |
| Assistant.Mpa.constructor | mpa.js:7-13 | preferences are read from storage with their defaults; no user is registered |
| Assistant.Mpa.SetUserName | mpa.js:97-102 | the name and its storage entry change, nothing else |
| Assistant.Mpa.SetGender | mpa.js:104-109 | the gender and its storage entry change, nothing else |
| Assistant.Mpa.SetLanguage | mpa.js:111-116 | the language and its storage entry change, nothing else |
| Assistant.Mpa.SetRegisteredUser | mpa.js:121-123 | only the registered user changes; it is not stored |
| Assistant.Mpa.GetRegisteredUser | mpa.js:128-130 | returns the registered user |
| Assistant.Mpa.IsUserAuthorized | mpa.js:135-142 | the gate over the object's registered user |
| Assistant.Mpa.ProcessMessage | mpa.js:155-209 | the if-chain computes the refusal or the routed answer of the as-written handlers |
| Assistant.PreferencesPersist | mpa.js:97-116 | preferences set through the setters are what a fresh assistant reads back |
| Assistant.RegisteredUserScenario | test.js:108-137 | after registering Alice, Alice is served, and Bob and an anonymous caller are refused by name |
| Scenarios.ReminderScenario | test.js:24 | "Remind me to call the dentist tomorrow at 10 AM" gives the task "call the dentist" and the time "10 AM" |
| Scenarios.RmTimeScenario | test.js:24 | the time phrase of that message is "10 AM" |
| Scenarios.ReminderTomorrowLost | test.js:24 | sent at or before 10:00, that message is set for today; counting its "tomorrow" would set the next day |
| Scenarios.WhatsAppScenario | test.js:40 | `Message John at +1234567890 saying "Hey there!"` fills phone `+1234567890`, contact `John` and text `Hey there!` |
| Scenarios.TranslationScenario | test.js:50 | `Translate "Hello" to Tamil` gives text `Hello` and language `Tamil` |
| Scenarios.CallScenario | test.js:59 | "Call mom" gives no number and the contact "mom" |
| Scenarios.CallScenarioCode | test.js:59 | the reply to "Call mom" parses to the call action `mom\|mom` |
| Scenarios.VideoScenario | test.js:68 | `Play video "Nature Documentary"` gives the name `Nature Documentary` |
| Scenarios.VideoScenarioCode | test.js:68 | the reply to that message parses to the video action with that name |
| Trial.WholeMinutes | iiskills-cloud/trial-enforcer.js:50 | `Math.floor(ms / 60000)` is the whole number of minutes in a positive span |
| Trial.TrialReminder | iiskills-cloud/trial-enforcer.js:69-75 | a notice is shown at 15, 10, 5 and 1 minutes left, and at no other count |
| Trial.NoticePlural | iiskills-cloud/trial-enforcer.js:72 | "minute" takes an "s" if and only if more than one minute is left |
| Trial.CheckTrialStatus | iiskills-cloud/trial-enforcer.js:30-59 | access without a record, once paid, or before the expiry; a notice only inside an unpaid running trial, at a threshold |
| Trial.RemainingTrialTime | iiskills-cloud/trial-enforcer.js:237-252 | none without a record or once paid; otherwise the whole minutes left, and 0 once expired |
| Trial.NoticeAgreesWithRemaining | iiskills-cloud/trial-enforcer.js:49-52 | the notice speaks of the minutes `getRemainingTrialTime` reports |
| Trial.ExpiredMeansZero | iiskills-cloud/trial-enforcer.js:46-58 | an unpaid user is refused if and only if the trial has expired, and then has 0 minutes left |
| Trial.Enforcer.constructor | iiskills-cloud/trial-enforcer.js:5-10 | no interval and nothing running |
| Trial.Enforcer.StartPeriodicCheck | iiskills-cloud/trial-enforcer.js:124-132 | the new handle is kept and its interval runs |
| Trial.Enforcer.StopPeriodicCheck | iiskills-cloud/trial-enforcer.js:135-140 | a truthy handle's interval is cleared and the handle forgotten; otherwise nothing changes |
| Trial.Enforcer.BlockAccess | iiskills-cloud/trial-enforcer.js:143-145 | blocking stops the periodic check |
| Trial.Enforcer.Init | iiskills-cloud/trial-enforcer.js:13-27 | refused access blocks, clearing a truthy earlier interval; granted access starts a new interval, on a repeated call too |
| Trial.Enforcer.Tick | iiskills-cloud/trial-enforcer.js:125-140 | each tick decides access; once refused, a truthy handle is cleared and forgotten, and with no handle (an interval orphaned by a repeated `init`) nothing changes |
| Trial.StopTwice | iiskills-cloud/trial-enforcer.js:135-140 | stopping twice is stopping once |
| Trial.ExpiryScenario | iiskills-cloud/trial-enforcer.js:13-27 | a trial started at install and checked an hour later ends refused with no interval running |
| Trial.OrphanScenario | iiskills-cloud/trial-enforcer.js:124-140 | after two starts and an expired trial, the handle is gone while the first interval is still running |
| Landing.RegisterCheck | iiskills-cloud/landing.js:96-114 | the four outcomes of registration, each with its full condition |
| Landing.SignInCheck | iiskills-cloud/landing.js:61-86 | sign-in succeeds if and only if the email is stored with that password; empty fields are their own outcome |
| Landing.NewInstall | iiskills-cloud/landing.js:169-176 | the install record expires one trial duration after the download, unpaid, for the signed-in email |
| Landing.EnforceTrialRestriction | iiskills-cloud/landing.js:239-261 | launch is allowed without a record, once paid, or before expiry |
| Landing.GatesAgree | iiskills-cloud/landing.js:239-261 | the page's launch gate and the enforcer agree on every record and time |
| Landing.FreshTrialLastsAnHour | iiskills-cloud/landing.js:169-176 | a fresh install is usable for one hour and no longer; it shows 60 minutes only at the moment of download |
| Landing.TrialAndAccess | iiskills-cloud/landing.js:190-207 | full access once paid, trial minutes while running, payment prompt after expiry |
| Landing.Store.constructor | iiskills-cloud/landing.js:68 | the stored users, no session, no install |
| Landing.Store.HandleRegister | iiskills-cloud/landing.js:89-131 | a record is added only on success, and the message matches the outcome |
| Landing.Store.HandleSignIn | iiskills-cloud/landing.js:55-87 | a session with the stored name is kept only on success |
| Landing.Store.InitiateDownload | iiskills-cloud/landing.js:169-178 | records the fresh install for the signed-in email |
| Landing.Store.HandleDownload | iiskills-cloud/landing.js:146-167 | sign in first; check an existing install; or record a new one |
| Landing.RegisterThenSignIn | iiskills-cloud/landing.js:89-131 | registering and then signing in with the same credentials succeeds with the registered name |
| Landing.RegisterKeepsRecords | iiskills-cloud/landing.js:111-123 | registration never overwrites an existing record |
| Landing.RegisterOnlyAddsOneLogin | iiskills-cloud/landing.js:117-123 | a registration changes sign-in only for the new email, whose password alone then works |

## Left out

- **DOM, `alert`, notifications and the payment overlay.** These are presentation only. `blockAccess` is kept only because it stops the check.
- **The system prompt strings (mpa.js:15-60).** No logic reads them. As written, they do not even parse. The backtick on mpa.js:31 closes the template literal that line 15 opens, so the `Role: You are "MPA"…` text after it is read as code. That is a SyntaxError, and `require('./mpa.js')` at test.js:5 throws. The model follows the evident reading of two separate string literals.
- **`setTimeout` scheduling, the redirect to the payment URL and `window.location` changes.** These are side effects outside the model.
- **`JSON.parse` and `JSON.stringify` of stored records.** Records are Dafny values. Dates are milliseconds, and the ISO strings of the store page are not rendered.
- **Writes only when `localStorage` is defined.** The source guards its writes this way, but the model always writes.
- **`toLowerCase` and case-insensitive matching.** These cover ASCII only. Non-ASCII case folding is not modelled.
- **Daylight saving time.** The zone `offset` is one fixed parameter; DST changes are not modelled.
- **Two readings of the clock.** `parseTimeToISO` calls `new Date()` twice (mpa.js:310-311); the model takes one instant `nowUtc` for both.
- **Landing.NewInstall:** one instant `now` stands for the two clock reads at iiskills-cloud/landing.js:172 (`new Date()` for `installedAt`) and landing.js:174 (`Date.now()` for `trialExpiresAt`); the model's expiry is exactly one trial duration after `installedAt`, where the source's may be later by the time between the two reads.
- **The `RangeError` of `toISOString` and the `NaN` of invalid dates.** The model's dates are unbounded integers, so neither can happen.
- **Password length.** JavaScript counts UTF-16 code units; the model counts Dafny characters.
- **SongReplyOf: the length test.** `songName.length < 2` (mpa.js:513) counts UTF-16 code units, and the model counts characters. So for "play 😀" the source plays the song, and the model asks which song.
- **RemoveFirstFold: the time as a regular expression.** `new RegExp(time, 'i')` reads the time phrase as a pattern. The model searches for it as literal text. The phrases the time patterns capture hold only digits, letters, `:` and whitespace, and none of these is special in a pattern.
- **`__proto__` and other prototype keys in the users object.** The model's user map is a plain map.
- **`generateWhatsAppLink`'s result in the handler.** `handleWhatsAppRequest` computes the link and then drops it. The code carries the raw phone. The link is modelled on its own as `ActionCodec.WhatsAppUrl`.
- **The `link` field of a parsed WhatsApp action (mpa.js:545).** `Action.WhatsAppLink` holds only the phone and the message, and the link can be recomputed from them with `ActionCodec.WhatsAppUrl`.
- **Landing.Store.InitiateDownload:** requires a session, where the source instead throws on a missing one.
- **Trial.Enforcer.StopPeriodicCheck:** keeps the source's truthiness test, so an interval with handle 0 is never cleared.
- **Trial.Enforcer.StartPeriodicCheck:** overwrites the handle without clearing a running interval, as the source does. The old interval stays in `active`.
- **Some test.js messages.** The joke, quote, gym-reminder, song and obscenity messages (test.js:12, 18, 33, 77, 86) have no scenario lemma. The route lemmas in `Assistant` cover them with every other message.
- **Canned jokes, quotes and general replies on a random index.** These are chosen by `pick % length` instead of `Math.random`.

## Findings

| source | as written | input that shows it | evidently intended | confidence | as-written member | corrected member |
|---|---|---|---|---|---|---|
| mpa.js:611-620 | one pass removes each kind's codes in turn, so removing an inner code can join a new one | `[SET_[CALL:x]REMINDER:y]` cleans to `[SET_REMINDER:y]`, which cleans again to empty | cleaning is idempotent and leaves no code | not executed | ActionCodec.CleanResponseNotIdempotent | ActionCodec.CleanFullyIdempotent |
| mpa.js:502-511 | a denylisted capture is not cleared, so if no later pattern matches it stays the name | "play music" yields the song name "music" | a denylisted word is never played | not executed | Handlers.DeniedNameLeaks | Handlers.SongNameOf |
| mpa.js:244 | only the time phrase reaches `parseTimeToISO`, so its "tomorrow" test misses a "tomorrow" elsewhere in the message | "Remind me to call the dentist tomorrow at 10 AM" sent before 10 am gives today at 10:00 | the reminder is set for tomorrow | not executed | Scenarios.ReminderTomorrowLost | Handlers.ReminderIso |
| mpa.js:401 | `(\w+)` backs off one character so that `(.+)` can match | "Translate to French" gives language "Frenc" and text "h" | the language is the whole word | not executed | Patterns.ToFirstSplitsWord | Patterns.WordAndRest |
