# mareye-frontend: authentication, OTP and Gemini helpers

This project is a Dafny model of the server-side core of the mareye-frontend
Next.js application. It proves properties of that model. The model covers:

- the in-memory one-time-password store (`lib/otp-service.ts`) and the two
  routes that use it, `POST /api/send-otp` and `POST /api/verify-otp`;
- password login (`POST /api/login`), direct registration
  (`POST /api/register`) and the profile lookup (`GET /api/profile`), all
  three over a user collection;
- the request identity helpers of `lib/auth.ts` and the home-page guard
  `middleware.ts`;
- `stripUnsupportedMongoOptions` from `lib/mongodb.ts`;
- the deterministic helpers of `lib/gemini-services.ts`:
  - the four level classifiers;
  - `truncateWords`, `splitLongClause` and `summarizeToSentences`;
  - parsing the comma-separated taxonomy;
  - the `parseFloat` confidence with its default of 75;
  - the item caps of `extractList`;
  - the retry-with-backoff loop around the vision model;
- the slideshow's index state (`components/image-slideshow.tsx`) and the
  navigation bar's visibility (`components/conditional-navigation.tsx`).

How the model is built:

- **Stateful parts are classes.** The OTP map, the user collection and the
  slideshow are classes whose methods change their fields.
- **Handlers are paired with pure functions.** Each route handler is a
  method that is proved equal to a pure transition function. The properties
  are lemmas about those functions.
- **The outside world is passed in.** The clock (`now`, in milliseconds),
  the random draw, `bcrypt`, `jwt.verify`/`jwt.sign`, the mail server's
  verdict and the model's replies are all parameters.
- **JavaScript's string primitives are written out over `seq<char>`.** This
  covers `trim`, `split` on one character, `join`, `includes`, ASCII
  `toLowerCase`, `a || b`, and the `\s` white-space class.
- **The two regular expressions used for splitting are explicit matchers.**
  They are `/\s*(?:and|or|…)\s+/i` and `/(?<=[.!?])\s+/`.

Module layout:

| module | file |
|---|---|
| `Wrappers` | wrappers.dfy |
| `JsStrings` | js_strings.dfy |
| `Users` and `Http` | users.dfy |
| `OtpService` | otp_service.dfy |
| `SendOtpRoute` | send_otp_route.dfy |
| `VerifyOtpRoute` | verify_otp_route.dfy |
| `LoginRoute` | login_route.dfy |
| `RegisterRoute` | register_route.dfy |
| `ProfileRoute` | profile_route.dfy |
| `Auth` | auth.dfy |
| `Middleware` | middleware.dfy |
| `ConditionalNavigation` | conditional_navigation.dfy |
| `ImageSlideshow` | image_slideshow.dfy |
| `MongoUri` | mongodb.dfy |
| `GeminiLevels` | gemini_levels.dfy |
| `GeminiText` and `GeminiSplit` | gemini_text.dfy |
| `GeminiSummary` | gemini_summary.dfy |
| `GeminiSpecies` | gemini_species.dfy |
| `GeminiRetry` | gemini_retry.dfy |

Two behaviours of the code are easy to miss, and the model keeps them as written:

- **Retries.** The vision call in `identifySpeciesFromImage` is tried up
  to four times, with exponential backoff (lib/gemini-services.ts:59-72).
- **Which address gets the account.** The verify route creates the account
  from the stored payload's own e-mail field, not from the address whose
  code was just verified. It does not
  check that field against the verified address, and it does not check
  whether that address is already registered. `RegisteredAddressComesFromPayload`
  states this behaviour as the code has it.

## Model

| member | source | states |
|---|---|---|
| `OtpService.GenerateOtp` | lib/otp-service.ts:15-17 | the code is six decimal digits that read back as the draw, so it lies in [100000, 999998] (the upper bound of `randomInt` is exclusive) |
| `OtpService.NatToString` | lib/otp-service.ts:16 | the decimal rendering is non-empty and all digits |
| `OtpService.DigitsRoundTrip` | lib/otp-service.ts:16 | reading the rendered digits back gives the number |
| `OtpService.NatToStringLength` | lib/otp-service.ts:16 | a number in [10^(k-1), 10^k) renders as exactly k digits |
| `OtpService.OtpStore.constructor` | lib/otp-service.ts:12-13 | the store starts empty |
| `OtpService.OtpStore.StoreOtp` | lib/otp-service.ts:19-30 | the new state is the overwrite followed by the sweep; the e-mail then holds a fresh record with no failures that expires ten minutes later |
| `OtpService.OtpStore.VerifyOtp` | lib/otp-service.ts:32-57 | the result and the new map follow the checks in source order: missing, expired (record deleted), three failures (record deleted), wrong code (one more failure) and success (record deleted, payload returned) |
| `OtpService.OtpStore.DeleteOtp` | lib/otp-service.ts:63-65 | the entry for that e-mail is removed and nothing else changes |
| `OtpService.OtpStore.CleanupExpiredOtps` | lib/otp-service.ts:67-76 | the loop over the entries leaves exactly the unexpired entries, unchanged |
| `OtpService.CleanupRemovesExactlyExpired` | lib/otp-service.ts:67-74 | an entry survives the sweep exactly when it is not past its expiry, and a surviving entry is unchanged |
| `OtpService.VerifySucceedsIff` | lib/otp-service.ts:32-57 | verification succeeds exactly when a record exists, is not past its expiry, has fewer than 3 failures and its code matches |
| `OtpService.VerifyUnknownEmail` | lib/otp-service.ts:33-37 | an unknown e-mail gives "OTP not found or expired" and changes nothing |
| `OtpService.VerifyExpired` | lib/otp-service.ts:39-42 | past its expiry a record is deleted and rejected even with the right code, and expiry is checked before the failure count |
| `OtpService.VerifyAtExpiryInstant` | lib/otp-service.ts:39 | the comparison is strict, so at the expiry instant itself the code is still accepted |
| `OtpService.VerifyWrongCode` | lib/otp-service.ts:49-52 | a wrong code is one more failure and nothing else changes |
| `OtpService.VerifySuccessConsumes` | lib/otp-service.ts:53-56 | success returns exactly the stored payload and deletes the record, so a second verification finds nothing |
| `OtpService.VerifyIgnoresKind` | lib/otp-service.ts:32-57 | the stored purpose plays no part in the verification result |
| `OtpService.VerifyTouchesOnlyItsEmail` | lib/otp-service.ts:32-57 | the records of other e-mails are left as they were |
| `OtpService.StoreOverwrites` | lib/otp-service.ts:19-30 | storing overwrites the record for its e-mail with a fresh one; other records stay exactly when they are unexpired |
| `OtpService.ReissueInvalidatesEarlierCode` | lib/otp-service.ts:19-57 | after a second code is issued, the first code is rejected as a wrong code and the second is still accepted |
| `OtpService.WrongGuessesCount` | lib/otp-service.ts:49-52 | n unexpired wrong guesses add exactly n failures |
| `OtpService.LockoutFrom` | lib/otp-service.ts:44-52 | starting from a record with no failures, three wrong guesses reach 3 failures and the next verification deletes the record and fails |
| `OtpService.StoredRecord` | lib/otp-service.ts:19-28 | right after issuing, the e-mail holds the issued record |
| `OtpService.LockoutAfterThreeWrongCodes` | lib/otp-service.ts:19-52 | after a code is issued and guessed wrongly three times, the next attempt fails with "Too many failed attempts", even with the right code, and deletes the record |
| `OtpService.AttemptsBoundedPreserved` | lib/otp-service.ts:19-74 | no operation raises a record's failure count above 3 |
| `OtpService.GetOtpDataAfterStore` | lib/otp-service.ts:19-30 | after a code is issued, `getOTPData` reports the issued record: the code, purpose and payload given, no failures, expiry ten minutes later |
| `OtpService.GetOtpDataAfterVerify` | lib/otp-service.ts:32-61 | after a wrong code `getOTPData` reports the record with one more failure; after any other outcome it reports nothing for that e-mail; other e-mails are reported as before |
| `OtpService.GetOtpDataAfterDelete` | lib/otp-service.ts:59-65 | after `deleteOTP`, `getOTPData` reports nothing for that e-mail and the other e-mails as before |
| `Users.FindByEmail` | app/api/register/route.ts:13-14 | there is no result exactly when no document has the e-mail; otherwise the result is a document with that e-mail |
| `Users.FindById` | app/api/profile/route.ts:70-71 | there is no result exactly when no document has the id; otherwise the result has that id |
| `Users.FindStoredById` | app/api/profile/route.ts:71 | a user looked up by the id it was stored under is found |
| `Users.UserCollection.FindOne` | app/api/register/route.ts:14 | `findOne({ email })` returns the first match |
| `Users.UserCollection.InsertOne` | app/api/register/route.ts:22-31 | the document is appended under the next id, and ids remain positions |
| `SendOtpRoute.SendOtp` | app/api/send-otp/route.ts:6-63 | the response, the OTP map and the e-mail handed to the sender are those of the transition |
| `SendOtpRoute.SendMissingEmail` | app/api/send-otp/route.ts:10-12 | a missing e-mail is a 400 that stores and sends nothing |
| `SendOtpRoute.KindDefaultsToRegistration` | app/api/send-otp/route.ts:8 | a request without `type` is handled as a registration |
| `SendOtpRoute.SendExistenceChecks` | app/api/send-otp/route.ts:14-36 | a registration for a known address is a 400 and a login for an unknown one is a 404; neither stores nor sends |
| `SendOtpRoute.SendStoresThenMails` | app/api/send-otp/route.ts:38-63 | once the checks pass, the code is stored before the mail goes out and stays stored if the mail fails; the mail carries the stored code; the answer is 500 on mail failure and 200 on success |
| `SendOtpRoute.OtherKindAlwaysStores` | app/api/send-otp/route.ts:15-40 | a `type` other than registration or login skips both checks and is stored under that type |
| `SendOtpRoute.MailedCodeVerifies` | app/api/send-otp/route.ts:38-52 | the mailed code, entered within ten minutes, verifies and returns the request's payload |
| `VerifyOtpRoute.VerifyOtp` | app/api/verify-otp/route.ts:9-140 | the response, the OTP map and the user documents are those of the transition, and ids remain positions |
| `VerifyOtpRoute.VerifyMissingField` | app/api/verify-otp/route.ts:13-17 | a missing e-mail or code is a 400 that changes nothing |
| `VerifyOtpRoute.VerifyRejectedCode` | app/api/verify-otp/route.ts:19-26 | a rejected code is a 400 with the store's own message; the store's change still happens and no user is added |
| `VerifyOtpRoute.CodeConsumedBeforeDispatch` | app/api/verify-otp/route.ts:20-140 | an accepted code is always consumed; an unknown `type` is then a 400 "Invalid verification type" |
| `VerifyOtpRoute.RegistrationWithoutPayload` | app/api/verify-otp/route.ts:28-35 | a registration code stored without a payload is a 400 "User data not found", and the code is consumed |
| `VerifyOtpRoute.RegistrationInserts` | app/api/verify-otp/route.ts:37-87 | the route appends one verified user built from the payload: the payload's e-mail, username and hashed password, first name, last name, date of birth and avatar defaulting to "", created now. It answers 201 "Registration successful" with exactly that user in the body, and sets a 24-hour `auth_token` cookie for the new id |
| `VerifyOtpRoute.RegisteredAddressComesFromPayload` | app/api/verify-otp/route.ts:28-57 | a code verified for one address creates a verified account under the payload's address, which can be a different one |
| `VerifyOtpRoute.LoginOutcome` | app/api/verify-otp/route.ts:90-136 | an OTP login for an unknown address is a 404; for a known one it is a 200 with a 24-hour cookie carrying that user's id and e-mail, and the users are unchanged |
| `LoginRoute.LoginMissingField` | app/api/login/route.ts:12-14 | a missing e-mail or password is a 400 with no cookie |
| `LoginRoute.LoginDoesNotRevealAccounts` | app/api/login/route.ts:17-26 | an unknown e-mail and a wrong password give the identical 401 |
| `LoginRoute.LoginSucceedsIff` | app/api/login/route.ts:8-60 | the answer is 200 exactly when the e-mail is registered and the password matches; then the 1-hour HTTP-only cookie carries that user's id and e-mail and the first name falls back to the username; no other answer sets a cookie |
| `RegisterRoute.Register` | app/api/register/route.ts:5-33 | the response and the documents are those of the transition, and ids remain positions |
| `RegisterRoute.RegisterMissingField` | app/api/register/route.ts:9-11 | a missing username, e-mail or password is a 400 and inserts nothing |
| `RegisterRoute.RegisterRejectsExistingEmail` | app/api/register/route.ts:13-18 | a registered e-mail is a 400 and inserts nothing |
| `RegisterRoute.RegisterInsertsOne` | app/api/register/route.ts:20-33 | a 201 appends exactly one user with the hashed password and the given fields |
| `RegisterRoute.RegisterKeepsEmailsUnique` | app/api/register/route.ts:13-31 | registering keeps e-mails unique and ids positional |
| `ProfileRoute.ParseCookies` | app/api/profile/route.ts:23-29 | the parsing loop computes the left-to-right fold of the pieces' pairs |
| `ProfileRoute.CookieKeyPresent` | app/api/profile/route.ts:23-31 | a cookie name is present exactly when some piece is a well-formed pair for it |
| `ProfileRoute.CookieLastWins` | app/api/profile/route.ts:23-29 | a cookie's value comes from the last piece that names it |
| `ProfileRoute.ExtraEqualsDropped` | app/api/profile/route.ts:24-27 | in `k=v=rest`, the value is only `v` |
| `ProfileRoute.GetProfile` | app/api/profile/route.ts:11-103 | a missing or empty header takes the no-cookie branch; otherwise the response is the ladder applied to the parsed cookies |
| `ProfileRoute.ProfileFailureLadder` | app/api/profile/route.ts:14-81 | the failures come in order, each with its own message: no header (401), no `auth_token` (401), a token that fails verification (401), a token without an id (401) and an unknown user (404) |
| `ProfileRoute.ProfileSuccess` | app/api/profile/route.ts:47-103 | any verified token whose id is a stored user's gives 200 with that user's profile and no cookie, whatever its other claims: e-mail, last name, date of birth and avatar as stored, the first name falling back to the username, and a missing subscription or token allowance replaced by basic/active or a daily limit of 10 |
| `Auth.UserOfClaims` | lib/auth.ts:18-22 | there is a user exactly when the token verified and carries an id; it is then that id and e-mail |
| `Auth.BearerStripped` | lib/auth.ts:32 | "Bearer" in any case, followed by white space, is removed and the rest trimmed |
| `Auth.NoBearerTrimmedOnly` | lib/auth.ts:32 | a header without the prefix is only trimmed |
| `Auth.AuthHeaderOutcome` | lib/auth.ts:28-42 | a missing or empty header gives no user; otherwise there is no user exactly when verification fails or yields no id, and the user is the token's id and e-mail |
| `Auth.CookieOutcome` | lib/auth.ts:11-26 | the same ladder for the `auth_token` cookie, without any prefix handling |
| `Auth.BlankBearerHeader` | lib/auth.ts:28-41 | a header of "Bearer", in any case, followed only by white space gives no user, provided `jwt.verify` rejects the empty token |
| `Auth.CookieTakesPrecedence` | app/api/history/route.ts:7-9 | `cookieUser \|\| headerUser`: a valid cookie decides the identity, and the header counts only without one |
| `Middleware.GuardRedirectsIff` | middleware.ts:4-19 | there is a redirect exactly on "/" without a non-empty `auth_token`, and it goes to the same URL with path "/try" |
| `Middleware.OnlyRootProtected` | middleware.ts:6-9 | every other path passes |
| `Middleware.TokenNotInspected` | middleware.ts:10 | any non-empty cookie value passes, because the token is not verified here |
| `ConditionalNavigation.ShownIff` | components/conditional-navigation.tsx:7-32 | the bar is shown exactly off auth pages and "/try", when authenticated and not loading |
| `ConditionalNavigation.HiddenReasonOrder` | components/conditional-navigation.tsx:11-29 | the reason is the first failing check, in source order |
| `ConditionalNavigation.RedirectTargetHasNoNavigation` | components/conditional-navigation.tsx:16-19 | the page the middleware redirects to never shows the bar |
| `ImageSlideshow.StepsStayInRange` | components/image-slideshow.tsx:33-39 | next and previous stay on a slide and undo each other |
| `ImageSlideshow.AdvanceWraps` | components/image-slideshow.tsx:24-28 | after k ticks the index is (i + k) mod n |
| `ImageSlideshow.AdvanceAdd` | components/image-slideshow.tsx:24-28 | ticks compose |
| `ImageSlideshow.AdvanceNoWrap` | components/image-slideshow.tsx:25-27 | before the last slide, each tick moves one slide ahead |
| `ImageSlideshow.FullCycle` | components/image-slideshow.tsx:24-28 | n ticks return to the starting slide |
| `ImageSlideshow.Slideshow.constructor` | components/image-slideshow.tsx:13-18 | the component starts on slide 0 with its props |
| `ImageSlideshow.Slideshow.GoToNext` | components/image-slideshow.tsx:37-39 | the index moves forward, wrapping at the end, and stays a slide index |
| `ImageSlideshow.Slideshow.GoToPrevious` | components/image-slideshow.tsx:33-35 | the index moves back, wrapping at the start, and stays a slide index |
| `ImageSlideshow.Slideshow.GoToSlide` | components/image-slideshow.tsx:41-43 | a dot's click sets the index to that dot |
| `ImageSlideshow.Slideshow.Tick` | components/image-slideshow.tsx:21-31 | the interval advances only with `autoSlide` and at least 2 images |
| `ImageSlideshow.Slideshow.Render` | components/image-slideshow.tsx:45-103 | no images gives the placeholder; otherwise the current slide is shown, with controls exactly when there are at least 2 images |
| `MongoUri.KeepSupported` | lib/mongodb.ts:21-31 | the filter keeps exactly the options whose lower-cased name is not one of the three TLS-version names |
| `MongoUri.KeepSupportedConcat` | lib/mongodb.ts:21-31 | filtering keeps the options' order |
| `MongoUri.KeepSupportedIdempotent` | lib/mongodb.ts:21-31 | filtering twice equals filtering once |
| `MongoUri.NoQueryUnchanged` | lib/mongodb.ts:17-18 | a URI without "?" is returned unchanged |
| `MongoUri.QueryFiltered` | lib/mongodb.ts:17-32 | the base is kept exactly; the result is the base alone when no option survives, and otherwise the base, a "?" and the kept options joined with "&" |
| `MongoUri.ResultOptionsAreKept` | lib/mongodb.ts:19-32 | the options read back from the result are exactly the kept ones, all of them supported |
| `MongoUri.StripIdempotent` | lib/mongodb.ts:16-33 | stripping twice equals stripping once |
| `GeminiLevels.FirstKeyword` | lib/gemini-services.ts:751-782 | the result is the first keyword that occurs in the text, and no earlier keyword occurs |
| `GeminiLevels.ThreatLevel` | lib/gemini-services.ts:751-757 | the result is one of low, moderate, high or critical, and never empty |
| `GeminiLevels.Priority` | lib/gemini-services.ts:759-765 | the result is one of low, medium, high or urgent |
| `GeminiLevels.QualityLevel` | lib/gemini-services.ts:767-774 | the result is one of excellent, good, moderate, poor or critical |
| `GeminiLevels.ContaminationLevel` | lib/gemini-services.ts:776-782 | the result is one of low, moderate, high or severe |
| `GeminiLevels.ThreatLevelLadder` | lib/gemini-services.ts:751-757 | each level holds exactly when its keyword occurs and no higher keyword does |
| `GeminiLevels.PriorityLadder` | lib/gemini-services.ts:759-765 | each priority holds exactly when its keyword occurs and no higher keyword does |
| `GeminiLevels.QualityLevelLadder` | lib/gemini-services.ts:767-774 | excellent beats good, which beats poor, which beats critical; the default is moderate |
| `GeminiLevels.ContaminationLevelLadder` | lib/gemini-services.ts:776-782 | each level holds exactly when its keyword occurs and no higher keyword does |
| `GeminiLevels.ClassifyMonotone` | lib/gemini-services.ts:751-782 | adding text on either side never moves the classification later in the keyword list |
| `GeminiLevels.CriticalStaysCritical` | lib/gemini-services.ts:751-757 | a critical threat stays critical whatever text is added |
| `GeminiText.Words` | lib/gemini-services.ts:552 | the words are non-empty and contain no white space |
| `GeminiText.WordsOfJoin` | lib/gemini-services.ts:552-558 | joining words with single spaces and splitting again gives the words back |
| `GeminiText.WordsOfPrefix` | lib/gemini-services.ts:558 | the first n words, joined, read back as those n words |
| `GeminiText.TruncateWordsSpec` | lib/gemini-services.ts:551-573 | text within the limit is returned as it is. Longer text keeps its first `maxWords` words, joined with single spaces: with "…" when the limit is below 20; from 20 up without it, plus one more word exactly when the last kept word has at most 3 characters and the next has at most 8 |
| `GeminiSplit.AlternativeAt` | lib/gemini-services.ts:547 | a connector match ends strictly after its start and within the text |
| `GeminiSplit.MatchAt` | lib/gemini-services.ts:541-547 | a match of either pattern ends strictly after its start and within the text |
| `GeminiSplit.SplitFrom` | lib/gemini-services.ts:541-547 | a split gives at least one piece |
| `GeminiSplit.SkipNoMatch` | lib/gemini-services.ts:541-547 | positions without a match are passed over |
| `GeminiSplit.SplitSingleIff` | lib/gemini-services.ts:547-548 | a split gives one piece, the whole text, exactly when the pattern matches nowhere |
| `GeminiSplit.SplitReassembles` | lib/gemini-services.ts:547 | a regex split loses nothing: the pieces, in order, interleaved with the matched separators, give back the text, and there is one more piece than separators |
| `GeminiSplit.TrimAll` | lib/gemini-services.ts:547 | `map(s => s.trim())` keeps the number of pieces, and every piece it gives back is left unchanged by a further `trim()` |
| `GeminiSplit.NonEmpty` | lib/gemini-services.ts:548 | `filter(Boolean)` keeps a piece exactly when it is non-empty, and a list with no empty piece comes back unchanged |
| `GeminiSplit.NonEmptyConcat` | lib/gemini-services.ts:548 | filtering a concatenation filters each side and keeps them in order, so order and repeats are kept |
| `GeminiSplit.SplitLongClauseSpec` | lib/gemini-services.ts:545-549 | a line without a connector comes back alone and unchanged; otherwise each piece returned is trimmed and non-empty |
| `GeminiSplit.SplitAroundAnd` | lib/gemini-services.ts:545-549 | two trimmed, non-empty clauses joined by " and ", with no connector matching inside either, come back as exactly those two clauses |
| `GeminiSummary.NewlinesToSpaces` | lib/gemini-services.ts:537 | no line feed remains |
| `GeminiSummary.NoNewlineUnchanged` | lib/gemini-services.ts:537 | text without a line feed is left as it is |
| `GeminiSummary.NewlinesToSpacesConcat` | lib/gemini-services.ts:537 | the rewrite of a concatenation is the rewrite of each side, unless the seam falls inside a run of line feeds |
| `GeminiSummary.NewlineRunBecomesSpace` | lib/gemini-services.ts:537 | a whole run of line feeds between two texts becomes exactly one space, and the texts on either side are rewritten on their own |
| `GeminiSummary.DropMarks` | lib/gemini-services.ts:538 | no `_`, `#` or `*` remains, and text without them is left as it is |
| `GeminiSummary.DropMarksConcat` | lib/gemini-services.ts:538 | deleting marks from a concatenation deletes them from each side, so every other character is kept, in order |
| `GeminiSummary.SentencesOfTrimmed` | lib/gemini-services.ts:536-541 | splitting cleaned, non-empty text gives non-empty trimmed sentences with no sentence break inside, each but the last ending in a sentence mark |
| `GeminiSummary.ResplitJoin` | lib/gemini-services.ts:541-542 | such sentences, joined with single spaces and split again, come back unchanged |
| `GeminiSummary.SummaryResplits` | lib/gemini-services.ts:535-543 | the summary has at most `maxSentences` sentences, and splitting it again gives exactly the first `maxSentences` sentences of the cleaned text |
| `GeminiSpecies.FromParts` | lib/gemini-services.ts:357-362 | rank i is part i, or "" when there are fewer parts |
| `GeminiSpecies.ClassificationPositional` | lib/gemini-services.ts:352-370 | a text with a comma assigns its trimmed parts to kingdom … genus by position; a text without one uses the per-rank fallback |
| `GeminiSpecies.ClassificationRoundTrip` | lib/gemini-services.ts:352-362 | six plain ranks written comma-separated parse back to themselves |
| `GeminiSpecies.ExtraPartsIgnored` | lib/gemini-services.ts:354-362 | parts after the sixth are ignored |
| `GeminiSpecies.DigitRun` | lib/gemini-services.ts:317 | the digit run is maximal |
| `GeminiSpecies.ParseFloatNaNIff` | lib/gemini-services.ts:317-321 | `parseFloat` is NaN exactly when the text, after leading white space and an optional sign, does not start with a digit, a point followed by a digit, or "Infinity" |
| `GeminiSpecies.UnsignedNaNIff` | lib/gemini-services.ts:317 | the same condition for the unsigned literal |
| `GeminiSpecies.ParseFloatUnsigned` | lib/gemini-services.ts:317 | text that starts without white space or a sign is read as an unsigned literal |
| `GeminiSpecies.ParseFloatInteger` | lib/gemini-services.ts:317-321 | an integer is read up to the first character that cannot continue it ("92%" is 92, "75" is 75) |
| `GeminiSpecies.ParseFloatDecimal` | lib/gemini-services.ts:317-321 | a decimal fraction is read exactly ("87.5" is 87.5) |
| `GeminiSpecies.ParseFloatMinus` | lib/gemini-services.ts:317 | a leading "-" negates |
| `GeminiSpecies.ParseFloatSkipsSpace` | lib/gemini-services.ts:317 | leading white space is ignored |
| `GeminiSpecies.FirstTruthy` | lib/gemini-services.ts:317-321 | `a \|\| b \|\| … \|\| "75"` gives the fallback when every candidate is empty, a non-empty candidate as soon as one candidate is non-empty, and never anything but the fallback or a candidate |
| `GeminiSpecies.FirstTruthyIs` | lib/gemini-services.ts:317-321 | when candidate `i` is the first non-empty one, the chain gives exactly candidate `i` |
| `GeminiSpecies.Confidence` | lib/gemini-services.ts:396 | the guard `isNaN(confidence) ? 75 : confidence` applied to the parse of lines 317-321 makes the confidence never NaN |
| `GeminiSpecies.ParseFloatDefault` | lib/gemini-services.ts:321 | the default "75" parses to 75 |
| `GeminiSpecies.ConfidenceDefault` | lib/gemini-services.ts:317-321 | no extracted value gives 75 |
| `GeminiSpecies.ConfidenceFromFirst` | lib/gemini-services.ts:317-321 | only the first non-empty value is parsed: its number when it starts with one, and otherwise 75 even if a later value is numeric |
| `GeminiSpecies.BlockItems` | lib/gemini-services.ts:707-709 | the block path gives at most 4 items, namely the first 4 clauses, each truncated to 25 words |
| `GeminiSpecies.BlockItemWords` | lib/gemini-services.ts:707-708 | each block item has at most 26 words |
| `GeminiSpecies.KeepListItems` | lib/gemini-services.ts:719 | the filter keeps an item exactly when it is non-empty and has no ":", and a list of such items comes back unchanged |
| `GeminiSpecies.KeepListItemsConcat` | lib/gemini-services.ts:719 | filtering a concatenation filters each side and keeps them in order, so order and repeats are kept |
| `GeminiSpecies.ValueItems` | lib/gemini-services.ts:714-720 | the value path's items are non-empty, trimmed and free of ":" |
| `GeminiSpecies.ValueItemsOfPieces` | lib/gemini-services.ts:714-720 | a value made of pieces free of "," and ";", joined by either separator, gives exactly the kept trimmed pieces, in order |
| `GeminiSpecies.ValueItemsExample` | lib/gemini-services.ts:714-720 | a value such as "a; b" gives the two items "a" and "b", in that order |
| `GeminiSpecies.ExtractListShape` | lib/gemini-services.ts:639-724 | a list is never empty; a block with at least one clause gives exactly its block items, at most 4; otherwise the list is the value path's items when there are any, and nothing when there are none |
| `GeminiRetry.Pow2` | lib/gemini-services.ts:72 | `Math.pow(2, k)` is at least 1 |
| `GeminiRetry.Schedule` | lib/gemini-services.ts:70-73 | wait k is 500·2^(k-1) plus that retry's jitter |
| `GeminiRetry.IdentifyWithRetry` | lib/gemini-services.ts:56-84 | between 1 and 4 calls are made, and every call before the last failed under load. The result is the last call's reply, or its error message behind "Failed to identify species from image: "; an error before the fourth call is not a load error. The waits follow the schedule |
| `GeminiRetry.ScheduleTotal` | lib/gemini-services.ts:70-73 | with jitter below 200 ms, n waits total between 500·(2^n − 1) and that plus 200·n |
| `GeminiRetry.DelayDoubles` | lib/gemini-services.ts:72 | each base delay is twice the one before |
| `GeminiRetry.StopIsUnique` | lib/gemini-services.ts:59-77 | only one number of calls fits the loop's contract, so the contract fixes the outcome |
| `JsStrings.Trim` | lib/auth.ts:32 | `trim()` leaves no white space at either end and gives a substring of the input |
| `JsStrings.TrimRemovesOnlySpace` | lib/auth.ts:32 | `trim()` removes white space and nothing else: the result is the text right after the leading run of white space, and only white space follows it |
| `JsStrings.JoinSplit` | lib/mongodb.ts:22-32 | splitting and joining with the same character gives the text back |
| `JsStrings.SplitJoin` | lib/mongodb.ts:22-32 | joining separator-free pieces and splitting again gives the pieces back |
| `JsStrings.ContainsConcat` | lib/gemini-services.ts:752-753 | `includes` survives adding text on either side |
| `JsStrings.IndexOf` | lib/mongodb.ts:17 | `indexOf` gives -1 exactly when the character is absent; otherwise it is the first occurrence |

## Left out

- Logging (`console.log`/`console.error`), the `[DEV]` OTP print and the
  profile route's `debug` fields are not modelled.
- The `catch` paths that answer 500 "Internal server error" are not
  modelled. These are exceptions from `req.json()`, the database, `bcrypt`,
  `new ObjectId` and the mail sender.
- JSON bodies with missing or non-string fields are not modelled: an absent
  field and "" are the same.
- The cookie's `secure` flag is not modelled, because it depends on
  `NODE_ENV`.
- The `updatedAt` field and the time of day in `createdAt` are not modelled:
  one `now` stands for every `new Date()` in a call.
- MongoDB is not modelled:
  - `ObjectId` ids are positions in the collection;
  - `getUserCollection` and `connectDB` are left out;
  - so are the connection caching and mongoose options of `lib/mongodb.ts`.
- There is no concurrency: the OTP map is updated by one request at a time.
- `setInterval(cleanupExpiredOTPs, …)` is the explicit call
  `CleanupExpiredOtps`. The timer itself is not modelled.
- `crypto.randomInt`, `bcrypt.hash`/`compare`, `jwt.sign`/`verify` and
  `sendOTPEmail` are parameters. Signatures and token expiry are not
  modelled; a token is the claims it signs together with its lifetime.
- `next/headers` `cookies()` is the `auth_token` value passed in, so the
  exception it can raise is not modelled. The Google OAuth callback is not
  part of this model.
- `ProfileRoute.ParseCookies`: a piece named `__proto__` or another property
  of `Object.prototype` is an ordinary key in the model.
- `ProfileRoute.GetProfile` does not model a verified id that is not a valid
  `ObjectId`. That case throws in `new ObjectId` and answers 500.
- The UI is not modelled:
  - the React rendering beyond what is shown;
  - the re-installation of the slideshow's interval when its props change;
  - `images` changing under a mounted slideshow (the index is never reset).
- BlankBearerHeader: `jwt.verify` is a parameter of the model, so that it
  rejects the empty token is a requires of the lemma rather than a fact the
  model proves.
- `useAuth` is not modelled: its `isAuthenticated` and `loading` are
  parameters.
- The text heuristics of `lib/gemini-services.ts` are not modelled. Their
  outputs are parameters: the value found, the filtered block items and the
  per-rank fallback. They are:
  - `preprocessAiText`, `extractValue` and `extractBlock`;
  - `normalizeThreatText`;
  - the line splitting and the phrase filters of `extractList` (lines 643-706);
  - `cleanTaxon`, `buildDescription`;
  - the species, scientific and common name chains.
  They are chains of regular-expression heuristics over free text whose
  output is not promised anywhere, so there is no property to state.
- The prompts and the other Gemini methods are not modelled; their answers
  are the classifiers' inputs.
- `GeminiSpecies.ParseFloat` reads the exact decimal. Rounding to a double,
  overflow to Infinity and the sign of -0 are not modelled.
- `GeminiRetry.IdentifyWithRetry` does not model three things:
  - `parseSpeciesIdentification` on the reply, because the reply text is
    returned instead;
  - failures of `getGeminiFlashVisionModel`;
  - thrown values that are not `Error`s (`String(err)`), because an error is
    its message.
  The final `throw lastError` after the loop (line 79) cannot be reached,
  because the fourth attempt always returns or throws.
- `Math.random()` is the jitter parameter and `setTimeout` is not modelled:
  the waits are returned.
- `JsStrings.ToLower` lower-cases only ASCII letters, and lengths count
  `char`s rather than UTF-16 code units.
- `GeminiSplit.MatchAt` matches the connectors case-insensitively only for
  ASCII letters.
