# kirlu-backend core in Dafny

A model of the request handlers of the kirlu-backend prompt marketplace (an
Express/Mongoose service) and of the Prompt schema they write through:

- **Authentication** (`AuthController`, `AuthWorkflow`): registration with a
  one-time passcode, OTP verification, login, forgotten and reset passwords,
  and reading the signed-in user. Each handler is a pure step from a user store
  to the next store plus the HTTP response it sends. The lemmas in
  `AuthWorkflow` follow several requests in a row: onboarding, enumeration
  resistance, a one-shot OTP and recovery.
- **Prompt schema** (`PromptModel`, `JsString`): the path validators of the
  schema. These cover the trimmed and bounded name, the bounded description,
  the status enum, the rating bounds, non-negative prices and the offer
  validator. The document `Prompt.create` builds is modelled, and so is the
  update `findByIdAndUpdate` applies with `runValidators`. JavaScript's `trim`
  and UTF-16 `length` are modelled exactly on strings of whole Unicode scalar
  values (see "Left out" for lone surrogates).
- **Prompt handlers**:
  - `PromptQuery` models the filtered, newest-first, paginated listing.
  - `PromptController` models get, create, update, delete and rate, with the
    owner-or-admin rule.
  - `RatingAggregate` models the running average rounded to one decimal.
- **Profile handlers** (`ProfileController`): reading the profile, the
  whitelisted profile update, and the profile-picture replacement.

Stores are a map from ids to records together with the next id to issue.
Ids stand in for MongoDB ObjectIds; they are issued in creation order, so
"newest first" means descending id. Other code is passed in as parameters:

- the password comparison and OTP check of `models/User.js`;
- the storage form of a generated OTP;
- whether the OTP mail was delivered;
- the uploaded files.

Responses are `Reply(status, body)` or `Fail(error)`. An error is either one
the handler raises itself, `Reject(status, message)` with the source's exact
status and message, or an exception some library throws, `Thrown(cause)`.

## Model

| member | source | states |
|---|---|---|
| AuthController.Register | controllers/authController.js:10-67 | An email already registered is refused with 400 and changes nothing. Otherwise a fresh id receives an unverified member (the schema's default role) with the request's name, email, phone and password, no profile picture and the new OTP, and no other record changes. The reply is 201 exactly when the email is free and the reply could be written; otherwise the user is removed again and the response is 500. Unique emails are kept, and nobody gains or loses verification. |
| AuthController.VerifyOtp | controllers/authController.js:73-95 | An unknown id, an already verified user and a refused code each fail with their own 400 and change nothing. Success happens exactly when the user exists, is unverified and the code is accepted. Then only that user changes: it becomes verified and its OTP is cleared, and a session is issued for it. |
| AuthController.Login | controllers/authController.js:100-128 | A missing or empty email or password gives 400. An unknown email gives 401 "Invalid credentials". For the user `findOne` finds: unverified gives 401 "Please verify your email first"; verified with a wrong password gives 401 "Invalid credentials"; verified with a matching password issues a session for that user with 200. A session is issued only in that last case. |
| AuthController.Missing | controllers/authController.js:104 | `!email` holds for an absent or empty field; a field that is not missing is present and non-empty. |
| AuthController.ForgotPassword | controllers/authController.js:133-179 | The response is 404 exactly when no user has the email. Otherwise only that user's OTP changes. If the mail is delivered, the new OTP is pending and the reply is 200; if not, the OTP is cleared and the response is 500. |
| AuthController.ResetPassword | controllers/authController.js:184-205 | An unknown id or a refused code gives 400 and changes nothing. Success happens exactly when the code is accepted. Then only the password is replaced and the OTP cleared; verification is untouched. |
| AuthController.GetMe | controllers/authController.js:210-217 | Always 200. The body is the stored record when the id exists and `null` when it does not. getProfile (controllers/userController.js:8-15) is the same handler. |
| AuthWorkflow.VerifySucceedsOnce | controllers/authController.js:81-90 | After a successful verification, any further verification of the same user is refused as already verified. |
| AuthWorkflow.RollbackFreesEmail | controllers/authController.js:58-66 | After a rolled-back registration, the same email can be registered again. |
| AuthWorkflow.RegisteredReadsBack | controllers/authController.js:20-29 | A newly registered user reads back as unverified, with the request's email and password. |
| AuthWorkflow.Onboarding | controllers/authController.js:10-128 | Register, then log in: refused as unverified. Verify, then log in again: a session is issued for the new id. |
| AuthWorkflow.UnknownEmailLooksLikeWrongPassword | controllers/authController.js:109-125 | An unknown email and a wrong password for a verified account get the identical 401 response. |
| AuthWorkflow.UnverifiedRefusedBeforePasswordCheck | controllers/authController.js:115-118 | An unverified account gets the verification error whatever password is sent. That error differs from the invalid-credentials one. |
| AuthWorkflow.ForgotThenReset | controllers/authController.js:133-205 | A delivered forgot-password request followed by a reset with an accepted code replies 200. The account ends with the new password and no pending OTP, and nothing else changes. |
| AuthWorkflow.ForgotRetryReplacesOtp | controllers/authController.js:142-177 | A forgot-password request whose mail fails leaves no OTP pending. A delivered retry leaves exactly the new OTP, so codes never accumulate. |
| AuthWorkflow.FindFromFrame | controllers/authController.js:14 | A lookup by email gives the same answer on any store that keeps every id and every email. |
| Users.FindByEmail | controllers/authController.js:14 | `findOne({email})` finds a user carrying the email, and finds nothing exactly when no stored user has it. |
| Users.FindFrom | controllers/authController.js:136 | The first id in a range whose user has the email; when there is none, no id in the range has it. |
| JsString.Trim | models/Prompt.js:7 | The result is the infix of the input left once everything dropped at either end is whitespace. It neither starts nor ends with whitespace. |
| JsString.TrimStart | models/Prompt.js:7 | The result is a suffix of the input; everything dropped is whitespace; it does not start with whitespace. |
| JsString.TrimEnd | models/Prompt.js:7 | The result is a prefix of the input; everything dropped is whitespace; it does not end with whitespace. |
| JsString.TrimIdempotent | models/Prompt.js:7 | Trimming twice gives what trimming once gives. |
| JsString.TrimEmptyIffBlank | models/Prompt.js:6-7 | Trimming leaves nothing exactly when the input is all whitespace, so a blank name fails the required check. |
| JsString.Utf16Length | models/Prompt.js:8 | The UTF-16 length lies between the code-point count and twice that count. It equals the code-point count when every code point is in the Basic Multilingual Plane. |
| JsString.Utf16LengthAdds | models/Prompt.js:8 | The UTF-16 length of a concatenation is the sum of the lengths. |
| JsString.Utf16LengthCountsAstral | models/Prompt.js:8 | The UTF-16 length is the number of characters plus the number of characters above U+FFFF, each of which takes a surrogate pair. |
| PromptModel.ParseStatus | models/Prompt.js:25-29 | Casting to the enum succeeds exactly for "active", "inactive" and "draft", and gives back the value's own name. |
| PromptModel.ParseStatusName | models/Prompt.js:27 | Every status casts back from its name. |
| PromptModel.Create | models/Prompt.js:3-66 | A document is built exactly when CreateAccepts holds: every required path is present, the status is in the enum, and each validator accepts the value it will store (the name after trimming, defaults for missing images and rating). |
| PromptModel.CreateKeepsBodyFields | models/Prompt.js:3-66 | The built document carries the body's values, the trimmed name, and the defaults for a missing status, image list or rating. |
| PromptModel.ValidMeans | models/Prompt.js:3-63 | A document with valid fields has a non-empty trimmed name, a non-empty description, an average in [0, 5], a non-negative regular price and a key on every image; a fully valid one also has any offer within [0, regular]. |
| JsString.TrimFixesExactlyTrimmed | models/Prompt.js:7 | The trimmed name neither starts nor ends with whitespace, and trimming leaves a string unchanged exactly when it already has that shape. |
| PromptModel.CreatedIsValid | models/Prompt.js:3-58 | Whatever Create builds passes validation. |
| PromptModel.CreateDefaults | models/Prompt.js:25-41 | Without a status or rating in the body, the prompt is active and rated 0 users, 0.0. |
| PromptModel.CreateRefusesOfferAboveRegular | models/Prompt.js:48-57 | Create refuses an offer above the regular price. |
| PromptModel.Update | controllers/promptController.js:117-120 | Validators run only on the paths the body carries. Each carried key overwrites its field wholesale and every other field keeps its value. Stored validity is preserved. |
| PromptModel.UpdateEmptyBodyIsIdentity | controllers/promptController.js:117-120 | An empty update body leaves the prompt as it was. |
| PromptModel.UpdateIdempotent | controllers/promptController.js:117-120 | Applying the same update twice equals applying it once. |
| Uploads.ToImages | controllers/promptController.js:79-82 | Each uploaded file becomes `{public_id: filename, url: path}`, in upload order. |
| PromptQuery.Matches | controllers/promptController.js:15-31 | Only active prompts match. Without price bounds, a prompt matches exactly when it is active; a prompt can match both bounds only when the minimum does not exceed the maximum. |
| PromptQuery.OrDefaultFallsBack | controllers/promptController.js:10-11 | `parseInt(x) \|\| d`: a non-zero number is kept; an absent value or 0 falls back to the non-zero default, so the result is never 0. |
| PromptQuery.NegativeSkipIff | controllers/promptController.js:10-12 | `(page - 1) * limit` is 0 on page 1, and negative exactly when the page is below 1 with a positive limit or above 1 with a negative limit. |
| PromptQuery.NewestFirst | controllers/promptController.js:33-35 | Exactly the prompts matching the filter, in strictly descending creation order. |
| PromptQuery.NewestFirstCountsMatches | controllers/promptController.js:39 | The newest-first list has as many entries as there are matching prompts. |
| PromptQuery.DistinctCardinality | controllers/promptController.js:39 | A list without repeats (no element at two positions) is as long as the set of its elements. |
| PromptQuery.CeilDiv | controllers/promptController.js:47 | For a positive limit, `pages` is the least whole number of pages that holds `total`. |
| PromptQuery.Slice | controllers/promptController.js:36-37 | Skip then limit gives the entries that follow the skipped ones, at most `limit` of them. |
| PromptQuery.ListPrompts | controllers/promptController.js:8-51 | It fails exactly when the computed skip is negative. On a reply: the page is as requested or defaulted; `total` counts all matches; `pages` is the ceiling of `total / limit`. `data` holds at most `limit` consecutive newest-first matches after the skipped ones, each one a stored, active prompt whose regular price lies in the range, in descending creation order. |
| PromptQuery.ListTotalCountsMatches | controllers/promptController.js:39 | `total` equals the number of stored prompts the filter selects. |
| PromptQuery.DefaultPaging | controllers/promptController.js:10-11 | Without `page` and `limit`, the reply is page 1 with at most ten prompts. |
| PromptQuery.EveryMatchOnSomePage | controllers/promptController.js:10-37 | With a positive limit, the j-th match appears as entry `j % limit` of page `j / limit + 1`. |
| PromptQuery.OnPage | controllers/promptController.js:12-37 | Entry k of page d + 1 is match number d * limit + k. |
| PromptQuery.PageOfEveryMatchCounted | controllers/promptController.js:45-48 | The page on which any match sits is within the announced `pages`. |
| PromptController.MayModify | controllers/promptController.js:104 | An admin may modify any prompt; a member may modify a prompt exactly when they created it. deletePrompt applies the same test (line 139). |
| PromptController.GetPrompt | controllers/promptController.js:56-68 | A missing id gives 404; otherwise the stored prompt is returned with 200. |
| PromptController.NewPrompt | controllers/promptController.js:73-85 | A document is built exactly when `Prompt.create` accepts the body with the requester as owner and the uploads, if any, as its images. The built document is valid and owned by the requester; its name is the body's name trimmed; description, price, status and rating come from the body, with the schema defaults for a missing status or rating; uploads, when present, replace the body's images in upload order. |
| PromptController.CreatePrompt | controllers/promptController.js:73-91 | It fails exactly when validation refuses the document, and then stores nothing. On success the prompt is stored under a fresh id and nothing else changes. |
| PromptController.CreateIgnoresBodyOwner | controllers/promptController.js:75 | An owner named in the body has no effect; the requester owns the prompt. |
| PromptController.Revise | controllers/promptController.js:108-120 | The update is accepted exactly when every carried key passes its validator: the trimmed name, the description, the status enum, the rating and the price paths; the image list checked is the old images followed by the uploads when there are uploads, and the body's list otherwise. On acceptance every field is pinned: the trimmed name, description, status, rating, price and owner come from the body when it carries them and are kept otherwise, and uploads are appended after the existing images. |
| PromptController.UpdatePrompt | controllers/promptController.js:96-126 | A missing prompt gives 404 before any ownership test. A requester who is neither owner nor admin gets 403. For an authorised requester the reply is 200 exactly when `Revise` accepts the update, and otherwise a validation error. Failures store nothing. On success only that prompt changes, and it changes as `Revise` states. |
| PromptController.UpdateAppendsImages | controllers/promptController.js:109-115 | Updating with uploads keeps every old image in front of the new ones. |
| PromptController.UpdateCanTransferOwnership | controllers/promptController.js:104-120 | An owner can reassign `createdBy` through the body, and then cannot update the prompt any more. |
| PromptController.Keys | controllers/promptController.js:144-145 | The object-store keys of the images, in order. |
| PromptController.DeletePrompt | controllers/promptController.js:131-154 | 404 for a missing prompt and 403 for a requester who is neither owner nor admin; in both cases nothing changes. Otherwise exactly that prompt is removed and every one of its image keys is destroyed, in order. |
| PromptController.DeletePromptAsWritten | controllers/promptController.js:143-146 | When the prompt has images, an authorised delete throws before anything is deleted. |
| PromptController.DeleteAsWrittenAgreesOnlyWithoutImages | controllers/promptController.js:131-154 | The handler as written and the corrected one agree exactly when the prompt is missing, forbidden, or has no images. |
| PromptController.DeleteWithImageFailsAsWritten | controllers/promptController.js:143-146 | In a concrete case, the owner deletes a prompt with one image: as written the prompt survives; corrected, it is removed and its key destroyed. |
| PromptController.CreateKeepsFieldsValid | models/Prompt.js:3-58 | Creating a prompt keeps every stored prompt valid under the schema's path validators. |
| PromptController.UpdateKeepsFieldsValid | controllers/promptController.js:117-120 | Updating a prompt keeps every stored prompt valid under the schema's path validators. |
| PromptController.DeleteKeepsFieldsValid | controllers/promptController.js:148 | Deleting a prompt keeps every stored prompt valid under the schema's path validators. |
| PromptController.RateKeepsFieldsValid | controllers/promptController.js:177-182 | Rating a prompt keeps every stored prompt valid; saving re-checks that the average is in [0, 5]. |
| PromptController.RatePrompt | controllers/promptController.js:159-188 | A rating outside [1, 5] gives 400 before the lookup, and a missing prompt gives 404. A stored count of -1 makes the new count 0 and fails. Otherwise `save()` validates the whole document with its new rating `Submit(old, rating)`: the reply is 200 with that rating exactly when the document is valid, the stored prompt then carries exactly that rating and nothing else changes; otherwise it is a validation error and nothing is stored. For a valid prompt with a count of at least 0, success is guaranteed. |
| PromptController.RatePromptSaves | models/Prompt.js:51-56 | `save()` also re-runs the offer validator, so a prompt whose stored offer exceeds its regular price cannot be rated with any rating, and the store stays as it was. |
| PromptController.RepeatedRatingKeepsAverage | controllers/promptController.js:173-182 | Rating a valid prompt again and again with its current one-decimal average counts one more user each time and leaves the average unchanged. |
| RatingAggregate.Round1 | controllers/promptController.js:179 | `Math.round(x * 10) / 10` has one decimal and lies in (x - 0.05, x + 0.05]. |
| RatingAggregate.Round1Monotone | controllers/promptController.js:179 | Rounding preserves order. |
| RatingAggregate.Round1Fixes | controllers/promptController.js:179 | Rounding leaves a one-decimal value unchanged. |
| RatingAggregate.Round1Within | controllers/promptController.js:179 | Rounding stays between any one-decimal bounds of its input. |
| RatingAggregate.Mean | controllers/promptController.js:173-175 | The running mean times the new count equals the old average times the old count plus the new rating. |
| RatingAggregate.MeanBetween | controllers/promptController.js:173-175 | The running mean lies between the old average and the new rating. |
| RatingAggregate.Submit | controllers/promptController.js:173-180 | One more user is counted. The new average has one decimal and is within 0.05 of the true mean. It stays in [0, 5] for a rating in [1, 5]. |
| RatingAggregate.RoundedMeanInRange | models/Prompt.js:35-40 | The rounded mean of a valid rating and a rating in [1, 5] stays within [0, 5]. |
| RatingAggregate.SubmitAll | controllers/promptController.js:173-180 | After a sequence of ratings, the count grows by their number and the rating stays valid. |
| RatingAggregate.Repeat | controllers/promptController.js:173-180 | The same rating n times. |
| RatingAggregate.SubmitSameKeepsAverage | controllers/promptController.js:173-180 | Submitting a one-decimal average again any number of times keeps it. |
| RatingAggregate.SubmitSameFromDefault | controllers/promptController.js:173-180 | From the default rating, n > 0 equal ratings of a one-decimal value give that value for n users. (A value with more decimals is rounded on the first rating.) |
| RatingAggregate.WorkedExamples | controllers/promptController.js:173-180 | Ratings 5, 5, 5, 1 give 4 users averaging 4.0, and a single 3 gives 3.0. |
| RatingAggregate.RoundingDrifts | controllers/promptController.js:179 | Rounding each step drifts: ratings 1, 1, 2, 1 store 1.2, although the rounded true mean is 1.3. |
| ProfileController.OtherHolder | controllers/userController.js:27-30 | Finds another user with the email, or proves that no user other than this one in the range has it. |
| ProfileController.UpdateProfile | controllers/userController.js:20-36 | An unknown id replies 200 with `null` and changes nothing. An email held by another user fails with a duplicate key, exactly when such a user exists; no other failure is possible, so every other update of a known user succeeds. Otherwise only name, email and phone are set, and only those the body carries. The password, role, verification, OTP and picture are untouched, no other user changes, and unique emails are kept. |
| ProfileController.UpdateProfileIdempotent | controllers/userController.js:20-36 | Sending the same profile update twice leaves the store as sending it once. |
| ProfileController.ProfileReadsBackUpdate | controllers/userController.js:8-36 | After a successful update, reading the profile returns what the update replied. |
| ProfileController.StaleKey | controllers/userController.js:49 | There is an old key to destroy exactly when the user has a picture with a non-empty `public_id`, and it is that `public_id`. |
| ProfileController.UpdateProfilePicture | controllers/userController.js:41-64 | Without a file the response is 400 and nothing changes. Success happens exactly when a file is given and the user exists. Then only `profilePic` changes, to the uploaded file, the old picture's key is destroyed when it has one, and the reply is 200 with the updated user. |
| ProfileController.UpdateProfilePictureAsWritten | controllers/userController.js:48-51 | Replacing a picture that has a `public_id` throws before the new picture is saved, and destroys nothing. |
| ProfileController.PictureAsWrittenAgreesOnlyOnFirstUpload | controllers/userController.js:41-64 | The handler as written and the corrected one agree exactly when there is no old key to destroy. |
| ProfileController.PictureReplacementFailsAsWritten | controllers/userController.js:48-56 | In a concrete case, a user with a picture uploads a new one: as written it fails and the old picture stays; corrected, the new one is stored. |

## Left out

- models/User.js is not part of this model:
  - password hashing, `matchPassword`, and the OTP digest and expiry of `generateOTP`/`verifyOTP` are parameters;
  - the User schema's own validators, the `select: false` on the password, and email case normalisation are not modelled.
- Token signing and the cookie written by `sendTokenResponse` (utils/ is not part of this model): a session is modelled as `SessionIssued(id)`.
- `logout` (controllers/authController.js:222-232): it only overwrites a cookie and touches no store.
- Mail sending is a boolean outcome, and the mail's HTML is left out.
- The `register` mail call is commented out in the source. Its rollback branch is therefore driven by whether the reply could be written.
- The `$text` search (controllers/promptController.js:18-20) and `populate` of the owner's name and picture are left out. The text index is not part of this model.
- `parseInt` on query strings: `page`, `limit` and the prices arrive as already-parsed integers or as absent.
- JavaScript's coercion of a non-numeric `rating` in `ratePrompt` is left out: the rating is a number.
- Prices and averages are exact reals, not IEEE doubles, so `Math.round` on a binary tie is not modelled bit for bit.
- Concurrency is left out: two concurrent `ratePrompt` calls can lose an update in the source; here handlers run one at a time.
- `createdAt`/`updatedAt` timestamps are left out; creation order is the order in which ids are issued.
- The error handler middleware that turns a thrown exception (`Thrown`) into an HTTP status is not part of this model.
- PromptModel.Update: the offer validator (models/Prompt.js:51-56) is not modelled on the update path. Under update validators `this` is the query, not the document, so its outcome depends on Mongoose internals.
- ProfileController.UpdateProfile: keys the body leaves undefined are dropped from the update, as Mongoose 7 and later do. The older behaviour of unsetting them is not modelled.
- PromptController.RatePrompt: `totalUsers` is an integer. A fractional count written through an update body is not modelled.
- The Cloudinary calls themselves are left out: each step returns the list of object-store keys it destroys.
- Request-body fields are modelled as strings. Only login's `email` and `password` (checked at controllers/authController.js:104) and the optional keys of the prompt and profile bodies may be absent. In the source, `email` from the body goes straight into `User.findOne({ email })` (controllers/authController.js:14, 109, 136), so a JSON object such as `{"$ne": null}` acts as a query operator and can match an arbitrary user. Non-string bodies and the query operators they carry are not modelled.
- AuthController.Register: `email` is always present. In the source, a body without `email` runs `findOne({ email: undefined })`, which Mongoose treats as `findOne({})`: with any user stored, the request is refused as "User already exists" (controllers/authController.js:11-17). That case is not modelled.
- AuthController.ForgotPassword: `email` is always present. In the source, a body without `email` makes `findOne({})` return some stored user, who then gets a fresh OTP, and the reply carries that user's id (controllers/authController.js:134-172). That case is not modelled.
- AuthController.ResetPassword: `newPassword` is always present. An absent one is left to `user.save()` and the User schema's validators, which are not part of this model.
- The unique index on `email` (`Users.EmailsUnique`) is assumed, not read from models/User.js. The duplicate-key failure of ProfileController.UpdateProfile rests on it.
- Malformed ObjectIds are left out: ids are natural numbers, so every id in a route parameter is well formed. In the source, `findById` with a string that is not an ObjectId throws a CastError. That exception goes to the error handler, which is not part of this model. The model answers such requests as for an unknown id: 404 for prompts, and the unknown-user answers of the auth and profile handlers.
- JavaScript strings are UTF-16 code-unit sequences and may hold lone surrogates. A Dafny `char` is a Unicode scalar value, so names with unpaired surrogate code units are not representable. `JsString.Utf16Length` and `JsString.Trim` are exact only on well-formed strings.

## Findings

| source | as written | input that shows it | evidently intended | confidence | as-written member | corrected member |
|---|---|---|---|---|---|---|
| controllers/promptController.js:143-146 | `cloudinary` is used but never required in this file, so `cloudinary.uploader.destroy` throws a ReferenceError | the owner deletes a prompt that has one image | destroy every image, then delete the prompt and reply 200 | high, not executed | PromptController.DeletePromptAsWritten | PromptController.DeletePrompt |
| controllers/userController.js:49-51 | `cloudinary` is used but never required in this file, so replacing a picture throws a ReferenceError before the new picture is saved | a user whose `profilePic` has a `public_id` uploads a new picture | destroy the old picture, store the new one and reply 200 | high, not executed | ProfileController.UpdateProfilePictureAsWritten | ProfileController.UpdateProfilePicture |
