# Lot and user rules of the auction backend, in Dafny

This project models the decision and bookkeeping logic of an online
livestock-auction backend (an Express and Mongoose service) and proves
properties about it. It covers three parts.

- **Lots (`lots/routes.js`).**
  - The filter that the lot listings send to the database: draft visibility, live states, `draft=all`, auction-scoped listings and results.
  - The edit guard.
  - The create-lot route: the body validator it picks from the lot's `draft` and `platform`, the auction checks, and the fields it copies from the auction.
  - The per-auction `counts` recompute.
  - The participants of a lot.
  - The caller's highest auto-bid per lot and highest bid per auction and lot.
  - Document removal, the media thumbnail update, and the pagination arithmetic of `GET /lots`.
- **User payload validation (`users/validator.js`).**
  - A JSON value type, plus the subset of JSON Schema (draft-07) validation that the validators use.
  - The literal schemas.
  - The clone-and-edit derivation of the admin and update variants, and the `create`/`update` selectors.
- **User model rules (`users/model.js`).**
  - The `shortId` virtual and the `firstName` length validator.
  - The required paths of a user document, and the defaults that fill some of them.

Which parts become methods follows the source:
- **Methods, proved against specification functions:** the code that builds or updates something step by step. That is the listing filter, the counts loop, the participants loop, the two bid folds, and the thumbnail loop over an array of media entries.
- **Functions and lemmas:** everything else.

Inputs the source takes from outside become parameters:
- the database rows (as sequences);
- the result of `JSON.parse` on `filters`;
- whether the caller is an admin;
- the verdicts of the two lot validators (the body validator and the one for the auction's kind);
- the email-format check;
- the thumbnail endpoint and upload key;
- the generated API key.

Files:
- `wrappers.dfy`: `Option`, `Result`, `Outcome`.
- `json.dfy`: JSON values.
- `ids.dfy`: the user id type the lot modules share.
- `lot_query.dfy`, `lot_access.dfy`, `auction_counts.dfy`, `bid_aggregation.dfy`, `lot_attachments.dfy`: `lots/routes.js`.
- `json_schema.dfy`, `user_validator.dfy`: `users/validator.js`.
- `user_model.dfy`: `users/model.js`.

## Model

| member | source | states |
|---|---|---|
| LotQuery.LotsQuery | lots/routes.js:57-79 | Building the filter step by step gives the listing filter: the parsed `filters` members, then (unless `draft` is `'all'`) the visibility restriction and `state: {$in: [future, open, live]}` written over them |
| LotQuery.DraftAllIsFiltersOnly | lots/routes.js:65-66 | With `draft=all` the filter is exactly the parsed `filters`, and it is empty when `filters` is absent or malformed |
| LotQuery.AnonymousQuery | lots/routes.js:74-77 | An anonymous caller's filter has `draft: false` and the live-state condition whatever `filters` held, and no other members beyond those of `filters` |
| LotQuery.OwnDraftsQuery | lots/routes.js:67-70 | A signed-in caller who sends `draft` gets `draft: true`, `createdBy` = caller and the live-state condition |
| LotQuery.PublishedOrOwnQuery | lots/routes.js:71-77 | A signed-in caller without `draft` gets `$or: [{draft: false}, {createdBy: caller}]` and the live-state condition |
| LotQuery.MalformedFiltersIgnored | lots/routes.js:59-63 | A `filters` text that does not parse yields the same filter as no `filters` |
| LotQuery.AnonymousSeesPublishedLive | lots/routes.js:74-77 | Every lot an anonymous listing selects is published and in state future, open or live |
| LotQuery.OwnDraftsSelected | lots/routes.js:68-70 | Every lot a draft listing selects is a draft created by the caller |
| LotQuery.PublishedOrOwnSelected | lots/routes.js:71-73 | Every lot a signed-in listing without `draft` selects is published or created by the caller |
| LotQuery.ResultsAreClosed | lots/routes.js:163-166 | Every lot an auction's results listing selects belongs to that auction and is closed |
| LotQuery.AuctionLotsQuery | lots/routes.js:108-109 | The auction listing filter is the listing filter with `auction` set to the path's auction, overriding any `auction` from `filters`; every other member is kept |
| LotQuery.ResultsQuery | lots/routes.js:164-166 | The results filter sets `auction` to the path's auction and `state` to `closed`, replacing the live states; every other member is kept |
| LotQuery.TotalPages | lots/routes.js:94 | The page count is at least 1, and is the least number of `limit`-sized pages that holds the matches (an empty result counts as one) |
| LotQuery.PageStart | lots/routes.js:87 | Page `page` starts at a multiple of `limit`: `page - 1` whole pages come before it |
| LotQuery.PageOfIndex | lots/routes.js:86-94 | The i-th match lies on page `i / limit + 1`: between that page's skip count and skip count + limit, on a page that exists |
| LotAccess.CanEdit | lots/routes.js:40-55 | Passes iff (owner or admin) and draft; a caller who is neither owner nor admin gets NotAuthorized even for a published lot; OnlyDraftsEditable iff allowed but published |
| LotAccess.FirstValidator | lots/routes.js:179-188 | The route validates the body with the draft validator when `draft` is truthy, else with the web validator when `platform` is `'web-app'`, else with the general one |
| LotAccess.CreateLot | lots/routes.js:178-218 | A body the first validator rejects is refused with its errors before the auction is looked up; then a missing auction is not found; a closed auction is refused before the second validator's verdict is looked at; then that validator's errors; otherwise the lot keeps its other members and gets auction, state, createdBy, lotMaxSeconds, finishAt = liveAt + lotOpeningSeconds and shouldClose = liveAt + auctionMaxSeconds |
| LotAccess.Stamp | lots/routes.js:212-217 | The stamped lot keeps the body's other members and takes auction, state, createdBy and lotMaxSeconds from the auction and caller, finishAt = liveAt + lotOpeningSeconds and shouldClose = liveAt + auctionMaxSeconds |
| LotAccess.CreatedLotNotClosed | lots/routes.js:199-213 | A created lot is never in state `closed` |
| LotAccess.StampOverridesBody | lots/routes.js:212-217 | Whatever the request says for the stamped members makes no difference to the created lot |
| AuctionCounts.Published | lots/routes.js:233-234 | The filter keeps exactly the non-draft lots |
| AuctionCounts.RecomputeCounts | lots/routes.js:231-241 | The counts loop (also at 283-295 and 319-331) gives each bidding mode of a published lot the sum of those lots' `count`, and has no other key, including when a running total of 0 takes the falsy branch |
| AuctionCounts.CountsStep | lots/routes.js:236-240 | One iteration of the counts loop turns the counts of a prefix of the published lots into the counts of the prefix one lot longer, whether the mode was absent, at 0 or positive |
| AuctionCounts.PublishedSum | lots/routes.js:233-234 | Filtering out drafts first changes neither the modes nor the sums |
| AuctionCounts.SumAppend | lots/routes.js:235-240 | The sum over two batches of lots is the sum of their sums |
| AuctionCounts.CountsOrderIndependent | lots/routes.js:231-241 | Any rearrangement of the same lots (equal multisets) gives the same counts, so the order the database returns them in does not matter |
| AuctionCounts.SumPermutation | lots/routes.js:235-240 | Any rearrangement of the same lots leaves every mode's sum unchanged |
| AuctionCounts.DraftContributesNothing | lots/routes.js:233-234 | Adding a draft lot leaves the counts unchanged |
| AuctionCounts.PublishedLotAdds | lots/routes.js:223-241 | Creating a published lot adds its count to its own mode (starting from 0) and leaves every other mode unchanged |
| AuctionCounts.SumAbsentMode | lots/routes.js:236-237 | A mode with no published lot sums to 0 |
| AuctionCounts.TwoIncrementLots | lots/routes.js:231-241 | Two published `increment` lots with counts 3 and 2 give `{increment: 5}` |
| BidAggregation.EligibleBidders | lots/routes.js:139-140 | A bidder is listed iff some group has an `_id` whose first joined auction exists and is not closed |
| BidAggregation.Participants | lots/routes.js:137-147 | The loop returns the eligible bidders with repeats removed, each at its first occurrence; the list has no duplicates and holds exactly the bidders of eligible groups |
| BidAggregation.FirstSeenProperties | lots/routes.js:141-143 | De-duplication keeps every element, has no repeats and keeps first-occurrence order |
| BidAggregation.CollectAutoBids | lots/routes.js:443-448 | The reduce over auto-bid rows builds the auto-bid map |
| BidAggregation.AutoBidMaximaSpec | lots/routes.js:443-448 | The auto-bid map has a key exactly for the lots of rows whose joined lot exists and is not closed; each value is the `maxCost` of the last such row |
| BidAggregation.CollectBids | lots/routes.js:475-483 | The reduce over bid rows builds the nested bid map |
| BidAggregation.BidMaximaSpec | lots/routes.js:475-483 | The bid map has an auction key exactly for the auctions of open rows, and under it a lot key exactly for that auction's open rows; each value is the `maxCost` of the last matching row |
| BidAggregation.BidAuctionKeys | lots/routes.js:476-478 | The bid map has an auction key exactly for the auctions of open rows |
| BidAggregation.BidLotKeys | lots/routes.js:476-480 | Under an auction key, the bid map has a lot key exactly for that auction's open rows |
| BidAggregation.BidLastRow | lots/routes.js:476-480 | Each value of the bid map is the `maxCost` of the last open row for its auction and lot |
| BidAggregation.BidFiltersAsWritten | lots/routes.js:416-421 | As written, the request succeeds iff neither the `lot` nor the `auction` parameter is set, and then both pipelines filter on the caller only |
| BidAggregation.LotParameterFails | lots/routes.js:419-420 | Asking for one lot's bids fails |
| BidAggregation.BidFiltersIntended | lots/routes.js:416-454 | The intended auto-bid filter selects the caller's rows, narrowed to the path's lot when `lot` is set; the bid filter selects the same rows, narrowed to the path's auction when `auction` is set |
| BidAggregation.IntendedAgreesWithoutParameters | lots/routes.js:416-418 | Without parameters, the intended filters are those the code builds |
| LotAttachments.WithoutKey | lots/routes.js:405-406 | Filtering keeps exactly the entries with a different key, and drops exactly as many entries as carry the key |
| LotAttachments.RemoveDocument | lots/routes.js:404-410 | Both `documentKeys` and `documents` lose exactly the entries stored under the key, each shrinking by the number of such entries |
| LotAttachments.WithoutKeyAppend | lots/routes.js:405-406 | Filtering keeps order: the result for `xs + ys` is the result for `xs` followed by that for `ys`, and a single entry is kept exactly when its key differs |
| LotAttachments.RemoveDocumentInOrder | lots/routes.js:404-410 | The documents answered after a deletion keep their order: deleting from two batches gives the two results one after the other, and a single entry stays exactly when its key differs |
| LotAttachments.WithoutKeyIdempotent | lots/routes.js:405-406 | Filtering twice by the same key equals filtering once; an absent key changes nothing |
| LotAttachments.RemoveDocumentTwice | lots/routes.js:402-408 | Deleting the same document twice leaves the lot as deleting it once |
| LotAttachments.FindMedia | lots/routes.js:370-371 | Finds the first media entry with the id, or reports that none has it |
| LotAttachments.SetThumbnail | lots/routes.js:370-376 | The loop sets the thumbnail `endpoint/key` on the first entry with the id, changes nothing else, and returns exactly that updated entry iff one exists |
| LotAttachments.WithThumbnailFrame | lots/routes.js:370-376 | Length and every id are kept, only the first matching entry may change, and repeating the update changes nothing |
| JsonSchema.Valid | users/validator.js:135-150 | The compiled validators' acceptance: each keyword present must accept the value, so the schema with no keyword accepts every value |
| UserValidator.UserProperties | users/validator.js:11-125 | The member schemas of `user`; the `role` member admits exactly the given roles |
| UserValidator.WithAdminRole | users/validator.js:137-141 | The admin copy appends `'admin'` to `user.role.enum` and leaves every other part of the schema unchanged |
| UserValidator.WithoutUserRequired | users/validator.js:145-146 | The update copy has no `user.required` and leaves every other part unchanged |
| UserValidator.Create | users/validator.js:135-143 | `create(isAdmin)` is the user envelope with roles `[user]`, or `[user, admin]` for an admin, and the four core fields required |
| UserValidator.Update | users/validator.js:145-150 | `update(isAdmin)` is the same envelope with no member of `user` required |
| UserValidator.AdminRoleOfEnvelope | users/validator.js:137-143 | Adding the admin role to the user envelope extends only its role list |
| UserValidator.RequiredOfEnvelope | users/validator.js:145-148 | Dropping the inner `required` of the user envelope gives the envelope without it |
| UserValidator.SelectorsPickAdmin | users/validator.js:179-180 | `create(isAdmin)` and `update(isAdmin)` return the admin variant iff `isAdmin`, and creating and updating never share a schema |
| UserValidator.VariantValid | users/validator.js:129-133 | A user validator accepts exactly `{user: u}`, with nothing else at the top level, where `u` passes the user object schema |
| UserValidator.UserObjectValid | users/validator.js:9-128 | The user object schema accepts exactly the objects whose members are all known and individually valid, with the core members when required |
| UserValidator.UserEnvelopeRequired | users/validator.js:126-132 | An accepted payload has only `user` at the top level, no unknown member in it, and, when creating, firstName, lastName, email and password |
| UserValidator.MemberValid | users/validator.js:8-126 | Each member of an accepted user object is known and passed its own schema |
| UserValidator.UserPasswordBounds | users/validator.js:28-32 | A password in a user payload is a string of 6 to 50 code points |
| UserValidator.ChangePasswordValid | users/validator.js:152-163 | Change-password accepts exactly `{password}` with a string of 6 to 50 code points |
| UserValidator.ForgotPasswordValid | users/validator.js:166-176 | Forgot-password accepts exactly `{email}` with a string the email check accepts |
| UserValidator.LoginValid | users/validator.js:184-195 | The socket login accepts exactly `{'x-api-key'}` with a string |
| UserValidator.RoleRestricted | users/validator.js:39-42 | An accepted `role` is `'user'`, or `'admin'` for the admin variants only |
| UserValidator.AdminPropertiesExtend | users/validator.js:137-143 | Each member schema of the admin object accepts what the non-admin one does |
| UserValidator.AdminUserObjectExtends | users/validator.js:137-143 | The admin user object accepts every object the non-admin one accepts |
| UserValidator.PromotedAdminAccepted | users/validator.js:137-143 | The admin user object still accepts an accepted object once its role is set to `'admin'` |
| UserValidator.AdminRoleRefused | users/validator.js:39-42 | The non-admin user object refuses `role: 'admin'` |
| UserValidator.AdminVariantExtends | users/validator.js:137-150 | The admin validators accept every payload the non-admin ones accept |
| UserValidator.AdminRoleIffAdmin | users/validator.js:179-180 | Setting `role: 'admin'` in an accepted payload keeps it accepted by `create(isAdmin)` / `update(isAdmin)` iff `isAdmin` |
| UserValidator.PromotedPayloadAccepted | users/validator.js:137-150 | The admin validator accepts an accepted payload once its role is set to `'admin'` |
| UserValidator.PromotedPayloadRefused | users/validator.js:39-42 | The non-admin validator refuses that same payload |
| UserValidator.AddressValid | users/validator.js:88-106 | An address is accepted iff it is an object of string members among name, address, town and postcode that has town and postcode |
| UserValidator.AddressShape | users/validator.js:88-125 | In an accepted payload, `propertyAddress` and `postalAddress`, when present, have town and postcode and no unknown member |
| UserValidator.IdListValid | users/validator.js:79-84 | A watch-list entry is accepted iff it is an array of 24-character strings over `[a-f0-9]` |
| UserValidator.WatchListValid | users/validator.js:75-87 | A watch list is accepted iff every key is 24 characters over `[a-f0-9]` and maps to such an array |
| UserValidator.WatchListIds | users/validator.js:75-87 | In an accepted payload, every `watchList` key and listed id is 24 characters over `[a-f0-9]` |
| UserValidator.SettingsOpenObject | users/validator.js:66-68 | Replacing `settings` of an accepted user object by any object keeps it accepted |
| UserValidator.SettingsOpen | users/validator.js:66-68 | The same for a whole payload, for all four variants |
| UserValidator.RestrictedObjectValid | users/validator.js:145-146 | Without `required`, any part of an accepted user object is accepted |
| UserValidator.UpdateAcceptsAnySubset | users/validator.js:145-150 | Any part of a payload the create validator accepts is accepted by the update validator of the same role |
| UserModel.DigitsRoundTrip | users/model.js:178 | Reading back the decimal form of a natural number gives the number |
| UserModel.Decimal | users/model.js:178 | `String(n)` of a non-negative integer is all digits and reads back as `n`; of a negative one, a minus sign followed by digits that read back as `-n` |
| UserModel.FixedDigitsValue | users/model.js:178 | The last k digits of n, zero-padded, denote n modulo 10^k |
| UserModel.ParseThenFix | users/model.js:178 | A digit string is the k-digit form of the number it denotes |
| UserModel.ShortId | users/model.js:176-182 | `shortId` is empty iff `numericId` is absent or 0, and otherwise has six characters |
| UserModel.PaddedSuffix | users/model.js:178 | The last k characters of at least k zeros followed by n's digits are n's last k digits, zero-padded |
| UserModel.ShortIdLastSixDigits | users/model.js:178 | For a positive `numericId` below 10^21, `shortId` is six digits: the zero-padded form of n mod 10^6, which reads back as n mod 10^6 |
| UserModel.ShortIdPadded | users/model.js:178 | For 0 < n < 10^6, `shortId` is n's decimal form left-padded with zeros, and reads back as n |
| UserModel.AssignedShortId | users/model.js:195 | Every auto-assigned `numericId` (from 400 up to below 10^21) has a non-empty all-digit `shortId` |
| UserModel.NegativeShortId | users/model.js:178 | `numericId` -5 gives `"0000-5"` |
| UserModel.Utf16Length | users/model.js:187 | A string's JavaScript length lies between its number of characters and twice that |
| UserModel.FirstNameOk | users/model.js:187 | A name of more than 255 characters is refused; one of at most 127 is accepted |
| UserModel.BmpLength | users/model.js:187 | For characters of the Basic Multilingual Plane the limit is exactly 255 characters |
| UserModel.ValidationErrors | users/model.js:12-187 | Only required paths are ever reported |
| UserModel.MissingRequired | users/model.js:12-138 | A path is missing iff it is a required String path without a non-empty string, or a required Mixed path that is unset or null |
| UserModel.ValidDocument | users/model.js:12-138 | A document validates iff all 13 required String paths hold non-empty strings, watchList and bids are set and not null, firstName is within 255 UTF-16 units, and the email check accepts the email |
| UserModel.LongFirstNameRejected | users/model.js:187 | A firstName of more than 255 characters is reported |
| UserModel.Defaults | users/model.js:28-143 | The defaults: null for the optional String paths, `{}` for watchList and bids, `true` for both push permissions, the generated key for apiKey |
| UserModel.ApplyDefaults | users/model.js:28-143 | Applying defaults keeps every set path and fills exactly the unset paths that have a default |
| UserModel.DefaultsFillRequired | users/model.js:72-86 | After defaults, a required path is missing iff it was missing and not (unset with a satisfying default: watchList, bids, or a non-empty generated apiKey) |
| UserModel.MissingAfterDefaults | users/model.js:72-86 | The same, one path at a time |
| UserModel.MixedAfterDefaults | users/model.js:72-86 | After defaults, watchList and bids are present iff they were present or unset |
| UserModel.StringAfterDefaults | users/model.js:28-143 | After defaults, a required String path holds a non-empty string iff it did, or it was unset and is apiKey with a non-empty generated key |

## Left out

- Database access is not modelled: `find`, `count`, `remove`, `findOneAndUpdate` and the `$lookup`/`$group` pipelines. The model takes their rows as sequences, in the order the database returns them.
- Promise chains, `Promise.all`, the fire-and-forget counts update, event emission and socket broadcasts are left out. They are sequencing and I/O, not logic.
- `users/loaders.js` (S3 upload and delete) is left out because it is foreign I/O. So are the media and document upload handlers (lots/routes.js:346-364, 382-400), which only push what the upload returned.
- The helpers whose code is not part of this model are opaque: `pictureAdder`, `mediaAdder`, `documentAdder`, `toJson`, `extendLot(s)ByPublicIds`, `validate`, `notFound`, `adminOnly`, `authenticate` and `makeEnum`. So the create-lot route takes both lot validators' verdicts as parameters, and the `sellerType`, `role` and `type` enum paths of the user model carry no rule.
- A request without a `lot` member makes `req.body.lot.draft` throw (lots/routes.js:179). The model takes the lot as given.
- Times are whole seconds: `moment` date arithmetic for `finishAt` and `shouldClose` is integer addition.
- JSON numbers are integers, so floating point is not modelled. `Math.ceil` on a missing or zero `limit` is left out, as are `NaN` pages.
- UserModel.ShortId: `numericId` is an integer and `String(numericId)` its plain decimal form. That is what JavaScript writes below 10^21. From 10^21 on, JavaScript writes exponent form (`'000000' + 1e21` ends in `"01e+21"`), which the model does not produce. The validators never let a request set `numericId`, and the counter starts at 400.
- UserModel.ShortIdLastSixDigits: stated only for `numericId` below 10^21, where JavaScript writes plain decimals.
- UserModel.AssignedShortId: stated only for `numericId` from 400 up to below 10^21, for the same reason.
- LotQuery.PageStart: requires `page >= 1` and does not model a missing `page`. `X-Current-Page` is left out.
- LotQuery.TotalPages: requires `limit > 0`. The source divides by any `limit`.
- `filters` is taken after `JSON.parse`. Which members `Object.assign` copies from a non-object result is left to the caller of the model.
- Regular expressions: only the one pattern the validators use (`^[a-f\d]{24}$`) is modelled, not patterns in general.
- The `email` format and `email-validator` are a parameter (`isEmail`). bcrypt hashing, the unique-index validator and the uuid generator are left out; the generated API key is a parameter.
- Mongoose type casting is left out. String paths are assumed to hold strings or null.
- The nested `SSPermitFile`, `identityPolicyFile` and `fileKeys` objects, `createdAt` and `resetPassword*` are only named in `Path`, because no rule reads them.
- JavaScript strings are modelled as sequences of Unicode scalar values, so lone surrogates cannot be expressed.
- The thumbnail handler sends no response when no media entry matches (lots/routes.js:366-380). The model returns `None` there.
- The participants loop compares ids with `===` (lots/routes.js:141). The model compares user ids as values.
- A row whose promise rejects in the participants pipeline ends up as `undefined` in the response (lots/routes.js:149-151). This is left out.
- `counts` is a plain object, so a bidding mode named like an inherited property (`toString`) would read as truthy. Modes are modelled as plain keys.
- The validator's `SSPermitNumberAge` and the model's `SSPermitNumberOfYears` name different paths. Each file is modelled as written.

## Findings

| source | as written | input that shows it | evidently intended | confidence | as-written member | corrected member |
|---|---|---|---|---|---|---|
| lots/routes.js:420, 453 | `new ObjectId(...)` uses a name the file never imports (lines 3-26), so evaluating it throws | `GET /lots/bids/:lotId/:auctionId?lot=1` | narrow the auto-bid and bid queries to the lot (and, with `auction`, to the auction) in the path | high, not executed | BidAggregation.BidFiltersAsWritten, BidAggregation.LotParameterFails | BidAggregation.BidFiltersIntended |
