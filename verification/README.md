# Sticker packs, modelled in Dafny

A model of the sticker-pack aggregate of stickers-for-discord: the Express
routes in `app/api/sticker-packs.js` and the Mongoose schema in
`app/api/models/sticker-pack-model.js`. Each route becomes a pure function
from a store (`map<string, Pack>`, keyed by the pack key) and the request's
fields to an `Outcome`. An `Outcome` is either `Done(store', reply, released)`
or `Failed(error)`. A failure names the message the route sends and leaves
the store unchanged. `released` lists the sticker image URLs the route hands
to the asset store for deletion.

Modules, one file each:

- `wrappers.dfy`: `Option` and `Result`.
- `schema.dfy`: the `Pack` and `Sticker` documents, their schema defaults,
  the save-time validity predicate, and `Save`, which refuses an invalid
  document.
- `api.dfy`: the errors and their HTTP statuses, the replies, the outside
  facts of a request (`Env`), and the `Rules` knob that separates the
  routes as written from the corrected routes.
- `text.dfy`: `trim()` followed by `replace(/\s+/g, ' ')`. It has an
  independent reference definition (the words joined by single spaces), the
  key and sticker-name patterns, and the rewrite of a sticker name to its
  stored form.
- `numbers.dfy`: `parseInt` with no radix, which the listing applies to
  `?page=`.
- `validation.dfy`: each route's body tests, as an ordered table whose
  first failing test decides the error.
- `handlers.dfy`: the twelve pack routes.
- `listing.dfy`: `GET /`, covering filter, sort, skip and limit.
- `properties.dfy`: one `Step` over all routes, and what every step keeps:
  - reads change nothing;
  - pack identity is fixed and published packs stay;
  - only owners change a pack;
  - new packs are fresh;
  - documents stay valid;
  - sticker names stay distinct, which holds under the corrected rename.
- `findings.dfy`: concrete requests that reach a schema-invalid save as
  written, and a proof that under the corrected rules, on a valid store and
  with a non-empty asset URL, no save is refused.

## Model

| member | source | states |
|---|---|---|
| Schema.NewPack | app/api/models/sticker-pack-model.js:4-13 | a new pack has the given name, key, description, creator, icon and creation time; it is unpublished, listed, has 0 subscribers and no stickers |
| Schema.NewSticker | app/api/models/sticker-pack-model.js:14-22 | a new sticker has 0 uses, creator `unknown`, arrived via the website, group type `sticker-pack` and group `unknown` |
| Schema.Save | app/api/models/sticker-pack-model.js:5-22 | a save succeeds exactly when the document meets every required/maxlength bound; a successful save writes exactly that document under its key and keeps every document valid and filed under its own key |
| Schema.IndexOfName | app/api/sticker-packs.js:329-330 | -1 exactly when no sticker has the name; otherwise the first position holding it |
| Schema.RemoveAt | app/api/sticker-packs.js:386 | `splice(i, 1)`: one element shorter; the stickers before `i` stay in place and the ones after move up by one |
| Api.StatusOf | app/api/sticker-packs.js:139-399 | the errors answered with 404, 403, 401 and 500, each as an if-and-only-if; every other error (the body, pattern, length, taken-key, sticker-count and duplicate-name messages) is 400, and no other status is sent |
| Text.JsLength | app/api/sticker-packs.js:150-153 | `.length` counts UTF-16 code units: at least one and at most two per character |
| Text.JsLengthOfBmp | app/api/models/sticker-pack-model.js:5-7 | for text of Basic Multilingual Plane characters only, `.length` and `maxlength` equal the number of characters |
| Text.NormalizeIsNormalized | app/api/sticker-packs.js:146-148 | a trimmed and collapsed string has no white space at either end; its only white space is single ordinary spaces, each followed by a non-space |
| Text.NormalizeFixesNormalized | app/api/sticker-packs.js:146-148 | a string already in that shape is left unchanged |
| Text.NormalizeIdempotent | app/api/sticker-packs.js:146-148 | normalising twice is normalising once |
| Text.NormalizeIsJoinOfWords | app/api/sticker-packs.js:146-148 | normalising equals the string's words joined by single spaces |
| Text.NormalizeEmptyIffBlank | app/api/sticker-packs.js:150 | the normalised field is empty exactly when the input was all white space |
| Text.RegexSplitIsUnique | app/api/sticker-packs.js:222 | a string splits in at most one way into the optional `:-` lead, the `[a-z0-9]+` core and the optional `:` tail |
| Text.StickerPatternIsRegex | app/api/sticker-packs.js:222 | the sticker-name test accepts exactly the strings that split as `^:?-?[a-z0-9]+:?$` |
| Text.StoredNameIsCore | app/api/sticker-packs.js:222-228 | for a name matching the pattern, lower-casing and removing `:` and `-` leaves exactly the alphanumeric core; the result is non-empty, matches `^[a-z0-9]+$` and is no longer than the raw name |
| Numbers.ParseIntOfDecimal | app/api/sticker-packs.js:41 | `parseInt` reads back the decimal numeral of any n, with or without a leading `-`, whatever non-digit text follows, as long as the numeral and the text after it do not begin with `0x` or `0X`, which happens only for n = 0 followed by `x` or `X` (`parseInt("0x1")` is 1, not 0) |
| Validation.ValidateCreate | app/api/sticker-packs.js:141-154 | a missing or empty field, or no icon file, is `InvalidBody`; an accepted body is the normalised fields, which are non-empty, within the name cap, the 8-unit key cap and the 110-unit description cap (UTF-16 code units), and the key matches `^[a-z0-9]+$` |
| Validation.CreateChecksInOrder | app/api/sticker-packs.js:141-154 | the create route's answer is the first failing test in source order (empty, key pattern, name, key, description length), and it accepts exactly when none fails |
| Validation.ValidateMetadata | app/api/sticker-packs.js:284-292 | an accepted body is the normalised name and description, within their caps; the description is non-empty only under the corrected rules |
| Validation.MetadataChecksInOrder | app/api/sticker-packs.js:284-292 | the update route's answer is the first failing test in source order |
| Validation.ValidateStickerName | app/api/sticker-packs.js:221-223 | an accepted name came with an image (URL or file), matches the sticker pattern, has at most 20 UTF-16 code units, and its stored form matches `^[a-z0-9]+$` with at most 20 code units |
| Validation.StickerChecksInOrder | app/api/sticker-packs.js:221-223 | the sticker-name answer is the first failing test in source order |
| Handlers.GetPack | app/api/sticker-packs.js:80-90 | 404 exactly when the key is absent; otherwise the whole pack, store unchanged |
| Handlers.GetInfo | app/api/sticker-packs.js:93-104 | 404 exactly when the key is absent; otherwise the pack without its stickers |
| Handlers.GetStickers | app/api/sticker-packs.js:107-117 | 404 exactly when the key is absent; otherwise the pack's sticker array |
| Handlers.GetSticker | app/api/sticker-packs.js:120-132 | succeeds exactly when the pack exists and holds a sticker with exactly that name; the reply is the first such sticker (`find`); otherwise 404 with the pack or sticker message |
| Handlers.Create | app/api/sticker-packs.js:139-190 | body errors first, then 401 without a caller, 403 when banned, 400 for a taken key; success adds exactly one pack under the new key, owned by the caller, unpublished, with no stickers, and leaves every other pack as it was; an accepted body from an unbanned caller for a free key answers 401 when the vote check is on and failed; otherwise it succeeds when the name is within the schema's cap and ends in the refused save's 500 when it is not |
| Handlers.Publish | app/api/sticker-packs.js:193-216 | 401 without a caller, 404, 401 for a non-owner, 400 below 4 stickers, 403 when banned, in that order; success sets `published` and changes nothing else; on a valid store passing every gate means success |
| Handlers.CancelCreation | app/api/sticker-packs.js:353-369 | removes the pack exactly when the caller owns it and it is unpublished; a published pack gets 401 and stays |
| Handlers.UpdateMetadata | app/api/sticker-packs.js:282-313 | body errors, then 401, 404, 401; success replaces the name, the description and, with a file, the icon, and nothing else; on a valid store the owner's accepted update with a name within the schema's cap and a non-empty description always succeeds; an owner's accepted update with a longer name or an empty description ends in the refused save's 500 |
| Handlers.StickerFor | app/api/sticker-packs.js:226-232 | the new sticker has the stored form of the name, the asset URL, 0 uses and the request time; it came via the website exactly when a file was uploaded and via Discord otherwise; its group is the pack's key, its group type `sticker-pack` and its creator the caller |
| Handlers.AddSticker | app/api/sticker-packs.js:219-260 | name errors, 401, 404, 401, 400 for a stored name already in the pack, 403 at 400 stickers; success puts the new sticker in front of the old sequence, which follows unchanged; the sticker's stored name matches `^[a-z0-9]+$`; on a valid store, with an asset URL, the owner's accepted name that is new to a pack below 400 stickers always succeeds |
| Handlers.IncrementUse | app/api/sticker-packs.js:263-275 | succeeds exactly when the pack has a sticker with exactly that name, with no owner check; on a valid pack only that sticker's `uses` grows, by one |
| Handlers.EditStickerName | app/api/sticker-packs.js:316-346 | name errors, 404, 401, 404; success overwrites only the found sticker's name, in place; a duplicate is refused only under the corrected rules; on a valid store the owner's accepted rename of a present sticker succeeds unless the corrected rules find the new name on another sticker |
| Handlers.DeleteSticker | app/api/sticker-packs.js:372-399 | 404, 401, 404; success removes exactly the found sticker and releases exactly its URL; on a valid store an owner's delete of a present sticker succeeds |
| Listing.SkipFor | app/api/sticker-packs.js:38-46 | the skip is a multiple of 12; it is 0 when the page does not parse; it is negative exactly when the page parses to a negative number |
| Listing.PageSkip | app/api/sticker-packs.js:41-46 | page `n` skips `12 (n - 1)` packs, and pages 0 and 1 coincide; page `-n` skips `-12 (n + 1)` |
| Listing.SortFor | app/api/sticker-packs.js:49-53 | `popular` and only it sorts by subscribers, descending; `oldest` and only it by creation, ascending; anything else by creation, descending |
| Listing.Candidates | app/api/sticker-packs.js:56-68 | every candidate is an eligible pack of the store, stickers removed; every eligible pack the scan reaches is a candidate |
| Listing.SortPacks | app/api/sticker-packs.js:67 | the result is sorted by the mode's key and is a permutation of its input |
| Listing.CatalogueMembers | app/api/sticker-packs.js:56-67 | everything in the catalogue is an eligible pack of the store |
| Listing.CatalogueComplete | app/api/sticker-packs.js:56-67 | when the scan visits every stored key once, every eligible pack of the store is in the catalogue |
| Listing.CandidatesCount | app/api/sticker-packs.js:56-68 | for a scan without repeats, each pack summary occurs among the candidates as often as there are scanned keys whose pack is eligible with that summary |
| Listing.CatalogueIsPermutation | app/api/sticker-packs.js:56-67 | when the scan visits every stored key once, the catalogue is a permutation of the eligible packs of the store |
| Listing.CatalogueShowsEachOnce | app/api/sticker-packs.js:56-67 | on a store filed by key, each eligible pack occurs in the catalogue exactly once and nothing else occurs |
| Listing.Window | app/api/sticker-packs.js:67 | at most 12 packs, taken in order from position `skip`, and short only at the end |
| Listing.PagesTile | app/api/sticker-packs.js:38-67 | pages 1 to n, one after another, are exactly the first `12 n` packs of the catalogue |
| Listing.List | app/api/sticker-packs.js:36-77 | for a scan that visits every stored key once: 500 exactly when the skip is negative; otherwise the page is the catalogue's window of at most 12 packs starting at the skip the `page` query gives (so a missing or unparsable page shows the first twelve); it holds a page of at most 12 eligible packs of the store, sorted by the requested order, store unchanged |
| Listing.CatalogueIsPaged | app/api/sticker-packs.js:38-67 | every eligible pack of the store has a place `i` in the catalogue and appears on page `i / 12 + 1` |
| Listing.ListShowsPage | app/api/sticker-packs.js:40-70 | asking for page `n` answers with the `n`-th run of twelve of the catalogue |
| Properties.Step | app/api/sticker-packs.js:36-399 | no read changes the store |
| Properties.CreateKeeps | app/api/sticker-packs.js:139-190 | creation keeps the `Kept` guarantees (see `StepKeeps`) |
| Properties.PublishKeeps | app/api/sticker-packs.js:193-216 | publishing keeps the `Kept` guarantees |
| Properties.CancelKeeps | app/api/sticker-packs.js:353-369 | cancelling keeps the `Kept` guarantees |
| Properties.UpdateKeeps | app/api/sticker-packs.js:282-313 | updating keeps the `Kept` guarantees |
| Properties.AddKeeps | app/api/sticker-packs.js:219-260 | adding a sticker keeps the `Kept` guarantees |
| Properties.CountKeeps | app/api/sticker-packs.js:263-275 | counting a use keeps the `Kept` guarantees, apart from the owner-only one |
| Properties.RenameKeeps | app/api/sticker-packs.js:316-346 | renaming keeps the `Kept` guarantees |
| Properties.RemoveKeeps | app/api/sticker-packs.js:372-399 | deleting a sticker keeps the `Kept` guarantees |
| Properties.StepKeeps | app/api/sticker-packs.js:139-399 | for every request: a read changes nothing; no pack's key, creator or creation time changes; a published pack stays published; only the owner (or the bot's use counter) changes or removes a pack; only creation adds a pack, which is the caller's, unpublished and empty; only a sticker deletion releases an asset |
| Properties.StepKeepsValid | app/api/models/sticker-pack-model.js:5-22 | every request keeps every document schema-valid and filed under its own key |
| Properties.AddKeepsStickers | app/api/sticker-packs.js:241-246 | adding a sticker keeps names distinct and at most 400 stickers per pack |
| Properties.CountKeepsStickers | app/api/sticker-packs.js:265-271 | counting a use keeps names distinct and the count within 400, on any store |
| Properties.RenameKeepsStickers | app/api/sticker-packs.js:329-334 | under the corrected rename, renaming keeps names distinct and the count within 400 |
| Properties.RemoveKeepsStickers | app/api/sticker-packs.js:381-387 | deleting keeps names distinct and the count within 400 |
| Properties.CheckedStepKeepsStickers | app/api/sticker-packs.js:139-399 | with the corrected rename, on a valid store, every request keeps sticker names distinct within a pack and at most 400 stickers per pack |
| Properties.AsWrittenRenameDuplicates | app/api/sticker-packs.js:329-334 | as written, renaming `b` to `a` in a valid pack holding `a` and `b` succeeds and leaves two stickers called `a` |
| Findings.LongNameAsWritten | app/api/sticker-packs.js:152 | as written, creating a pack with a 31-character name passes the route's tests and ends in 500 |
| Findings.LongNameCorrected | app/api/models/sticker-pack-model.js:5 | with the schema's cap of 30, the same request gets the name-length 400 |
| Findings.WideNameAsWritten | app/api/sticker-packs.js:152 | as written, a name of 16 characters outside the Basic Multilingual Plane (32 code units) passes the route's tests and ends in 500 |
| Findings.WiderSchemaAdmitsCreate | app/api/models/sticker-pack-model.js:5 | the other repair: with the schema's name `maxlength` raised to 60, every pack the route as written builds from an accepted body is schema-valid |
| Findings.BlankDescriptionPassesRoute | app/api/sticker-packs.js:290 | as written, a description of blanks passes the update route's tests as "" |
| Findings.BlankDescriptionAsWritten | app/api/sticker-packs.js:290 | as written, updating a pack with a description of blanks ends in 500 |
| Findings.BlankDescriptionCorrected | app/api/sticker-packs.js:290 | with the blank test working, the same request gets `Invalid body data` |
| Findings.CreateSaves | app/api/sticker-packs.js:181-187 | under the corrected rules creation never reaches the 500 of a refused save |
| Findings.UpdateSaves | app/api/sticker-packs.js:300-310 | under the corrected rules, on a valid store, an update never reaches the 500 of a refused save |
| Findings.PublishSaves | app/api/sticker-packs.js:207-213 | on a valid store, publishing never reaches the 500 of a refused save |
| Findings.AddSaves | app/api/sticker-packs.js:244-256 | on a valid store, with a non-empty asset URL, adding a sticker never reaches the 500 of a refused save |
| Findings.RenameSaves | app/api/sticker-packs.js:333-342 | under the corrected rules, on a valid store, a rename never reaches the 500 of a refused save |
| Findings.RemoveSaves | app/api/sticker-packs.js:386-395 | on a valid store, deleting a sticker never reaches the 500 of a refused save |
| Findings.CorrectedSavesSucceed | app/api/models/sticker-pack-model.js:5-22 | under the corrected rules, on a valid store and with a non-empty asset URL, the only 500 left is the listing's negative page |

## Left out

- Express routing, the authentication middleware and `app/server.js`. The
  caller is the `caller` field of `Env`. `server.js` is not part of this
  model.
- Multer upload parsing, the 5 MB limit and its 400 answer. An upload is the
  boolean `hasIcon` or `hasFile`.
- `imageToCdn` and `deleteCdnImage` are outside this model. The URL the
  upload yields is `Env.uploadUrl`. A deletion is the URL listed in
  `released`; the deletion is fire-and-forget.
- The bot-list vote request is outside this model. It is the two booleans
  `voteGate` (integration configured) and `voted`. The ban lookup is
  `Env.bans`. A missing user record, which makes `user.bans` throw, is not
  modelled.
- The `catch` branches that answer 401 when an exception message contains
  `Unauthorized`. Those exceptions come from code outside this model.
- Mongoose query execution. The order in which the store is scanned is the
  parameter `order`, which `ScanOrder` requires to list every stored key
  exactly once. The order of packs with equal sort keys is one admissible
  order, not necessarily the engine's.
- Strings are sequences of Unicode scalar values. A lone surrogate, which a
  JavaScript string can hold, cannot be represented. `JsLength` counts the
  UTF-16 code units of the rest.
- The `count` query in the listing. Its result is never sent.
- A negative skip is assumed to be refused by the storage engine, which the
  route answers with 500.
- JavaScript regular-expression semantics of the search string, and
  `decodeURIComponent` with its errors. A match is the abstract predicate
  `matches`.
- Listing.SkipFor: `parseInt` results are unbounded integers. Precision
  loss beyond 2^53 and `Infinity` are not modelled.
- Handlers.DeleteSticker: the route asks for the image's deletion before it
  saves the pack, so a refused save still releases the URL. The model's
  refused save releases nothing. On a valid store the save is never refused
  (`Findings.RemoveSaves`).
- Timestamps are natural numbers supplied as `Env.now`; `Date` is not
  modelled.
- Concurrency. This covers the save in `IncrementUse` that is not awaited
  (modelled as a save that either lands or leaves the store as it was) and
  lost updates between a read and a save.
- `_id`, `__v` and the `removedFields` projection. Storage identifiers are
  not part of the model.
- The uniqueness index on `key`. Keys are unique because the store is a map
  keyed by them. `StoreValid` states that each pack sits under its own key.

Four behaviours of the code worth stating plainly:

- A failed vote check answers 401.
- The listing's reply carries the page alone, with no total.
- A sticker upload may carry both a URL and a file; the file wins.
- The sticker-rename route has no upload middleware, so its body must carry
  a `url` field.

## Findings

| source | as written | input that shows it | evidently intended | confidence | as-written member | corrected member |
|---|---|---|---|---|---|---|
| app/api/sticker-packs.js:152 | the create and update routes cap the name at 60 code units, but the schema caps it at 30, so names of 31 to 60 units pass the route and fail the save with 500 | create with a name of 31 `a`s (or 16 emoji), key `abc`, description `A pack` and an icon | one cap for both; the model keeps the schema's 30 and refuses longer names with the name-length 400, and also proves the other repair, a schema cap of 60 | high; not executed | Findings.LongNameAsWritten | Findings.LongNameCorrected |
| app/api/sticker-packs.js:290 | `!description.length === 0` is always false, so a description of blanks passes, normalises to "" and fails the schema's `required` with 500 | update an owned pack with name `Pack` and description `"   "` | refuse with `Invalid body data`, as the create route does | high; not executed | Findings.BlankDescriptionAsWritten | Findings.BlankDescriptionCorrected |
| app/api/sticker-packs.js:333 | the rename stores the submitted name without the rewrite the add route applies and without checking the other stickers, so two stickers of a pack can share a name | rename `b` to `a` in a pack holding stickers `a` and `b` | store the rewritten name and refuse a name another sticker has, as the add route does | medium; not executed | Properties.AsWrittenRenameDuplicates | Properties.CheckedStepKeepsStickers |

The routes take the `Rules` knob. `AsWritten` is the code as it stands.
`Corrected` caps names at 30, rejects a blank description, and treats a
rename like an addition. The name cap has two repairs. One lowers the routes'
cap to the schema's 30. The other raises the schema's `maxlength` to the 60
that the routes' message announces, which
`Findings.WiderSchemaAdmitsCreate` covers. The model takes the first. The
schema is the constraint every stored document already meets, so lowering the
route's cap changes no stored data and only moves the refusal from the save's
500 to the 400 the route already has. The route's message would then have to
say 30. Under `Corrected`, `Findings.CorrectedSavesSucceed`
shows that no save is refused on a valid store with a non-empty asset URL, and
`Properties.CheckedStepKeepsStickers` shows that sticker names stay
distinct.
