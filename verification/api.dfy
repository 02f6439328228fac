/**
 * What the sticker-pack routes answer with, and the facts about a request
 * that come from outside the routes: the caller's identity, the caller's
 * moderation bans, the vote check and the asset store's answer.
 */
module Api {
  import opened Wrappers
  import opened Schema

  /** The failures the routes answer with, one constructor per status and
      cause. `StickerNotFound` covers both wordings of the missing-sticker
      message ("does not contain" and "does not have"). */
  datatype Error =
    | InvalidBody           // 400 'Invalid body data'
    | KeyNotAlnum           // 400 key must contain lowercase letters and numbers only
    | NameTooLong           // 400 name cannot be longer than 60 characters
    | KeyTooLong            // 400 key cannot be longer than 8 characters
    | DescriptionTooLong    // 400 description cannot be longer than 110 characters
    | StickerNameNotAlnum   // 400 sticker name must contain lowercase letters and numbers only
    | StickerNameTooLong    // 400 sticker name cannot be longer than 20 characters
    | KeyTaken              // 400 there is already a pack with that key
    | DuplicateStickerName  // 400 the pack already has a sticker with that name
    | TooFewStickers        // 400 at least 4 stickers before publishing
    | Unauthorized          // 401
    | NotVoted              // 401 user has not voted today
    | AlreadyPublished      // 401 cannot cancel creation, pack already published
    | Banned                // 403 user is banned from creating sticker packs
    | StickerCapReached     // 403 pack has reached the maximum of 400 stickers
    | PackNotFound          // 404
    | StickerNotFound       // 404
    | InternalError         // 500

  /** The HTTP status each failure is sent with. */
  function StatusOf(e: Error): (code: nat)
    ensures 400 <= code <= 500
    ensures code == 404 <==> e == PackNotFound || e == StickerNotFound
    ensures code == 403 <==> e == Banned || e == StickerCapReached
    ensures code == 401 <==> e == Unauthorized || e == NotVoted || e == AlreadyPublished
    ensures code == 500 <==> e == InternalError
    ensures code == 400 || code == 401 || code == 403 || code == 404 || code == 500
    ensures code == 400 <==> e in {InvalidBody, KeyNotAlnum, NameTooLong, KeyTooLong, DescriptionTooLong,
                                   StickerNameNotAlnum, StickerNameTooLong, KeyTaken,
                                   DuplicateStickerName, TooFewStickers}
  {
    match e
    case Unauthorized | NotVoted | AlreadyPublished => 401
    case Banned | StickerCapReached => 403
    case PackNotFound | StickerNotFound => 404
    case InternalError => 500
    case _ => 400
  }

  /** A pack without its `stickers` array: what `delete pack._doc.stickers`
      leaves to send. */
  datatype PackInfo = PackInfo(
    name: string,
    key: string,
    description: string,
    icon: Option<string>,
    published: bool,
    listed: bool,
    subscribers: nat,
    createdAt: nat,
    creatorId: string
  )

  function InfoOf(p: Pack): PackInfo {
    PackInfo(p.name, p.key, p.description, p.icon, p.published, p.listed,
             p.subscribers, p.createdAt, p.creatorId)
  }

  /** The response bodies. Storage-internal identifiers (`_id`, `__v`) are
      not part of the model, so removing them changes nothing here. */
  datatype Body =
    | FullPack(pack: Pack)
    | PackMeta(info: PackInfo)
    | StickerList(stickers: seq<Sticker>)
    | OneSticker(sticker: Sticker)
    | PackPage(packs: seq<PackInfo>)
    | Message(text: string)

  datatype Reply = Reply(status: nat, body: Body)

  /** The result of one request: the next store, the reply and the asset
      URLs handed to the fire-and-forget asset deletion; or the failure,
      which leaves the store as it was. */
  datatype Outcome =
    | Done(store: Store, reply: Reply, released: seq<string>)
    | Failed(error: Error)

  /** Facts from outside the routes:
      `caller`     -- `res.locals.userId`, set by the authentication middleware;
      `bans`       -- the caller's `bans` list from the user store;
      `voteGate`   -- whether the bot-list vote check is configured;
      `voted`      -- that check's answer for the caller;
      `uploadUrl`  -- the URL the asset store returns for this request's upload;
      `now`        -- the clock. */
  datatype Env = Env(
    caller: Option<string>,
    bans: seq<string>,
    voteGate: bool,
    voted: bool,
    uploadUrl: string,
    now: nat
  )

  /** JavaScript truthiness of an optional string field: present and not "". */
  predicate Present(o: Option<string>) {
    o.Some? && o.value != ""
  }

  /** `res.locals.userId != pack.creatorId` is false. */
  predicate Owns(caller: Option<string>, p: Pack) {
    caller.Some? && caller.value == p.creatorId
  }

  const CreateBan: string := "CREATE_STICKER_PACK"

  /** `user.bans.includes('CREATE_STICKER_PACK')`. */
  predicate BannedFromCreating(bans: seq<string>) {
    CreateBan in bans
  }

  /** The three places where the routes fall short of their evident intent,
      as knobs: the name cap the routes check; whether `UpdateMetadata`
      rejects a description that normalises to ""; and whether
      `EditStickerName` treats the new name as `AddSticker` does (rewritten
      to its stored form and refused when another sticker has it). */
  datatype Rules = Rules(nameMax: nat, checkBlankDescription: bool, checkEditedName: bool)

  /** The routes as written: a 60-character name cap, the blank description
      test `!description.length === 0`, which is always false, and a rename
      that stores the submitted name unchecked. */
  const AsWritten: Rules := Rules(60, false, false)

  /** The routes brought in line with the schema and with `AddSticker`. */
  const Corrected: Rules := Rules(SchemaNameMax, true, true)
}
