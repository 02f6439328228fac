/**
 * The sticker-pack routes as transitions over the store. Each handler
 * follows its route's tests in source order, so the failure it reports is
 * the one the route sends first; a failure never changes the store.
 */
module Handlers {
  import opened Wrappers
  import opened Text
  import opened Schema
  import opened Api
  import opened Validation

  /* -------------------------------------------------------------------- */
  /* Reads                                                                */
  /* -------------------------------------------------------------------- */

  /** `GET /:key`: the whole pack. */
  function GetPack(store: Store, key: string): (r: Outcome)
    ensures r.Failed? <==> key !in store
    ensures r.Failed? ==> r.error == PackNotFound
    ensures r.Done? ==> (r.store == store && r.released == []
      && r.reply == Reply(200, FullPack(store[key])))
  {
    if key !in store then Failed(PackNotFound)
    else Done(store, Reply(200, FullPack(store[key])), [])
  }

  /** `GET /:key/info`: the pack without its stickers. */
  function GetInfo(store: Store, key: string): (r: Outcome)
    ensures r.Failed? <==> key !in store
    ensures r.Failed? ==> r.error == PackNotFound
    ensures r.Done? ==> (r.store == store && r.released == []
      && r.reply == Reply(200, PackMeta(InfoOf(store[key]))))
  {
    if key !in store then Failed(PackNotFound)
    else Done(store, Reply(200, PackMeta(InfoOf(store[key]))), [])
  }

  /** `GET /:key/stickers`: the sticker array alone. */
  function GetStickers(store: Store, key: string): (r: Outcome)
    ensures r.Failed? <==> key !in store
    ensures r.Failed? ==> r.error == PackNotFound
    ensures r.Done? ==> r.store == store && r.reply == Reply(200, StickerList(store[key].stickers))
  {
    if key !in store then Failed(PackNotFound)
    else Done(store, Reply(200, StickerList(store[key].stickers)), [])
  }

  /** `GET /:key/stickers/:stickername`: the first sticker with exactly that
      name. */
  function GetSticker(store: Store, key: string, name: string): (r: Outcome)
    ensures key !in store ==> r == Failed(PackNotFound)
    ensures key in store && !HasName(store[key].stickers, name) ==> r == Failed(StickerNotFound)
    ensures r.Done? ==> (r.store == store && r.reply.status == 200
      && r.reply.body.OneSticker? && r.reply.body.sticker.name == name
      && r.reply.body.sticker in store[key].stickers)
    // a present sticker is found, and it is the first one with that name
    ensures r.Done? <==> key in store && HasName(store[key].stickers, name)
    ensures r.Done? ==> r.reply.body.sticker == store[key].stickers[IndexOfName(store[key].stickers, name)]
  {
    if key !in store then Failed(PackNotFound)
    else
      var i := IndexOfName(store[key].stickers, name);
      if i < 0 then Failed(StickerNotFound)
      else Done(store, Reply(200, OneSticker(store[key].stickers[i])), [])
  }

  /* -------------------------------------------------------------------- */
  /* Create                                                               */
  /* -------------------------------------------------------------------- */

  /** `POST /` -- create a pack. The body checks come first, then the
      caller, the ban, the key, the vote; the new document then has to pass
      the schema. */
  function Create(rules: Rules, env: Env, store: Store, name: Option<string>, key: Option<string>,
                  description: Option<string>, hasIcon: bool): (r: Outcome)
    // body checks precede everything else
    ensures ValidateCreate(rules, name, key, description, hasIcon).Failure? ==>
      r == Failed(ValidateCreate(rules, name, key, description, hasIcon).error)
    ensures ValidateCreate(rules, name, key, description, hasIcon).Success? ==>
      var f := ValidateCreate(rules, name, key, description, hasIcon).value;
      && (!Present(env.caller) ==> r == Failed(Unauthorized))
      && (Present(env.caller) && BannedFromCreating(env.bans) ==> r == Failed(Banned))
      && (Present(env.caller) && !BannedFromCreating(env.bans) && f.key in store ==> r == Failed(KeyTaken))
    // success adds exactly one pack, owned by the caller, with schema defaults
    ensures r.Done? ==>
      var f := ValidateCreate(rules, name, key, description, hasIcon).value;
      && f.key !in store
      && Present(env.caller) && !BannedFromCreating(env.bans)
      && (env.voteGate ==> env.voted)
      && r.store.Keys == store.Keys + {f.key}
      && (forall k :: k in store ==> r.store[k] == store[k])
      && r.store[f.key] == NewPack(f.name, f.key, f.description, env.caller.value, Some(env.uploadUrl), env.now)
      && r.reply == Reply(201, FullPack(r.store[f.key]))
    // a request that passes every gate, with a name the schema admits, succeeds
    ensures (ValidateCreate(rules, name, key, description, hasIcon).Success?
      && Present(env.caller) && !BannedFromCreating(env.bans)
      && ValidateCreate(rules, name, key, description, hasIcon).value.key !in store
      && (env.voteGate ==> env.voted)
      && JsLength(ValidateCreate(rules, name, key, description, hasIcon).value.name) <= SchemaNameMax) ==> r.Done?
    // past the key check, a missing vote answers 401
    ensures (ValidateCreate(rules, name, key, description, hasIcon).Success?
      && Present(env.caller) && !BannedFromCreating(env.bans)
      && ValidateCreate(rules, name, key, description, hasIcon).value.key !in store
      && env.voteGate && !env.voted) ==> r == Failed(NotVoted)
    // past every gate, a name the schema refuses ends in the save's 500
    ensures (ValidateCreate(rules, name, key, description, hasIcon).Success?
      && Present(env.caller) && !BannedFromCreating(env.bans)
      && ValidateCreate(rules, name, key, description, hasIcon).value.key !in store
      && (env.voteGate ==> env.voted)
      && JsLength(ValidateCreate(rules, name, key, description, hasIcon).value.name) > SchemaNameMax)
      ==> r == Failed(InternalError)
    ensures r.Done? && StoreValid(store) ==> StoreValid(r.store)
  {
    match ValidateCreate(rules, name, key, description, hasIcon)
    case Failure(e) => Failed(e)
    case Success(f) =>
      if !Present(env.caller) then Failed(Unauthorized)
      else if BannedFromCreating(env.bans) then Failed(Banned)
      else if f.key in store then Failed(KeyTaken)
      else if env.voteGate && !env.voted then Failed(NotVoted)
      else
        var p := NewPack(f.name, f.key, f.description, env.caller.value, Some(env.uploadUrl), env.now);
        match Save(store, p.key, p)
        case None => Failed(InternalError)
        case Some(s) => Done(s, Reply(201, FullPack(p)), [])
  }

  /* -------------------------------------------------------------------- */
  /* Publish and cancel                                                   */
  /* -------------------------------------------------------------------- */

  /** `POST /:key/publish`. */
  function Publish(env: Env, store: Store, key: string): (r: Outcome)
    ensures !Present(env.caller) ==> r == Failed(Unauthorized)
    ensures Present(env.caller) && key !in store ==> r == Failed(PackNotFound)
    ensures Present(env.caller) && key in store && !Owns(env.caller, store[key]) ==>
      r == Failed(Unauthorized)
    ensures (Present(env.caller) && key in store && Owns(env.caller, store[key])
      && |store[key].stickers| < MinStickersToPublish) ==> r == Failed(TooFewStickers)
    ensures (Present(env.caller) && key in store && Owns(env.caller, store[key])
      && |store[key].stickers| >= MinStickersToPublish && BannedFromCreating(env.bans)) ==>
      r == Failed(Banned)
    // success sets `published` and nothing else
    ensures r.Done? ==>
      && key in store && Owns(env.caller, store[key])
      && |store[key].stickers| >= MinStickersToPublish && !BannedFromCreating(env.bans)
      && r.store == store[key := store[key].(published := true)]
      && r.reply == Reply(200, FullPack(r.store[key]))
    // on a valid store every gate passed means success
    ensures (StoreValid(store) && Present(env.caller) && key in store && Owns(env.caller, store[key])
      && |store[key].stickers| >= MinStickersToPublish && !BannedFromCreating(env.bans)) ==> r.Done?
  {
    if !Present(env.caller) then Failed(Unauthorized)
    else if key !in store then Failed(PackNotFound)
    else
      var p := store[key];
      if !Owns(env.caller, p) then Failed(Unauthorized)
      else if |p.stickers| < MinStickersToPublish then Failed(TooFewStickers)
      else if BannedFromCreating(env.bans) then Failed(Banned)
      else
        var p' := p.(published := true);
        match Save(store, key, p')
        case None => Failed(InternalError)
        case Some(s) => Done(s, Reply(200, FullPack(p')), [])
  }

  /** `DELETE /:key` -- cancel the creation of a pack that is not published. */
  function CancelCreation(env: Env, store: Store, key: string): (r: Outcome)
    ensures key !in store ==> r == Failed(PackNotFound)
    ensures key in store && !Owns(env.caller, store[key]) ==> r == Failed(Unauthorized)
    ensures key in store && Owns(env.caller, store[key]) && store[key].published ==>
      r == Failed(AlreadyPublished)
    ensures r.Done? <==> key in store && Owns(env.caller, store[key]) && !store[key].published
    ensures r.Done? ==> r.store == store - {key} && r.reply.status == 200
  {
    if key !in store then Failed(PackNotFound)
    else
      var p := store[key];
      if !Owns(env.caller, p) then Failed(Unauthorized)
      else if p.published then Failed(AlreadyPublished)
      else Done(store - {key}, Reply(200, Message("Successfully cancelled creation of pack")), [])
  }

  /* -------------------------------------------------------------------- */
  /* Metadata                                                             */
  /* -------------------------------------------------------------------- */

  /** `PATCH /:key` -- replace the name and description, and the icon when
      a new one was uploaded. */
  function UpdateMetadata(rules: Rules, env: Env, store: Store, key: string, name: Option<string>,
                          description: Option<string>, hasIcon: bool): (r: Outcome)
    ensures ValidateMetadata(rules, name, description).Failure? ==>
      r == Failed(ValidateMetadata(rules, name, description).error)
    ensures ValidateMetadata(rules, name, description).Success? ==>
      && (!Present(env.caller) ==> r == Failed(Unauthorized))
      && (Present(env.caller) && key !in store ==> r == Failed(PackNotFound))
      && (Present(env.caller) && key in store && !Owns(env.caller, store[key]) ==> r == Failed(Unauthorized))
    // success changes name, description and (with a file) icon, nothing else
    ensures r.Done? ==>
      var f := ValidateMetadata(rules, name, description).value;
      var p := store[key];
      && key in store && Owns(env.caller, p)
      && r.store == store[key := p.(name := f.name, description := f.description,
                                    icon := if hasIcon then Some(env.uploadUrl) else p.icon)]
      && r.reply == Reply(200, PackMeta(InfoOf(r.store[key])))
    // on a valid store an owner's update that the schema admits succeeds
    ensures (StoreValid(store) && ValidateMetadata(rules, name, description).Success?
      && Present(env.caller) && key in store && Owns(env.caller, store[key])
      && JsLength(ValidateMetadata(rules, name, description).value.name) <= SchemaNameMax
      && |ValidateMetadata(rules, name, description).value.description| > 0) ==> r.Done?
    // an owner's update the schema refuses (a long name, an empty description)
    // ends in the save's 500
    ensures (ValidateMetadata(rules, name, description).Success?
      && Present(env.caller) && key in store && Owns(env.caller, store[key])
      && (JsLength(ValidateMetadata(rules, name, description).value.name) > SchemaNameMax
          || |ValidateMetadata(rules, name, description).value.description| == 0))
      ==> r == Failed(InternalError)
    ensures r.Done? && StoreValid(store) ==> StoreValid(r.store)
  {
    match ValidateMetadata(rules, name, description)
    case Failure(e) => Failed(e)
    case Success(f) =>
      if !Present(env.caller) then Failed(Unauthorized)
      else if key !in store then Failed(PackNotFound)
      else
        var p := store[key];
        if !Owns(env.caller, p) then Failed(Unauthorized)
        else
          var p' := p.(name := f.name, description := f.description);
          var p'' := if hasIcon then p'.(icon := Some(env.uploadUrl)) else p';
          match Save(store, key, p'')
          case None => Failed(InternalError)
          case Some(s) => Done(s, Reply(200, PackMeta(InfoOf(p''))), [])
  }

  /* -------------------------------------------------------------------- */
  /* Stickers                                                             */
  /* -------------------------------------------------------------------- */

  /** The sticker `POST /:key/stickers` builds: schema defaults, then the
      normalised name, the asset URL, how it arrived, its pack and its
      creator. */
  function StickerFor(env: Env, key: string, rawName: string, hasFile: bool): (s: Sticker)
    requires env.caller.Some?
    ensures s.name == StoredStickerName(rawName) && s.url == env.uploadUrl && s.uses == 0 && s.createdAt == env.now
    // an uploaded file means the website; a URL alone means the bot
    ensures s.createdVia == (if hasFile then Website else Discord)
    ensures s.groupId == key && s.creatorId == env.caller.value && s.groupType == "sticker-pack"
  {
    NewSticker(StoredStickerName(rawName), env.uploadUrl, env.now).(
      createdVia := if hasFile then Website else Discord,
      groupId := key,
      creatorId := env.caller.value)
  }

  /** `POST /:key/stickers` -- add a sticker, given a name and either a URL
      or an uploaded file. The new sticker goes to the front. */
  function AddSticker(env: Env, store: Store, key: string, name: Option<string>,
                      url: Option<string>, hasFile: bool): (r: Outcome)
    ensures ValidateStickerName(name, Present(url) || hasFile).Failure? ==>
      r == Failed(ValidateStickerName(name, Present(url) || hasFile).error)
    ensures ValidateStickerName(name, Present(url) || hasFile).Success? ==>
      var stored := StoredStickerName(name.value);
      && (!Present(env.caller) ==> r == Failed(Unauthorized))
      && (Present(env.caller) && key !in store ==> r == Failed(PackNotFound))
      && (Present(env.caller) && key in store && !Owns(env.caller, store[key]) ==> r == Failed(Unauthorized))
      && ((Present(env.caller) && key in store && Owns(env.caller, store[key])
           && HasName(store[key].stickers, stored)) ==> r == Failed(DuplicateStickerName))
      && ((Present(env.caller) && key in store && Owns(env.caller, store[key])
           && !HasName(store[key].stickers, stored) && |store[key].stickers| >= MaxStickers) ==>
          r == Failed(StickerCapReached))
    // success prepends exactly one sticker and keeps the prev ones behind it
    ensures r.Done? ==> key in store && Owns(env.caller, store[key])
    ensures r.Done? ==>
      var prev := store[key].stickers;
      var s := StickerFor(env, key, name.value, hasFile);
      && |prev| < MaxStickers && !HasName(prev, s.name)
      && r.store == store[key := store[key].(stickers := [s] + prev)]
      && MatchesKeyPattern(s.name) && JsLength(s.name) <= StickerNameMax
      && r.reply == Reply(201, OneSticker(s))
    // on a valid store a request that passes every gate succeeds
    ensures (StoreValid(store) && env.uploadUrl != ""
      && ValidateStickerName(name, Present(url) || hasFile).Success?
      && Present(env.caller) && key in store && Owns(env.caller, store[key])
      && !HasName(store[key].stickers, StoredStickerName(name.value))
      && |store[key].stickers| < MaxStickers) ==> r.Done?
    ensures r.Done? && StoreValid(store) ==> StoreValid(r.store)
  {
    match ValidateStickerName(name, Present(url) || hasFile)
    case Failure(e) => Failed(e)
    case Success(raw) =>
      if !Present(env.caller) then Failed(Unauthorized)
      else
        var s := StickerFor(env, key, raw, hasFile);
        if key !in store then Failed(PackNotFound)
        else
          var p := store[key];
          if !Owns(env.caller, p) then Failed(Unauthorized)
          else if HasName(p.stickers, s.name) then Failed(DuplicateStickerName)
          else if |p.stickers| >= MaxStickers then Failed(StickerCapReached)
          else
            var p' := p.(stickers := [s] + p.stickers);
            match Save(store, key, p')
            case None => Failed(InternalError)
            case Some(st) => Done(st, Reply(201, OneSticker(s)), [])
  }

  /** `POST /:key/stickers/:stickername/uses` -- the bot counts one use of a
      sticker. There is no owner check. The save is not awaited: the reply
      is sent whether or not it succeeds, and a failed save leaves the
      store as it was. */
  function IncrementUse(store: Store, key: string, stickerName: string): (r: Outcome)
    ensures key !in store ==> r == Failed(PackNotFound)
    ensures key in store && !HasName(store[key].stickers, stickerName) ==> r == Failed(StickerNotFound)
    ensures r.Done? <==> key in store && HasName(store[key].stickers, stickerName)
    ensures r.Done? && ValidPack(store[key]) ==>
      var prev := store[key].stickers;
      var i := IndexOfName(prev, stickerName);
      && r.store == store[key := store[key].(stickers := prev[i := prev[i].(uses := prev[i].uses + 1)])]
      && r.reply == Reply(200, OneSticker(prev[i].(uses := prev[i].uses + 1)))
    ensures r.Done? && StoreValid(store) ==> StoreValid(r.store)
  {
    if key !in store then Failed(PackNotFound)
    else
      var p := store[key];
      var i := IndexOfName(p.stickers, stickerName);
      if i < 0 then Failed(StickerNotFound)
      else
        var s := p.stickers[i].(uses := p.stickers[i].uses + 1);
        var p' := p.(stickers := p.stickers[i := s]);
        Done(Save(store, key, p').GetOr(store), Reply(200, OneSticker(s)), [])
  }

  /** The name a rename stores: the submitted name as it came, or, with
      `checkEditedName`, its stored form as `AddSticker` computes it. */
  function EditedName(rules: Rules, raw: string): string {
    if rules.checkEditedName then StoredStickerName(raw) else raw
  }

  /** Some sticker other than the one at `i` is called `name`. */
  predicate NameTakenByOther(stickers: seq<Sticker>, i: int, name: string) {
    exists j :: 0 <= j < |stickers| && j != i && stickers[j].name == name
  }

  /** `PATCH /:key/stickers/:stickername` -- rename a sticker in place. As
      written the route stores the submitted name as it came, without the
      rewrite `AddSticker` applies and without looking at the other
      stickers' names. It has no file upload, so a `url` field must
      accompany the new name. */
  function EditStickerName(rules: Rules, env: Env, store: Store, key: string, stickerName: string,
                           newName: Option<string>, url: Option<string>): (r: Outcome)
    ensures ValidateStickerName(newName, Present(url)).Failure? ==>
      r == Failed(ValidateStickerName(newName, Present(url)).error)
    ensures ValidateStickerName(newName, Present(url)).Success? ==>
      && (key !in store ==> r == Failed(PackNotFound))
      && (key in store && !Owns(env.caller, store[key]) ==> r == Failed(Unauthorized))
      && ((key in store && Owns(env.caller, store[key]) && !HasName(store[key].stickers, stickerName)) ==>
          r == Failed(StickerNotFound))
    // a duplicate is refused only when the rename is checked
    ensures r == Failed(DuplicateStickerName) ==> rules.checkEditedName
    ensures r.Done? ==>
      var prev := store[key].stickers;
      var i := IndexOfName(prev, stickerName);
      var name := EditedName(rules, newName.value);
      && key in store && Owns(env.caller, store[key]) && 0 <= i
      && (rules.checkEditedName ==> !NameTakenByOther(prev, i, name))
      && r.store == store[key := store[key].(stickers := prev[i := prev[i].(name := name)])]
      && r.reply.status == 200
    // on a valid store an owner's rename of a present sticker succeeds,
    // unless the checked rename finds the name taken
    ensures (StoreValid(store) && ValidateStickerName(newName, Present(url)).Success?
      && key in store && Owns(env.caller, store[key]) && HasName(store[key].stickers, stickerName)
      && !(rules.checkEditedName && NameTakenByOther(store[key].stickers,
             IndexOfName(store[key].stickers, stickerName), EditedName(rules, newName.value)))) ==> r.Done?
    ensures r.Done? && StoreValid(store) ==> StoreValid(r.store)
  {
    match ValidateStickerName(newName, Present(url))
    case Failure(e) => Failed(e)
    case Success(raw) =>
      if key !in store then Failed(PackNotFound)
      else
        var p := store[key];
        if !Owns(env.caller, p) then Failed(Unauthorized)
        else
          var i := IndexOfName(p.stickers, stickerName);
          var name := EditedName(rules, raw);
          if i < 0 then Failed(StickerNotFound)
          else if rules.checkEditedName && NameTakenByOther(p.stickers, i, name) then
            Failed(DuplicateStickerName)
          else
            var p' := p.(stickers := p.stickers[i := p.stickers[i].(name := name)]);
            match Save(store, key, p')
            case None => Failed(InternalError)
            case Some(s) => Done(s, Reply(200, Message("Successfully updated sticker")), [])
  }

  /** `DELETE /:key/stickers/:stickername` -- remove a sticker and ask the
      asset store to drop its image. */
  function DeleteSticker(env: Env, store: Store, key: string, stickerName: string): (r: Outcome)
    ensures key !in store ==> r == Failed(PackNotFound)
    ensures key in store && !Owns(env.caller, store[key]) ==> r == Failed(Unauthorized)
    ensures key in store && Owns(env.caller, store[key]) && !HasName(store[key].stickers, stickerName) ==>
      r == Failed(StickerNotFound)
    ensures r.Done? ==>
      var prev := store[key].stickers;
      var i := IndexOfName(prev, stickerName);
      && key in store && Owns(env.caller, store[key]) && 0 <= i
      && r.store == store[key := store[key].(stickers := RemoveAt(prev, i))]
      && r.released == [prev[i].url]
      && r.reply.status == 200
    ensures (StoreValid(store) && key in store && Owns(env.caller, store[key])
      && HasName(store[key].stickers, stickerName)) ==> r.Done?
    ensures r.Done? && StoreValid(store) ==> StoreValid(r.store)
  {
    if key !in store then Failed(PackNotFound)
    else
      var p := store[key];
      if !Owns(env.caller, p) then Failed(Unauthorized)
      else
        var i := IndexOfName(p.stickers, stickerName);
        if i < 0 then Failed(StickerNotFound)
        else
          var p' := p.(stickers := RemoveAt(p.stickers, i));
          match Save(store, key, p')
          case None => Failed(InternalError)
          case Some(s) => Done(s, Reply(200, Message("Successfully deleted sticker")), [p.stickers[i].url])
  }
}
