/**
 * The sticker-pack routes as one transition system: a request datatype,
 * `Step` dispatching it to its route, and the properties every route keeps
 * -- documents stay valid and filed under their key, a pack's identity
 * never changes, published packs stay published, and only a pack's owner
 * changes it (the bot's use counter apart).
 */
module Properties {
  import opened Wrappers
  import opened Text
  import opened Schema
  import opened Api
  import opened Validation
  import opened Handlers
  import opened Listing

  /** One request to the router, with its path parameters and body fields
      (`None` for a field the body does not carry). */
  datatype Request =
    | ListPacks(order: seq<string>, page: Option<string>, sort: Option<string>,
                search: Option<string>, matches: Matcher)
    | ReadPack(key: string)
    | ReadInfo(key: string)
    | ReadStickers(key: string)
    | ReadSticker(key: string, stickerName: string)
    | CreatePack(name: Option<string>, newKey: Option<string>, description: Option<string>, hasIcon: bool)
    | PublishPack(key: string)
    | CancelPack(key: string)
    | UpdatePack(key: string, name: Option<string>, description: Option<string>, hasIcon: bool)
    | AddOneSticker(key: string, name: Option<string>, url: Option<string>, hasFile: bool)
    | CountUse(key: string, stickerName: string)
    | RenameSticker(key: string, stickerName: string, newName: Option<string>, url: Option<string>)
    | RemoveSticker(key: string, stickerName: string)

  /** A listing request scans the whole store, each key once, as the
      storage engine does. */
  ghost predicate Admissible(store: Store, req: Request) {
    req.ListPacks? ==> ScanOrder(store, req.order)
  }

  predicate IsRead(req: Request) {
    req.ListPacks? || req.ReadPack? || req.ReadInfo? || req.ReadStickers? || req.ReadSticker?
  }

  /* -------------------------------------------------------------------- */
  /* What every write keeps                                               */
  /* -------------------------------------------------------------------- */

  /** A pack's key, creator and creation time never change. */
  predicate IdentityKept(store: Store, after: Store) {
    forall k :: k in store && k in after ==>
      && after[k].key == store[k].key
      && after[k].creatorId == store[k].creatorId
      && after[k].createdAt == store[k].createdAt
  }

  /** A published pack is never removed or unpublished. */
  predicate PublishedKept(store: Store, after: Store) {
    forall k :: k in store && store[k].published ==> k in after && after[k].published
  }

  /** Every pack that was removed or changed belongs to `caller`. */
  predicate ChangedOnlyByOwner(caller: Option<string>, store: Store, after: Store) {
    forall k :: k in store && (k !in after || after[k] != store[k]) ==> Owns(caller, store[k])
  }

  /** Every pack that appeared belongs to `caller`, is unpublished and has
      no stickers. */
  predicate NewPacksFresh(caller: Option<string>, store: Store, after: Store) {
    forall k :: k in after && k !in store ==>
      Owns(caller, after[k]) && !after[k].published && after[k].stickers == []
  }

  /** What a completed request keeps: reads change nothing; a pack's
      identity is fixed; published packs stay; the bot's use counter apart,
      only the owner removes or changes a pack; packs appear only by
      creation, owned by the caller, unpublished and empty; only a sticker
      deletion hands an asset to the asset store. */
  predicate Kept(caller: Option<string>, store: Store, r: Outcome, req: Request) {
    r.Done? ==>
      var after := r.store;
      && (IsRead(req) ==> after == store)
      && IdentityKept(store, after) && PublishedKept(store, after)
      && (!req.CountUse? ==> ChangedOnlyByOwner(caller, store, after))
      && (!req.CreatePack? ==> after.Keys <= store.Keys)
      && NewPacksFresh(caller, store, after)
      && (r.released != [] ==> req.RemoveSticker?)
  }

  lemma CreateKeeps(rules: Rules, env: Env, store: Store, name: Option<string>, key: Option<string>,
                    description: Option<string>, hasIcon: bool)
    ensures var r := Create(rules, env, store, name, key, description, hasIcon);
      Kept(env.caller, store, r, CreatePack(name, key, description, hasIcon))
  {
  }

  lemma PublishKeeps(env: Env, store: Store, key: string)
    ensures var r := Publish(env, store, key); Kept(env.caller, store, r, PublishPack(key))
  {
  }

  lemma CancelKeeps(env: Env, store: Store, key: string)
    ensures var r := CancelCreation(env, store, key); Kept(env.caller, store, r, CancelPack(key))
  {
  }

  lemma UpdateKeeps(rules: Rules, env: Env, store: Store, key: string, name: Option<string>,
                    description: Option<string>, hasIcon: bool)
    ensures var r := UpdateMetadata(rules, env, store, key, name, description, hasIcon);
      Kept(env.caller, store, r, UpdatePack(key, name, description, hasIcon))
  {
  }

  lemma AddKeeps(env: Env, store: Store, key: string, name: Option<string>, url: Option<string>, hasFile: bool)
    ensures var r := AddSticker(env, store, key, name, url, hasFile);
      Kept(env.caller, store, r, AddOneSticker(key, name, url, hasFile))
  {
  }

  lemma CountKeeps(env: Env, store: Store, key: string, name: string)
    ensures var r := IncrementUse(store, key, name);
      Kept(env.caller, store, r, CountUse(key, name))
  {
  }

  lemma RenameKeeps(rules: Rules, env: Env, store: Store, key: string, name: string,
                    newName: Option<string>, url: Option<string>)
    ensures var r := EditStickerName(rules, env, store, key, name, newName, url);
      Kept(env.caller, store, r, RenameSticker(key, name, newName, url))
  {
  }

  lemma RemoveKeeps(env: Env, store: Store, key: string, name: string)
    ensures var r := DeleteSticker(env, store, key, name);
      Kept(env.caller, store, r, RemoveSticker(key, name))
  {
  }

  /** The route a request reaches. */
  function Step(rules: Rules, env: Env, store: Store, req: Request): (r: Outcome)
    requires Admissible(store, req)
    // the reads leave the store alone
    ensures r.Done? && IsRead(req) ==> r.store == store
  {
    match req
    case ListPacks(order, page, sort, search, matches) => List(store, order, page, sort, search, matches)
    case ReadPack(key) => GetPack(store, key)
    case ReadInfo(key) => GetInfo(store, key)
    case ReadStickers(key) => GetStickers(store, key)
    case ReadSticker(key, name) => GetSticker(store, key, name)
    case CreatePack(name, key, description, hasIcon) => Create(rules, env, store, name, key, description, hasIcon)
    case PublishPack(key) => Publish(env, store, key)
    case CancelPack(key) => CancelCreation(env, store, key)
    case UpdatePack(key, name, description, hasIcon) =>
      UpdateMetadata(rules, env, store, key, name, description, hasIcon)
    case AddOneSticker(key, name, url, hasFile) => AddSticker(env, store, key, name, url, hasFile)
    case CountUse(key, name) => IncrementUse(store, key, name)
    case RenameSticker(key, name, newName, url) => EditStickerName(rules, env, store, key, name, newName, url)
    case RemoveSticker(key, name) => DeleteSticker(env, store, key, name)
  }

  /** Every request keeps every document valid and filed under its own
      key. */
  lemma StepKeepsValid(rules: Rules, env: Env, store: Store, req: Request)
    requires Admissible(store, req) && StoreValid(store)
    ensures var r := Step(rules, env, store, req); r.Done? ==> StoreValid(r.store)
  {
  }

  /** Every request keeps what `Kept` names. */
  lemma {:induction false} StepKeeps(rules: Rules, env: Env, store: Store, req: Request)
    requires Admissible(store, req)
    ensures var r := Step(rules, env, store, req); Kept(env.caller, store, r, req)
  {
    var r := Step(rules, env, store, req);
    match req
    case CreatePack(name, key, description, hasIcon) =>
      assert r == Create(rules, env, store, name, key, description, hasIcon);
      CreateKeeps(rules, env, store, name, key, description, hasIcon);
    case PublishPack(key) =>
      assert r == Publish(env, store, key);
      PublishKeeps(env, store, key);
    case CancelPack(key) =>
      assert r == CancelCreation(env, store, key);
      CancelKeeps(env, store, key);
    case UpdatePack(key, name, description, hasIcon) =>
      assert r == UpdateMetadata(rules, env, store, key, name, description, hasIcon);
      UpdateKeeps(rules, env, store, key, name, description, hasIcon);
    case AddOneSticker(key, name, url, hasFile) =>
      assert r == AddSticker(env, store, key, name, url, hasFile);
      AddKeeps(env, store, key, name, url, hasFile);
    case CountUse(key, name) =>
      assert r == IncrementUse(store, key, name);
      CountKeeps(env, store, key, name);
    case RenameSticker(key, name, newName, url) =>
      assert r == EditStickerName(rules, env, store, key, name, newName, url);
      RenameKeeps(rules, env, store, key, name, newName, url);
    case RemoveSticker(key, name) =>
      assert r == DeleteSticker(env, store, key, name);
      RemoveKeeps(env, store, key, name);
    case _ =>
  }

  /* -------------------------------------------------------------------- */
  /* The sticker-array invariant                                          */
  /* -------------------------------------------------------------------- */

  /** Within every pack the sticker names are distinct and there are at
      most 400 stickers. */
  predicate StickersWellFormed(store: Store) {
    forall k :: k in store ==> UniqueNames(store[k].stickers) && |store[k].stickers| <= MaxStickers
  }

  lemma UniqueAfterPrepend(s: Sticker, xs: seq<Sticker>)
    requires UniqueNames(xs) && !HasName(xs, s.name)
    ensures UniqueNames([s] + xs)
  {
    var ys := [s] + xs;
    forall i, j | 0 <= i < j < |ys|
      ensures ys[i].name != ys[j].name
    {
      if i == 0 {
        assert xs[j - 1] == ys[j];
      }
    }
  }

  lemma UniqueAfterRemove(xs: seq<Sticker>, i: nat)
    requires i < |xs| && UniqueNames(xs)
    ensures UniqueNames(RemoveAt(xs, i))
  {
    var ys := RemoveAt(xs, i);
    forall a, b | 0 <= a < b < |ys|
      ensures ys[a].name != ys[b].name
    {
      var a' := if a < i then a else a + 1;
      var b' := if b < i then b else b + 1;
      assert ys[a] == xs[a'] && ys[b] == xs[b'];
    }
  }

  /** Replacing one sticker by one with a name no other sticker has keeps
      the names distinct. */
  lemma UniqueAfterReplace(xs: seq<Sticker>, i: nat, s: Sticker)
    requires i < |xs| && UniqueNames(xs)
    requires !NameTakenByOther(xs, i, s.name)
    ensures UniqueNames(xs[i := s])
  {
    var ys := xs[i := s];
    forall a, b | 0 <= a < b < |ys|
      ensures ys[a].name != ys[b].name
    {
      if a == i {
        assert xs[b].name != s.name;
      } else if b == i {
        assert xs[a].name != s.name;
      }
    }
  }

  lemma RenameNotTaken(xs: seq<Sticker>, i: nat)
    requires i < |xs| && UniqueNames(xs)
    ensures !NameTakenByOther(xs, i, xs[i].name)
  {
  }

  /** Writing one pack whose stickers are well formed keeps the store's
      stickers well formed. */
  lemma WritePackKeepsStickers(store: Store, key: string, p: Pack)
    requires StickersWellFormed(store)
    requires UniqueNames(p.stickers) && |p.stickers| <= MaxStickers
    ensures StickersWellFormed(store[key := p])
  {
  }

  lemma AddKeepsStickers(env: Env, store: Store, key: string, name: Option<string>,
                         url: Option<string>, hasFile: bool)
    requires StickersWellFormed(store)
    ensures var r := AddSticker(env, store, key, name, url, hasFile);
      r.Done? ==> StickersWellFormed(r.store)
  {
    var r := AddSticker(env, store, key, name, url, hasFile);
    if r.Done? {
      var s := StickerFor(env, key, name.value, hasFile);
      UniqueAfterPrepend(s, store[key].stickers);
      WritePackKeepsStickers(store, key, store[key].(stickers := [s] + store[key].stickers));
    }
  }

  lemma CountKeepsStickers(store: Store, key: string, name: string)
    requires StickersWellFormed(store)
    ensures var r := IncrementUse(store, key, name);
      r.Done? ==> StickersWellFormed(r.store)
  {
    var r := IncrementUse(store, key, name);
    if r.Done? {
      var xs := store[key].stickers;
      var i := IndexOfName(xs, name);
      var s := xs[i].(uses := xs[i].uses + 1);
      RenameNotTaken(xs, i);
      UniqueAfterReplace(xs, i, s);
      WritePackKeepsStickers(store, key, store[key].(stickers := xs[i := s]));
    }
  }

  lemma RenameKeepsStickers(rules: Rules, env: Env, store: Store, key: string, name: string,
                            newName: Option<string>, url: Option<string>)
    requires rules.checkEditedName
    requires StickersWellFormed(store)
    ensures var r := EditStickerName(rules, env, store, key, name, newName, url);
      r.Done? ==> StickersWellFormed(r.store)
  {
    var r := EditStickerName(rules, env, store, key, name, newName, url);
    if r.Done? {
      var xs := store[key].stickers;
      var i := IndexOfName(xs, name);
      var s := xs[i].(name := EditedName(rules, newName.value));
      UniqueAfterReplace(xs, i, s);
      WritePackKeepsStickers(store, key, store[key].(stickers := xs[i := s]));
    }
  }

  lemma RemoveKeepsStickers(env: Env, store: Store, key: string, name: string)
    requires StickersWellFormed(store)
    ensures var r := DeleteSticker(env, store, key, name);
      r.Done? ==> StickersWellFormed(r.store)
  {
    var r := DeleteSticker(env, store, key, name);
    if r.Done? {
      var xs := store[key].stickers;
      var i := IndexOfName(xs, name);
      UniqueAfterRemove(xs, i);
      WritePackKeepsStickers(store, key, store[key].(stickers := RemoveAt(xs, i)));
    }
  }

  lemma CreateKeepsStickers(rules: Rules, env: Env, store: Store, name: Option<string>, key: Option<string>,
                            description: Option<string>, hasIcon: bool)
    requires StickersWellFormed(store)
    ensures var r := Create(rules, env, store, name, key, description, hasIcon);
      r.Done? ==> StickersWellFormed(r.store)
  {
  }

  lemma PublishKeepsStickers(env: Env, store: Store, key: string)
    requires StickersWellFormed(store)
    ensures var r := Publish(env, store, key); r.Done? ==> StickersWellFormed(r.store)
  {
  }

  lemma CancelKeepsStickers(env: Env, store: Store, key: string)
    requires StickersWellFormed(store)
    ensures var r := CancelCreation(env, store, key); r.Done? ==> StickersWellFormed(r.store)
  {
  }

  lemma UpdateKeepsStickers(rules: Rules, env: Env, store: Store, key: string, name: Option<string>,
                            description: Option<string>, hasIcon: bool)
    requires StickersWellFormed(store)
    ensures var r := UpdateMetadata(rules, env, store, key, name, description, hasIcon);
      r.Done? ==> StickersWellFormed(r.store)
  {
  }

  /** With the rename checked, every route keeps sticker names distinct
      within a pack and keeps packs within the 400-sticker cap. */
  lemma {:induction false} CheckedStepKeepsStickers(rules: Rules, env: Env, store: Store, req: Request)
    requires rules.checkEditedName && Admissible(store, req)
    requires StoreValid(store) && StickersWellFormed(store)
    ensures var r := Step(rules, env, store, req); r.Done? ==> StickersWellFormed(r.store)
  {
    var r := Step(rules, env, store, req);
    match req
    case AddOneSticker(key, name, url, hasFile) =>
      assert r == AddSticker(env, store, key, name, url, hasFile);
      AddKeepsStickers(env, store, key, name, url, hasFile);
    case CountUse(key, name) =>
      assert r == IncrementUse(store, key, name);
      CountKeepsStickers(store, key, name);
    case RenameSticker(key, name, newName, url) =>
      assert r == EditStickerName(rules, env, store, key, name, newName, url);
      RenameKeepsStickers(rules, env, store, key, name, newName, url);
    case RemoveSticker(key, name) =>
      assert r == DeleteSticker(env, store, key, name);
      RemoveKeepsStickers(env, store, key, name);
    case CreatePack(name, key, description, hasIcon) =>
      assert r == Create(rules, env, store, name, key, description, hasIcon);
      CreateKeepsStickers(rules, env, store, name, key, description, hasIcon);
    case PublishPack(key) =>
      assert r == Publish(env, store, key);
      PublishKeepsStickers(env, store, key);
    case CancelPack(key) =>
      assert r == CancelCreation(env, store, key);
      CancelKeepsStickers(env, store, key);
    case UpdatePack(key, name, description, hasIcon) =>
      assert r == UpdateMetadata(rules, env, store, key, name, description, hasIcon);
      UpdateKeepsStickers(rules, env, store, key, name, description, hasIcon);
    case _ =>
  }

  lemma NameAIsValid()
    ensures ValidateStickerName(Some("a"), true) == Success("a")
  {
    assert MatchesStickerPattern("a") by {
      assert LeadLength("a") == 0;
      assert CoreEnd("a") == 1;
      assert StickerNameCore("a") == "a";
    }
  }

  /** A pack holding stickers `a` and `b`, and its owner. */
  const StickerA: Sticker := Sticker("a", "u", 0, "c", 0, Website, "sticker-pack", "k")
  const StickerB: Sticker := StickerA.(name := "b")
  const PackAB: Pack := Pack("n", "k", "d", None, false, true, 0, 0, "c", [StickerA, StickerB])
  const OwnerOfAB: Env := Env(Some("c"), [], false, false, "u", 0)

  lemma RenameBToA()
    ensures EditStickerName(AsWritten, OwnerOfAB, map["k" := PackAB], "k", "b", Some("a"), Some("u"))
      == Done(map["k" := PackAB.(stickers := [StickerA, StickerA])],
              Reply(200, Message("Successfully updated sticker")), [])
  {
    var xs := [StickerA, StickerB];
    assert IndexOfName(xs, "b") == 1 by {
      assert xs[1..] == [StickerB];
      assert IndexOfName([StickerB], "b") == 0;
    }
    NameAIsValid();
    assert xs[1 := xs[1].(name := "a")] == [StickerA, StickerA];
    assert ValidPack(PackAB.(stickers := [StickerA, StickerA]));
  }

  /** The pack before the rename is valid and its names are distinct. */
  lemma PackABIsWellFormed()
    ensures StoreValid(map["k" := PackAB]) && StickersWellFormed(map["k" := PackAB])
  {
    var store := map["k" := PackAB];
    assert forall k :: k in store ==> k == "k";
    assert UniqueNames(PackAB.stickers) by {
      assert PackAB.stickers[0].name == "a" && PackAB.stickers[1].name == "b";
    }
  }

  /** The rename as written breaks that invariant: renaming `b` to `a` in a
      pack holding `a` and `b` leaves two stickers called `a`. */
  lemma AsWrittenRenameDuplicates()
    ensures StoreValid(map["k" := PackAB]) && StickersWellFormed(map["k" := PackAB])
    ensures var r := Step(AsWritten, OwnerOfAB, map["k" := PackAB], RenameSticker("k", "b", Some("a"), Some("u")));
      r.Done? && !StickersWellFormed(r.store)
  {
    PackABIsWellFormed();
    RenameBToA();
    var req := RenameSticker("k", "b", Some("a"), Some("u"));
    assert Step(AsWritten, OwnerOfAB, map["k" := PackAB], req)
      == EditStickerName(AsWritten, OwnerOfAB, map["k" := PackAB], "k", "b", Some("a"), Some("u"));
    var after := map["k" := PackAB.(stickers := [StickerA, StickerA])];
    assert !UniqueNames(after["k"].stickers) by {
      assert after["k"].stickers[0].name == after["k"].stickers[1].name;
    }
  }
}
