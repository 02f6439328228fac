/**
 * Where the routes as written reach a schema-invalid document and answer
 * 500, with concrete requests that show it, and the corrected rules under
 * which every route's save succeeds on a valid store, given a non-empty
 * asset URL.
 */
module Findings {
  import opened Wrappers
  import opened Text
  import opened Schema
  import opened Api
  import opened Validation
  import opened Handlers
  import opened Listing
  import opened Properties

  /* -------------------------------------------------------------------- */
  /* Concrete requests                                                    */
  /* -------------------------------------------------------------------- */

  /** An owner, a key and a valid unpublished pack with no stickers. */
  const Owner: string := "owner"
  const SomeKey: string := "abc"
  const SomePack: Pack := Pack("Pack", SomeKey, "A pack", None, false, true, 0, 0, Owner, [])
  const OwnerEnv: Env := Env(Some(Owner), [], false, false, "https://cdn/x", 0)

  /** A name of 31 letters: within the route's cap of 60, over the
      schema's 30. */
  const LongName: string := seq(31, _ => 'a')

  lemma LongNameIsNormal()
    ensures Normalize(LongName) == LongName && JsLength(LongName) == 31
  {
    NormalizeFixesNormalized(LongName);
    JsLengthOfRepeat(31, 'a');
  }

  /** A name of 16 emoji outside the Basic Multilingual Plane: 16
      characters, but 32 UTF-16 code units, the count `.length` and
      `maxlength` see. */
  const WideName: string := seq(16, _ => '\U{1F600}')

  lemma WideNameIsNormal()
    ensures Normalize(WideName) == WideName && JsLength(WideName) == 32
  {
    NormalizeFixesNormalized(WideName);
    JsLengthOfRepeat(16, '\U{1F600}');
  }

  /** As written, a name of 16 emoji passes the route's cap of 60 and
      exceeds the schema's 30 code units, so the route answers 500. */
  lemma WideNameAsWritten()
    ensures Create(AsWritten, OwnerEnv, map[], Some(WideName), Some(SomeKey), Some("A pack"), true)
      == Failed(InternalError)
  {
    WideNameIsNormal();
    ShortFieldsAreNormal();
  }

  lemma NameIsNormal()
    ensures Normalize("Pack") == "Pack"
  {
    NormalizeFixesNormalized("Pack");
  }

  lemma KeyIsNormal()
    ensures Normalize(SomeKey) == SomeKey && MatchesKeyPattern(SomeKey)
  {
    NormalizeFixesNormalized(SomeKey);
  }

  lemma DescriptionIsNormal()
    ensures Normalize("A pack") == "A pack"
  {
    var d := "A pack";
    forall i | 0 <= i < |d| && IsSpace(d[i])
      ensures d[i] == ' ' && 0 < i && i + 1 < |d| && !IsSpace(d[i + 1])
    {
      assert i == 1;
    }
    NormalizeFixesNormalized(d);
  }

  lemma ShortFieldsAreNormal()
    ensures Normalize("Pack") == "Pack" && Normalize(SomeKey) == SomeKey
    ensures Normalize("A pack") == "A pack"
    ensures MatchesKeyPattern(SomeKey)
  {
    NameIsNormal();
    KeyIsNormal();
    DescriptionIsNormal();
  }

  /** As written: creating a pack with a 31-character name passes the
      route's checks and is refused by the schema, so the route answers
      500. */
  lemma LongNameAsWritten()
    ensures Create(AsWritten, OwnerEnv, map[], Some(LongName), Some(SomeKey), Some("A pack"), true)
      == Failed(InternalError)
  {
    LongNameIsNormal();
    ShortFieldsAreNormal();
  }

  /** Corrected: the same request is refused up front with the name-length
      error. */
  lemma LongNameCorrected()
    ensures Create(Corrected, OwnerEnv, map[], Some(LongName), Some(SomeKey), Some("A pack"), true)
      == Failed(NameTooLong)
  {
    LongNameIsNormal();
    ShortFieldsAreNormal();
  }

  /** The other repair: with the schema's name `maxlength` raised to the
      route's 60, every pack the creation route builds from a body it
      accepts passes validation. */
  lemma WiderSchemaAdmitsCreate(env: Env, name: Option<string>, key: Option<string>,
                                description: Option<string>, hasIcon: bool)
    requires ValidateCreate(AsWritten, name, key, description, hasIcon).Success? && Present(env.caller)
    ensures var f := ValidateCreate(AsWritten, name, key, description, hasIcon).value;
      ValidPackWithin(AsWritten.nameMax,
                      NewPack(f.name, f.key, f.description, env.caller.value, Some(env.uploadUrl), env.now))
  {
  }

  /** A blank description normalises to "" and passes the route's checks
      as written. */
  lemma BlankDescriptionPassesRoute()
    ensures ValidateMetadata(AsWritten, Some("Pack"), Some("   ")) == Success(MetaFields("Pack", ""))
  {
    NameIsNormal();
    NormalizeEmptyIffBlank("   ");
  }

  /** As written: updating a pack with a description of blanks passes the
      route's checks, and the empty description fails the schema's
      `required`, so the route answers 500. */
  lemma BlankDescriptionAsWritten()
    ensures UpdateMetadata(AsWritten, OwnerEnv, map[SomeKey := SomePack], SomeKey, Some("Pack"), Some("   "), false)
      == Failed(InternalError)
  {
    BlankDescriptionPassesRoute();
  }

  /** Corrected: the same request is refused as an invalid body. */
  lemma BlankDescriptionCorrected()
    ensures UpdateMetadata(Corrected, OwnerEnv, map[SomeKey := SomePack], SomeKey, Some("Pack"), Some("   "), false)
      == Failed(InvalidBody)
  {
    ShortFieldsAreNormal();
    NormalizeEmptyIffBlank("   ");
  }

  /* -------------------------------------------------------------------- */
  /* Corrected rules: no save refused on a valid store with an asset URL  */
  /* -------------------------------------------------------------------- */

  lemma CreateSaves(env: Env, store: Store, name: Option<string>, key: Option<string>,
                    description: Option<string>, hasIcon: bool)
    ensures Create(Corrected, env, store, name, key, description, hasIcon) != Failed(InternalError)
  {
  }

  lemma UpdateSaves(env: Env, store: Store, key: string, name: Option<string>,
                    description: Option<string>, hasIcon: bool)
    requires StoreValid(store)
    ensures UpdateMetadata(Corrected, env, store, key, name, description, hasIcon) != Failed(InternalError)
  {
  }

  lemma PublishSaves(env: Env, store: Store, key: string)
    requires StoreValid(store)
    ensures Publish(env, store, key) != Failed(InternalError)
  {
  }

  lemma AddSaves(env: Env, store: Store, key: string, name: Option<string>, url: Option<string>, hasFile: bool)
    requires StoreValid(store) && env.uploadUrl != ""
    ensures AddSticker(env, store, key, name, url, hasFile) != Failed(InternalError)
  {
    var v := ValidateStickerName(name, Present(url) || hasFile);
    if v.Success? && Present(env.caller) && key in store {
      var s := StickerFor(env, key, v.value, hasFile);
      var xs := [s] + store[key].stickers;
      assert ValidSticker(s);
      assert forall i :: 1 <= i < |xs| ==> xs[i] == store[key].stickers[i - 1];
    }
  }

  lemma RenameSaves(env: Env, store: Store, key: string, stickerName: string,
                    newName: Option<string>, url: Option<string>)
    requires StoreValid(store)
    ensures EditStickerName(Corrected, env, store, key, stickerName, newName, url) != Failed(InternalError)
  {
    var v := ValidateStickerName(newName, Present(url));
    if v.Success? && key in store {
      var xs := store[key].stickers;
      var i := IndexOfName(xs, stickerName);
      if 0 <= i {
        var ys := xs[i := xs[i].(name := EditedName(Corrected, v.value))];
        assert forall j :: 0 <= j < |ys| && j != i ==> ys[j] == xs[j];
      }
    }
  }

  lemma RemoveSaves(env: Env, store: Store, key: string, stickerName: string)
    requires StoreValid(store)
    ensures DeleteSticker(env, store, key, stickerName) != Failed(InternalError)
  {
  }

  /** With the corrected rules, on a valid store, no request ends in the
      500 of a refused save; the only 500 left is the listing's negative
      page. The asset store is assumed to return a non-empty URL. */
  lemma {:induction false} CorrectedSavesSucceed(env: Env, store: Store, req: Request)
    requires Admissible(store, req) && StoreValid(store) && env.uploadUrl != ""
    ensures Step(Corrected, env, store, req) == Failed(InternalError) ==>
      req.ListPacks? && SkipFor(req.page) < 0
  {
    match req
    case CreatePack(name, key, description, hasIcon) => CreateSaves(env, store, name, key, description, hasIcon);
    case PublishPack(key) => PublishSaves(env, store, key);
    case UpdatePack(key, name, description, hasIcon) => UpdateSaves(env, store, key, name, description, hasIcon);
    case AddOneSticker(key, name, url, hasFile) => AddSaves(env, store, key, name, url, hasFile);
    case RenameSticker(key, name, newName, url) => RenameSaves(env, store, key, name, newName, url);
    case RemoveSticker(key, name) => RemoveSaves(env, store, key, name);
    case _ =>
  }
}
