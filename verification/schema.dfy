/**
 * The persisted shape of a sticker pack (`stickerPackSchema`): the two
 * document types, the defaults the schema fills in, and the constraints a
 * document must meet before `save()` writes it.
 */
module Schema {
  import opened Wrappers
  import opened Text

  /** How a sticker reached its pack: an uploaded file or a bare URL. */
  datatype Via = Website | Discord

  /** One embedded sticker. Timestamps are opaque natural numbers. */
  datatype Sticker = Sticker(
    name: string,
    url: string,
    uses: nat,
    creatorId: string,
    createdAt: nat,
    createdVia: Via,
    groupType: string,
    groupId: string
  )

  /** One sticker-pack document; `icon` is `None` for the schema's `null`. */
  datatype Pack = Pack(
    name: string,
    key: string,
    description: string,
    icon: Option<string>,
    published: bool,
    listed: bool,
    subscribers: nat,
    createdAt: nat,
    creatorId: string,
    stickers: seq<Sticker>
  )

  /** The collection of packs, addressed by their unique `key`. */
  type Store = map<string, Pack>

  /* maxlength values of the schema */
  const SchemaNameMax: nat := 30
  const KeyMax: nat := 8
  const DescriptionMax: nat := 110
  const StickerNameMax: nat := 20

  /* limits the routes enforce */
  const MaxStickers: nat := 400
  const MinStickersToPublish: nat := 4

  /** The document `new StickerPack(data)` builds from the fields a route
      supplies; every other field takes its schema default. */
  function NewPack(name: string, key: string, description: string, creatorId: string,
                   icon: Option<string>, now: nat): (p: Pack)
    ensures p.name == name && p.key == key && p.description == description
    ensures p.creatorId == creatorId && p.icon == icon && p.createdAt == now
    ensures !p.published && p.listed && p.subscribers == 0 && p.stickers == []
  {
    Pack(name, key, description, icon, false, true, 0, now, creatorId, [])
  }

  /** A sticker with only `name`, `url` and its creation time given; the
      other fields take their schema defaults. */
  function NewSticker(name: string, url: string, now: nat): (s: Sticker)
    ensures s.name == name && s.url == url && s.createdAt == now
    ensures s.uses == 0 && s.creatorId == "unknown" && s.createdVia == Website
    ensures s.groupType == "sticker-pack" && s.groupId == "unknown"
  {
    Sticker(name, url, 0, "unknown", now, Website, "sticker-pack", "unknown")
  }

  /** A `required` string passes Mongoose validation only when it is
      present and not empty. */
  predicate Required(s: string) {
    |s| > 0
  }

  /** The sticker sub-document constraints. */
  predicate ValidSticker(s: Sticker) {
    && Required(s.name) && JsLength(s.name) <= StickerNameMax
    && Required(s.url)
    && Required(s.creatorId)
    && Required(s.groupType)
    && Required(s.groupId)
  }

  /** The constraints `save()` checks on one document. */
  predicate ValidPack(p: Pack) {
    ValidPackWithin(SchemaNameMax, p)
  }

  /** The same constraints with the name's `maxlength` set to `nameMax`. */
  predicate ValidPackWithin(nameMax: nat, p: Pack) {
    && Required(p.name) && JsLength(p.name) <= nameMax
    && Required(p.key) && JsLength(p.key) <= KeyMax
    && Required(p.description) && JsLength(p.description) <= DescriptionMax
    && Required(p.creatorId)
    && forall i :: 0 <= i < |p.stickers| ==> ValidSticker(p.stickers[i])
  }

  /** Every stored document passed validation and is filed under its own key
      (the key is unique by construction of the map). */
  predicate StoreValid(store: Store) {
    forall k :: k in store ==> store[k].key == k && ValidPack(store[k])
  }

  /** `doc.save()` of the document found under `at` (or of a new document,
      with `at` its key): a document that fails validation is not written,
      and `None` stands for the rejected save. */
  function Save(store: Store, at: string, p: Pack): (r: Option<Store>)
    ensures r.Some? <==> ValidPack(p)
    ensures r.Some? ==> r.value == store[at := p]
    ensures r.Some? && StoreValid(store) && p.key == at ==> StoreValid(r.value)
  {
    if ValidPack(p) then Some(store[at := p]) else None
  }

  /* -------------------------------------------------------------------- */
  /* Views of a sticker sequence                                          */
  /* -------------------------------------------------------------------- */

  /** Some sticker in `stickers` carries `name`. */
  predicate HasName(stickers: seq<Sticker>, name: string) {
    exists i :: 0 <= i < |stickers| && stickers[i].name == name
  }

  /** No two stickers share a name. */
  predicate UniqueNames(stickers: seq<Sticker>) {
    forall i, j :: 0 <= i < j < |stickers| ==> stickers[i].name != stickers[j].name
  }

  /** `stickers.map(s => s.name).indexOf(name)`, also the position
      `stickers.find(s => s.name === name)` returns: the first sticker with
      exactly that name, or -1. */
  function IndexOfName(stickers: seq<Sticker>, name: string): (i: int)
    ensures -1 <= i < |stickers|
    ensures i == -1 <==> !HasName(stickers, name)
    ensures 0 <= i ==> stickers[i].name == name
    ensures 0 <= i ==> forall j :: 0 <= j < i ==> stickers[j].name != name
    decreases |stickers|
  {
    if |stickers| == 0 then -1
    else if stickers[0].name == name then 0
    else
      var k := IndexOfName(stickers[1..], name);
      if k == -1 then -1 else k + 1
  }

  /** `stickers.splice(i, 1)`. */
  function RemoveAt(stickers: seq<Sticker>, i: nat): (r: seq<Sticker>)
    requires i < |stickers|
    ensures |r| == |stickers| - 1
    ensures forall j :: 0 <= j < i ==> r[j] == stickers[j]
    ensures forall j :: i <= j < |r| ==> r[j] == stickers[j + 1]
  {
    stickers[..i] + stickers[i + 1..]
  }
}
