/**
 * The request-body checks of the pack routes. Each route tests its fields
 * one after another and answers with the first test that fails; the
 * tables below state those tests in order, and `FirstViolation` is the
 * order-respecting reading of a table that the nested `if`s of the routes
 * are proved to agree with.
 */
module Validation {
  import opened Wrappers
  import opened Text
  import opened Schema
  import opened Api

  /** One test of a route and the failure it answers with. */
  datatype Check = Check(holds: bool, error: Error)

  /** The failure of the first test that does not hold, if any. */
  function FirstViolation(checks: seq<Check>): (r: Option<Error>)
    ensures r.None? <==> forall i :: 0 <= i < |checks| ==> checks[i].holds
    ensures r.Some? ==>
      exists i :: (0 <= i < |checks| && !checks[i].holds && checks[i].error == r.value
        && forall j :: 0 <= j < i ==> checks[j].holds)
    decreases |checks|
  {
    if |checks| == 0 then None
    else if !checks[0].holds then Some(checks[0].error)
    else
      var r := FirstViolation(checks[1..]);
      assert forall i :: 1 <= i < |checks| ==> checks[i] == checks[1..][i - 1];
      r
  }

  /** Reading a table is reading its first test, then the rest. */
  lemma FirstViolationCons(c: Check, rest: seq<Check>)
    ensures FirstViolation([c] + rest) == if c.holds then FirstViolation(rest) else Some(c.error)
  {
    assert ([c] + rest)[1..] == rest;
  }

  lemma FirstViolationOfThree(c0: Check, c1: Check, c2: Check)
    ensures FirstViolation([c0, c1, c2]) ==
      if !c0.holds then Some(c0.error)
      else if !c1.holds then Some(c1.error)
      else if !c2.holds then Some(c2.error)
      else None
  {
    FirstViolationCons(c0, [c1, c2]);
    FirstViolationCons(c1, [c2]);
    FirstViolationCons(c2, []);
    assert [c0, c1, c2] == [c0] + [c1, c2];
    assert [c1, c2] == [c1] + [c2];
    assert [c2] == [c2] + [];
  }

  lemma FirstViolationOfFive(c0: Check, c1: Check, c2: Check, c3: Check, c4: Check)
    ensures FirstViolation([c0, c1, c2, c3, c4]) ==
      if !c0.holds then Some(c0.error)
      else if !c1.holds then Some(c1.error)
      else FirstViolation([c2, c3, c4])
  {
    FirstViolationCons(c0, [c1, c2, c3, c4]);
    FirstViolationCons(c1, [c2, c3, c4]);
    assert [c0, c1, c2, c3, c4] == [c0] + [c1, c2, c3, c4];
    assert [c1, c2, c3, c4] == [c1] + [c2, c3, c4];
  }

  /** The three normalised text fields of a pack. */
  datatype PackFields = PackFields(name: string, key: string, description: string)

  /** The tests of the creation route after normalisation, in source order. */
  function CreateChecks(rules: Rules, f: PackFields): seq<Check> {
    [ Check(|f.name| > 0 && |f.key| > 0 && |f.description| > 0, InvalidBody),
      Check(MatchesKeyPattern(f.key), KeyNotAlnum),
      Check(JsLength(f.name) <= rules.nameMax, NameTooLong),
      Check(JsLength(f.key) <= KeyMax, KeyTooLong),
      Check(JsLength(f.description) <= DescriptionMax, DescriptionTooLong) ]
  }

  /** The body checks of `POST /` (create a pack): every field and the icon
      file present, then the normalised fields tested in order. */
  function ValidateCreate(rules: Rules, name: Option<string>, key: Option<string>,
                          description: Option<string>, hasIcon: bool): (r: Result<PackFields, Error>)
    ensures !(Present(name) && Present(key) && Present(description) && hasIcon) ==>
      r == Failure(InvalidBody)
    ensures r.Success? ==> r.value == PackFields(Normalize(name.value), Normalize(key.value), Normalize(description.value))
    ensures r.Success? ==>
      && 0 < |r.value.name| && JsLength(r.value.name) <= rules.nameMax
      && MatchesKeyPattern(r.value.key) && JsLength(r.value.key) <= KeyMax
      && 0 < |r.value.description| && JsLength(r.value.description) <= DescriptionMax
  {
    if !Present(name) || !Present(key) || !Present(description) || !hasIcon then
      Failure(InvalidBody)
    else
      var n := Normalize(name.value);
      var k := Normalize(key.value);
      var d := Normalize(description.value);
      if |n| == 0 || |k| == 0 || |d| == 0 then Failure(InvalidBody)
      else if !MatchesKeyPattern(k) then Failure(KeyNotAlnum)
      else if JsLength(n) > rules.nameMax then Failure(NameTooLong)
      else if JsLength(k) > KeyMax then Failure(KeyTooLong)
      else if JsLength(d) > DescriptionMax then Failure(DescriptionTooLong)
      else Success(PackFields(n, k, d))
  }

  /** The normalised name and description of a metadata update. */
  datatype MetaFields = MetaFields(name: string, description: string)

  /** The tests of the update route after normalisation, in source order. */
  function MetadataChecks(rules: Rules, f: MetaFields): seq<Check> {
    [ Check(|f.name| > 0 && (!rules.checkBlankDescription || |f.description| > 0), InvalidBody),
      Check(JsLength(f.name) <= rules.nameMax, NameTooLong),
      Check(JsLength(f.description) <= DescriptionMax, DescriptionTooLong) ]
  }

  /** The body checks of `PATCH /:key` (update a pack). With the source's
      rules a description that normalises to "" is let through. */
  function ValidateMetadata(rules: Rules, name: Option<string>, description: Option<string>)
    : (r: Result<MetaFields, Error>)
    ensures !(Present(name) && Present(description)) ==> r == Failure(InvalidBody)
    ensures r.Success? ==> r.value == MetaFields(Normalize(name.value), Normalize(description.value))
    ensures r.Success? ==>
      && 0 < |r.value.name| && JsLength(r.value.name) <= rules.nameMax
      && JsLength(r.value.description) <= DescriptionMax
      && (rules.checkBlankDescription ==> |r.value.description| > 0)
  {
    if !Present(name) || !Present(description) then Failure(InvalidBody)
    else
      var n := Normalize(name.value);
      var d := Normalize(description.value);
      if |n| == 0 || (rules.checkBlankDescription && |d| == 0) then Failure(InvalidBody)
      else if JsLength(n) > rules.nameMax then Failure(NameTooLong)
      else if JsLength(d) > DescriptionMax then Failure(DescriptionTooLong)
      else Success(MetaFields(n, d))
  }

  /** The tests a submitted sticker name goes through, in source order;
      `hasImage` says whether a `url` or a file came with it. */
  function StickerChecks(name: Option<string>, hasImage: bool): seq<Check> {
    var raw := name.GetOr("");
    [ Check(Present(name) && hasImage, InvalidBody),
      Check(MatchesStickerPattern(raw), StickerNameNotAlnum),
      Check(JsLength(raw) <= StickerNameMax, StickerNameTooLong) ]
  }

  /** The body checks shared by `POST /:key/stickers` and
      `PATCH /:key/stickers/:stickername`; on success the raw name. */
  function ValidateStickerName(name: Option<string>, hasImage: bool): (r: Result<string, Error>)
    ensures r.Success? ==> Present(name) && hasImage && r.value == name.value
    ensures r.Success? ==>
      && MatchesStickerPattern(r.value) && JsLength(r.value) <= StickerNameMax
      && MatchesKeyPattern(StoredStickerName(r.value))
      && JsLength(StoredStickerName(r.value)) <= StickerNameMax
  {
    if !Present(name) || !hasImage then Failure(InvalidBody)
    else if !MatchesStickerPattern(name.value) then Failure(StickerNameNotAlnum)
    else if JsLength(name.value) > StickerNameMax then Failure(StickerNameTooLong)
    else
      StoredNameIsCore(name.value);
      LowerAlnumLength(StoredStickerName(name.value));
      Success(name.value)
  }

  /* -------------------------------------------------------------------- */
  /* The routes' nested tests agree with the tables                       */
  /* -------------------------------------------------------------------- */

  /** How the five creation tests are read, written out. */
  lemma CreateChecksRead(rules: Rules, f: PackFields)
    ensures FirstViolation(CreateChecks(rules, f)) ==
      if !(|f.name| > 0 && |f.key| > 0 && |f.description| > 0) then Some(InvalidBody)
      else if !MatchesKeyPattern(f.key) then Some(KeyNotAlnum)
      else if !(JsLength(f.name) <= rules.nameMax) then Some(NameTooLong)
      else if !(JsLength(f.key) <= KeyMax) then Some(KeyTooLong)
      else if !(JsLength(f.description) <= DescriptionMax) then Some(DescriptionTooLong)
      else None
  {
    var cs := CreateChecks(rules, f);
    FirstViolationOfFive(cs[0], cs[1], cs[2], cs[3], cs[4]);
    FirstViolationOfThree(cs[2], cs[3], cs[4]);
  }

  /** The creation route answers with the first failing test of its table,
      and accepts exactly when every test holds. */
  lemma CreateChecksInOrder(rules: Rules, name: Option<string>, key: Option<string>,
                            description: Option<string>, hasIcon: bool)
    requires Present(name) && Present(key) && Present(description) && hasIcon
    ensures var f := PackFields(Normalize(name.value), Normalize(key.value), Normalize(description.value));
      ValidateCreate(rules, name, key, description, hasIcon) ==
        match FirstViolation(CreateChecks(rules, f))
        case None => Success(f)
        case Some(e) => Failure(e)
  {
    var f := PackFields(Normalize(name.value), Normalize(key.value), Normalize(description.value));
    CreateChecksRead(rules, f);
  }

  /** The update route answers with the first failing test of its table. */
  lemma MetadataChecksInOrder(rules: Rules, name: Option<string>, description: Option<string>)
    requires Present(name) && Present(description)
    ensures var f := MetaFields(Normalize(name.value), Normalize(description.value));
      ValidateMetadata(rules, name, description) ==
        match FirstViolation(MetadataChecks(rules, f))
        case None => Success(f)
        case Some(e) => Failure(e)
  {
    var f := MetaFields(Normalize(name.value), Normalize(description.value));
    var cs := MetadataChecks(rules, f);
    FirstViolationOfThree(cs[0], cs[1], cs[2]);
  }

  /** The sticker-name checks answer with the first failing test of their
      table. */
  lemma StickerChecksInOrder(name: Option<string>, hasImage: bool)
    ensures ValidateStickerName(name, hasImage) ==
      match FirstViolation(StickerChecks(name, hasImage))
      case None => Success(name.value)
      case Some(e) => Failure(e)
  {
    var cs := StickerChecks(name, hasImage);
    FirstViolationOfThree(cs[0], cs[1], cs[2]);
  }
}
