/**
 * controllers/promptController.js: reading, creating, updating, deleting and
 * rating prompts. Everything except `getAllPrompts` and `getPrompt` sits
 * behind the `protect` middleware (routes/prompts.js), which supplies the
 * requester.
 */
module PromptController {
  import opened Wrappers
  import opened Http
  import opened Uploads
  import opened PromptModel
  import RatingAggregate
  import Users
  import JsString

  /** `req.user`: the signed-in requester. */
  datatype Requester = Requester(id: Users.Id, role: Users.Role)

  /** The owner-or-admin rule of update and delete. */
  predicate MayModify(p: Prompt, who: Requester)
    ensures who.role == Users.Admin ==> MayModify(p, who)
    ensures who.role == Users.Member ==> (MayModify(p, who) <==> p.createdBy == who.id)
  {
    p.createdBy == who.id || who.role == Users.Admin
  }

  datatype PromptReply =
    | Single(id: Users.Id, prompt: Prompt)  // `data: prompt`
    | Removed                               // "Prompt deleted successfully"
    | RatingOf(rating: Rating)              // `data: prompt.rating`

  datatype PromptStep = PromptStep(after: PromptStore, response: Response<PromptReply>)

  const ErrNotFound := Reject(404, "Prompt not found")
  const ErrMayNotUpdate := Reject(403, "Not authorized to update this prompt")
  const ErrMayNotDelete := Reject(403, "Not authorized to delete this prompt")
  const ErrRatingRange := Reject(400, "Rating must be between 1 and 5")

  /** Every stored prompt passes its path validators; in particular every average lies in [0, 5]. */
  ghost predicate AllFieldsValid(s: PromptStore) {
    forall id :: id in s.byId ==> FieldsValid(s.byId[id])
  }

  /** getPrompt. */
  function GetPrompt(s: PromptStore, id: Users.Id): (r: Response<PromptReply>)
    ensures r.Fail? <==> id !in s.byId
    ensures r.Fail? ==> r.error == ErrNotFound
    ensures r.Reply? ==> r == Reply(200, Single(id, s.byId[id]))
  {
    if id !in s.byId then Fail(ErrNotFound) else Reply(200, Single(id, s.byId[id]))
  }

  /** The store after a new prompt is saved under the next id. */
  function Insert(s: PromptStore, p: Prompt): (r: PromptStore)
    ensures r.nextId == s.nextId + 1
    ensures r.byId.Keys == s.byId.Keys + {s.nextId} && r.byId[s.nextId] == p
    ensures forall k :: k in s.byId && k != s.nextId ==> r.byId[k] == s.byId[k]
    ensures IdsIssued(s) ==> IdsIssued(r) && s.nextId !in s.byId
    ensures AllFieldsValid(s) && FieldsValid(p) ==> AllFieldsValid(r)
  {
    PromptStore(s.byId[s.nextId := p], s.nextId + 1)
  }

  /** The store after the prompt stored under `id` is overwritten with `p`. */
  function Replace(s: PromptStore, id: Users.Id, p: Prompt): (r: PromptStore)
    requires id in s.byId
    ensures r.nextId == s.nextId
    ensures r.byId.Keys == s.byId.Keys && r.byId[id] == p
    ensures forall k :: k in s.byId && k != id ==> r.byId[k] == s.byId[k]
    ensures IdsIssued(s) ==> IdsIssued(r)
    ensures AllFieldsValid(s) && FieldsValid(p) ==> AllFieldsValid(r)
  {
    s.(byId := s.byId[id := p])
  }

  /**
   * The document createPrompt asks Mongoose to create: `createdBy` is always
   * the requester, and uploaded files, if any, become the images in upload
   * order. `None` when the document fails validation.
   */
  function NewPrompt(who: Requester, body: Body, files: seq<UploadedFile>): (r: Option<Prompt>)
    ensures r.Some? <==>
      CreateAccepts(body.(createdBy := Some(who.id), images := if |files| > 0 then Some(ToImages(files)) else body.images))
    ensures r.Some? ==>
      && r.value.name == JsString.Trim(body.name.value)
      && r.value.description == body.description.value
      && r.value.status == (if body.status.Some? then ParseStatus(body.status.value).value else DefaultStatus)
      && r.value.rating == body.rating.GetOr(DefaultRating)
      && r.value.price == body.price.value
    ensures r.Some? ==> r.value.createdBy == who.id
    ensures r.Some? ==> Valid(r.value)
    ensures r.Some? && |files| > 0 ==>
      && |r.value.images| == |files|
      && forall i :: 0 <= i < |files| ==> r.value.images[i] == Image(files[i].filename, files[i].path)
    ensures r.Some? && |files| == 0 ==> r.value.images == body.images.GetOr([])
  {
    var images := if |files| > 0 then Some(ToImages(files)) else body.images;
    var draft := body.(createdBy := Some(who.id), images := images);
    if Create(draft).Some? then CreatedIsValid(draft); Create(draft) else None
  }

  /** createPrompt: stores the new document under a fresh id, or stores nothing if it is invalid. */
  function CreatePrompt(s: PromptStore, who: Requester, body: Body, files: seq<UploadedFile>): (r: PromptStep)
    ensures IdsIssued(s) ==> IdsIssued(r.after)
    ensures r.response.Fail? <==> NewPrompt(who, body, files).None?
    ensures r.response.Fail? ==> r.after == s && r.response.error == Thrown(ValidationFailed)
    ensures r.response.Reply? ==>
      && r.response == Reply(201, Single(s.nextId, NewPrompt(who, body, files).value))
      && (IdsIssued(s) ==> s.nextId !in s.byId)
      && r.after.byId.Keys == s.byId.Keys + {s.nextId}
      && (forall k :: k in s.byId && k != s.nextId ==> r.after.byId[k] == s.byId[k])
      && r.after.byId[s.nextId] == NewPrompt(who, body, files).value
  {
    match NewPrompt(who, body, files)
    case None => PromptStep(s, Fail(Thrown(ValidationFailed)))
    case Some(p) => PromptStep(Insert(s, p), Reply(201, Single(s.nextId, p)))
  }

  /** Whatever owner the body names, the prompt is created for the requester. */
  lemma CreateIgnoresBodyOwner(s: PromptStore, who: Requester, body: Body, files: seq<UploadedFile>,
                               claimed: Users.Id)
    ensures CreatePrompt(s, who, body.(createdBy := Some(claimed)), files) == CreatePrompt(s, who, body, files)
  {
  }

  /**
   * The prompt `findByIdAndUpdate` leaves: uploaded files are appended after
   * the existing images, and every key of the body overwrites its field,
   * `rating` and `createdBy` included. `None` when an update validator
   * refuses.
   */
  function Revise(p: Prompt, body: Body, files: seq<UploadedFile>): (r: Option<Prompt>)
    ensures r.Some? <==>
      && (body.name.Some? ==> ValidName(JsString.Trim(body.name.value)))
      && (body.description.Some? ==> ValidDescription(body.description.value))
      && (|files| > 0 ==> ValidImages(p.images + ToImages(files)))
      && (|files| == 0 && body.images.Some? ==> ValidImages(body.images.value))
      && (body.status.Some? ==> ParseStatus(body.status.value).Some?)
      && (body.rating.Some? ==> ValidRating(body.rating.value))
      && (body.price.Some? ==> ValidPriceFields(body.price.value))
    ensures r.Some? ==>
      && r.value.name == (if body.name.Some? then JsString.Trim(body.name.value) else p.name)
      && r.value.description == body.description.GetOr(p.description)
      && (|files| > 0 ==> r.value.images == p.images + ToImages(files))
      && (|files| == 0 ==> r.value.images == body.images.GetOr(p.images))
      && r.value.status == (if body.status.Some? then ParseStatus(body.status.value).value else p.status)
      && r.value.rating == body.rating.GetOr(p.rating)
      && r.value.price == body.price.GetOr(p.price)
      && r.value.createdBy == body.createdBy.GetOr(p.createdBy)
  {
    Update(p, if |files| > 0 then body.(images := Some(p.images + ToImages(files))) else body)
  }

  /**
   * updatePrompt: a missing prompt is 404 before any authorisation; a
   * requester who is neither owner nor admin gets 403; a refused update
   * stores nothing. Nothing but the one prompt changes.
   */
  function UpdatePrompt(s: PromptStore, who: Requester, id: Users.Id, body: Body, files: seq<UploadedFile>)
    : (r: PromptStep)
    ensures IdsIssued(s) ==> IdsIssued(r.after)
    ensures r.response.Fail? ==> r.after == s
    ensures id !in s.byId ==> r.response == Fail(ErrNotFound)
    ensures id in s.byId && !MayModify(s.byId[id], who) ==> r.response == Fail(ErrMayNotUpdate)
    ensures id in s.byId && MayModify(s.byId[id], who) ==>
      && (r.response.Reply? <==> Revise(s.byId[id], body, files).Some?)
      && (r.response.Fail? ==> r.response.error == Thrown(ValidationFailed))
    ensures r.response.Reply? ==>
      && id in s.byId && MayModify(s.byId[id], who)
      && r.after.nextId == s.nextId
      && r.after.byId.Keys == s.byId.Keys
      && (forall k :: k in s.byId && k != id ==> r.after.byId[k] == s.byId[k])
      && Revise(s.byId[id], body, files) == Some(r.after.byId[id])
      && r.response == Reply(200, Single(id, r.after.byId[id]))
  {
    if id !in s.byId then PromptStep(s, Fail(ErrNotFound))
    else
      var p := s.byId[id];
      if !MayModify(p, who) then PromptStep(s, Fail(ErrMayNotUpdate))
      else
        match Revise(p, body, files)
        case None => PromptStep(s, Fail(Thrown(ValidationFailed)))
        case Some(p') => PromptStep(Replace(s, id, p'), Reply(200, Single(id, p')))
  }

  /** Appending uploads keeps the old images first, in order, and the new ones after them, in upload order. */
  lemma UpdateAppendsImages(s: PromptStore, who: Requester, id: Users.Id, body: Body, files: seq<UploadedFile>)
    requires |files| > 0
    requires UpdatePrompt(s, who, id, body, files).response.Reply?
    ensures var (before, after) := (s.byId[id].images, UpdatePrompt(s, who, id, body, files).after.byId[id].images);
      && |after| == |before| + |files|
      && after[..|before|] == before
      && forall i :: 0 <= i < |files| ==> after[|before| + i] == Image(files[i].filename, files[i].path)
  {
  }

  /** An owner may hand a prompt to someone else through the body, and then loses the right to edit it. */
  lemma UpdateCanTransferOwnership(s: PromptStore, owner: Requester, id: Users.Id, other: Users.Id)
    requires id in s.byId && s.byId[id].createdBy == owner.id && owner.role == Users.Member
    requires other != owner.id
    ensures var t := UpdatePrompt(s, owner, id, EmptyBody.(createdBy := Some(other)), []);
      && t.response.Reply?
      && t.after.byId[id].createdBy == other
      && UpdatePrompt(t.after, owner, id, EmptyBody, []).response == Fail(ErrMayNotUpdate)
  {
    UpdateEmptyBodyIsIdentity(s.byId[id].(createdBy := other));
  }

  datatype DeleteStep = DeleteStep(after: PromptStore, response: Response<PromptReply>, destroyed: seq<string>)

  /** The object-store keys of `images`, in order. */
  function Keys(images: seq<Image>): (keys: seq<string>)
    ensures |keys| == |images| && forall i :: 0 <= i < |images| ==> keys[i] == images[i].publicId
  {
    if images == [] then [] else [images[0].publicId] + Keys(images[1..])
  }

  /**
   * deletePrompt as evidently intended: 404 for a missing prompt, 403 for a
   * requester who is neither owner nor admin; otherwise every image's key is
   * destroyed in the object store, in order, and the prompt is removed.
   */
  function DeletePrompt(s: PromptStore, who: Requester, id: Users.Id): (r: DeleteStep)
    ensures IdsIssued(s) ==> IdsIssued(r.after)
    ensures r.response.Fail? ==> r.after == s && r.destroyed == []
    ensures id !in s.byId ==> r.response == Fail(ErrNotFound)
    ensures id in s.byId && !MayModify(s.byId[id], who) ==> r.response == Fail(ErrMayNotDelete)
    ensures r.response.Reply? <==> id in s.byId && MayModify(s.byId[id], who)
    ensures r.response.Reply? ==>
      && r.response == Reply(200, Removed)
      && r.after.byId.Keys == s.byId.Keys - {id}
      && (forall k :: k in r.after.byId ==> r.after.byId[k] == s.byId[k])
      && r.destroyed == Keys(s.byId[id].images)
  {
    if id !in s.byId then DeleteStep(s, Fail(ErrNotFound), [])
    else
      var p := s.byId[id];
      if !MayModify(p, who) then DeleteStep(s, Fail(ErrMayNotDelete), [])
      else DeleteStep(s.(byId := s.byId - {id}), Reply(200, Removed), Keys(p.images))
  }

  /**
   * deletePrompt as written: `cloudinary` is never required in
   * controllers/promptController.js, so the first turn of the image loop
   * throws a ReferenceError and a prompt with images is never deleted.
   */
  function DeletePromptAsWritten(s: PromptStore, who: Requester, id: Users.Id): (r: DeleteStep)
    ensures r.response.Fail? ==> r.after == s
    ensures id in s.byId && MayModify(s.byId[id], who) && s.byId[id].images != [] ==>
      r.response == Fail(Thrown(ReferenceError))
    ensures r.destroyed == []
  {
    if id !in s.byId then DeleteStep(s, Fail(ErrNotFound), [])
    else
      var p := s.byId[id];
      if !MayModify(p, who) then DeleteStep(s, Fail(ErrMayNotDelete), [])
      else if p.images != [] then DeleteStep(s, Fail(Thrown(ReferenceError)), [])
      else DeleteStep(s.(byId := s.byId - {id}), Reply(200, Removed), [])
  }

  /** The two deletes agree exactly when the prompt is missing, forbidden, or has no images. */
  lemma DeleteAsWrittenAgreesOnlyWithoutImages(s: PromptStore, who: Requester, id: Users.Id)
    ensures DeletePromptAsWritten(s, who, id) == DeletePrompt(s, who, id)
        <==> id !in s.byId || !MayModify(s.byId[id], who) || s.byId[id].images == []
  {
  }

  /** A concrete case: the owner deletes a prompt with one image; as written the prompt survives. */
  lemma DeleteWithImageFailsAsWritten()
    ensures var p := Prompt("Haiku", "Writes haiku", [Image("prompt_1", "https://img/prompt_1.png")], Active,
                            DefaultRating, Price(5.0, None), 7);
      var s := PromptStore(map[0 := p], 1);
      var who := Requester(7, Users.Member);
      && DeletePromptAsWritten(s, who, 0).response == Fail(Thrown(ReferenceError))
      && 0 in DeletePromptAsWritten(s, who, 0).after.byId
      && DeletePrompt(s, who, 0).response == Reply(200, Removed)
      && 0 !in DeletePrompt(s, who, 0).after.byId
      && DeletePrompt(s, who, 0).destroyed == ["prompt_1"]
  {
  }

  /**
   * ratePrompt. A rating outside [1, 5] is refused with 400 before the
   * prompt is looked up. Otherwise one more user is counted and the average
   * becomes the rounded running mean (`RatingAggregate.Submit`). `save()`
   * validates the whole loaded document, so it fails when the new count is 0
   * (a stored count of -1: division by zero) or when the document with its
   * new rating breaks any path validator or the offer rule. From a valid
   * prompt with a count of at least 0, a rating in [1, 5] is always stored.
   */
  function RatePrompt(s: PromptStore, id: Users.Id, rating: real): (r: PromptStep)
    ensures IdsIssued(s) ==> IdsIssued(r.after)
    ensures r.response.Fail? ==> r.after == s
    ensures rating < 1.0 || rating > 5.0 ==> r.response == Fail(ErrRatingRange)
    ensures 1.0 <= rating <= 5.0 && id !in s.byId ==> r.response == Fail(ErrNotFound)
    ensures 1.0 <= rating <= 5.0 && id in s.byId && s.byId[id].rating.totalUsers + 1 == 0 ==>
      r.response == Fail(Thrown(ValidationFailed))
    ensures 1.0 <= rating <= 5.0 && id in s.byId && s.byId[id].rating.totalUsers + 1 != 0 ==>
      var next := RatingAggregate.Submit(s.byId[id].rating, rating);
      && (r.response.Reply? <==> Valid(s.byId[id].(rating := next)))
      && (r.response.Fail? ==> r.response == Fail(Thrown(ValidationFailed)))
      && (r.response.Reply? ==>
            && r.response == Reply(200, RatingOf(next))
            && r.after.byId == s.byId[id := s.byId[id].(rating := next)])
    ensures (1.0 <= rating <= 5.0 && id in s.byId
             && s.byId[id].rating.totalUsers >= 0 && Valid(s.byId[id])) ==> r.response.Reply?
  {
    if rating < 1.0 || rating > 5.0 then PromptStep(s, Fail(ErrRatingRange))
    else if id !in s.byId then PromptStep(s, Fail(ErrNotFound))
    else
      var p := s.byId[id];
      if p.rating.totalUsers + 1 == 0 then PromptStep(s, Fail(Thrown(ValidationFailed)))
      else
        var p' := p.(rating := RatingAggregate.Submit(p.rating, rating));
        if !Valid(p') then PromptStep(s, Fail(Thrown(ValidationFailed)))
        else PromptStep(Replace(s, id, p'), Reply(200, RatingOf(p'.rating)))
  }

  /**
   * `save()` re-runs the offer validator on the loaded document: a prompt
   * whose offer exceeds its regular price cannot be rated, whatever the
   * rating, and stays as it was.
   */
  lemma RatePromptSaves(s: PromptStore, id: Users.Id, rating: real)
    requires 1.0 <= rating <= 5.0 && id in s.byId
    requires s.byId[id].price.offer.Some? && s.byId[id].price.offer.value > s.byId[id].price.regular
    ensures RatePrompt(s, id, rating).response == Fail(Thrown(ValidationFailed))
    ensures RatePrompt(s, id, rating).after == s
  {
    var p := s.byId[id];
    if p.rating.totalUsers + 1 != 0 {
      var p' := p.(rating := RatingAggregate.Submit(p.rating, rating));
      assert !OfferWithinRegular(p'.price);
    }
  }

  /** Rating a prompt with the same one-decimal value `r` again and again keeps its average at `r`. */
  lemma {:induction false} RepeatedRatingKeepsAverage(s: PromptStore, id: Users.Id, r: real, n: nat)
    requires id in s.byId && s.byId[id].rating.totalUsers >= 0 && s.byId[id].rating.avgRating == r
    requires Valid(s.byId[id])
    requires 1.0 <= r <= 5.0 && RatingAggregate.OneDecimal(r)
    ensures var t := RateTimes(s, id, r, n);
      id in t.byId && t.byId[id].rating == Rating(s.byId[id].rating.totalUsers + n, r)
    decreases n
  {
    if n > 0 {
      RateSameOnce(s, id, r);
      var t := RatePrompt(s, id, r).after;
      RepeatedRatingKeepsAverage(t, id, r, n - 1);
      RateTimesUnfold(s, id, r, n);
      var u := RateTimes(t, id, r, n - 1);
      assert u.byId[id].rating == Rating(s.byId[id].rating.totalUsers + n, r);
    }
  }

  /** One rating equal to a valid prompt's one-decimal average is stored and keeps that average. */
  lemma RateSameOnce(s: PromptStore, id: Users.Id, r: real)
    requires id in s.byId && s.byId[id].rating.totalUsers >= 0 && s.byId[id].rating.avgRating == r
    requires Valid(s.byId[id])
    requires 1.0 <= r <= 5.0 && RatingAggregate.OneDecimal(r)
    ensures var t := RatePrompt(s, id, r).after;
      && id in t.byId && Valid(t.byId[id])
      && t.byId[id].rating == Rating(s.byId[id].rating.totalUsers + 1, r)
  {
    var p, k := s.byId[id], s.byId[id].rating.totalUsers;
    assert p.rating == Rating(k, r);
    RatingAggregate.SubmitSameOnce(k, r);
    assert Valid(p.(rating := Rating(k + 1, r)));
  }

  lemma RateTimesUnfold(s: PromptStore, id: Users.Id, r: real, n: nat)
    requires n > 0
    ensures RateTimes(s, id, r, n) == RateTimes(RatePrompt(s, id, r).after, id, r, n - 1)
  {
  }

  /** `n` successive ratings of `r` on prompt `id`. */
  function RateTimes(s: PromptStore, id: Users.Id, r: real, n: nat): PromptStore
    decreases n
  {
    if n == 0 then s else RateTimes(RatePrompt(s, id, r).after, id, r, n - 1)
  }

  /**
   * The schema's path validators hold of every stored prompt after any
   * request, whichever handler serves it and whether it succeeds or fails:
   * creating checks the new document ...
   */
  lemma CreateKeepsFieldsValid(s: PromptStore, who: Requester, body: Body, files: seq<UploadedFile>)
    requires AllFieldsValid(s)
    ensures AllFieldsValid(CreatePrompt(s, who, body, files).after)
  {
  }

  /** ... updating revalidates the paths it writes ... */
  lemma UpdateKeepsFieldsValid(s: PromptStore, who: Requester, id: Users.Id, body: Body, files: seq<UploadedFile>)
    requires AllFieldsValid(s)
    ensures AllFieldsValid(UpdatePrompt(s, who, id, body, files).after)
  {
    var u := UpdatePrompt(s, who, id, body, files);
    if u.response.Reply? {
      var p := s.byId[id];
      assert FieldsValid(p);
      assert FieldsValid(u.after.byId[id]);
    }
  }

  /** ... deleting only removes ... */
  lemma DeleteKeepsFieldsValid(s: PromptStore, who: Requester, id: Users.Id)
    requires AllFieldsValid(s)
    ensures AllFieldsValid(DeletePrompt(s, who, id).after)
  {
  }

  /** ... and rating stores only an average that passes the bounds. */
  lemma RateKeepsFieldsValid(s: PromptStore, id: Users.Id, rating: real)
    requires AllFieldsValid(s)
    ensures AllFieldsValid(RatePrompt(s, id, rating).after)
  {
  }
}
