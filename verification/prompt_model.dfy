/**
 * models/Prompt.js: a listing ("prompt") document, its schema as validity
 * predicates, and the document Mongoose builds from a request body on create
 * and on update.
 */
module PromptModel {
  import opened Wrappers
  import opened Uploads
  import JsString
  import Users

  datatype Status = Active | Inactive | Draft

  /** The enum `['active', 'inactive', 'draft']`: a status string casts only to one of these. */
  function ParseStatus(s: string): (r: Option<Status>)
    ensures r.Some? <==> s == "active" || s == "inactive" || s == "draft"
    ensures r.Some? ==> StatusName(r.value) == s
  {
    if s == "active" then Some(Active)
    else if s == "inactive" then Some(Inactive)
    else if s == "draft" then Some(Draft)
    else None
  }

  function StatusName(st: Status): string {
    match st
    case Active => "active"
    case Inactive => "inactive"
    case Draft => "draft"
  }

  /** Every status is stored under its own enum name. */
  lemma ParseStatusName(st: Status)
    ensures ParseStatus(StatusName(st)) == Some(st)
  {
  }

  datatype Rating = Rating(totalUsers: int, avgRating: real)

  datatype Price = Price(regular: real, offer: Option<real>)

  datatype Prompt = Prompt(
    name: string,
    description: string,
    images: seq<Image>,
    status: Status,
    rating: Rating,
    price: Price,
    createdBy: Users.Id)

  const MaxNameLength: nat := 100
  const MaxDescriptionLength: nat := 1000
  const MaxAvgRating: real := 5.0
  const DefaultStatus: Status := Active
  const DefaultRating: Rating := Rating(0, 0.0)

  /**
   * `name`: required, stored trimmed, at most 100 UTF-16 units. Requiring the
   * stored name to be trimmed is stricter than the schema, which trims on
   * assignment only. No handler can tell the two apart: create and update
   * store only names that went through `trim`, and no other handler writes
   * a name.
   */
  predicate ValidName(n: string) {
    n != [] && JsString.Trimmed(n) && JsString.Utf16Length(n) <= MaxNameLength
  }

  /** `description`: required (non-empty), at most 1000 UTF-16 units; not trimmed. */
  predicate ValidDescription(d: string) {
    d != [] && JsString.Utf16Length(d) <= MaxDescriptionLength
  }

  /** Each image needs both `public_id` and `url`. */
  predicate ValidImages(images: seq<Image>) {
    forall i :: 0 <= i < |images| ==> images[i].publicId != "" && images[i].url != ""
  }

  /** `rating.avgRating` lies in [0, 5]; `rating.totalUsers` has no bound. */
  predicate ValidRating(r: Rating) {
    0.0 <= r.avgRating <= MaxAvgRating
  }

  /** `price.regular` and `price.offer` (when present) are not negative. */
  predicate ValidPriceFields(p: Price) {
    p.regular >= 0.0 && (p.offer.Some? ==> p.offer.value >= 0.0)
  }

  /** The custom offer validator: `v <= this.price.regular`. */
  predicate OfferWithinRegular(p: Price) {
    p.offer.Some? ==> p.offer.value <= p.regular
  }

  /** Every path validator, each looking at its own field only. */
  predicate FieldsValid(p: Prompt)
  {
    && ValidName(p.name)
    && ValidDescription(p.description)
    && ValidImages(p.images)
    && ValidRating(p.rating)
    && ValidPriceFields(p.price)
  }

  /** A document that passes validation on create or save. */
  predicate Valid(p: Prompt)
  {
    FieldsValid(p) && OfferWithinRegular(p.price)
  }

  /**
   * What a stored document is guaranteed to look like: a required, trimmed
   * name and description, ratings and prices in range, every image with its
   * key, and an offer price that does not exceed the regular one.
   */
  lemma ValidMeans(p: Prompt)
    ensures FieldsValid(p) ==> p.name != [] && p.description != [] && JsString.Trimmed(p.name)
    ensures FieldsValid(p) ==> 0.0 <= p.rating.avgRating <= 5.0 && 0.0 <= p.price.regular
    ensures FieldsValid(p) ==> forall i :: 0 <= i < |p.images| ==> p.images[i].publicId != ""
    ensures Valid(p) ==> FieldsValid(p)
    ensures Valid(p) && p.price.offer.Some? ==> 0.0 <= p.price.offer.value <= p.price.regular
  {}

  /**
   * A request body for create or update; `None` is a key the body does not
   * carry. `status` arrives as a string and is cast against the enum.
   */
  datatype Body = Body(
    name: Option<string>,
    description: Option<string>,
    images: Option<seq<Image>>,
    status: Option<string>,
    rating: Option<Rating>,
    price: Option<Price>,
    createdBy: Option<Users.Id>)

  /** The body's fields with nothing supplied. */
  const EmptyBody := Body(None, None, None, None, None, None, None)

  /**
   * The body passes what `Prompt.create` checks: every required path is
   * present, the status (if any) is in the enum, and every validator accepts
   * the value it will store (the name after trimming, defaults for missing
   * images and rating).
   */
  predicate CreateAccepts(body: Body) {
    && body.name.Some? && body.description.Some? && body.price.Some? && body.createdBy.Some?
    && (body.status.Some? ==> ParseStatus(body.status.value).Some?)
    && ValidName(JsString.Trim(body.name.value))
    && ValidDescription(body.description.value)
    && ValidImages(body.images.GetOr([]))
    && ValidRating(body.rating.GetOr(DefaultRating))
    && ValidPriceFields(body.price.value) && OfferWithinRegular(body.price.value)
  }

  /**
   * `Prompt.create(body)`: apply the `trim` setter and the defaults, then
   * validate the whole document. `None` is a validation failure: a required
   * path missing, a status outside the enum, or a validator refusing.
   */
  function Create(body: Body): (r: Option<Prompt>)
    ensures r.Some? <==> CreateAccepts(body)
  {
    if body.name.None? || body.description.None? || body.price.None? || body.createdBy.None? then None
    else
      var status := if body.status.Some? then ParseStatus(body.status.value) else Some(DefaultStatus);
      if status.None? then None
      else
        var p := Prompt(JsString.Trim(body.name.value), body.description.value, body.images.GetOr([]),
                        status.value, body.rating.GetOr(DefaultRating), body.price.value, body.createdBy.value);
        if Valid(p) then Some(p) else None
  }

  /**
   * What `Create` builds: the body's values, the name trimmed, and the
   * defaults for a missing status, image list or rating.
   */
  lemma CreateKeepsBodyFields(body: Body)
    requires Create(body).Some?
    ensures var p := Create(body).value;
      && p.name == JsString.Trim(body.name.value)
      && p.description == body.description.value
      && p.images == body.images.GetOr([])
      && p.status == (if body.status.Some? then ParseStatus(body.status.value).value else DefaultStatus)
      && p.rating == body.rating.GetOr(DefaultRating)
      && p.price == body.price.value
      && p.createdBy == body.createdBy.value
  {
  }

  /** Whatever `Create` builds passes validation, so it can be saved unchanged. */
  lemma CreatedIsValid(body: Body)
    requires Create(body).Some?
    ensures Valid(Create(body).value)
  {
  }

  /** A body silent on status and rating yields an active prompt rated {0 users, 0.0}. */
  lemma CreateDefaults(body: Body)
    requires body.status.None? && body.rating.None?
    requires Create(body).Some?
    ensures Create(body).value.status == Active
    ensures Create(body).value.rating == Rating(0, 0.0)
  {
  }

  /** Create never stores an offer above the regular price. */
  lemma CreateRefusesOfferAboveRegular(body: Body)
    requires body.price.Some? && body.price.value.offer.Some?
    requires body.price.value.offer.value > body.price.value.regular
    ensures Create(body).None?
  {
  }

  /**
   * `findByIdAndUpdate(id, body, {runValidators: true})`: every key the body
   * carries overwrites the stored field (`rating`, `price` and `createdBy`
   * included, each wholesale), after the `trim` setter and the enum cast.
   * Update validators check only the paths the body carries; the offer
   * validator's reading of `this.price.regular` is not modelled on this path.
   */
  function Update(p: Prompt, body: Body): (r: Option<Prompt>)
    ensures r.Some? <==>
      && (body.name.Some? ==> ValidName(JsString.Trim(body.name.value)))
      && (body.description.Some? ==> ValidDescription(body.description.value))
      && (body.images.Some? ==> ValidImages(body.images.value))
      && (body.status.Some? ==> ParseStatus(body.status.value).Some?)
      && (body.rating.Some? ==> ValidRating(body.rating.value))
      && (body.price.Some? ==> ValidPriceFields(body.price.value))
    ensures r.Some? ==>
      && r.value.name == (if body.name.Some? then JsString.Trim(body.name.value) else p.name)
      && r.value.description == body.description.GetOr(p.description)
      && r.value.images == body.images.GetOr(p.images)
      && r.value.status == (if body.status.Some? then ParseStatus(body.status.value).value else p.status)
      && r.value.rating == body.rating.GetOr(p.rating)
      && r.value.price == body.price.GetOr(p.price)
      && r.value.createdBy == body.createdBy.GetOr(p.createdBy)
    ensures r.Some? && FieldsValid(p) ==> FieldsValid(r.value)
  {
    var name := if body.name.Some? then JsString.Trim(body.name.value) else p.name;
    var status := if body.status.Some? then ParseStatus(body.status.value) else Some(p.status);
    if || (body.name.Some? && !ValidName(name))
       || (body.description.Some? && !ValidDescription(body.description.value))
       || (body.images.Some? && !ValidImages(body.images.value))
       || status.None?
       || (body.rating.Some? && !ValidRating(body.rating.value))
       || (body.price.Some? && !ValidPriceFields(body.price.value))
    then None
    else
      Some(Prompt(name, body.description.GetOr(p.description), body.images.GetOr(p.images), status.value,
                  body.rating.GetOr(p.rating), body.price.GetOr(p.price), body.createdBy.GetOr(p.createdBy)))
  }

  /** An empty update body changes nothing. */
  lemma UpdateEmptyBodyIsIdentity(p: Prompt)
    ensures Update(p, EmptyBody) == Some(p)
  {
  }

  /** Updating with the same body twice gives what updating once gives. */
  lemma {:induction false} UpdateIdempotent(p: Prompt, body: Body)
    requires Update(p, body).Some?
    ensures Update(Update(p, body).value, body) == Update(p, body)
  {
    if body.name.Some? {
      JsString.TrimIdempotent(body.name.value);
    }
  }

  /** The prompts a store holds, keyed by id; ids are issued in creation order. */
  datatype PromptStore = PromptStore(byId: map<Users.Id, Prompt>, nextId: Users.Id)

  ghost predicate IdsIssued(s: PromptStore) {
    forall id :: id in s.byId ==> id < s.nextId
  }
}
