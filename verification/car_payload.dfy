/**
  The car payloads: the JSON body as it arrives, the validation rules of the
  create and update payload classes, and the typed payloads the car service
  receives once validation has passed.

  Prices are held in hundredths and coordinates in units of 1e-8 degree, the
  precision of their DECIMAL columns, so "at most 2 (8) decimal places" is
  built into the representation.
 */
module CarPayload {
  import opened Wrappers
  import opened JsNumber

  const YEAR_MIN := 1900
  const YEAR_MAX := 2100
  const MAKE_MAX_LENGTH := 255
  const COLOR_MAX_LENGTH := 100

  /** A JSON car body; a missing (or null) field is `None`. */
  datatype CarBody = CarBody(
    make: Option<string>,
    model: Option<string>,
    year: Option<JsNum>,
    color: Option<string>,
    price: Option<int>,
    mileage: Option<JsNum>,
    description: Option<string>,
    categoryId: Option<JsNum>,
    latitude: Option<int>,
    longitude: Option<int>,
    imageUrls: Option<seq<string>>,
    tagIds: Option<seq<JsNum>>)

  /** A create payload that passed validation. */
  datatype CarCreate = CarCreate(
    make: string,
    model: string,
    year: int,
    color: string,
    price: int,
    mileage: int,
    description: Option<string>,
    categoryId: int,
    latitude: int,
    longitude: int,
    imageUrls: seq<string>,
    tagIds: Option<seq<int>>)

  /** An update payload that passed validation: every field may be absent. */
  datatype CarPatch = CarPatch(
    make: Option<string>,
    model: Option<string>,
    year: Option<int>,
    color: Option<string>,
    price: Option<int>,
    mileage: Option<int>,
    description: Option<string>,
    categoryId: Option<int>,
    latitude: Option<int>,
    longitude: Option<int>,
    imageUrls: Option<seq<string>>,
    tagIds: Option<seq<int>>)

  /** `@IsString() @IsNotEmpty() @MaxLength(max)`. */
  predicate RequiredText(v: Option<string>, max: nat) {
    v.Some? && v.value != "" && |v.value| <= max
  }

  /** `@IsOptional() @IsString() @MaxLength(max)`. */
  predicate OptionalText(v: Option<string>, max: nat) {
    v.Some? ==> |v.value| <= max
  }

  /** `@IsInt() @Min(lo) @Max(hi)`. */
  predicate IntBetween(n: JsNum, lo: int, hi: int) {
    n.Int? && lo <= n.value <= hi
  }

  /** `@IsInt() @Min(lo)`. */
  predicate IntAtLeast(n: JsNum, lo: int) {
    n.Int? && lo <= n.value
  }

  /** `@IsInt({ each: true })`. */
  function IntListOf(ns: Option<seq<JsNum>>): (r: Option<seq<int>>)
    requires ns.Some? ==> AllInts(ns.value)
    ensures r.Some? <==> ns.Some?
  {
    match ns
    case Some(v) => Some(Ints(v))
    case None => None
  }

  /** The field rules of the create payload. */
  predicate ValidCreateBody(b: CarBody) {
    && RequiredText(b.make, MAKE_MAX_LENGTH)
    && RequiredText(b.model, MAKE_MAX_LENGTH)
    && b.year.Some? && IntBetween(b.year.value, YEAR_MIN, YEAR_MAX)
    && RequiredText(b.color, COLOR_MAX_LENGTH)
    && b.price.Some? && b.price.value >= 0
    && b.mileage.Some? && IntAtLeast(b.mileage.value, 0)
    && b.categoryId.Some? && IntAtLeast(b.categoryId.value, 1)
    && b.latitude.Some?
    && b.longitude.Some?
    && b.imageUrls.Some? && |b.imageUrls.value| >= 1
    && (b.tagIds.Some? ==> AllInts(b.tagIds.value))
  }

  /** Validation of a create body: the typed payload, or `None` when any rule fails. */
  function ValidateCreate(b: CarBody): (r: Option<CarCreate>)
    ensures r.Some? <==> ValidCreateBody(b)
    ensures r.Some? ==> 1 <= |r.value.make| <= MAKE_MAX_LENGTH && 1 <= |r.value.model| <= MAKE_MAX_LENGTH
    ensures r.Some? ==> 1 <= |r.value.color| <= COLOR_MAX_LENGTH
    ensures r.Some? ==> YEAR_MIN <= r.value.year <= YEAR_MAX
    ensures r.Some? ==> r.value.price >= 0 && r.value.mileage >= 0 && r.value.categoryId >= 1
    ensures r.Some? ==> |r.value.imageUrls| >= 1
  {
    if !ValidCreateBody(b) then None
    else Some(CarCreate(
      b.make.value, b.model.value, b.year.value.value, b.color.value, b.price.value,
      b.mileage.value.value, b.description, b.categoryId.value.value,
      b.latitude.value, b.longitude.value, b.imageUrls.value,
      IntListOf(b.tagIds)))
  }

  /** The JSON body that carries a typed create payload. */
  function CreateBody(c: CarCreate): CarBody {
    CarBody(
      Some(c.make), Some(c.model), Some(Int(c.year)), Some(c.color), Some(c.price),
      Some(Int(c.mileage)), c.description, Some(Int(c.categoryId)),
      Some(c.latitude), Some(c.longitude), Some(c.imageUrls),
      MapOption(c.tagIds, Nums))
  }

  /** The rules of the create payload, stated on the typed payload. */
  predicate CreateInBounds(c: CarCreate) {
    && c.make != "" && |c.make| <= MAKE_MAX_LENGTH
    && c.model != "" && |c.model| <= MAKE_MAX_LENGTH
    && YEAR_MIN <= c.year <= YEAR_MAX
    && c.color != "" && |c.color| <= COLOR_MAX_LENGTH
    && c.price >= 0 && c.mileage >= 0 && c.categoryId >= 1
    && |c.imageUrls| >= 1
  }

  /**
    Validation inverts `CreateBody`: a body is accepted exactly when it is the
    body of an in-bounds payload, and then it yields that payload.
   */
  lemma CreateRoundTrip(c: CarCreate, b: CarBody)
    ensures ValidateCreate(CreateBody(c)) == (if CreateInBounds(c) then Some(c) else None)
    ensures ValidateCreate(b).Some? ==> CreateInBounds(ValidateCreate(b).value) && CreateBody(ValidateCreate(b).value) == b
  {
    if c.tagIds.Some? {
      assert Ints(Nums(c.tagIds.value)) == c.tagIds.value;
    }
    if ValidateCreate(b).Some? && b.tagIds.Some? {
      assert Nums(Ints(b.tagIds.value)) == b.tagIds.value;
    }
  }

  /** The field rules of the update payload: each rule applies only to a present field. */
  predicate ValidPatchBody(b: CarBody) {
    && OptionalText(b.make, MAKE_MAX_LENGTH)
    && OptionalText(b.model, MAKE_MAX_LENGTH)
    && (b.year.Some? ==> IntBetween(b.year.value, YEAR_MIN, YEAR_MAX))
    && OptionalText(b.color, COLOR_MAX_LENGTH)
    && (b.price.Some? ==> b.price.value >= 0)
    && (b.mileage.Some? ==> IntAtLeast(b.mileage.value, 0))
    && (b.categoryId.Some? ==> IntAtLeast(b.categoryId.value, 1))
    && (b.tagIds.Some? ==> AllInts(b.tagIds.value))
  }

  function IntOf(n: Option<JsNum>): (r: Option<int>)
    requires n.Some? ==> n.value.Int?
    ensures r.Some? <==> n.Some?
    ensures r.Some? ==> n.value == Int(r.value)
  {
    match n
    case Some(v) => Some(v.value)
    case None => None
  }

  /** Validation of an update body: the typed partial payload, or `None` when a present field breaks its rule. */
  function ValidatePatch(b: CarBody): (r: Option<CarPatch>)
    ensures r.Some? <==> ValidPatchBody(b)
    ensures r.Some? ==> r.value.year.Some? ==> YEAR_MIN <= r.value.year.value <= YEAR_MAX
    ensures r.Some? ==> r.value.mileage.Some? ==> r.value.mileage.value >= 0
    ensures r.Some? ==> r.value.categoryId.Some? ==> r.value.categoryId.value >= 1
    ensures r.Some? ==> r.value.imageUrls == b.imageUrls
  {
    if !ValidPatchBody(b) then None
    else Some(CarPatch(
      b.make, b.model, IntOf(b.year), b.color, b.price, IntOf(b.mileage), b.description,
      IntOf(b.categoryId), b.latitude, b.longitude, b.imageUrls,
      IntListOf(b.tagIds)))
  }

  /** The JSON body that carries a typed update payload (absent fields stay absent). */
  function PatchBody(p: CarPatch): CarBody {
    CarBody(
      p.make, p.model, MapOption(p.year, x => Int(x)), p.color, p.price,
      MapOption(p.mileage, x => Int(x)), p.description, MapOption(p.categoryId, x => Int(x)),
      p.latitude, p.longitude, p.imageUrls, MapOption(p.tagIds, Nums))
  }

  predicate PatchInBounds(p: CarPatch) {
    && (p.make.Some? ==> |p.make.value| <= MAKE_MAX_LENGTH)
    && (p.model.Some? ==> |p.model.value| <= MAKE_MAX_LENGTH)
    && (p.year.Some? ==> YEAR_MIN <= p.year.value <= YEAR_MAX)
    && (p.color.Some? ==> |p.color.value| <= COLOR_MAX_LENGTH)
    && (p.price.Some? ==> p.price.value >= 0)
    && (p.mileage.Some? ==> p.mileage.value >= 0)
    && (p.categoryId.Some? ==> p.categoryId.value >= 1)
  }

  /** Validation inverts `PatchBody`: the body of a partial payload is accepted exactly when the payload is in bounds. */
  lemma PatchRoundTrip(p: CarPatch)
    ensures ValidatePatch(PatchBody(p)) == (if PatchInBounds(p) then Some(p) else None)
  {
    if p.tagIds.Some? {
      assert Ints(Nums(p.tagIds.value)) == p.tagIds.value;
    }
  }

  /** Every accepted update body is the body of the in-bounds payload it yields. */
  lemma PatchBodyRoundTrip(b: CarBody)
    requires ValidatePatch(b).Some?
    ensures PatchInBounds(ValidatePatch(b).value) && PatchBody(ValidatePatch(b).value) == b
  {
    if b.tagIds.Some? {
      assert Nums(Ints(b.tagIds.value)) == b.tagIds.value;
    }
  }

  /** The update payload with every field of a create payload present. */
  function AsPatch(c: CarCreate): CarPatch {
    CarPatch(
      Some(c.make), Some(c.model), Some(c.year), Some(c.color), Some(c.price), Some(c.mileage),
      c.description, Some(c.categoryId), Some(c.latitude), Some(c.longitude),
      Some(c.imageUrls), c.tagIds)
  }

  /** Every body the create rules accept, the update rules accept too, with the same values. */
  lemma CreateRulesImplyPatchRules(b: CarBody)
    requires ValidateCreate(b).Some?
    ensures ValidatePatch(b) == Some(AsPatch(ValidateCreate(b).value))
  {
  }

  /** The empty body is a valid update (every field is optional) but not a valid create. */
  lemma EmptyBody()
    ensures var empty := CarBody(None, None, None, None, None, None, None, None, None, None, None, None);
            ValidatePatch(empty) == Some(CarPatch(None, None, None, None, None, None, None, None, None, None, None, None))
            && ValidateCreate(empty).None?
  {
  }

  /** An empty image list is refused on create (`@ArrayMinSize(1)`) and accepted on update. */
  lemma EmptyImageList(b: CarBody)
    requires b.imageUrls == Some([])
    ensures ValidateCreate(b).None?
    ensures ValidatePatch(b).Some? <==> ValidPatchBody(b)
    ensures ValidatePatch(b).Some? ==> ValidatePatch(b).value.imageUrls == Some([])
  {
  }

  /** On update, emptiness of `make`, `model` and `color` is not checked. */
  lemma PatchAcceptsEmptyText()
    ensures ValidatePatch(CarBody(Some(""), Some(""), None, Some(""), None, None, None, None, None, None, None, None)).Some?
  {
  }
}
