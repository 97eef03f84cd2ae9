/**
  The relational store the services run against, with the column, key and
  foreign-key constraints of the migrations. Each write below is one SQL
  statement: the database either applies it whole or refuses it (MySQL in
  strict mode), and a refusal leaves the store as it was.
 */
module Schema {
  import opened Wrappers
  import opened Errors
  import opened Tables
  import Text

  const INT_MIN: int := -0x8000_0000
  const INT_MAX: int := 0x7FFF_FFFF
  /** `categories.name`, `tags.name`: STRING(255). */
  const NAME_MAX := 255
  /** `cars.make`, `cars.model`: STRING(255). */
  const MAKE_MAX := 255
  /** `cars.color`: STRING(100). */
  const COLOR_MAX := 100
  /** `car_images.url`: STRING(500). */
  const URL_MAX := 500
  /** `users.email`, `users.full_name`, `users.password_hash`: STRING(255). */
  const USER_TEXT_MAX := 255
  /** `cars.description`: TEXT, at most 65,535 bytes. */
  const DESCRIPTION_MAX_BYTES := 65_535
  /** `pickup_requests.status`: STRING(50). */
  const STATUS_MAX := 50
  /** `price` DECIMAL(10, 2), held in hundredths: at most ten digits. */
  const PRICE_BOUND := 10_000_000_000
  /** `latitude` DECIMAL(10, 8), held in units of 1e-8 degree. */
  const LATITUDE_BOUND := 10_000_000_000
  /** `longitude` DECIMAL(11, 8), held in units of 1e-8 degree. */
  const LONGITUDE_BOUND := 100_000_000_000

  /** A row of `categories` or of `tags` (timestamps are not modelled). */
  datatype NamedRow = NamedRow(name: string)

  /** A row of `cars`; `price` in hundredths, coordinates in 1e-8 degree. */
  datatype CarRow = CarRow(
    make: string,
    model: string,
    year: int,
    color: string,
    price: int,
    mileage: int,
    description: Option<string>,
    categoryId: int,
    latitude: int,
    longitude: int)

  /** A row of `car_images`. */
  datatype ImageRow = ImageRow(id: int, carId: int, url: string)

  datatype Role = Admin | User

  /** A row of `users`. */
  datatype UserRow = UserRow(email: string, fullName: string, passwordHash: string, role: Role, isActive: bool)

  /** A row of `pickup_requests`. */
  datatype PickupRow = PickupRow(userId: int, carId: int, latitude: int, longitude: int, status: string)

  /**
    The database. `car_images` is kept in primary-key order together with its
    auto-increment counter; `car_tags` has the composite primary key
    `(car_id, tag_id)` and so is a set of pairs.
   */
  datatype Store = Store(
    categories: Table<NamedRow>,
    tags: Table<NamedRow>,
    cars: Table<CarRow>,
    images: seq<ImageRow>,
    nextImage: nat,
    carTags: set<(int, int)>,
    users: Table<UserRow>,
    pickups: Table<PickupRow>)

  /** What a service call leaves behind: the store, and its value or the error it threw. */
  datatype Reply<T> = Reply(store: Store, result: Result<T, Error>)

  predicate IsInt32(v: int) {
    INT_MIN <= v <= INT_MAX
  }

  /** Every column of a car row fits its column type. */
  predicate CarFits(c: CarRow) {
    && |c.make| <= MAKE_MAX && |c.model| <= MAKE_MAX && |c.color| <= COLOR_MAX
    && IsInt32(c.year) && IsInt32(c.mileage)
    && -PRICE_BOUND < c.price < PRICE_BOUND
    && -LATITUDE_BOUND < c.latitude < LATITUDE_BOUND
    && -LONGITUDE_BOUND < c.longitude < LONGITUDE_BOUND
    && (c.description.Some? ==> Text.Utf8Length(c.description.value) <= DESCRIPTION_MAX_BYTES)
  }

  predicate UrlsFit(urls: seq<string>) {
    forall i :: 0 <= i < |urls| ==> |urls[i]| <= URL_MAX
  }

  predicate UserFits(u: UserRow) {
    |u.email| <= USER_TEXT_MAX && |u.fullName| <= USER_TEXT_MAX && |u.passwordHash| <= USER_TEXT_MAX
  }

  predicate PickupFits(p: PickupRow) {
    && -LATITUDE_BOUND < p.latitude < LATITUDE_BOUND
    && -LONGITUDE_BOUND < p.longitude < LONGITUDE_BOUND
    && |p.status| <= STATUS_MAX
  }

  /** The unique index on `name`. */
  predicate UniqueNames(t: Table<NamedRow>) {
    forall a, b :: a in t.rows && b in t.rows && t.rows[a].name == t.rows[b].name ==> a == b
  }

  /** The unique index on `users.email`. */
  predicate UniqueEmails(t: Table<UserRow>) {
    forall a, b :: a in t.rows && b in t.rows && t.rows[a].email == t.rows[b].email ==> a == b
  }

  predicate NamesWf(t: Table<NamedRow>) {
    && IdsIssued(t)
    && UniqueNames(t)
    && forall k :: k in t.rows ==> |t.rows[k].name| <= NAME_MAX
  }

  /** `cars`: columns fit, and `category_id` is NOT NULL and references an existing category. */
  predicate CarsWf(s: Store) {
    && IdsIssued(s.cars)
    && forall k :: k in s.cars.rows ==> CarFits(s.cars.rows[k]) && s.cars.rows[k].categoryId in s.categories.rows
  }

  predicate IdsAscending(images: seq<ImageRow>) {
    forall i, j :: 0 <= i < j < |images| ==> images[i].id < images[j].id
  }

  /** `car_images`: unique auto-increment ids, `car_id` references an existing car, `url` fits. */
  predicate ImagesWf(s: Store) {
    && s.nextImage >= 1
    && IdsAscending(s.images)
    && forall i :: 0 <= i < |s.images| ==>
         && 1 <= s.images[i].id < s.nextImage
         && s.images[i].carId in s.cars.rows
         && |s.images[i].url| <= URL_MAX
  }

  /** `car_tags`: both halves of every pair reference existing rows. */
  predicate CarTagsWf(s: Store) {
    forall p :: p in s.carTags ==> p.0 in s.cars.rows && p.1 in s.tags.rows
  }

  predicate UsersWf(s: Store) {
    && IdsIssued(s.users)
    && UniqueEmails(s.users)
    && forall k :: k in s.users.rows ==> UserFits(s.users.rows[k])
  }

  predicate PickupsWf(s: Store) {
    && IdsIssued(s.pickups)
    && forall k :: k in s.pickups.rows ==>
         && s.pickups.rows[k].userId in s.users.rows
         && s.pickups.rows[k].carId in s.cars.rows
         && PickupFits(s.pickups.rows[k])
  }

  /** Every constraint of the schema holds. */
  predicate Wf(s: Store) {
    && NamesWf(s.categories)
    && NamesWf(s.tags)
    && CarsWf(s)
    && ImagesWf(s)
    && CarTagsWf(s)
    && UsersWf(s)
    && PickupsWf(s)
  }

  // ---------------------------------------------------------------- reads

  /** The image rows of one car, in primary-key order. */
  function ImagesOf(images: seq<ImageRow>, carId: int): (r: seq<ImageRow>)
    ensures forall x :: x in r <==> x in images && x.carId == carId
    ensures IdsAscending(images) ==> IdsAscending(r)
  {
    if |images| == 0 then []
    else
      var init, last := images[..|images| - 1], images[|images| - 1];
      var prefix := ImagesOf(init, carId);
      assert images == init + [last];
      if last.carId == carId then
        AscendingExtended(images, prefix);
        prefix + [last]
      else prefix
  }

  /** The image rows of every other car, in primary-key order. */
  function ImagesNotOf(images: seq<ImageRow>, carId: int): (r: seq<ImageRow>)
    ensures forall x :: x in r <==> x in images && x.carId != carId
    ensures IdsAscending(images) ==> IdsAscending(r)
  {
    if |images| == 0 then []
    else
      var init, last := images[..|images| - 1], images[|images| - 1];
      var prefix := ImagesNotOf(init, carId);
      assert images == init + [last];
      if last.carId != carId then
        AscendingExtended(images, prefix);
        prefix + [last]
      else prefix
  }

  /** Rows picked from all but the last row, in key order, stay in key order when the last row follows them. */
  lemma AscendingExtended(images: seq<ImageRow>, prefix: seq<ImageRow>)
    requires |images| > 0
    requires forall x :: x in prefix ==> x in images[..|images| - 1]
    requires IdsAscending(images[..|images| - 1]) ==> IdsAscending(prefix)
    ensures IdsAscending(images) ==> IdsAscending(prefix + [images[|images| - 1]])
  {
    if IdsAscending(images) {
      var init, r := images[..|images| - 1], prefix + [images[|images| - 1]];
      assert IdsAscending(init);
      forall i, j | 0 <= i < j < |r| ensures r[i].id < r[j].id {
        if j == |r| - 1 {
          assert r[i] == prefix[i] && prefix[i] in prefix;
          var k :| 0 <= k < |init| && init[k] == r[i];
        }
      }
    }
  }

  lemma {:induction false} ImagesOfAppend(a: seq<ImageRow>, b: seq<ImageRow>, carId: int)
    ensures ImagesOf(a + b, carId) == ImagesOf(a, carId) + ImagesOf(b, carId)
    decreases |b|
  {
    if |b| == 0 {
      assert a + b == a;
    } else {
      assert (a + b)[..|a + b| - 1] == a + b[..|b| - 1];
      ImagesOfAppend(a, b[..|b| - 1], carId);
    }
  }

  lemma {:induction false} ImagesOfWithout(images: seq<ImageRow>, removed: int, carId: int)
    ensures ImagesOf(ImagesNotOf(images, removed), carId) == if carId == removed then [] else ImagesOf(images, carId)
    decreases |images|
  {
    if |images| > 0 {
      var last := images[|images| - 1];
      var prefix := images[..|images| - 1];
      ImagesOfWithout(prefix, removed, carId);
      if last.carId != removed {
        ImagesOfAppend(ImagesNotOf(prefix, removed), [last], carId);
      }
    }
  }

  lemma {:induction false} ImagesOfNone(images: seq<ImageRow>, carId: int)
    requires forall i :: 0 <= i < |images| ==> images[i].carId != carId
    ensures ImagesOf(images, carId) == []
    decreases |images|
  {
    if |images| > 0 {
      ImagesOfNone(images[..|images| - 1], carId);
    }
  }

  /** The rows one `bulkCreate` inserts: consecutive ids from `start`, one per url, in order. */
  function NewImages(start: int, carId: int, urls: seq<string>): (r: seq<ImageRow>)
    ensures |r| == |urls|
    ensures forall i :: 0 <= i < |r| ==> r[i] == ImageRow(start + i, carId, urls[i])
  {
    seq(|urls|, i requires 0 <= i < |urls| => ImageRow(start + i, carId, urls[i]))
  }

  lemma {:induction false} ImagesOfNew(start: int, owner: int, urls: seq<string>, carId: int)
    ensures ImagesOf(NewImages(start, owner, urls), carId) == if carId == owner then NewImages(start, owner, urls) else []
    decreases |urls|
  {
    if |urls| > 0 {
      var all := NewImages(start, owner, urls);
      var prefix := urls[..|urls| - 1];
      assert all[..|all| - 1] == NewImages(start, owner, prefix);
      ImagesOfNew(start, owner, prefix, carId);
    }
  }

  /** The urls of one car's images, in the order the car's `images` association loads them. */
  function UrlsOf(s: Store, carId: int): (r: seq<string>)
    ensures |r| == |ImagesOf(s.images, carId)|
  {
    var own := ImagesOf(s.images, carId);
    seq(|own|, i requires 0 <= i < |own| => own[i].url)
  }

  /** The ids of the tags linked to one car. */
  function TagIdsOf(s: Store, carId: int): set<int> {
    set p | p in s.carTags && p.0 == carId :: p.1
  }

  // ---------------------------------------------------------------- writes

  /** `INSERT INTO cars`. */
  function InsertCar(s: Store, row: CarRow): (r: Result<(Store, int), Error>)
    ensures !CarFits(row) ==> r == Err(StoreError(ColumnRejected))
    ensures CarFits(row) && row.categoryId !in s.categories.rows ==> r == Err(StoreError(ForeignKeyRejected))
    ensures r.Ok? <==> CarFits(row) && row.categoryId in s.categories.rows
    ensures r.Ok? ==> r.value.0 == s.(cars := Insert(s.cars, row).0) && r.value.1 == s.cars.next
    ensures Wf(s) && r.Ok? ==> Wf(r.value.0) && r.value.1 !in s.cars.rows
  {
    if !CarFits(row) then Err(StoreError(ColumnRejected))
    else if row.categoryId !in s.categories.rows then Err(StoreError(ForeignKeyRejected))
    else
      var (cars, id) := Insert(s.cars, row);
      Ok((s.(cars := cars), id))
  }

  /** `UPDATE cars SET ... WHERE id = carId` (`car.save()`). */
  function SaveCar(s: Store, carId: int, row: CarRow): (r: Result<Store, Error>)
    requires carId in s.cars.rows
    ensures r.Ok? <==> CarFits(row) && row.categoryId in s.categories.rows
    ensures r.Err? ==> r.error.StoreError?
    ensures r.Ok? ==> r.value == s.(cars := s.cars.(rows := s.cars.rows[carId := row]))
    ensures Wf(s) && r.Ok? ==> Wf(r.value)
  {
    if !CarFits(row) then Err(StoreError(ColumnRejected))
    else if row.categoryId !in s.categories.rows then Err(StoreError(ForeignKeyRejected))
    else Ok(s.(cars := s.cars.(rows := s.cars.rows[carId := row])))
  }

  /** One `bulkCreate` of image rows for a car: all rows are inserted, or none when a url is too long. */
  function InsertImages(s: Store, carId: int, urls: seq<string>): (r: Result<Store, Error>)
    requires carId in s.cars.rows
    ensures r.Ok? <==> UrlsFit(urls)
    ensures r.Err? ==> r.error == StoreError(ColumnRejected)
    ensures r.Ok? ==> r.value == s.(images := s.images + NewImages(s.nextImage, carId, urls), nextImage := s.nextImage + |urls|)
    ensures Wf(s) && r.Ok? ==> Wf(r.value)
  {
    if !UrlsFit(urls) then Err(StoreError(ColumnRejected))
    else
      var added := NewImages(s.nextImage, carId, urls);
      var s' := s.(images := s.images + added, nextImage := s.nextImage + |urls|);
      assert Wf(s) ==> ImagesWf(s') by {
        if Wf(s) {
          forall i | 0 <= i < |s'.images|
            ensures 1 <= s'.images[i].id < s'.nextImage
            ensures s'.images[i].carId in s'.cars.rows
            ensures |s'.images[i].url| <= URL_MAX
          {
            if i >= |s.images| {
              assert s'.images[i] == added[i - |s.images|];
            }
          }
        }
      }
      Ok(s')
  }

  /** `DELETE FROM car_images WHERE car_id = carId`. */
  function DeleteImagesOf(s: Store, carId: int): (r: Store)
    ensures r == s.(images := ImagesNotOf(s.images, carId))
    ensures Wf(s) ==> Wf(r)
  {
    var r := s.(images := ImagesNotOf(s.images, carId));
    assert Wf(s) ==> ImagesWf(r) by {
      if Wf(s) {
        forall i | 0 <= i < |r.images|
          ensures 1 <= r.images[i].id < r.nextImage
          ensures r.images[i].carId in r.cars.rows
          ensures |r.images[i].url| <= URL_MAX
        {
          assert r.images[i] in s.images;
        }
      }
    }
    r
  }

  /**
    `car.$set('tags', tagIds)`: the car's links become exactly the given tag
    ids; a missing tag makes the insert of the link rows fail.
   */
  function SetTags(s: Store, carId: int, tagIds: seq<int>): (r: Result<Store, Error>)
    requires carId in s.cars.rows
    ensures r.Ok? <==> forall i :: 0 <= i < |tagIds| ==> tagIds[i] in s.tags.rows
    ensures r.Err? ==> r.error == StoreError(ForeignKeyRejected)
    ensures r.Ok? ==> r.value == s.(carTags := (set p | p in s.carTags && p.0 != carId) + (set t | t in tagIds :: (carId, t)))
    ensures Wf(s) && r.Ok? ==> Wf(r.value)
  {
    if exists i :: 0 <= i < |tagIds| && tagIds[i] !in s.tags.rows then Err(StoreError(ForeignKeyRejected))
    else Ok(s.(carTags := (set p | p in s.carTags && p.0 != carId) + (set t | t in tagIds :: (carId, t))))
  }

  /**
    `DELETE FROM cars WHERE id = carId`. The foreign keys of `car_images`,
    `car_tags` and `pickup_requests` are ON DELETE CASCADE, so the car's rows
    there go with it.
   */
  function DeleteCar(s: Store, carId: int): (r: Store)
    requires carId in s.cars.rows
    ensures r.cars == s.cars.(rows := s.cars.rows - {carId})
    ensures r.images == ImagesNotOf(s.images, carId)
    ensures r.carTags == set p | p in s.carTags && p.0 != carId
    ensures r.pickups.rows == map k | k in s.pickups.rows && s.pickups.rows[k].carId != carId :: s.pickups.rows[k]
    ensures r.pickups.next == s.pickups.next
    ensures r.categories == s.categories && r.tags == s.tags && r.users == s.users && r.nextImage == s.nextImage
    ensures Wf(s) ==> Wf(r)
  {
    var r := Store(
      s.categories,
      s.tags,
      s.cars.(rows := s.cars.rows - {carId}),
      ImagesNotOf(s.images, carId),
      s.nextImage,
      (set p | p in s.carTags && p.0 != carId),
      s.users,
      s.pickups.(rows := (map k | k in s.pickups.rows && s.pickups.rows[k].carId != carId :: s.pickups.rows[k])));
    if Wf(s) then
      DeletedCarWf(s, carId, r);
      r
    else r
  }

  /** The rows `DeleteCar` keeps reference only rows it keeps. */
  lemma DeletedCarWf(s: Store, carId: int, r: Store)
    requires Wf(s)
    requires r.cars == s.cars.(rows := s.cars.rows - {carId})
    requires r.images == ImagesNotOf(s.images, carId)
    requires r.carTags == set p | p in s.carTags && p.0 != carId
    requires r.pickups.rows == map k | k in s.pickups.rows && s.pickups.rows[k].carId != carId :: s.pickups.rows[k]
    requires r.pickups.next == s.pickups.next
    requires r.categories == s.categories && r.tags == s.tags && r.users == s.users && r.nextImage == s.nextImage
    ensures Wf(r)
  {
    assert CarsWf(r);
    assert CarTagsWf(r);
    assert PickupsWf(r);
    forall i | 0 <= i < |r.images|
      ensures 1 <= r.images[i].id < r.nextImage
      ensures r.images[i].carId in r.cars.rows
      ensures |r.images[i].url| <= URL_MAX
    {
      assert r.images[i] in s.images;
    }
  }

  /** `INSERT INTO categories` or `INSERT INTO tags`. */
  function InsertNamed(t: Table<NamedRow>, name: string): (r: Result<(Table<NamedRow>, int), Error>)
    ensures |name| > NAME_MAX ==> r == Err(StoreError(ColumnRejected))
    ensures |name| <= NAME_MAX && (exists k :: k in t.rows && t.rows[k].name == name) ==> r == Err(StoreError(DuplicateKey))
    ensures r.Ok? ==> r.value == Insert(t, NamedRow(name))
    ensures NamesWf(t) && r.Ok? ==> NamesWf(r.value.0) && r.value.1 !in t.rows
  {
    if |name| > NAME_MAX then Err(StoreError(ColumnRejected))
    else if exists k :: k in t.rows && t.rows[k].name == name then Err(StoreError(DuplicateKey))
    else Ok(Insert(t, NamedRow(name)))
  }

  /** `UPDATE ... SET name = name WHERE id = id` on `categories` or `tags`. */
  function RenameNamed(t: Table<NamedRow>, id: int, name: string): (r: Result<Table<NamedRow>, Error>)
    requires id in t.rows
    ensures |name| > NAME_MAX ==> r == Err(StoreError(ColumnRejected))
    ensures |name| <= NAME_MAX && (exists k :: k in t.rows && k != id && t.rows[k].name == name) ==> r == Err(StoreError(DuplicateKey))
    ensures r.Ok? ==> r.value == t.(rows := t.rows[id := NamedRow(name)])
    ensures NamesWf(t) && r.Ok? ==> NamesWf(r.value)
  {
    if |name| > NAME_MAX then Err(StoreError(ColumnRejected))
    else if exists k :: k in t.rows && k != id && t.rows[k].name == name then Err(StoreError(DuplicateKey))
    else Ok(t.(rows := t.rows[id := NamedRow(name)]))
  }

  /** Some car references the category (`cars.category_id`). */
  predicate CategoryInUse(s: Store, categoryId: int) {
    exists c :: c in s.cars.rows && s.cars.rows[c].categoryId == categoryId
  }

  /**
    `DELETE FROM categories WHERE id = id`. `cars.category_id` is ON DELETE
    RESTRICT: the delete is refused while a car references the category.
   */
  function DeleteCategory(s: Store, id: int): (r: Result<Store, Error>)
    ensures r.Err? <==> CategoryInUse(s, id)
    ensures r.Err? ==> r.error == StoreError(ForeignKeyRejected)
    ensures r.Ok? ==> r.value == s.(categories := s.categories.(rows := s.categories.rows - {id}))
    ensures Wf(s) && r.Ok? ==> Wf(r.value)
  {
    if CategoryInUse(s, id) then Err(StoreError(ForeignKeyRejected))
    else Ok(s.(categories := s.categories.(rows := s.categories.rows - {id})))
  }

  /** `DELETE FROM tags WHERE id = id`; `car_tags.tag_id` is ON DELETE CASCADE. */
  function DeleteTag(s: Store, id: int): (r: Store)
    ensures r == s.(tags := s.tags.(rows := s.tags.rows - {id}), carTags := set p | p in s.carTags && p.1 != id)
    ensures Wf(s) ==> Wf(r)
  {
    s.(tags := s.tags.(rows := s.tags.rows - {id}), carTags := set p | p in s.carTags && p.1 != id)
  }

  /** `INSERT INTO users`. */
  function InsertUser(s: Store, row: UserRow): (r: Result<(Store, int), Error>)
    ensures !UserFits(row) ==> r == Err(StoreError(ColumnRejected))
    ensures UserFits(row) && (exists k :: k in s.users.rows && s.users.rows[k].email == row.email)
            ==> r == Err(StoreError(DuplicateKey))
    ensures r.Ok? <==> UserFits(row) && forall k :: k in s.users.rows ==> s.users.rows[k].email != row.email
    ensures r.Ok? ==> r.value.0 == s.(users := Insert(s.users, row).0) && r.value.1 == s.users.next
    ensures Wf(s) && r.Ok? ==> Wf(r.value.0) && r.value.1 !in s.users.rows
  {
    if !UserFits(row) then Err(StoreError(ColumnRejected))
    else if exists k :: k in s.users.rows && s.users.rows[k].email == row.email then Err(StoreError(DuplicateKey))
    else
      var (users, id) := Insert(s.users, row);
      Ok((s.(users := users), id))
  }

  /** `UPDATE users SET is_active = active WHERE id = id`. */
  function SetUserActive(s: Store, id: int, active: bool): (r: Store)
    requires id in s.users.rows
    ensures r == s.(users := s.users.(rows := s.users.rows[id := s.users.rows[id].(isActive := active)]))
    ensures Wf(s) ==> Wf(r)
  {
    s.(users := s.users.(rows := s.users.rows[id := s.users.rows[id].(isActive := active)]))
  }

  /** `INSERT INTO pickup_requests`: both foreign keys must resolve and the columns must fit. */
  function InsertPickup(s: Store, row: PickupRow): (r: Result<(Store, int), Error>)
    ensures r.Ok? <==> PickupFits(row) && row.userId in s.users.rows && row.carId in s.cars.rows
    ensures r.Err? ==> r.error.StoreError?
    ensures r.Ok? ==> r.value.0 == s.(pickups := Insert(s.pickups, row).0) && r.value.1 == s.pickups.next
    ensures Wf(s) && r.Ok? ==> Wf(r.value.0) && r.value.1 !in s.pickups.rows
  {
    if !PickupFits(row) then Err(StoreError(ColumnRejected))
    else if row.userId !in s.users.rows || row.carId !in s.cars.rows then Err(StoreError(ForeignKeyRejected))
    else
      var (pickups, id) := Insert(s.pickups, row);
      Ok((s.(pickups := pickups), id))
  }

  /**
    A transaction around a sequence of writes: the writes' store is kept when
    they all succeed (commit); otherwise the store before the transaction is
    restored and the first error is passed on (rollback).
   */
  function Transaction<T>(before: Store, writes: Reply<T>): (r: Reply<T>)
    ensures r.result == writes.result
    ensures r.result.Ok? ==> r.store == writes.store
    ensures r.result.Err? ==> r.store == before
  {
    if writes.result.Ok? then writes else Reply(before, writes.result)
  }
}
