/**
  The car service: create, read, update and delete of a car together with its
  images and tag links, and the response each car is mapped to.

  Every check of a write runs before the first statement (category, then
  tags; on update the car first). The statements themselves run in one
  transaction: if the database refuses one of them, the store is restored
  and the error is passed on.
 */
module Cars {
  import opened Wrappers
  import opened Errors
  import opened Tables
  import opened Text
  import opened Schema
  import opened CarPayload

  const CAR_NOT_FOUND := "Car not found"
  const CATEGORY_NOT_FOUND := "Category not found"
  const TAGS_NOT_FOUND := "One or more tags not found"

  datatype CategoryView = CategoryView(id: int, name: string)
  datatype ImageView = ImageView(id: int, url: string)
  datatype TagView = TagView(id: int, name: string)

  /** The car response; an association that was not loaded is absent. */
  datatype CarView = CarView(
    id: int,
    make: string,
    model: string,
    year: int,
    color: string,
    price: int,
    mileage: int,
    description: Option<string>,
    categoryId: int,
    category: Option<CategoryView>,
    latitude: int,
    longitude: int,
    images: Option<seq<ImageView>>,
    tags: Option<seq<TagView>>)

  /** A car row together with the associations a read loaded with it. */
  datatype LoadedCar = LoadedCar(
    id: int,
    row: CarRow,
    category: Option<(int, NamedRow)>,
    images: Option<seq<ImageRow>>,
    tags: Option<seq<(int, NamedRow)>>)

  // ------------------------------------------------------------ response

  function ImageViews(images: seq<ImageRow>): (r: seq<ImageView>)
    ensures |r| == |images|
    ensures forall i :: 0 <= i < |images| ==> r[i] == ImageView(images[i].id, images[i].url)
  {
    seq(|images|, i requires 0 <= i < |images| => ImageView(images[i].id, images[i].url))
  }

  function TagViews(tags: seq<(int, NamedRow)>): (r: seq<TagView>)
    ensures |r| == |tags|
    ensures forall i :: 0 <= i < |tags| ==> r[i] == TagView(tags[i].0, tags[i].1.name)
  {
    seq(|tags|, i requires 0 <= i < |tags| => TagView(tags[i].0, tags[i].1.name))
  }

  /** `toResponse`: scalar columns are copied; each loaded association is mapped element by element. */
  function ToResponse(c: LoadedCar): (r: CarView)
    ensures r.id == c.id && r.categoryId == c.row.categoryId
    ensures r.category.Some? <==> c.category.Some?
    ensures r.images.Some? <==> c.images.Some?
    ensures r.tags.Some? <==> c.tags.Some?
    ensures c.images.Some? ==> |r.images.value| == |c.images.value|
    ensures c.tags.Some? ==> |r.tags.value| == |c.tags.value|
  {
    CarView(
      c.id, c.row.make, c.row.model, c.row.year, c.row.color, c.row.price, c.row.mileage,
      c.row.description, c.row.categoryId,
      MapOption(c.category, (p: (int, NamedRow)) => CategoryView(p.0, p.1.name)),
      c.row.latitude, c.row.longitude,
      MapOption(c.images, ImageViews),
      MapOption(c.tags, TagViews))
  }

  /** Reads a loaded car back out of its response; image rows belong to the response's car. */
  function FromResponse(v: CarView): LoadedCar {
    LoadedCar(
      v.id,
      CarRow(v.make, v.model, v.year, v.color, v.price, v.mileage, v.description, v.categoryId, v.latitude, v.longitude),
      MapOption(v.category, (c: CategoryView) => (c.id, NamedRow(c.name))),
      MapOption(v.images, (images: seq<ImageView>) =>
        seq(|images|, i requires 0 <= i < |images| => ImageRow(images[i].id, v.id, images[i].url))),
      MapOption(v.tags, (tags: seq<TagView>) =>
        seq(|tags|, i requires 0 <= i < |tags| => (tags[i].id, NamedRow(tags[i].name)))))
  }

  /** The loaded image rows belong to the loaded car. */
  predicate OwnImages(c: LoadedCar) {
    c.images.Some? ==> forall i :: 0 <= i < |c.images.value| ==> c.images.value[i].carId == c.id
  }

  /**
    The response loses nothing the model keeps: every column, the loaded
    category, and every loaded image and tag, in order, can be read back.
   */
  lemma ResponseRoundTrip(c: LoadedCar)
    requires OwnImages(c)
    ensures FromResponse(ToResponse(c)) == c
  {
    var back := FromResponse(ToResponse(c));
    if c.images.Some? {
      assert back.images.value == c.images.value;
    }
    if c.tags.Some? {
      assert back.tags.value == c.tags.value;
    }
  }

  // ------------------------------------------------------------ reads

  /** The tags linked to a car, by ascending id. */
  function LinkedTags(s: Store, carId: int): seq<(int, NamedRow)> {
    Ascending(map t | t in s.tags.rows && (carId, t) in s.carTags :: s.tags.rows[t], s.tags.next)
  }

  /** `findByPk(id, { include: [category, images, tags] })`. */
  function Load(s: Store, carId: int): (r: LoadedCar)
    requires carId in s.cars.rows
    ensures OwnImages(r)
  {
    var row := s.cars.rows[carId];
    LoadedCar(
      carId,
      row,
      if row.categoryId in s.categories.rows then Some((row.categoryId, s.categories.rows[row.categoryId])) else None,
      Some(ImagesOf(s.images, carId)),
      Some(LinkedTags(s, carId)))
  }

  /** The ids a list of tag views shows. */
  function ViewedTagIds(tags: seq<TagView>): set<int> {
    set i | 0 <= i < |tags| :: tags[i].id
  }

  /** `images` shows the image rows of car `carId`, one by one in key order: id and url. */
  predicate ShowsImages(s: Store, carId: int, images: seq<ImageView>) {
    var own := ImagesOf(s.images, carId);
    && |images| == |own|
    && forall i :: 0 <= i < |images| ==> images[i].id == own[i].id && images[i].url == own[i].url
  }

  /**
    `tags` shows exactly the tags linked to car `carId`, each once (the link
    table's key is the pair), with its stored name.
   */
  predicate ShowsTags(s: Store, carId: int, tags: seq<TagView>) {
    && ViewedTagIds(tags) == TagIdsOf(s, carId)
    && (forall i, j :: 0 <= i < j < |tags| ==> tags[i].id != tags[j].id)
    && forall i :: 0 <= i < |tags| ==> tags[i].id in s.tags.rows && tags[i].name == s.tags.rows[tags[i].id].name
  }

  /**
    `v` shows car `carId` as it is stored in `s`: its columns, its category,
    its images (ids and urls) and its linked tags (ids and names).
   */
  predicate Describes(s: Store, carId: int, v: CarView)
    requires carId in s.cars.rows && s.cars.rows[carId].categoryId in s.categories.rows
  {
    var row := s.cars.rows[carId];
    && v.id == carId
    && v.make == row.make && v.model == row.model && v.year == row.year && v.color == row.color
    && v.price == row.price && v.mileage == row.mileage && v.description == row.description
    && v.categoryId == row.categoryId && v.latitude == row.latitude && v.longitude == row.longitude
    && v.category == Some(CategoryView(row.categoryId, s.categories.rows[row.categoryId].name))
    && v.images.Some? && ShowsImages(s, carId, v.images.value)
    && v.tags.Some? && ShowsTags(s, carId, v.tags.value)
  }

  lemma LoadDescribes(s: Store, carId: int)
    requires Wf(s) && carId in s.cars.rows
    ensures Describes(s, carId, ToResponse(Load(s, carId)))
  {
    var v := ToResponse(Load(s, carId));
    var linked := LinkedTags(s, carId);
    var shown := ViewedTagIds(v.tags.value);
    forall t | t in TagIdsOf(s, carId) ensures t in shown {
      assert (carId, t) in s.carTags;
      assert (t, s.tags.rows[t]) in linked;
      var i :| 0 <= i < |linked| && linked[i] == (t, s.tags.rows[t]);
      assert v.tags.value[i].id == t;
    }
    forall t | t in shown ensures t in TagIdsOf(s, carId) {
      var i :| 0 <= i < |v.tags.value| && v.tags.value[i].id == t;
      assert linked[i] in linked;
      assert (carId, t) in s.carTags;
    }
    forall i | 0 <= i < |v.tags.value|
      ensures v.tags.value[i].id in s.tags.rows && v.tags.value[i].name == s.tags.rows[v.tags.value[i].id].name
    {
      assert linked[i] in linked;
    }
    assert v.tags.value == TagViews(linked);
  }

  /**
    A tag list that shows a car's tags has one entry per linked tag; and a list
    naming exactly the linked ids with that many entries repeats none of them.
   */
  lemma ShownTagCount(s: Store, carId: int, tags: seq<TagView>)
    requires ViewedTagIds(tags) == TagIdsOf(s, carId)
    ensures (forall i, j :: 0 <= i < j < |tags| ==> tags[i].id != tags[j].id) <==> |tags| == |TagIdsOf(s, carId)|
  {
    var ids := seq(|tags|, i requires 0 <= i < |tags| => tags[i].id);
    DistinctCardinality(ids);
    assert (set t | t in ids) == ViewedTagIds(tags) by {
      forall t | t in ids ensures t in ViewedTagIds(tags) {
        var i :| 0 <= i < |ids| && ids[i] == t;
        assert tags[i].id == t;
      }
      forall t | t in ViewedTagIds(tags) ensures t in ids {
        var i :| 0 <= i < |tags| && tags[i].id == t;
        assert ids[i] == t;
      }
    }
    assert forall i :: 0 <= i < |tags| ==> ids[i] == tags[i].id;
  }

  /** `findOne(id)`. */
  function FindOne(s: Store, carId: int): (r: Result<CarView, Error>)
    ensures r.Err? <==> carId !in s.cars.rows
    ensures r.Err? ==> r.error == HttpError(NotFound, CAR_NOT_FOUND)
    ensures Wf(s) && r.Ok? ==> Describes(s, carId, r.value)
  {
    if carId !in s.cars.rows then Err(HttpError(NotFound, CAR_NOT_FOUND))
    else
      assert Wf(s) ==> Describes(s, carId, ToResponse(Load(s, carId))) by {
        if Wf(s) {
          LoadDescribes(s, carId);
        }
      }
      Ok(ToResponse(Load(s, carId)))
  }

  /** The responses of the given cars, in the given order. */
  function Views(s: Store, rows: seq<(int, CarRow)>): (r: seq<CarView>)
    requires forall i :: 0 <= i < |rows| ==> rows[i].0 in s.cars.rows
    ensures |r| == |rows|
    ensures forall i :: 0 <= i < |rows| ==> r[i] == ToResponse(Load(s, rows[i].0))
  {
    seq(|rows|, i requires 0 <= i < |rows| => ToResponse(Load(s, rows[i].0)))
  }

  lemma ViewsDescribe(s: Store, rows: seq<(int, CarRow)>)
    requires Wf(s)
    requires forall i :: 0 <= i < |rows| ==> rows[i].0 in s.cars.rows
    ensures forall i :: 0 <= i < |rows| ==> Views(s, rows)[i].id == rows[i].0
    ensures forall i :: 0 <= i < |rows| ==> Describes(s, rows[i].0, Views(s, rows)[i])
  {
    forall i | 0 <= i < |rows| ensures Describes(s, rows[i].0, Views(s, rows)[i]) {
      LoadDescribes(s, rows[i].0);
    }
  }

  /** The cars by descending id are exactly the stored cars. */
  lemma DescendingCars(s: Store, rows: seq<(int, CarRow)>)
    requires rows == Descending(s.cars.rows, s.cars.next)
    requires IdsIssued(s.cars)
    ensures forall i :: 0 <= i < |rows| ==> rows[i].0 in s.cars.rows
    ensures forall c :: c in s.cars.rows ==> exists i :: 0 <= i < |rows| && rows[i].0 == c
  {
    forall i | 0 <= i < |rows| ensures rows[i].0 in s.cars.rows {
      assert rows[i] in rows;
    }
    forall c | c in s.cars.rows ensures exists i :: 0 <= i < |rows| && rows[i].0 == c {
      assert (c, s.cars.rows[c]) in rows;
    }
  }

  /** `findAll()`: every car, newest first (`ORDER BY createdAt DESC`, ids grow with creation time). */
  function FindAll(s: Store): (r: seq<CarView>)
    requires Wf(s)
    ensures forall i, j :: 0 <= i < j < |r| ==> r[i].id > r[j].id
    ensures forall i :: 0 <= i < |r| ==> r[i].id in s.cars.rows && Describes(s, r[i].id, r[i])
    ensures forall c :: c in s.cars.rows ==> exists i :: 0 <= i < |r| && r[i].id == c
    ensures |r| == |s.cars.rows|
  {
    var rows := Descending(s.cars.rows, s.cars.next);
    DescendingCars(s, rows);
    RowCount(rows, s.cars.rows);
    ViewsDescribe(s, rows);
    Views(s, rows)
  }

  // ------------------------------------------------------------ tag check

  /** The ids are pairwise different. */
  predicate Distinct(ids: seq<int>) {
    forall i, j :: 0 <= i < j < |ids| ==> ids[i] != ids[j]
  }

  predicate AllTagsExist(s: Store, ids: seq<int>) {
    forall i :: 0 <= i < |ids| ==> ids[i] in s.tags.rows
  }

  /** `tagModel.findAll({ where: { id: tagIds } }).length`: the number of distinct existing tags named. */
  function FoundTagCount(s: Store, ids: seq<int>): nat {
    |set t | t in ids && t in s.tags.rows|
  }

  /** The check the service makes: as many tags were found as ids were sent. */
  predicate TagsResolve(s: Store, ids: seq<int>) {
    FoundTagCount(s, ids) == |ids|
  }

  /** A subset is no larger than its superset, and only as large when equal. */
  lemma SubsetSize(a: set<int>, b: set<int>)
    requires a <= b
    ensures |a| <= |b|
    ensures |a| == |b| ==> a == b
  {
    var d := b - a;
    assert b == a + d && a !! d;
    if a != b {
      assert d != {};
    }
  }

  lemma {:induction false} DistinctCardinality(ids: seq<int>)
    ensures |set t | t in ids| <= |ids|
    ensures |set t | t in ids| == |ids| <==> Distinct(ids)
    decreases |ids|
  {
    if |ids| > 0 {
      var init := ids[..|ids| - 1];
      var last := ids[|ids| - 1];
      DistinctCardinality(init);
      assert (set t | t in ids) == (set t | t in init) + {last};
      if last in init {
        assert (set t | t in ids) == (set t | t in init);
        var k :| 0 <= k < |init| && init[k] == last;
        assert ids[k] == ids[|ids| - 1];
      } else {
        assert (set t | t in init) !! {last};
        if Distinct(ids) {
          assert Distinct(init);
        }
      }
    }
  }

  /**
    The count check rejects exactly the lists that name a missing tag or name
    one tag twice: a repeated id is refused even when the tag exists.
   */
  lemma TagCheckMeaning(s: Store, ids: seq<int>)
    ensures TagsResolve(s, ids) <==> Distinct(ids) && AllTagsExist(s, ids)
  {
    var named := set t | t in ids;
    var found := set t | t in ids && t in s.tags.rows;
    DistinctCardinality(ids);
    assert found <= named;
    SubsetSize(found, named);
    if TagsResolve(s, ids) {
      assert found == named;
      forall i | 0 <= i < |ids| ensures ids[i] in s.tags.rows {
        assert ids[i] in named;
      }
    }
    if Distinct(ids) && AllTagsExist(s, ids) {
      forall t | t in named ensures t in found {
        var i :| 0 <= i < |ids| && ids[i] == t;
      }
      assert found == named;
    }
  }

  /** A tag list that the check is applied to: present and non-empty. */
  predicate RequestsTags(ids: Option<seq<int>>) {
    ids.Some? && |ids.value| > 0
  }

  /** The tag ids a payload asks for, as a set (none when absent). */
  function TagIdSet(ids: Option<seq<int>>): set<int> {
    if ids.Some? then set t | t in ids.value else {}
  }

  // ------------------------------------------------------------ create

  function TrimAll(urls: seq<string>): (r: seq<string>)
    ensures |r| == |urls| && forall i :: 0 <= i < |urls| ==> r[i] == Trim(urls[i])
  {
    seq(|urls|, i requires 0 <= i < |urls| => Trim(urls[i]))
  }

  /** The row `create` inserts: text columns trimmed, the rest as sent. */
  function NewCarRow(d: CarCreate): CarRow {
    CarRow(Trim(d.make), Trim(d.model), d.year, Trim(d.color), d.price, d.mileage,
           MapOption(d.description, Trim), d.categoryId, d.latitude, d.longitude)
  }

  /** Tables that a car write leaves alone. */
  predicate OtherTablesKept(s: Store, s': Store) {
    s'.categories == s.categories && s'.tags == s.tags && s'.users == s.users && s'.pickups == s.pickups
  }

  /** Images and tag links of every car other than `carId` are the same in both stores. */
  ghost predicate OtherCarsKept(s: Store, s': Store, carId: int) {
    forall c :: c != carId ==> ImagesOf(s'.images, c) == ImagesOf(s.images, c) && TagIdsOf(s', c) == TagIdsOf(s, c)
  }

  /** `s'` is `s` plus the car `carId` created from `d`, with its images and tag links. */
  ghost predicate Created(s: Store, s': Store, carId: int, d: CarCreate) {
    && carId !in s.cars.rows
    && carId in s'.cars.rows
    && s'.cars.rows - {carId} == s.cars.rows
    && var row := s'.cars.rows[carId];
    && row.make == Trim(d.make) && row.model == Trim(d.model) && row.color == Trim(d.color)
    && row.description == MapOption(d.description, Trim)
    && row.year == d.year && row.price == d.price && row.mileage == d.mileage
    && row.categoryId == d.categoryId && row.latitude == d.latitude && row.longitude == d.longitude
    && UrlsOf(s', carId) == TrimAll(d.imageUrls)
    && TagIdsOf(s', carId) == TagIdSet(d.tagIds)
    && OtherCarsKept(s, s', carId)
    && OtherTablesKept(s, s')
  }

  /** The image rows appended for `urls` belong to `carId` only. */
  lemma {:induction false} AppendedImages(images: seq<ImageRow>, start: int, carId: int, urls: seq<string>, c: int)
    ensures ImagesOf(images + NewImages(start, carId, urls), c)
            == ImagesOf(images, c) + (if c == carId then NewImages(start, carId, urls) else [])
  {
    ImagesOfAppend(images, NewImages(start, carId, urls), c);
    ImagesOfNew(start, carId, urls, c);
  }

  /** `bulkCreate` of one car's image urls, skipped when there are none. */
  function AddImages(s: Store, carId: int, urls: seq<string>): (r: Result<Store, Error>)
    requires Wf(s) && carId in s.cars.rows
    ensures r.Ok? <==> UrlsFit(urls)
    ensures r.Err? ==> r.error == StoreError(ColumnRejected)
    ensures r.Ok? ==> Wf(r.value) && UrlsOf(r.value, carId) == UrlsOf(s, carId) + urls
    ensures r.Ok? ==> forall c :: c != carId ==> ImagesOf(r.value.images, c) == ImagesOf(s.images, c)
    ensures r.Ok? ==> r.value.cars == s.cars && r.value.carTags == s.carTags && OtherTablesKept(s, r.value)
  {
    if |urls| == 0 then
      assert UrlsOf(s, carId) + urls == UrlsOf(s, carId);
      Ok(s)
    else
      var r := InsertImages(s, carId, urls);
      if r.Ok? then
        AppendedUrls(s, carId, urls);
        r
      else r
  }

  /** Appending image rows for `carId` appends exactly `urls` to its urls and touches no other car. */
  lemma AppendedUrls(s: Store, carId: int, urls: seq<string>)
    ensures var s' := s.(images := s.images + NewImages(s.nextImage, carId, urls));
            && UrlsOf(s', carId) == UrlsOf(s, carId) + urls
            && forall c :: c != carId ==> ImagesOf(s'.images, c) == ImagesOf(s.images, c)
  {
    var s' := s.(images := s.images + NewImages(s.nextImage, carId, urls));
    AppendedImages(s.images, s.nextImage, carId, urls, carId);
    UrlsOfExtended(s, s', carId, NewImages(s.nextImage, carId, urls), urls);
    forall c | c != carId ensures ImagesOf(s'.images, c) == ImagesOf(s.images, c) {
      AppendedImages(s.images, s.nextImage, carId, urls, c);
    }
  }

  /** Extending a car's image rows by rows carrying `urls` extends its urls by `urls`. */
  lemma UrlsOfExtended(s: Store, s': Store, carId: int, added: seq<ImageRow>, urls: seq<string>)
    requires ImagesOf(s'.images, carId) == ImagesOf(s.images, carId) + added
    requires |added| == |urls| && forall i :: 0 <= i < |added| ==> added[i].url == urls[i]
    ensures UrlsOf(s', carId) == UrlsOf(s, carId) + urls
  {
    var own := ImagesOf(s.images, carId);
    forall i | 0 <= i < |own| + |urls|
      ensures UrlsOf(s', carId)[i] == (UrlsOf(s, carId) + urls)[i]
    {
      if i >= |own| {
        assert (own + added)[i] == added[i - |own|];
      }
    }
  }

  /** `destroy({ where: { carId } })` of one car's images. */
  lemma RemovedImages(s: Store, carId: int)
    ensures UrlsOf(DeleteImagesOf(s, carId), carId) == []
    ensures forall c :: c != carId ==> ImagesOf(DeleteImagesOf(s, carId).images, c) == ImagesOf(s.images, c)
  {
    ImagesOfWithout(s.images, carId, carId);
    forall c | c != carId ensures ImagesOf(DeleteImagesOf(s, carId).images, c) == ImagesOf(s.images, c) {
      ImagesOfWithout(s.images, carId, c);
    }
  }

  /** `$set('tags', ids)` replaces the links of `carId` by the named tags and touches no other car's links. */
  lemma LinkedAfterSet(s: Store, s': Store, carId: int, ids: seq<int>)
    requires s'.carTags == (set p | p in s.carTags && p.0 != carId) + (set t | t in ids :: (carId, t))
    ensures TagIdsOf(s', carId) == set t | t in ids
    ensures forall c :: c != carId ==> TagIdsOf(s', c) == TagIdsOf(s, c)
  {
    assert TagIdsOf(s', carId) == set t | t in ids by {
      forall t | t in ids ensures t in TagIdsOf(s', carId) {
        assert (carId, t) in s'.carTags;
      }
    }
    forall c | c != carId ensures TagIdsOf(s', c) == TagIdsOf(s, c) {
      forall t | t in TagIdsOf(s, c) ensures t in TagIdsOf(s', c) {
        assert (c, t) in s'.carTags;
      }
    }
  }

  /** `$set('tags', ids)`: the links of `carId` become exactly the named tags. */
  function ReplaceTags(s: Store, carId: int, ids: seq<int>): (r: Result<Store, Error>)
    requires Wf(s) && carId in s.cars.rows
    ensures r.Ok? <==> AllTagsExist(s, ids)
    ensures r.Err? ==> r.error == StoreError(ForeignKeyRejected)
    ensures r.Ok? ==> Wf(r.value) && TagIdsOf(r.value, carId) == set t | t in ids
    ensures r.Ok? ==> forall c :: c != carId ==> TagIdsOf(r.value, c) == TagIdsOf(s, c)
    ensures r.Ok? ==> r.value.cars == s.cars && r.value.images == s.images && OtherTablesKept(s, r.value)
  {
    var r := SetTags(s, carId, ids);
    if r.Ok? then LinkedAfterSet(s, r.value, carId, ids); r else r
  }

  /** A car just inserted has no images and no tags yet. */
  lemma FreshCar(s: Store, s1: Store, id: int)
    requires Wf(s) && id !in s.cars.rows
    requires s1.images == s.images && s1.carTags == s.carTags
    ensures UrlsOf(s1, id) == [] && TagIdsOf(s1, id) == {}
  {
    ImagesOfNone(s1.images, id);
  }

  /** The three statements of `create` together add exactly the new car. */
  lemma CreatedBySteps(s: Store, s1: Store, s2: Store, s3: Store, id: int, d: CarCreate)
    requires id !in s.cars.rows
    requires s1 == s.(cars := Table(s.cars.rows[id := NewCarRow(d)], s.cars.next + 1))
    requires UrlsOf(s1, id) == [] && TagIdsOf(s1, id) == {}
    requires UrlsOf(s2, id) == TrimAll(d.imageUrls)
    requires forall c :: c != id ==> ImagesOf(s2.images, c) == ImagesOf(s1.images, c)
    requires s2.cars == s1.cars && s2.carTags == s1.carTags && OtherTablesKept(s1, s2)
    requires TagIdsOf(s3, id) == TagIdSet(d.tagIds)
    requires forall c :: c != id ==> TagIdsOf(s3, c) == TagIdsOf(s2, c)
    requires s3.cars == s2.cars && s3.images == s2.images && OtherTablesKept(s2, s3)
    ensures Created(s, s3, id, d)
  {
    assert s3.cars.rows - {id} == s.cars.rows;
    assert UrlsOf(s3, id) == UrlsOf(s2, id);
    forall c | c != id ensures TagIdsOf(s2, c) == TagIdsOf(s, c) {
    }
  }

  /** The statements of `create`, in order; a refused statement ends them with the store it reached. */
  function CreateWrites(s: Store, d: CarCreate): (r: Reply<int>)
    requires Wf(s)
    ensures r.result.Ok? <==> CarFits(NewCarRow(d)) && d.categoryId in s.categories.rows
                              && UrlsFit(TrimAll(d.imageUrls))
                              && (RequestsTags(d.tagIds) ==> AllTagsExist(s, d.tagIds.value))
    ensures r.result.Err? ==> r.result.error.StoreError?
    ensures r.result.Ok? ==> Wf(r.store) && Created(s, r.store, r.result.value, d)
  {
    match InsertCar(s, NewCarRow(d))
    case Err(e) => Reply(s, Err(e))
    case Ok((s1, id)) =>
      FreshCar(s, s1, id);
      match AddImages(s1, id, TrimAll(d.imageUrls))
      case Err(e) => Reply(s1, Err(e))
      case Ok(s2) =>
        var linked := if RequestsTags(d.tagIds) then ReplaceTags(s2, id, d.tagIds.value) else Ok(s2);
        match linked
        case Err(e) => Reply(s2, Err(e))
        case Ok(s3) =>
          CreatedBySteps(s, s1, s2, s3, id, d);
          Reply(s3, Ok(id))
  }

  /**
    `create(dto)`: the category must exist (`NotFound`), then a non-empty tag
    list must name existing, distinct tags (`BadRequest`); both checks run
    before any write. The writes run in one transaction and the response is
    a fresh read of the committed car.
   */
  function Create(s: Store, d: CarCreate): (r: Reply<CarView>)
    requires Wf(s)
    ensures Wf(r.store)
    ensures r.result.Err? ==> r.store == s
    ensures d.categoryId !in s.categories.rows ==> r.result == Err(HttpError(NotFound, CATEGORY_NOT_FOUND))
    ensures d.categoryId in s.categories.rows && RequestsTags(d.tagIds)
            && !(Distinct(d.tagIds.value) && AllTagsExist(s, d.tagIds.value))
            ==> r.result == Err(HttpError(BadRequest, TAGS_NOT_FOUND))
    ensures r.result.Ok? <==> && d.categoryId in s.categories.rows
                              && (RequestsTags(d.tagIds) ==> Distinct(d.tagIds.value) && AllTagsExist(s, d.tagIds.value))
                              && CarFits(NewCarRow(d)) && UrlsFit(TrimAll(d.imageUrls))
    ensures r.result.Ok? ==> Created(s, r.store, r.result.value.id, d)
    ensures r.result.Ok? ==> Describes(r.store, r.result.value.id, r.result.value)
  {
    TagCheckMeaning(s, d.tagIds.GetOr([]));
    if d.categoryId !in s.categories.rows then
      Reply(s, Err(HttpError(NotFound, CATEGORY_NOT_FOUND)))
    else if RequestsTags(d.tagIds) && !TagsResolve(s, d.tagIds.value) then
      Reply(s, Err(HttpError(BadRequest, TAGS_NOT_FOUND)))
    else
      var tx := Transaction(s, CreateWrites(s, d));
      match tx.result
      case Err(e) => Reply(tx.store, Err(e))
      case Ok(id) => Reply(tx.store, FindOne(tx.store, id))
  }

  // ------------------------------------------------------------ update

  /** The row after `update` assigned the fields the payload carries (text fields trimmed). */
  function PatchedRow(row: CarRow, p: CarPatch): (r: CarRow)
    ensures p.make.None? ==> r.make == row.make
    ensures p.model.None? ==> r.model == row.model
    ensures p.color.None? ==> r.color == row.color
    ensures p.description.None? ==> r.description == row.description
    ensures p.categoryId.None? ==> r.categoryId == row.categoryId
    ensures p.year.None? ==> r.year == row.year
    ensures p.price.None? ==> r.price == row.price
    ensures p.mileage.None? ==> r.mileage == row.mileage
    ensures p.latitude.None? ==> r.latitude == row.latitude
    ensures p.longitude.None? ==> r.longitude == row.longitude
    ensures p.make.Some? ==> Trimmed(r.make)
    ensures p.model.Some? ==> Trimmed(r.model)
    ensures p.color.Some? ==> Trimmed(r.color)
  {
    CarRow(
      MapOption(p.make, Trim).GetOr(row.make),
      MapOption(p.model, Trim).GetOr(row.model),
      p.year.GetOr(row.year),
      MapOption(p.color, Trim).GetOr(row.color),
      p.price.GetOr(row.price),
      p.mileage.GetOr(row.mileage),
      if p.description.Some? then Some(Trim(p.description.value)) else row.description,
      p.categoryId.GetOr(row.categoryId),
      p.latitude.GetOr(row.latitude),
      p.longitude.GetOr(row.longitude))
  }

  const EMPTY_PATCH := CarPatch(None, None, None, None, None, None, None, None, None, None, None, None)

  /** An update that carries no field leaves the row as it is. */
  lemma EmptyPatchKeepsRow(row: CarRow)
    ensures PatchedRow(row, EMPTY_PATCH) == row
  {
  }

  /** Applying the same update twice gives the row applying it once gives. */
  lemma PatchIdempotent(row: CarRow, p: CarPatch)
    ensures PatchedRow(PatchedRow(row, p), p) == PatchedRow(row, p)
  {
    var once := PatchedRow(row, p);
    var twice := PatchedRow(once, p);
    if p.make.Some? { TrimIdempotent(p.make.value); }
    if p.model.Some? { TrimIdempotent(p.model.value); }
    if p.color.Some? { TrimIdempotent(p.color.value); }
    if p.description.Some? { TrimIdempotent(p.description.value); }
    assert twice.make == once.make && twice.model == once.model && twice.color == once.color;
    assert twice.description == once.description;
  }

  /**
    An update carrying every field of a create payload turns any row into the
    row `create` would have inserted, except that an update never clears the
    description: when the payload has none, the old one stays.
   */
  lemma FullPatchIsCreate(row: CarRow, d: CarCreate)
    ensures d.description.Some? || row.description.None? ==> PatchedRow(row, AsPatch(d)) == NewCarRow(d)
    ensures d.description.None? ==> PatchedRow(row, AsPatch(d)).description == row.description
  {
  }

  /** `s'` is `s` with car `carId` updated by `p`; every other car and table is as it was. */
  ghost predicate Updated(s: Store, s': Store, carId: int, p: CarPatch)
    requires carId in s.cars.rows
  {
    && s'.cars == s.cars.(rows := s.cars.rows[carId := PatchedRow(s.cars.rows[carId], p)])
    && UrlsOf(s', carId) == (if p.imageUrls.Some? then TrimAll(p.imageUrls.value) else UrlsOf(s, carId))
    && TagIdsOf(s', carId) == (if p.tagIds.Some? then TagIdSet(p.tagIds) else TagIdsOf(s, carId))
    && OtherCarsKept(s, s', carId)
    && OtherTablesKept(s, s')
  }

  /** `destroy` of the old images followed by `bulkCreate` of the new ones. */
  function ReplaceImages(s: Store, carId: int, urls: seq<string>): (r: Reply<()>)
    requires Wf(s) && carId in s.cars.rows
    ensures r.result.Ok? <==> UrlsFit(urls)
    ensures r.result.Err? ==> r.result.error == StoreError(ColumnRejected)
    ensures r.result.Ok? ==> Wf(r.store) && UrlsOf(r.store, carId) == urls
    ensures r.result.Ok? ==> forall c :: c != carId ==> ImagesOf(r.store.images, c) == ImagesOf(s.images, c)
    ensures r.result.Ok? ==> r.store.cars == s.cars && r.store.carTags == s.carTags && OtherTablesKept(s, r.store)
  {
    var cleared := DeleteImagesOf(s, carId);
    RemovedImages(s, carId);
    match AddImages(cleared, carId, urls)
    case Err(e) => Reply(cleared, Err(e))
    case Ok(s') => Reply(s', Ok(()))
  }

  /** The statements of `update` together change exactly car `carId`. */
  lemma UpdatedBySteps(s: Store, s1: Store, s2: Store, s3: Store, carId: int, p: CarPatch)
    requires carId in s.cars.rows
    requires s1 == s.(cars := s.cars.(rows := s.cars.rows[carId := PatchedRow(s.cars.rows[carId], p)]))
    requires UrlsOf(s2, carId) == (if p.imageUrls.Some? then TrimAll(p.imageUrls.value) else UrlsOf(s1, carId))
    requires forall c :: c != carId ==> ImagesOf(s2.images, c) == ImagesOf(s1.images, c)
    requires s2.cars == s1.cars && s2.carTags == s1.carTags && OtherTablesKept(s1, s2)
    requires TagIdsOf(s3, carId) == (if p.tagIds.Some? then TagIdSet(p.tagIds) else TagIdsOf(s2, carId))
    requires forall c :: c != carId ==> TagIdsOf(s3, c) == TagIdsOf(s2, c)
    requires s3.cars == s2.cars && s3.images == s2.images && OtherTablesKept(s2, s3)
    ensures Updated(s, s3, carId, p)
  {
    assert UrlsOf(s3, carId) == UrlsOf(s2, carId);
    assert UrlsOf(s1, carId) == UrlsOf(s, carId);
    assert s1.carTags == s.carTags && s1.images == s.images;
    forall c | c != carId
      ensures ImagesOf(s3.images, c) == ImagesOf(s.images, c) && TagIdsOf(s3, c) == TagIdsOf(s, c)
    {
      assert TagIdsOf(s2, c) == TagIdsOf(s1, c);
    }
    assert OtherCarsKept(s, s3, carId);
    assert OtherTablesKept(s, s3);
    assert s3.cars == s.cars.(rows := s.cars.rows[carId := PatchedRow(s.cars.rows[carId], p)]);
    assert UrlsOf(s3, carId) == (if p.imageUrls.Some? then TrimAll(p.imageUrls.value) else UrlsOf(s, carId));
    assert TagIdsOf(s3, carId) == (if p.tagIds.Some? then TagIdSet(p.tagIds) else TagIdsOf(s, carId));
  }

  /** The statements of `update`, in order; a refused statement ends them with the store it reached. */
  function UpdateWrites(s: Store, carId: int, p: CarPatch): (r: Reply<int>)
    requires Wf(s) && carId in s.cars.rows
    ensures r.result.Ok? <==> && CarFits(PatchedRow(s.cars.rows[carId], p))
                              && PatchedRow(s.cars.rows[carId], p).categoryId in s.categories.rows
                              && (p.imageUrls.Some? ==> UrlsFit(TrimAll(p.imageUrls.value)))
                              && (p.tagIds.Some? ==> AllTagsExist(s, p.tagIds.value))
    ensures r.result.Err? ==> r.result.error.StoreError?
    ensures r.result.Ok? ==> r.result.value == carId && Wf(r.store) && Updated(s, r.store, carId, p)
  {
    match SaveCar(s, carId, PatchedRow(s.cars.rows[carId], p))
    case Err(e) => Reply(s, Err(e))
    case Ok(s1) =>
      var imaged := if p.imageUrls.Some? then ReplaceImages(s1, carId, TrimAll(p.imageUrls.value)) else Reply(s1, Ok(()));
      match imaged.result
      case Err(e) => Reply(imaged.store, Err(e))
      case Ok(_) =>
        var s2 := imaged.store;
        var linked := if p.tagIds.Some? then ReplaceTags(s2, carId, p.tagIds.value) else Ok(s2);
        match linked
        case Err(e) => Reply(s2, Err(e))
        case Ok(s3) =>
          UpdatedBySteps(s, s1, s2, s3, carId, p);
          Reply(s3, Ok(carId))
  }

  /**
    `update(id, dto)`: the car must exist, then a category given must exist,
    then a non-empty tag list given must name existing, distinct tags. Fields
    absent from the payload keep their values; an image list or tag list that
    is present replaces the car's images or tags, even when empty.
   */
  function Update(s: Store, carId: int, p: CarPatch): (r: Reply<CarView>)
    requires Wf(s)
    ensures Wf(r.store)
    ensures r.result.Err? ==> r.store == s
    ensures carId !in s.cars.rows ==> r.result == Err(HttpError(NotFound, CAR_NOT_FOUND))
    ensures carId in s.cars.rows && p.categoryId.Some? && p.categoryId.value !in s.categories.rows
            ==> r.result == Err(HttpError(NotFound, CATEGORY_NOT_FOUND))
    ensures carId in s.cars.rows && (p.categoryId.Some? ==> p.categoryId.value in s.categories.rows)
            && RequestsTags(p.tagIds) && !(Distinct(p.tagIds.value) && AllTagsExist(s, p.tagIds.value))
            ==> r.result == Err(HttpError(BadRequest, TAGS_NOT_FOUND))
    ensures r.result.Ok? <==> && carId in s.cars.rows
                              && (p.categoryId.Some? ==> p.categoryId.value in s.categories.rows)
                              && (RequestsTags(p.tagIds) ==> Distinct(p.tagIds.value) && AllTagsExist(s, p.tagIds.value))
                              && CarFits(PatchedRow(s.cars.rows[carId], p))
                              && (p.imageUrls.Some? ==> UrlsFit(TrimAll(p.imageUrls.value)))
    ensures r.result.Ok? ==> r.result.value.id == carId && Updated(s, r.store, carId, p)
    ensures r.result.Ok? ==> Describes(r.store, carId, r.result.value)
  {
    TagCheckMeaning(s, p.tagIds.GetOr([]));
    if carId !in s.cars.rows then
      Reply(s, Err(HttpError(NotFound, CAR_NOT_FOUND)))
    else if p.categoryId.Some? && p.categoryId.value !in s.categories.rows then
      Reply(s, Err(HttpError(NotFound, CATEGORY_NOT_FOUND)))
    else if RequestsTags(p.tagIds) && !TagsResolve(s, p.tagIds.value) then
      Reply(s, Err(HttpError(BadRequest, TAGS_NOT_FOUND)))
    else
      var tx := Transaction(s, UpdateWrites(s, carId, p));
      match tx.result
      case Err(e) => Reply(tx.store, Err(e))
      case Ok(id) => Reply(tx.store, FindOne(tx.store, id))
  }

  /** An update that carries no field changes nothing at all. */
  lemma EmptyUpdateChangesNothing(s: Store, carId: int)
    requires Wf(s) && carId in s.cars.rows
    ensures Update(s, carId, EMPTY_PATCH).result.Ok?
    ensures Update(s, carId, EMPTY_PATCH).store == s
  {
    EmptyPatchKeepsRow(s.cars.rows[carId]);
    assert s.cars.rows[carId := s.cars.rows[carId]] == s.cars.rows;
  }

  // ------------------------------------------------------------ remove

  /** `s'` is `s` without car `carId`, its images, its tag links and the pickups of it. */
  ghost predicate Removed(s: Store, s': Store, carId: int) {
    && s'.cars.rows == s.cars.rows - {carId}
    && UrlsOf(s', carId) == [] && TagIdsOf(s', carId) == {}
    && (forall k :: k in s'.pickups.rows <==> k in s.pickups.rows && s.pickups.rows[k].carId != carId)
    && (forall k :: k in s'.pickups.rows ==> s'.pickups.rows[k] == s.pickups.rows[k])
    && OtherCarsKept(s, s', carId)
    && s'.categories == s.categories && s'.tags == s.tags && s'.users == s.users
  }

  /** `remove(id)`: the car must exist; its images, tag links and pickups go with it. */
  function Remove(s: Store, carId: int): (r: Reply<()>)
    requires Wf(s)
    ensures Wf(r.store)
    ensures r.result.Err? <==> carId !in s.cars.rows
    ensures r.result.Err? ==> r == Reply(s, Err(HttpError(NotFound, CAR_NOT_FOUND)))
    ensures r.result.Ok? ==> Removed(s, r.store, carId)
  {
    if carId !in s.cars.rows then Reply(s, Err(HttpError(NotFound, CAR_NOT_FOUND)))
    else
      var s' := DeleteCar(s, carId);
      RemovedImages(s, carId);
      assert UrlsOf(s', carId) == [];
      forall c | c != carId ensures TagIdsOf(s', c) == TagIdsOf(s, c) {
        forall t | t in TagIdsOf(s, c) ensures t in TagIdsOf(s', c) {
          assert (c, t) in s'.carTags;
        }
      }
      Reply(s', Ok(()))
  }

  /** A car that was removed is not found any more. */
  lemma RemoveThenFindOne(s: Store, carId: int)
    requires Wf(s)
    ensures FindOne(Remove(s, carId).store, carId) == Err(HttpError(NotFound, CAR_NOT_FOUND))
  {
  }

  /**
    Removing a car right after creating it gives back the store it was
    created in: the same cars, images per car, tag links and pickups (only the
    auto-increment counters have moved on).
   */
  lemma CreateThenRemove(s: Store, d: CarCreate)
    requires Wf(s) && Create(s, d).result.Ok?
    ensures var created := Create(s, d);
            var r := Remove(created.store, created.result.value.id).store;
            && r.cars.rows == s.cars.rows
            && (forall c :: ImagesOf(r.images, c) == ImagesOf(s.images, c))
            && r.carTags == s.carTags
            && r.pickups.rows == s.pickups.rows
            && r.categories == s.categories && r.tags == s.tags && r.users == s.users
  {
    var created := Create(s, d);
    var id := created.result.value.id;
    CreatedThenRemoved(s, created.store, Remove(created.store, id).store, id, d);
  }

  lemma CreatedThenRemoved(s: Store, s': Store, r: Store, id: int, d: CarCreate)
    requires Wf(s) && Created(s, s', id, d) && Removed(s', r, id)
    ensures r.cars.rows == s.cars.rows
    ensures forall c :: ImagesOf(r.images, c) == ImagesOf(s.images, c)
    ensures r.carTags == s.carTags
    ensures r.pickups.rows == s.pickups.rows
    ensures r.categories == s.categories && r.tags == s.tags && r.users == s.users
  {
    forall c ensures ImagesOf(r.images, c) == ImagesOf(s.images, c) {
      if c == id {
        ImagesOfNone(s.images, id);
        assert |ImagesOf(r.images, id)| == |UrlsOf(r, id)| == 0;
      }
    }
    LinksRestored(s, s', r, id);
    PickupsRestored(s, s', r, id);
  }

  lemma LinksRestored(s: Store, s': Store, r: Store, id: int)
    requires CarTagsWf(s) && id !in s.cars.rows
    requires OtherCarsKept(s, s', id) && OtherCarsKept(s', r, id) && TagIdsOf(r, id) == {}
    ensures r.carTags == s.carTags
  {
    forall p | p in s.carTags ensures p in r.carTags {
      assert p.1 in TagIdsOf(s, p.0);
    }
    forall p | p in r.carTags ensures p in s.carTags {
      assert p.1 in TagIdsOf(r, p.0);
    }
  }

  lemma PickupsRestored(s: Store, s': Store, r: Store, id: int)
    requires PickupsWf(s) && id !in s.cars.rows && s'.pickups == s.pickups
    requires forall k :: k in r.pickups.rows <==> k in s'.pickups.rows && s'.pickups.rows[k].carId != id
    requires forall k :: k in r.pickups.rows ==> r.pickups.rows[k] == s'.pickups.rows[k]
    ensures r.pickups.rows == s.pickups.rows
  {
    forall k | k in s.pickups.rows ensures k in r.pickups.rows && r.pickups.rows[k] == s.pickups.rows[k] {
      assert s.pickups.rows[k].carId in s.cars.rows;
    }
    forall k | k in r.pickups.rows ensures k in s.pickups.rows {
      assert k in s'.pickups.rows;
    }
  }
}
