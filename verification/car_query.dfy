/**
  The query string of the car listing: paging, a category filter, the sort
  column and direction, and a tag filter given either as one comma-separated
  value or as a repeated parameter.
 */
module CarQuery {
  import opened Wrappers
  import opened Text
  import opened JsNumber

  const DEFAULT_PAGE := 1
  const DEFAULT_LIMIT := 10
  const MAX_LIMIT := 100

  /** The columns a listing may be sorted by. */
  datatype Column = Id | Make | Model | Year | Color | Price | Mileage | CreatedAt | UpdatedAt

  datatype Direction = Asc | Desc

  function ColumnName(c: Column): string {
    match c
    case Id => "id"
    case Make => "make"
    case Model => "model"
    case Year => "year"
    case Color => "color"
    case Price => "price"
    case Mileage => "mileage"
    case CreatedAt => "createdAt"
    case UpdatedAt => "updatedAt"
  }

  /** `@IsIn([...nine column names])`. */
  function ParseColumn(s: string): (r: Option<Column>)
    ensures r.Some? ==> ColumnName(r.value) == s
  {
    if s == "id" then Some(Id)
    else if s == "make" then Some(Make)
    else if s == "model" then Some(Model)
    else if s == "year" then Some(Year)
    else if s == "color" then Some(Color)
    else if s == "price" then Some(Price)
    else if s == "mileage" then Some(Mileage)
    else if s == "createdAt" then Some(CreatedAt)
    else if s == "updatedAt" then Some(UpdatedAt)
    else None
  }

  /** Every column's name is accepted, and names that column. */
  lemma ColumnRoundTrip(c: Column)
    ensures ParseColumn(ColumnName(c)) == Some(c)
  {
  }

  function DirectionName(d: Direction): string {
    match d
    case Asc => "ASC"
    case Desc => "DESC"
  }

  /** `@IsIn(['ASC', 'DESC'])`: exact, upper case only. */
  function ParseDirection(s: string): (r: Option<Direction>)
    ensures r.Some? <==> s == "ASC" || s == "DESC"
    ensures r.Some? ==> DirectionName(r.value) == s
  {
    if s == "ASC" then Some(Asc) else if s == "DESC" then Some(Desc) else None
  }

  /** The raw `tagIds` parameter: one value, or the values of a repeated parameter. */
  datatype RawTagIds = TagText(text: string) | TagList(items: seq<string>)

  /** The numbers of a list that are not `NaN`, in order (`.filter((n) => !Number.isNaN(n))`). */
  function KeepNumbers(ns: seq<JsNum>): (r: seq<JsNum>)
    ensures |r| <= |ns|
    ensures forall i :: 0 <= i < |r| ==> !r[i].NaN?
    ensures forall x :: x in r <==> x in ns && !x.NaN?
  {
    if |ns| == 0 then []
    else if ns[0].NaN? then KeepNumbers(ns[1..])
    else [ns[0]] + KeepNumbers(ns[1..])
  }

  /** Filtering a concatenation filters each part. */
  lemma {:induction false} KeepNumbersAppend(a: seq<JsNum>, b: seq<JsNum>)
    ensures KeepNumbers(a + b) == KeepNumbers(a) + KeepNumbers(b)
    decreases |a|
  {
    if |a| == 0 {
      assert a + b == b;
    } else {
      assert (a + b)[0] == a[0] && (a + b)[1..] == a[1..] + b;
      KeepNumbersAppend(a[1..], b);
    }
  }

  /** A list without `NaN` is kept whole. */
  lemma {:induction false} KeepNumbersOfNumbers(ns: seq<JsNum>)
    requires forall i :: 0 <= i < |ns| ==> !ns[i].NaN?
    ensures KeepNumbers(ns) == ns
    decreases |ns|
  {
    if |ns| > 0 {
      KeepNumbersOfNumbers(ns[1..]);
      assert ns == [ns[0]] + ns[1..];
    }
  }

  /** `Number(piece.trim())` for every piece. */
  function PieceNumbers(pieces: seq<string>): (r: seq<JsNum>)
    ensures |r| == |pieces| && forall i :: 0 <= i < |pieces| ==> r[i] == ToNumber(Trim(pieces[i]))
  {
    seq(|pieces|, i requires 0 <= i < |pieces| => ToNumber(Trim(pieces[i])))
  }

  /** `Number(v)` for every value. */
  function ItemNumbers(items: seq<string>): (r: seq<JsNum>)
    ensures |r| == |items| && forall i :: 0 <= i < |items| ==> r[i] == ToNumber(items[i])
  {
    seq(|items|, i requires 0 <= i < |items| => ToNumber(items[i]))
  }

  /**
    The `@Transform` of `tagIds`: an absent or empty value is dropped; the
    values of a repeated parameter are each converted, keeping length and
    order; a single value is split on commas, each piece trimmed and
    converted, and the pieces that are not numbers dropped — when none is
    left, the parameter is dropped.
   */
  function TransformTagIds(raw: Option<RawTagIds>): (r: Option<seq<JsNum>>)
    ensures raw.None? || raw == Some(TagText("")) ==> r.None?
    ensures raw.Some? && raw.value.TagList? ==> r == Some(ItemNumbers(raw.value.items))
    ensures raw.Some? && raw.value.TagText? && raw.value.text != "" ==>
              r == (var kept := KeepNumbers(PieceNumbers(Split(raw.value.text, ',')));
                    if |kept| > 0 then Some(kept) else None)
    ensures r.Some? && raw.value.TagText? ==> |r.value| > 0 && forall i :: 0 <= i < |r.value| ==> !r.value[i].NaN?
  {
    match raw
    case None => None
    case Some(TagText(text)) =>
      if text == "" then None
      else
        var kept := KeepNumbers(PieceNumbers(Split(text, ',')));
        if |kept| > 0 then Some(kept) else None
    case Some(TagList(items)) => Some(ItemNumbers(items))
  }

  /** The decimal strings of some integers. */
  function IntStrings(ids: seq<int>): (r: seq<string>)
    ensures |r| == |ids| && forall i :: 0 <= i < |ids| ==> r[i] == IntToString(ids[i])
  {
    seq(|ids|, i requires 0 <= i < |ids| => IntToString(ids[i]))
  }

  /** A non-empty list of ids written as `1,2,3` reads back as the same ids, in order. */
  lemma CommaListRoundTrip(ids: seq<int>)
    requires |ids| > 0
    ensures TransformTagIds(Some(TagText(Join(IntStrings(ids), ',')))) == Some(Nums(ids))
  {
    var parts := IntStrings(ids);
    var text := Join(parts, ',');
    assert Split(text, ',') == parts by {
      SplitJoin(parts, ',');
    }
    assert PieceNumbers(parts) == Nums(ids) by {
      PieceNumbersOfInts(ids);
    }
    assert KeepNumbers(Nums(ids)) == Nums(ids) by {
      KeepNumbersOfNumbers(Nums(ids));
    }
    assert text != "" by {
      JoinNotEmpty(parts, ',');
    }
  }

  /** Each piece of a written id list, trimmed and converted, is that id. */
  lemma PieceNumbersOfInts(ids: seq<int>)
    ensures PieceNumbers(IntStrings(ids)) == Nums(ids)
  {
    var parts := IntStrings(ids);
    forall i | 0 <= i < |ids| ensures PieceNumbers(parts)[i] == Int(ids[i]) {
      ToNumberOfTrim(parts[i]);
      ToNumberOfIntToString(ids[i]);
    }
  }

  lemma JoinNotEmpty(parts: seq<string>, sep: char)
    requires |parts| > 0 && |parts[0]| > 0
    ensures Join(parts, sep) != ""
  {
    SplitJoinFirst(parts, sep);
  }

  lemma SplitJoinFirst(parts: seq<string>, sep: char)
    requires |parts| > 0
    ensures |Join(parts, sep)| >= |parts[0]|
  {
  }

  /** A list of ids sent as a repeated parameter reads back as the same ids, in order. */
  lemma RepeatedListRoundTrip(ids: seq<int>)
    ensures TransformTagIds(Some(TagList(IntStrings(ids)))) == Some(Nums(ids))
  {
    forall i | 0 <= i < |ids| ensures ItemNumbers(IntStrings(ids))[i] == Int(ids[i]) {
      ToNumberOfIntToString(ids[i]);
    }
    assert ItemNumbers(IntStrings(ids)) == Nums(ids);
  }

  /** The raw query string, every parameter as sent. */
  datatype RawQuery = RawQuery(
    page: Option<string>,
    limit: Option<string>,
    search: Option<string>,
    categoryId: Option<string>,
    orderBy: Option<string>,
    orderDirection: Option<string>,
    tagIds: Option<RawTagIds>)

  /** A validated query with its defaults filled in. */
  datatype ListQuery = ListQuery(
    page: int,
    limit: int,
    search: Option<string>,
    categoryId: Option<int>,
    orderBy: Column,
    direction: Direction,
    tagIds: Option<seq<int>>)

  /** `@Type(() => Number) @IsInt() @Min(lo) [@Max(hi)]` on an optional parameter with a default. */
  function IntParam(raw: Option<string>, default: int, lo: int, hi: Option<int>): (r: Option<int>)
    ensures raw.None? ==> r == Some(default)
    ensures raw.Some? ==> (r.Some? <==> ToNumber(raw.value).Int? && lo <= ToNumber(raw.value).value
                                        && (hi.Some? ==> ToNumber(raw.value).value <= hi.value))
    ensures raw.Some? && r.Some? ==> r.value == ToNumber(raw.value).value
  {
    match raw
    case None => Some(default)
    case Some(text) =>
      match ToNumber(text)
      case Int(n) => if lo <= n && (hi.None? || n <= hi.value) then Some(n) else None
      case _ => None
  }

  /** Every parameter passes its rules. */
  predicate ValidQuery(q: RawQuery) {
    && IntParam(q.page, DEFAULT_PAGE, 1, None).Some?
    && IntParam(q.limit, DEFAULT_LIMIT, 1, Some(MAX_LIMIT)).Some?
    && (q.categoryId.Some? ==> IntParam(q.categoryId, 0, 1, None).Some?)
    && (q.orderBy.Some? ==> ParseColumn(q.orderBy.value).Some?)
    && (q.orderDirection.Some? ==> ParseDirection(q.orderDirection.value).Some?)
    && (TransformTagIds(q.tagIds).Some? ==> AllInts(TransformTagIds(q.tagIds).value))
  }

  /** Validation of `ListCarsQueryDto`, defaults filled in. */
  function ValidateListQuery(q: RawQuery): (r: Option<ListQuery>)
    ensures r.Some? <==> ValidQuery(q)
    ensures r.Some? ==> && r.value.page >= 1
                        && 1 <= r.value.limit <= MAX_LIMIT
                        && (r.value.categoryId.Some? ==> r.value.categoryId.value >= 1)
                        && r.value.search == q.search
    ensures r.Some? ==> (q.page.None? ==> r.value.page == DEFAULT_PAGE) && (q.limit.None? ==> r.value.limit == DEFAULT_LIMIT)
    ensures r.Some? ==> (q.orderBy.None? ==> r.value.orderBy == CreatedAt) && (q.orderDirection.None? ==> r.value.direction == Desc)
    ensures r.Some? ==> (r.value.tagIds.Some? <==> TransformTagIds(q.tagIds).Some?)
    ensures r.Some? && q.page.Some? ==> ToNumber(q.page.value) == Int(r.value.page)
    ensures r.Some? && q.limit.Some? ==> ToNumber(q.limit.value) == Int(r.value.limit)
    ensures r.Some? ==> (r.value.categoryId.Some? <==> q.categoryId.Some?)
    ensures r.Some? && q.categoryId.Some? ==> ToNumber(q.categoryId.value) == Int(r.value.categoryId.value)
    ensures r.Some? && q.orderBy.Some? ==> ColumnName(r.value.orderBy) == q.orderBy.value
    ensures r.Some? && q.orderDirection.Some? ==> DirectionName(r.value.direction) == q.orderDirection.value
    ensures r.Some? && r.value.tagIds.Some? ==> TransformTagIds(q.tagIds) == Some(Nums(r.value.tagIds.value))
  {
    if !ValidQuery(q) then None
    else
      var tagIds := TransformTagIds(q.tagIds);
      Some(ListQuery(
        IntParam(q.page, DEFAULT_PAGE, 1, None).value,
        IntParam(q.limit, DEFAULT_LIMIT, 1, Some(MAX_LIMIT)).value,
        q.search,
        if q.categoryId.Some? then Some(IntParam(q.categoryId, 0, 1, None).value) else None,
        if q.orderBy.Some? then ParseColumn(q.orderBy.value).value else CreatedAt,
        if q.orderDirection.Some? then ParseDirection(q.orderDirection.value).value else Desc,
        if tagIds.Some? then NumsOfInts(tagIds.value); Some(Ints(tagIds.value)) else None))
  }

  /** The empty query lists the first ten cars, newest first. */
  lemma Defaults()
    ensures ValidateListQuery(RawQuery(None, None, None, None, None, None, None))
            == Some(ListQuery(DEFAULT_PAGE, DEFAULT_LIMIT, None, None, CreatedAt, Desc, None))
  {
  }

  /** The query string that states every field of a query explicitly. */
  function Encode(q: ListQuery): RawQuery {
    RawQuery(
      Some(IntToString(q.page)),
      Some(IntToString(q.limit)),
      q.search,
      MapOption(q.categoryId, IntToString),
      Some(ColumnName(q.orderBy)),
      Some(DirectionName(q.direction)),
      MapOption(q.tagIds, (ids: seq<int>) => TagList(IntStrings(ids))))
  }

  /** A number within the bounds, written in decimal, passes its parameter's rules. */
  lemma IntParamRoundTrip(n: int, default: int, lo: int, hi: Option<int>)
    requires lo <= n && (hi.Some? ==> n <= hi.value)
    ensures IntParam(Some(IntToString(n)), default, lo, hi) == Some(n)
  {
    ToNumberOfIntToString(n);
  }

  /** A query within the bounds survives being written out and validated again. */
  lemma QueryRoundTrip(q: ListQuery)
    requires q.page >= 1 && 1 <= q.limit <= MAX_LIMIT && (q.categoryId.Some? ==> q.categoryId.value >= 1)
    ensures ValidateListQuery(Encode(q)) == Some(q)
  {
    var raw := Encode(q);
    IntParamRoundTrip(q.page, DEFAULT_PAGE, 1, None);
    IntParamRoundTrip(q.limit, DEFAULT_LIMIT, 1, Some(MAX_LIMIT));
    if q.categoryId.Some? {
      IntParamRoundTrip(q.categoryId.value, 0, 1, None);
    }
    ColumnRoundTrip(q.orderBy);
    assert ParseDirection(DirectionName(q.direction)) == Some(q.direction);
    if q.tagIds.Some? {
      RepeatedListRoundTrip(q.tagIds.value);
      assert Ints(Nums(q.tagIds.value)) == q.tagIds.value;
    }
    assert ValidQuery(raw);
  }
}
