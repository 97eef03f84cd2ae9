/**
  The two services that manage a table of unique names, categories and tags.
  They behave alike: names are trimmed before they are looked up or stored,
  a name held by another row is a `Conflict`, and lists are ordered by name.
  Only the wording of their messages differs, so they share this module;
  what removing a row does to the rest of the store is in `Categories` and
  `Tags`.
 */
module Named {
  import opened Wrappers
  import opened Errors
  import opened Tables
  import opened Text
  import opened Schema

  /** Which of the two services: it names the entity in messages. */
  datatype Kind = CategoryKind | TagKind

  function NotFoundMessage(k: Kind): string {
    match k
    case CategoryKind => "Category not found"
    case TagKind => "Tag not found"
  }

  function ConflictMessage(k: Kind): string {
    match k
    case CategoryKind => "Category with this name already exists"
    case TagKind => "Tag with this name already exists"
  }

  /** The response of both services: the id and the stored name. */
  datatype NamedView = NamedView(id: int, name: string)

  /** A name table after an operation, with the operation's answer. */
  datatype Outcome<T> = Outcome(table: Table<NamedRow>, result: Result<T, Error>)

  /** Some row holds `name`. */
  predicate Taken(t: Table<NamedRow>, name: string) {
    exists k :: k in t.rows && t.rows[k].name == name
  }

  /** `findOne({ where: { name } })`. */
  function WithName(t: Table<NamedRow>, name: string): (r: Option<int>)
    requires IdsIssued(t)
    ensures r.None? <==> !Taken(t, name)
    ensures r.Some? ==> r.value in t.rows && t.rows[r.value].name == name
  {
    FindWhere(t, (row: NamedRow) => row.name == name)
  }

  /** Keys are never lost by create or update. */
  predicate KeysKept(t: Table<NamedRow>, t': Table<NamedRow>) {
    forall k :: k in t.rows ==> k in t'.rows
  }

  /** `create(dto)`: refuses a trimmed name that is already held, else stores the trimmed name. */
  function Create(k: Kind, t: Table<NamedRow>, name: string): (r: Outcome<NamedView>)
    requires NamesWf(t)
    ensures NamesWf(r.table) && KeysKept(t, r.table)
    ensures r.result.Err? ==> r.table == t
    ensures Taken(t, Trim(name)) ==> r.result == Err(HttpError(Conflict, ConflictMessage(k)))
    ensures r.result.Ok? <==> !Taken(t, Trim(name)) && |Trim(name)| <= NAME_MAX
    ensures r.result.Ok? ==> && r.result.value.id !in t.rows
                             && r.result.value.name == Trim(name)
                             && r.table.rows == t.rows[r.result.value.id := NamedRow(Trim(name))]
  {
    CreateTrimmed(k, t, Trim(name))
  }

  /** The steps of `create` once the name is trimmed: the lookup, then the insert. */
  function CreateTrimmed(k: Kind, t: Table<NamedRow>, trimmed: string): (r: Outcome<NamedView>)
    requires NamesWf(t)
    ensures NamesWf(r.table) && KeysKept(t, r.table)
    ensures r.result.Err? ==> r.table == t
    ensures Taken(t, trimmed) ==> r.result == Err(HttpError(Conflict, ConflictMessage(k)))
    ensures r.result.Ok? <==> !Taken(t, trimmed) && |trimmed| <= NAME_MAX
    ensures r.result.Ok? ==> && r.result.value.id !in t.rows
                             && r.result.value.name == trimmed
                             && r.table.rows == t.rows[r.result.value.id := NamedRow(trimmed)]
  {
    if WithName(t, trimmed).Some? then Outcome(t, Err(HttpError(Conflict, ConflictMessage(k))))
    else
      var inserted := InsertNamed(t, trimmed);
      if inserted.Err? then Outcome(t, Err(inserted.error))
      else Outcome(inserted.value.0, Ok(NamedView(inserted.value.1, trimmed)))
  }

  /** `findOne(id)`. */
  function FindOne(k: Kind, t: Table<NamedRow>, id: int): (r: Result<NamedView, Error>)
    ensures r.Err? <==> id !in t.rows
    ensures r.Err? ==> r.error == HttpError(NotFound, NotFoundMessage(k))
    ensures r.Ok? ==> r.value.id == id && r.value.name == t.rows[id].name
  {
    if id !in t.rows then Err(HttpError(NotFound, NotFoundMessage(k)))
    else Ok(NamedView(id, t.rows[id].name))
  }

  /**
    `update(id, dto)`: the row must exist; without a name nothing changes;
    a trimmed name held by another row is a `Conflict`, while a row may be
    renamed to its own name.
   */
  function Update(k: Kind, t: Table<NamedRow>, id: int, name: Option<string>): (r: Outcome<NamedView>)
    requires NamesWf(t)
    ensures NamesWf(r.table) && KeysKept(t, r.table)
    ensures r.result.Err? ==> r.table == t
    ensures id !in t.rows ==> r.result == Err(HttpError(NotFound, NotFoundMessage(k)))
    ensures id in t.rows && name.None? ==> r == Outcome(t, Ok(NamedView(id, t.rows[id].name)))
    ensures id in t.rows && name.Some? && (exists j :: j in t.rows && j != id && t.rows[j].name == Trim(name.value))
            ==> r.result == Err(HttpError(Conflict, ConflictMessage(k)))
    ensures r.result.Ok? <==> && id in t.rows
                              && (name.Some? ==> && |Trim(name.value)| <= NAME_MAX
                                                 && forall j :: j in t.rows && t.rows[j].name == Trim(name.value) ==> j == id)
    ensures r.result.Ok? && name.Some? ==> && r.table.rows == t.rows[id := NamedRow(Trim(name.value))]
                                           && r.table.next == t.next
                                           && r.result.value == NamedView(id, Trim(name.value))
  {
    if id !in t.rows then Outcome(t, Err(HttpError(NotFound, NotFoundMessage(k))))
    else if name.None? then Outcome(t, Ok(NamedView(id, t.rows[id].name)))
    else RenameTrimmed(k, t, id, Trim(name.value))
  }

  /** The steps of `update` for an existing row and a trimmed name: the lookup, then the rename. */
  function RenameTrimmed(k: Kind, t: Table<NamedRow>, id: int, trimmed: string): (r: Outcome<NamedView>)
    requires NamesWf(t) && id in t.rows
    ensures NamesWf(r.table) && KeysKept(t, r.table)
    ensures r.result.Err? ==> r.table == t
    ensures (exists j :: j in t.rows && j != id && t.rows[j].name == trimmed)
            ==> r.result == Err(HttpError(Conflict, ConflictMessage(k)))
    ensures r.result.Ok? <==> && |trimmed| <= NAME_MAX
                              && forall j :: j in t.rows && t.rows[j].name == trimmed ==> j == id
    ensures r.result.Ok? ==> && r.table.rows == t.rows[id := NamedRow(trimmed)]
                             && r.table.next == t.next
                             && r.result.value == NamedView(id, trimmed)
  {
    var existing := WithName(t, trimmed);
    OtherHolder(t, id, trimmed);
    if existing.Some? && existing.value != id then Outcome(t, Err(HttpError(Conflict, ConflictMessage(k))))
    else
      var renamed := RenameNamed(t, id, trimmed);
      if renamed.Err? then Outcome(t, Err(renamed.error))
      else Outcome(renamed.value, Ok(NamedView(id, trimmed)))
  }

  /** With unique names, the row found by name is another row exactly when another row holds the name. */
  lemma OtherHolder(t: Table<NamedRow>, id: int, name: string)
    requires NamesWf(t)
    ensures var found := WithName(t, name);
            (found.Some? && found.value != id) <==> exists j :: j in t.rows && j != id && t.rows[j].name == name
  {
    var found := WithName(t, name);
    if j :| j in t.rows && j != id && t.rows[j].name == name {
      assert Taken(t, name);
      assert found.value == j;
    }
  }

  /** A row just created is found under its id, with the trimmed name. */
  lemma CreateThenFindOne(k: Kind, t: Table<NamedRow>, name: string)
    requires NamesWf(t) && Create(k, t, name).result.Ok?
    ensures var created := Create(k, t, name);
            FindOne(k, created.table, created.result.value.id) == Ok(created.result.value)
  {
  }

  /** Creating the same name twice is refused the second time, whatever spaces surround it. */
  lemma CreateTwice(k: Kind, t: Table<NamedRow>, name: string, again: string)
    requires NamesWf(t) && Create(k, t, name).result.Ok? && Trim(again) == Trim(name)
    ensures Create(k, Create(k, t, name).table, again).result == Err(HttpError(Conflict, ConflictMessage(k)))
  {
    var created := Create(k, t, name);
    assert created.table.rows[created.result.value.id].name == Trim(again);
  }

  /** Renaming a row to the name it already has (up to surrounding spaces) succeeds and changes nothing. */
  lemma RenameToOwnName(k: Kind, t: Table<NamedRow>, id: int, name: string)
    requires NamesWf(t) && id in t.rows && Trim(name) == t.rows[id].name
    ensures Update(k, t, id, Some(name)) == Outcome(t, Ok(NamedView(id, t.rows[id].name)))
  {
    OwnNameKept(k, t, id, Trim(name));
  }

  lemma OwnNameKept(k: Kind, t: Table<NamedRow>, id: int, trimmed: string)
    requires NamesWf(t) && id in t.rows && t.rows[id].name == trimmed
    ensures RenameTrimmed(k, t, id, trimmed) == Outcome(t, Ok(NamedView(id, trimmed)))
  {
    assert forall j :: j in t.rows && t.rows[j].name == trimmed ==> j == id;
    var r := RenameTrimmed(k, t, id, trimmed);
    assert r.result.Ok?;
    assert NamedRow(trimmed) == t.rows[id];
    UpdateSame(t.rows, id, NamedRow(trimmed));
    assert r.table == Table(t.rows, t.next);
  }

  // ------------------------------------------------------------ ordering

  /** Names ascend along the list. */
  predicate ByName(rows: seq<(int, NamedRow)>) {
    forall i :: 0 <= i < |rows| - 1 ==> LexLe(rows[i].1.name, rows[i + 1].1.name)
  }

  function InsertByName(x: (int, NamedRow), rows: seq<(int, NamedRow)>): (r: seq<(int, NamedRow)>)
    requires ByName(rows)
    ensures ByName(r)
    ensures multiset(r) == multiset(rows) + multiset{x}
    ensures r[0] == x || (|rows| > 0 && r[0] == rows[0])
    decreases |rows|
  {
    if |rows| == 0 then [x]
    else if LexLe(x.1.name, rows[0].1.name) then [x] + rows
    else
      LexTotal(x.1.name, rows[0].1.name);
      var rest := InsertByName(x, rows[1..]);
      assert rows == [rows[0]] + rows[1..];
      [rows[0]] + rest
  }

  /** Insertion sort by name. */
  function SortByName(rows: seq<(int, NamedRow)>): (r: seq<(int, NamedRow)>)
    ensures ByName(r)
    ensures multiset(r) == multiset(rows)
    decreases |rows|
  {
    if |rows| == 0 then []
    else
      assert rows == [rows[0]] + rows[1..];
      InsertByName(rows[0], SortByName(rows[1..]))
  }

  /** Adjacent order gives order between any two positions. */
  lemma {:induction false} ByNamePairwise(rows: seq<(int, NamedRow)>, i: int, j: int)
    requires ByName(rows) && 0 <= i <= j < |rows|
    ensures LexLe(rows[i].1.name, rows[j].1.name)
    decreases j - i
  {
    if i == j {
      LexReflexive(rows[i].1.name);
    } else {
      ByNamePairwise(rows, i + 1, j);
      LexTransitive(rows[i].1.name, rows[i + 1].1.name, rows[j].1.name);
    }
  }

  lemma LexReflexive(a: string)
    ensures LexLe(a, a)
  {
    LexTotal(a, a);
  }

  /** The response of `findAll()` for rows already in order. */
  function NamedViews(rows: seq<(int, NamedRow)>): (r: seq<NamedView>)
    ensures |r| == |rows|
    ensures forall i :: 0 <= i < |r| ==> r[i] == NamedView(rows[i].0, rows[i].1.name)
  {
    seq(|rows|, i requires 0 <= i < |rows| => NamedView(rows[i].0, rows[i].1.name))
  }

  /** Sorting keeps exactly the rows it was given. */
  lemma SortedMembers(rows: seq<(int, NamedRow)>)
    ensures forall x :: x in SortByName(rows) <==> x in rows
  {
    var sorted := SortByName(rows);
    forall x ensures x in sorted <==> x in rows {
      assert x in sorted <==> x in multiset(sorted);
      assert x in rows <==> x in multiset(rows);
    }
  }

  /** A view is listed exactly when its row is. */
  lemma NamedViewsMembers(t: Table<NamedRow>, sorted: seq<(int, NamedRow)>)
    requires forall p :: p in sorted <==> p.0 in t.rows && p.1 == t.rows[p.0]
    ensures forall v :: v in NamedViews(sorted) <==> v.id in t.rows && v.name == t.rows[v.id].name
  {
    var r := NamedViews(sorted);
    forall v: NamedView | v.id in t.rows && v.name == t.rows[v.id].name ensures v in r {
      assert (v.id, t.rows[v.id]) in sorted;
      var i :| 0 <= i < |sorted| && sorted[i] == (v.id, t.rows[v.id]);
      assert r[i] == v;
    }
    forall v | v in r ensures v.id in t.rows && v.name == t.rows[v.id].name {
      var i :| 0 <= i < |r| && r[i] == v;
      assert sorted[i] in sorted;
    }
  }

  /** `findAll()`: every row, ordered by name (`ORDER BY name ASC`). */
  function FindAll(t: Table<NamedRow>): (r: seq<NamedView>)
    requires IdsIssued(t)
    ensures forall v :: v in r <==> v.id in t.rows && v.name == t.rows[v.id].name
    ensures forall i, j :: 0 <= i < j < |r| ==> LexLe(r[i].name, r[j].name)
    ensures |r| == |t.rows|
  {
    var sorted := SortByName(AllRows(t));
    assert |sorted| == |multiset(sorted)| == |multiset(AllRows(t))| == |t.rows|;
    SortedMembers(AllRows(t));
    NamedViewsMembers(t, sorted);
    var r := NamedViews(sorted);
    forall i, j | 0 <= i < j < |r| ensures LexLe(r[i].name, r[j].name) {
      ByNamePairwise(sorted, i, j);
    }
    r
  }
}
