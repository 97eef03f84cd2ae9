/** The category service over the whole store. */
module Categories {
  import opened Wrappers
  import opened Errors
  import opened Schema
  import opened Named

  /** A new category table that keeps every id keeps the store well formed. */
  lemma KeepsWf(s: Store, t: Tables.Table<NamedRow>)
    requires Wf(s) && NamesWf(t) && KeysKept(s.categories, t)
    ensures Wf(s.(categories := t))
  {
  }

  /** `create(dto)`: only the category table changes, and the store stays well formed. */
  function Create(s: Store, name: string): (r: Reply<NamedView>)
    requires Wf(s)
    ensures Wf(r.store)
    ensures r.store == s.(categories := r.store.categories)
    ensures r.result.Err? ==> r.store == s
    ensures r.result.Ok? <==> !Taken(s.categories, Text.Trim(name)) && |Text.Trim(name)| <= NAME_MAX
    ensures r.result.Ok? ==> r.result.value.id in r.store.categories.rows && r.store.categories.rows[r.result.value.id] == NamedRow(Text.Trim(name))
  {
    var o := Named.Create(CategoryKind, s.categories, name);
    KeepsWf(s, o.table);
    Reply(s.(categories := o.table), o.result)
  }

  /** `update(id, dto)`: only the category table changes, and the store stays well formed. */
  function Update(s: Store, id: int, name: Option<string>): (r: Reply<NamedView>)
    requires Wf(s)
    ensures Wf(r.store)
    ensures r.store == s.(categories := r.store.categories)
    ensures r.result.Err? || name.None? ==> r.store == s
    ensures id !in s.categories.rows ==> r.result == Err(HttpError(NotFound, "Category not found"))
    ensures r.result.Ok? && name.Some? ==> r.store.categories.rows == s.categories.rows[id := NamedRow(Text.Trim(name.value))]
  {
    var o := Named.Update(CategoryKind, s.categories, id, name);
    KeepsWf(s, o.table);
    Reply(s.(categories := o.table), o.result)
  }

  /**
    `remove(id)`: the category must exist; the database refuses to delete
    one that a car still references (`ON DELETE RESTRICT`), and that refusal
    reaches the caller as a database error.
   */
  function Remove(s: Store, id: int): (r: Reply<()>)
    requires Wf(s)
    ensures Wf(r.store)
    ensures r.result.Err? ==> r.store == s
    ensures id !in s.categories.rows ==> r.result == Err(HttpError(NotFound, "Category not found"))
    ensures id in s.categories.rows && CategoryInUse(s, id) ==> r.result == Err(StoreError(ForeignKeyRejected))
    ensures r.result.Ok? <==> id in s.categories.rows && !CategoryInUse(s, id)
    ensures r.result.Ok? ==> r.store == s.(categories := s.categories.(rows := s.categories.rows - {id}))
  {
    if id !in s.categories.rows then Reply(s, Err(HttpError(NotFound, NotFoundMessage(CategoryKind))))
    else
      match DeleteCategory(s, id)
      case Err(e) => Reply(s, Err(e))
      case Ok(s') => Reply(s', Ok(()))
  }

  /** While a car refers to a category, the category stays: every car keeps its category. */
  lemma RemoveKeepsReferencedCategory(s: Store, carId: int)
    requires Wf(s) && carId in s.cars.rows
    ensures var r := Remove(s, s.cars.rows[carId].categoryId);
            r.result.Err? && r.store == s
  {
  }
}
