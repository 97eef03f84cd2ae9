/** The tag service over the whole store. */
module Tags {
  import opened Wrappers
  import opened Errors
  import opened Schema
  import opened Named

  /** A new tag table that keeps every id keeps the store well formed. */
  lemma KeepsWf(s: Store, t: Tables.Table<NamedRow>)
    requires Wf(s) && NamesWf(t) && KeysKept(s.tags, t)
    ensures Wf(s.(tags := t))
  {
    forall p | p in s.carTags ensures p.1 in t.rows {
      assert p.1 in s.tags.rows;
      var k := p.1;
      assert k in s.tags.rows ==> k in t.rows;
    }
  }

  /** `create(dto)`: only the tag table changes, and the store stays well formed. */
  function Create(s: Store, name: string): (r: Reply<NamedView>)
    requires Wf(s)
    ensures Wf(r.store)
    ensures r.store == s.(tags := r.store.tags)
    ensures r.result.Err? ==> r.store == s
    ensures r.result.Ok? <==> !Taken(s.tags, Text.Trim(name)) && |Text.Trim(name)| <= NAME_MAX
    ensures r.result.Ok? ==> r.result.value.id in r.store.tags.rows && r.store.tags.rows[r.result.value.id] == NamedRow(Text.Trim(name))
  {
    var o := Named.Create(TagKind, s.tags, name);
    KeepsWf(s, o.table);
    Reply(s.(tags := o.table), o.result)
  }

  /** `update(id, dto)`: only the tag table changes, and the store stays well formed. */
  function Update(s: Store, id: int, name: Option<string>): (r: Reply<NamedView>)
    requires Wf(s)
    ensures Wf(r.store)
    ensures r.store == s.(tags := r.store.tags)
    ensures r.result.Err? || name.None? ==> r.store == s
    ensures id !in s.tags.rows ==> r.result == Err(HttpError(NotFound, "Tag not found"))
    ensures r.result.Ok? && name.Some? ==> r.store.tags.rows == s.tags.rows[id := NamedRow(Text.Trim(name.value))]
  {
    var o := Named.Update(TagKind, s.tags, id, name);
    KeepsWf(s, o.table);
    Reply(s.(tags := o.table), o.result)
  }

  /**
    `remove(id)`: the tag must exist; its links to cars go with it
    (`car_tags.tag_id` is `ON DELETE CASCADE`) and nothing else changes.
   */
  function Remove(s: Store, id: int): (r: Reply<()>)
    requires Wf(s)
    ensures Wf(r.store)
    ensures r.result.Err? <==> id !in s.tags.rows
    ensures r.result.Err? ==> r == Reply(s, Err(HttpError(NotFound, "Tag not found")))
    ensures r.result.Ok? ==> && r.store.tags.rows == s.tags.rows - {id}
                             && (forall c :: TagIdsOf(r.store, c) == TagIdsOf(s, c) - {id})
                             && r.store.cars == s.cars && r.store.images == s.images
                             && r.store.categories == s.categories && r.store.users == s.users
                             && r.store.pickups == s.pickups
  {
    if id !in s.tags.rows then Reply(s, Err(HttpError(NotFound, NotFoundMessage(TagKind))))
    else
      var s' := DeleteTag(s, id);
      forall c ensures TagIdsOf(s', c) == TagIdsOf(s, c) - {id} {
        forall t | t in TagIdsOf(s, c) - {id} ensures t in TagIdsOf(s', c) {
          assert (c, t) in s'.carTags;
        }
      }
      Reply(s', Ok(()))
  }
}
