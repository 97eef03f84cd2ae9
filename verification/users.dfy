/** The user administration service and the user response shared with sign-up. */
module Users {
  import opened Wrappers
  import opened Errors
  import opened Tables
  import opened Schema

  const USER_NOT_FOUND := "User not found"

  /** The user response: every column but the password hash. */
  datatype UserView = UserView(id: int, email: string, fullName: string, role: Role, isActive: bool)

  /** `toResponse(user)`. */
  function ToView(id: int, row: UserRow): (v: UserView)
    ensures v.id == id && v.email == row.email && v.fullName == row.fullName
    ensures v.role == row.role && v.isActive == row.isActive
  {
    UserView(id, row.email, row.fullName, row.role, row.isActive)
  }

  /** The response shows nothing of the password hash: two users that differ only there look the same. */
  lemma ViewHidesHash(id: int, row: UserRow, hash: string)
    ensures ToView(id, row.(passwordHash := hash)) == ToView(id, row)
  {
  }

  /** The responses for a list of rows, in the same order. */
  function UserViews(rows: seq<(int, UserRow)>): (r: seq<UserView>)
    ensures |r| == |rows|
    ensures forall i :: 0 <= i < |r| ==> r[i] == ToView(rows[i].0, rows[i].1)
  {
    seq(|rows|, i requires 0 <= i < |rows| => ToView(rows[i].0, rows[i].1))
  }

  /** A response is listed exactly when its user's row is. */
  lemma UserViewsMembers(s: Store, rows: seq<(int, UserRow)>)
    requires forall p :: p in rows <==> p.0 in s.users.rows && p.1 == s.users.rows[p.0]
    ensures forall v :: v in UserViews(rows) <==> v.id in s.users.rows && v == ToView(v.id, s.users.rows[v.id])
  {
    var r := UserViews(rows);
    forall v: UserView | v.id in s.users.rows && v == ToView(v.id, s.users.rows[v.id]) ensures v in r {
      assert (v.id, s.users.rows[v.id]) in rows;
      var i :| 0 <= i < |rows| && rows[i] == (v.id, s.users.rows[v.id]);
      assert r[i] == v;
    }
    forall v | v in r ensures v.id in s.users.rows && v == ToView(v.id, s.users.rows[v.id]) {
      var i :| 0 <= i < |r| && r[i] == v;
      assert rows[i] in rows;
    }
  }

  /** `findAll()`: every user, by ascending id. */
  function FindAll(s: Store): (r: seq<UserView>)
    requires IdsIssued(s.users)
    ensures forall i, j :: 0 <= i < j < |r| ==> r[i].id < r[j].id
    ensures forall v :: v in r <==> v.id in s.users.rows && v == ToView(v.id, s.users.rows[v.id])
    ensures |r| == |s.users.rows|
  {
    UserViewsMembers(s, AllRows(s.users));
    UserViews(AllRows(s.users))
  }

  /** `updateStatus(id, dto)`: the user must exist; only its `isActive` changes. */
  function UpdateStatus(s: Store, id: int, active: bool): (r: Reply<UserView>)
    requires Wf(s)
    ensures Wf(r.store)
    ensures r.result.Err? <==> id !in s.users.rows
    ensures r.result.Err? ==> r == Reply(s, Err(HttpError(NotFound, USER_NOT_FOUND)))
    ensures r.result.Ok? ==> && r.store.users.rows.Keys == s.users.rows.Keys
                             && r.store.users.rows[id].isActive == active
                             && r.store.users.rows[id] == s.users.rows[id].(isActive := active)
                             && (forall k :: k in s.users.rows && k != id ==> r.store.users.rows[k] == s.users.rows[k])
                             && r.store == s.(users := r.store.users)
                             && r.result.value == ToView(id, r.store.users.rows[id])
  {
    if id !in s.users.rows then Reply(s, Err(HttpError(NotFound, USER_NOT_FOUND)))
    else
      var s' := SetUserActive(s, id, active);
      Reply(s', Ok(ToView(id, s'.users.rows[id])))
  }

  /** Setting the status back to what it was gives back the store. */
  lemma UpdateStatusUndo(s: Store, id: int, active: bool)
    requires Wf(s) && id in s.users.rows
    ensures UpdateStatus(UpdateStatus(s, id, active).store, id, s.users.rows[id].isActive).store == s
  {
    var row := s.users.rows[id];
    assert row.(isActive := active).(isActive := row.isActive) == row;
    assert s.users.rows[id := row] == s.users.rows;
  }
}
