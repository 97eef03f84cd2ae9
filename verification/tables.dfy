/**
  A table with an auto-increment integer primary key, and the two ways the
  services read one: every row in key order, and the first row matching a
  `WHERE` condition.
 */
module Tables {
  import opened Wrappers

  /** The rows by primary key, and the key the next insert receives. */
  datatype Table<V> = Table(rows: map<int, V>, next: nat)

  /** Every key was handed out by the counter: keys start at 1 and stay below `next`. */
  predicate IdsIssued<V>(t: Table<V>) {
    t.next >= 1 && forall k :: k in t.rows ==> 1 <= k < t.next
  }

  /** Writing back the row a key already holds changes nothing. */
  lemma UpdateSame<V>(m: map<int, V>, k: int, v: V)
    requires k in m && m[k] == v
    ensures m[k := v] == m
  {
  }

  /** `INSERT`: the new row receives the counter's value as its key. */
  function Insert<V>(t: Table<V>, v: V): (r: (Table<V>, int))
    ensures r.1 == t.next
    ensures r.0 == Table(t.rows[t.next := v], t.next + 1)
    ensures IdsIssued(t) ==> r.1 !in t.rows && IdsIssued(r.0)
  {
    (Table(t.rows[t.next := v], t.next + 1), t.next)
  }

  /** The rows of `m` whose key lies in `[0, n)`, in ascending key order. */
  function Ascending<V(!new)>(m: map<int, V>, n: nat): (r: seq<(int, V)>)
    ensures forall p :: p in r <==> p.0 in m && 0 <= p.0 < n && p.1 == m[p.0]
    ensures forall i, j :: 0 <= i < j < |r| ==> r[i].0 < r[j].0
    ensures forall i :: 0 <= i < |r| ==> r[i].0 < n
  {
    if n == 0 then []
    else
      var prefix := Ascending(m, n - 1);
      if n - 1 in m then prefix + [(n - 1, m[n - 1])] else prefix
  }

  /** The rows of `m` whose key lies in `[0, n)`, in descending key order. */
  function Descending<V(!new)>(m: map<int, V>, n: nat): (r: seq<(int, V)>)
    ensures forall p :: p in r <==> p.0 in m && 0 <= p.0 < n && p.1 == m[p.0]
    ensures forall i, j :: 0 <= i < j < |r| ==> r[i].0 > r[j].0
    ensures forall i :: 0 <= i < |r| ==> r[i].0 < n
  {
    if n == 0 then []
    else
      var rest := Descending(m, n - 1);
      if n - 1 in m then [(n - 1, m[n - 1])] + rest else rest
  }

  /** The keys a sequence of rows carries. */
  function KeysOf<V>(r: seq<(int, V)>): set<int> {
    set i | 0 <= i < |r| :: r[i].0
  }

  /** Rows with pairwise different keys carry as many keys as there are rows. */
  lemma {:induction false} KeysCount<V>(r: seq<(int, V)>)
    requires forall i, j :: 0 <= i < j < |r| ==> r[i].0 != r[j].0
    ensures |KeysOf(r)| == |r|
    decreases |r|
  {
    if |r| > 0 {
      var init := r[..|r| - 1];
      KeysCount(init);
      assert KeysOf(r) == KeysOf(init) + {r[|r| - 1].0};
      assert r[|r| - 1].0 !in KeysOf(init);
    }
  }

  /** A listing that holds exactly the rows of `m`, each key once, has one entry per row. */
  lemma RowCount<V>(r: seq<(int, V)>, m: map<int, V>)
    requires forall i, j :: 0 <= i < j < |r| ==> r[i].0 != r[j].0
    requires forall p :: p in r <==> p.0 in m && p.1 == m[p.0]
    ensures |r| == |m|
  {
    KeysCount(r);
    forall k | k in m ensures k in KeysOf(r) {
      assert (k, m[k]) in r;
    }
    forall i | 0 <= i < |r| ensures r[i].0 in m {
      assert r[i] in r;
    }
    assert m.Keys == KeysOf(r);
  }

  /** Every row of a table, in ascending key order (`ORDER BY id ASC`). */
  function AllRows<V(!new)>(t: Table<V>): (r: seq<(int, V)>)
    requires IdsIssued(t)
    ensures forall p :: p in r <==> p.0 in t.rows && p.1 == t.rows[p.0]
    ensures forall i, j :: 0 <= i < j < |r| ==> r[i].0 < r[j].0
    ensures |r| == |t.rows|
  {
    var r := Ascending(t.rows, t.next);
    RowCount(r, t.rows);
    r
  }

  /** The smallest key in `[0, n)` whose row satisfies `p`. */
  function FirstWhere<V>(m: map<int, V>, p: V -> bool, n: nat): (r: Option<int>)
    ensures r.Some? ==> r.value in m && 0 <= r.value < n && p(m[r.value])
    ensures r.Some? ==> forall k :: k in m && 0 <= k < r.value ==> !p(m[k])
    ensures r.None? ==> forall k :: k in m && 0 <= k < n ==> !p(m[k])
  {
    if n == 0 then None
    else
      match FirstWhere(m, p, n - 1)
      case Some(k) => Some(k)
      case None => if n - 1 in m && p(m[n - 1]) then Some(n - 1) else None
  }

  /** `findOne({ where })`: a row satisfying `p`, if the table has one. */
  function FindWhere<V>(t: Table<V>, p: V -> bool): (r: Option<int>)
    requires IdsIssued(t)
    ensures r.Some? ==> r.value in t.rows && p(t.rows[r.value])
    ensures r.None? <==> forall k :: k in t.rows ==> !p(t.rows[k])
  {
    FirstWhere(t.rows, p, t.next)
  }
}
