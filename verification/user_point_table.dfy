/**
 The balance table, as the service uses it: a key/value store from user id to
 balance in which a user that was never written reads as balance 0 and a
 write replaces the stored balance outright.
 */
module UserPointTable {
  import opened Points

  /** Stored balances; an id outside the domain has never been written. */
  type Table = map<int, int>

  /** The table before any write. */
  function Empty(): (t: Table)
    ensures forall id :: SelectById(t, id) == UserPoint(id, 0)
  {
    map[]
  }

  /** The balance stored for `id`, or 0 when `id` was never written. */
  function Balance(t: Table, id: int): int
  {
    if id in t then t[id] else 0
  }

  /** Reads the snapshot of one user; an unknown user is not an error but
      reads as that id with balance 0. */
  function SelectById(t: Table, id: int): (r: UserPoint)
    ensures r.id == id
    ensures id !in t ==> r.point == 0
    ensures id in t ==> r.point == t[id]
  {
    UserPoint(id, Balance(t, id))
  }

  /** Replaces the balance of `id` and returns the new table together with
      the snapshot the write produced. Nothing is validated here. */
  function InsertOrUpdate(t: Table, id: int, point: int): (r: (Table, UserPoint))
    ensures r.1 == UserPoint(id, point)
    ensures SelectById(r.0, id) == r.1
    ensures forall other :: other != id ==> SelectById(r.0, other) == SelectById(t, other)
  {
    (t[id := point], UserPoint(id, point))
  }
}
