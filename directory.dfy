/** The lookups the core consumes: the user table (read, and written when a
    user becomes a tutor) and the subject catalogue (read only). */
module Directory {
  import opened Wrappers
  import opened Entities

  /** The user table, keyed by id. */
  class UserRepository {
    var users: map<UserId, User>

    ghost predicate Valid()
      reads this
    {
      forall k :: k in users ==> users[k].id == k
    }

    constructor (initial: map<UserId, User>)
      requires forall k :: k in initial ==> initial[k].id == k
      ensures Valid() && users == initial
    {
      users := initial;
    }

    /** The user with that id, or null: the lookup never raises. */
    function FindUserById(id: UserId): (r: Option<User>)
      reads this
      requires Valid()
      ensures r.Some? <==> id in users
      ensures r.Some? ==> r.value.id == id && r.value == users[id]
    {
      if id in users then Some(users[id]) else None
    }

    /** Saves a user row: it replaces the row with the same id. */
    method UpdateUser(u: User)
      requires Valid()
      modifies this
      ensures Valid()
      ensures users == old(users)[u.id := u]
    {
      users := users[u.id := u];
    }
  }

  /** Every subject sits under its own id. */
  predicate MateriasKeyed(catalog: map<MateriaId, Materia>)
  {
    forall k :: k in catalog ==> catalog[k].id == k
  }

  /** The subject with that id, or null. */
  function FindMateria(catalog: map<MateriaId, Materia>, id: MateriaId): (r: Option<Materia>)
    ensures r.Some? <==> id in catalog
    ensures r.Some? ==> r.value == catalog[id]
  {
    if id in catalog then Some(catalog[id]) else None
  }

  /** The subjects whose ids are listed, each id taken once; ids with no subject are
      dropped. Each stored subject comes back at most once. */
  function FindByIds(catalog: map<MateriaId, Materia>, ids: seq<MateriaId>): (r: seq<Materia>)
    requires MateriasKeyed(catalog)
    ensures forall m :: m in r ==> m.id in ids && m.id in catalog && catalog[m.id] == m
    ensures forall id :: id in ids && id in catalog ==> catalog[id] in r
    ensures forall i, j :: 0 <= i < j < |r| ==> r[i].id != r[j].id
    ensures |r| <= |ids|
    decreases |ids|
  {
    if ids == [] then []
    else
      var front, last := ids[..|ids| - 1], ids[|ids| - 1];
      assert ids == front + [last];
      var r0 := FindByIds(catalog, front);
      if last in catalog && last !in front then r0 + [catalog[last]] else r0
  }
}
