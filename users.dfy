/** `UsersService`: plain CRUD over the user table. Its lookups throw a plain
    `Error`, and its create and update write the request's fields as given,
    with no check on the email. */
module Users {

  import opened Exceptions
  import opened Tables
  import opened Store
  import opened Pagination

  /** `CreateUserDto`: a name, an email and an optional age. */
  datatype UserInput = UserInput(name: string, email: string, age: Option<int>)

  /** `UpdateUserDto`: every field of the create DTO, each optional. */
  datatype UserPatch = UserPatch(name: Option<string>, email: Option<string>, age: Option<int>)

  const NotFoundError := PlainError("User not found")

  function Patched(u: User, patch: UserPatch): User {
    u.(name := patch.name.GetOr(u.name), email := patch.email.GetOr(u.email),
       age := if patch.age.Some? then patch.age else u.age)
  }

  class UsersService {
    const db: Database

    constructor (db: Database)
      ensures this.db == db
    {
      this.db := db;
    }

    /** `findAll`: newest first, `skip: page * size`, `take: size`, counting
        every user. The rows are returned whole, stored password included. */
    function FindAll(page: nat, size: nat): (r: Paginated<UserRow>)
      requires size >= 1
      reads db
      ensures |r.content| == PageLength(|db.users|, page, size) && r.page.totalElements == |db.users|
      ensures r.page.number == page && r.page.totalPages == CeilDiv(|db.users|, size)
      ensures forall k :: 0 <= k < |r.content| ==>
                page * size + k < |db.users| &&
                r.content[k] == db.users[|db.users| - 1 - (page * size + k)]
    {
      CreatePaginatedResponse(Window(NewestFirst(db.users), page * size, size), |db.users|, page, size)
    }

    function FindOne(id: string): (r: Result<UserRow>)
      reads db
      ensures r.Ok? <==> id in Ids(db.users)
      ensures r.Ok? ==> r.value in db.users && r.value.id == id
      ensures r.Err? ==> r.error == NotFoundError && !r.error.Http?
    {
      match Find(db.users, id)
      case None => Err(NotFoundError)
      case Some(u) => Ok(u)
    }

    /** `create`: the request's fields as given, no password and no
        customizer. */
    method Create(dto: UserInput, newId: string) returns (r: UserRow)
      requires db.Valid() && newId !in Ids(db.users)
      modifies db
      ensures db.Valid()
      ensures r == Row(newId, User(dto.name, dto.email, None, dto.age, None))
      ensures db.State() == old(db.State()).(users := old(db.users) + [r])
    {
      r := Row(newId, User(dto.name, dto.email, None, dto.age, None));
      ghost var after := db.State().(users := db.users + [r]);
      AppendKeepsWellFormed(db.users, r);
      db.users := db.users + [r];
      assert db.State() == after;
    }

    /** `update`: the existence check first, so a missing id throws and
        nothing changes; otherwise the patch is written over that row alone. */
    method Update(id: string, patch: UserPatch) returns (r: Result<UserRow>)
      requires db.Valid()
      modifies db
      ensures db.Valid()
      ensures id !in Ids(old(db.users)) ==> r == Err(NotFoundError) && db.State() == old(db.State())
      ensures id in Ids(old(db.users)) ==>
                var i := IndexOf(old(db.users), id).value;
                var u := old(db.users)[i];
                var updated := Row(id, Patched(u.data, patch));
                && r == Ok(updated)
                && db.State() == old(db.State()).(users := old(db.users)[i := updated])
                && updated.data.password == u.data.password && updated.data.customizer == u.data.customizer
    {
      var existing := FindOne(id);
      if existing.Err? {
        return Err(existing.error);
      }
      var i := IndexOf(db.users, id).value;
      var u := db.users[i];
      var updated := Row(id, Patched(u.data, patch));
      ReplaceKeepsWellFormed(db.users, i, updated.data);
      db.users := db.users[i := updated];
      r := Ok(updated);
    }

    /** `remove`: the existence check first, so a missing id throws and
        nothing changes; otherwise exactly that row goes. */
    method Remove(id: string) returns (r: Result<UserRow>)
      requires db.Valid()
      modifies db
      ensures db.Valid()
      ensures id !in Ids(old(db.users)) ==> r == Err(NotFoundError) && db.State() == old(db.State())
      ensures id in Ids(old(db.users)) ==>
                var i := IndexOf(old(db.users), id).value;
                && r == Ok(old(db.users)[i])
                && db.State() == old(db.State()).(users := RemoveAt(old(db.users), i))
                && Ids(db.users) == Ids(old(db.users)) - {id}
    {
      var existing := FindOne(id);
      if existing.Err? {
        return Err(existing.error);
      }
      var i := IndexOf(db.users, id).value;
      r := Ok(db.users[i]);
      RemoveKeepsWellFormed(db.users, i);
      RemovedIdIsGone(db.users, i);
      db.users := RemoveAt(db.users, i);
    }
  }
}
