/** The user registry: create, partial update, read, list and delete, with
    e-mail addresses kept unique. */
module UserService {
  import opened Common
  import opened Model

  /** A partial update; a missing (null) field leaves the stored value. */
  datatype UserPatch = UserPatch(name: Option<string>, email: Option<string>)

  /** Some stored user already has this e-mail (existsByEmail). */
  predicate EmailTaken(users: seq<User>, email: string) {
    exists u :: u in users && u.email == email
  }

  predicate EmailsUnique(users: seq<User>) {
    forall i, j :: 0 <= i < j < |users| ==> users[i].email != users[j].email
  }

  /** The registry invariant: identifiers and e-mails are unique. */
  predicate WellFormed(users: seq<User>) {
    UniqueIds(users, UserId) && EmailsUnique(users)
  }

  /** Registers a user; an e-mail already in use is a Conflict. */
  function Create(users: seq<User>, name: string, email: string): (r: Result<(User, seq<User>)>)
    ensures EmailTaken(users, email) <==> r == Err(Conflict)
    ensures !EmailTaken(users, email) ==> r.Ok?
    ensures r.Ok? ==>
              var (u, store) := r.value;
              && store == users + [u]
              && u.name == name && u.email == email
              && forall x :: x in users ==> x.id != u.id
  {
    if EmailTaken(users, email) then Err(Conflict)
    else
      var u := User(FreshId(users, UserId), name, email);
      Ok((u, users + [u]))
  }

  /** Changes the supplied fields of user `userId`. The uniqueness check runs
      only when a new e-mail differs from the user's current one. */
  function Update(users: seq<User>, userId: int, patch: UserPatch): (r: Result<(User, seq<User>)>)
    ensures FindUser(users, userId).None? ==> r == Err(NotFound)
    ensures FindUser(users, userId).Some? ==>
              var prior := FindUser(users, userId).value;
              var changes := patch.email.Some? && patch.email.value != prior.email;
              && (changes && EmailTaken(users, patch.email.value) ==> r == Err(Conflict))
              && (!(changes && EmailTaken(users, patch.email.value)) ==> r.Ok?)
    ensures r.Ok? ==>
              var (u, store) := r.value;
              var prior := FindUser(users, userId).value;
              && u.id == prior.id
              && (patch.name.Some? ==> u.name == patch.name.value)
              && (patch.name.None? ==> u.name == prior.name)
              && (patch.email.Some? ==> u.email == patch.email.value)
              && (patch.email.None? ==> u.email == prior.email)
              && |store| == |users|
              && (forall i :: 0 <= i < |store| && users[i].id != userId ==> store[i] == users[i])
              && (forall i :: 0 <= i < |store| && users[i].id == userId ==> store[i] == u)
  {
    var found := FindUser(users, userId);
    if found.None? then Err(NotFound)
    else
      var prior := found.value;
      if patch.email.Some? && patch.email.value != prior.email && EmailTaken(users, patch.email.value) then
        Err(Conflict)
      else
        var u := prior.(
          name := if patch.name.Some? then patch.name.value else prior.name,
          email := if patch.email.Some? then patch.email.value else prior.email);
        Ok((u, Save(users, u, UserId)))
  }

  /** Re-submitting one's own e-mail never conflicts. */
  lemma OwnEmailNeverConflicts(users: seq<User>, userId: int, name: Option<string>)
    requires FindUser(users, userId).Some?
    ensures Update(users, userId, UserPatch(name, Some(FindUser(users, userId).value.email))).Ok?
  {
  }

  function GetById(users: seq<User>, userId: int): (r: Result<User>)
    ensures r.Ok? <==> exists u :: u in users && u.id == userId
    ensures r.Ok? ==> r.value in users && r.value.id == userId
    ensures r.Err? ==> r.error == NotFound
  {
    var found := FindUser(users, userId);
    if found.None? then Err(NotFound) else Ok(found.value)
  }

  /** findAll: every stored user once, in no promised order. */
  function GetAll(users: seq<User>): (r: seq<User>)
    ensures multiset(r) == multiset(users)
  {
    users
  }

  /** Removes user `userId`; an unknown id is NotFound. */
  function Delete(users: seq<User>, userId: int): (r: Result<seq<User>>)
    ensures FindUser(users, userId).None? <==> r == Err(NotFound)
    ensures FindUser(users, userId).Some? ==> r.Ok?
    ensures r.Ok? ==> forall u :: u in r.value <==> u in users && u.id != userId
    ensures r.Ok? ==> forall u :: multiset(r.value)[u] == if u.id != userId then multiset(users)[u] else 0
  {
    if FindUser(users, userId).None? then Err(NotFound)
    else Ok(Filter(users, (u: User) => u.id != userId))
  }

  /** After a successful delete the user can no longer be read. */
  lemma DeleteThenGetIsNotFound(users: seq<User>, userId: int)
    requires Delete(users, userId).Ok?
    ensures GetById(Delete(users, userId).value, userId) == Err(NotFound)
  {
  }

  /** A successful create keeps identifiers and e-mails unique. */
  lemma {:induction false} CreateKeepsWellFormed(users: seq<User>, name: string, email: string)
    requires WellFormed(users)
    requires Create(users, name, email).Ok?
    ensures WellFormed(Create(users, name, email).value.1)
  {
    var (u, store) := Create(users, name, email).value;
    AppendFreshKeepsUnique(users, UserId, u);
    forall i, j | 0 <= i < j < |store|
      ensures store[i].email != store[j].email
    {
      assert store[i] == users[i];
      if j == |users| {
        assert users[i] in users;
      } else {
        assert store[j] == users[j];
      }
    }
  }

  /** A successful delete keeps identifiers and e-mails unique. */
  lemma {:induction false} DeleteKeepsWellFormed(users: seq<User>, userId: int)
    requires WellFormed(users)
    requires Delete(users, userId).Ok?
    ensures WellFormed(Delete(users, userId).value)
  {
    var keep := (u: User) => u.id != userId;
    var email := (u: User) => u.email;
    assert DistinctBy(users, UserId);
    assert DistinctBy(users, email);
    FilterKeepsDistinct(users, keep, UserId);
    FilterKeepsDistinct(users, keep, email);
    var r := Filter(users, keep);
    assert Delete(users, userId).value == r;
    assert forall i, j :: 0 <= i < j < |r| ==> email(r[i]) != email(r[j]);
  }

  /** A successful update keeps identifiers and e-mails unique. */
  lemma {:induction false} UpdateKeepsWellFormed(users: seq<User>, userId: int, patch: UserPatch)
    requires WellFormed(users)
    requires Update(users, userId, patch).Ok?
    ensures WellFormed(Update(users, userId, patch).value.1)
  {
    var (u, store) := Update(users, userId, patch).value;
    var prior := FindUser(users, userId).value;
    var k :| 0 <= k < |users| && users[k] == prior;
    // Only row k carries the id, so only row k changes.
    forall i | 0 <= i < |users| && i != k
      ensures store[i] == users[i]
    {
      assert UserId(users[i]) != UserId(users[k]);
    }
    assert store[k] == u;
    forall i, j | 0 <= i < j < |store|
      ensures store[i].id != store[j].id && store[i].email != store[j].email
    {
      assert UserId(users[i]) != UserId(users[j]);
      if i == k {
        assert store[j] == users[j];
        assert users[j] in users;
      } else if j == k {
        assert store[i] == users[i];
        assert users[i] in users;
      } else {
        assert store[i] == users[i] && store[j] == users[j];
      }
    }
  }
}
