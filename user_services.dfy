/**
 * The user services: registering a user or an administrator together with a default
 * catalog, updating a user's details, and deleting a user with everything they own.
 * Password hashing is a parameter: the model only records that the stored password is the
 * hash of the sent one.
 */
module UserServices {
  import opened Common
  import Db

  /** A request body; an absent field is `None`. */
  datatype UserInput = UserInput(
    name: Option<string>, email: Option<string>, password: Option<string>, isAdmin: Option<bool>)

  const CreateRequired := "Erro ao criar usuário: Todos os campos são obrigatórios."
  const UpdateRequired := "Erro ao atualizar usuário: Nome e email são obrigatórios."
  const AdminRequired := "Nome, email e senha são obrigatórios."
  const NameInUse := "Nome de usuário já está em uso."
  const EmailInUse := "Email já está em uso."
  const UpdateNotFound := "Erro ao atualizar usuário: Usuário não encontrado."
  const DeleteNotFound := "Erro ao deletar usuário: Usuário não encontrado."
  const DeleteOwnNotFound := "Erro ao excluir a própria conta: Usuário não encontrado."

  /** The name of the catalog created with every account. */
  function FavoritesName(name: string): (r: string)
    ensures |r| == |"Favoritos de "| + |name| && r[|"Favoritos de "|..] == name
  {
    "Favoritos de " + name
  }

  /** Some user in `users` already holds the name (the unique index on `name`). */
  predicate NameTaken(users: map<Db.Id, Db.User>, name: string) {
    exists id :: id in users && users[id].name == name
  }

  /** Some user in `users` already holds the email (the unique index on `email`). */
  predicate EmailTaken(users: map<Db.Id, Db.User>, email: string) {
    exists id :: id in users && users[id].email == email
  }

  /** All three fields are truthy strings. */
  predicate Complete(input: UserInput) {
    Truthy(input.name) && Truthy(input.email) && Truthy(input.password)
  }

  /**
   * `createUser`: a missing field, then a name and then an email collision are errors;
   * otherwise one non-admin user holding the hashed password and one empty catalog named
   * after them are inserted, and the reply is 201.
   */
  method CreateUser(db: Db.Store, input: UserInput, hash: string -> string) returns (reply: Reply)
    requires db.Valid()
    modifies db`users, db`nextUserId, db`catalogs, db`nextCatalogId
    ensures db.Valid()
    ensures !Complete(input) ==> reply == Thrown(CreateRequired)
    ensures Complete(input) && NameTaken(old(db.users), input.name.value) ==> reply == Thrown(NameInUse)
    ensures Complete(input) && !NameTaken(old(db.users), input.name.value) && EmailTaken(old(db.users), input.email.value) ==>
      reply == Thrown(EmailInUse)
    ensures reply != Status(201) ==> db.users == old(db.users) && db.catalogs == old(db.catalogs)
    ensures reply == Status(201) <==>
      Complete(input) && !NameTaken(old(db.users), input.name.value) && !EmailTaken(old(db.users), input.email.value)
    ensures reply == Status(201) ==>
      && db.users == old(db.users)[old(db.nextUserId) := Db.User(input.name.value, input.email.value, hash(input.password.value), false)]
      && db.catalogs == old(db.catalogs)[old(db.nextCatalogId) := Db.Catalog(FavoritesName(input.name.value), old(db.nextUserId), {})]
  {
    if !Complete(input) {
      return Thrown(CreateRequired);
    }
    reply := Register(db, input, hash, false);
    if reply.Thrown? {
      return;
    }
    reply := Status(201);
  }

  /**
   * `createAdmin`: as `createUser` but the row is an administrator, the missing-field message
   * differs and a unique-index violation is rethrown with the store's own `storeMessage`.
   */
  method CreateAdmin(db: Db.Store, input: UserInput, hash: string -> string, storeMessage: string) returns (reply: Reply)
    requires db.Valid()
    modifies db`users, db`nextUserId, db`catalogs, db`nextCatalogId
    ensures db.Valid()
    ensures !Complete(input) ==> reply == Thrown(AdminRequired)
    ensures Complete(input) && (NameTaken(old(db.users), input.name.value) || EmailTaken(old(db.users), input.email.value)) ==>
      reply == Thrown(storeMessage)
    ensures reply != Status(201) ==> db.users == old(db.users) && db.catalogs == old(db.catalogs)
    ensures reply == Status(201) <==>
      Complete(input) && !NameTaken(old(db.users), input.name.value) && !EmailTaken(old(db.users), input.email.value)
    ensures reply == Status(201) ==>
      && db.users == old(db.users)[old(db.nextUserId) := Db.User(input.name.value, input.email.value, hash(input.password.value), true)]
      && db.catalogs == old(db.catalogs)[old(db.nextCatalogId) := Db.Catalog(FavoritesName(input.name.value), old(db.nextUserId), {})]
  {
    if !Complete(input) {
      return Thrown(AdminRequired);
    }
    reply := Register(db, input, hash, true);
    if reply.Thrown? {
      return Thrown(storeMessage);
    }
  }

  /** The shared `user.create` with its nested catalog, and the unique-index errors it raises. */
  method Register(db: Db.Store, input: UserInput, hash: string -> string, isAdmin: bool) returns (reply: Reply)
    requires db.Valid() && Complete(input)
    modifies db`users, db`nextUserId, db`catalogs, db`nextCatalogId
    ensures db.Valid()
    ensures NameTaken(old(db.users), input.name.value) ==> reply == Thrown(NameInUse)
    ensures !NameTaken(old(db.users), input.name.value) && EmailTaken(old(db.users), input.email.value) ==> reply == Thrown(EmailInUse)
    ensures reply.Thrown? ==> db.users == old(db.users) && db.catalogs == old(db.catalogs)
    ensures reply == Status(201) <==> !NameTaken(old(db.users), input.name.value) && !EmailTaken(old(db.users), input.email.value)
    ensures reply == Status(201) ==>
      && db.users == old(db.users)[old(db.nextUserId) := Db.User(input.name.value, input.email.value, hash(input.password.value), isAdmin)]
      && db.catalogs == old(db.catalogs)[old(db.nextCatalogId) := Db.Catalog(FavoritesName(input.name.value), old(db.nextUserId), {})]
  {
    var name, email := input.name.value, input.email.value;
    if NameTaken(db.users, name) {
      return Thrown(NameInUse);
    }
    if EmailTaken(db.users, email) {
      return Thrown(EmailInUse);
    }
    var userId, catalogId := db.CreateUserRow(Db.User(name, email, hash(input.password.value), isAdmin), FavoritesName(name));
    reply := Status(201);
  }

  /**
   * The row after `updateUser`: the sent name and email, the hash of the password when one
   * was sent, and the sent `isAdmin` or else the stored one.
   */
  function UpdatedUser(u: Db.User, input: UserInput, hash: string -> string): (r: Db.User)
    requires Truthy(input.name) && Truthy(input.email)
    ensures r.name == input.name.value && r.email == input.email.value
    ensures r.password == (if Truthy(input.password) then hash(input.password.value) else u.password)
    ensures r.isAdmin == input.isAdmin.GetOr(u.isAdmin)
  {
    var password := if Truthy(input.password) then hash(input.password.value) else u.password;
    Db.User(input.name.value, input.email.value, password, input.isAdmin.GetOr(u.isAdmin))
  }

  /** Sending back a user's own name and email with no password or role changes nothing. */
  lemma ResubmitIsIdentity(u: Db.User, hash: string -> string)
    requires u.name != "" && u.email != ""
    ensures UpdatedUser(u, UserInput(Some(u.name), Some(u.email), None, None), hash) == u
    ensures UpdatedUser(u, UserInput(Some(u.name), Some(u.email), Some(""), Some(u.isAdmin)), hash) == u
  {
  }

  /**
   * `updateUser`: missing name or email, a missing user, then a name or email held by another
   * user are errors; otherwise the row becomes `UpdatedUser` and the reply is 200.
   */
  method UpdateUser(db: Db.Store, userId: Db.Id, input: UserInput, hash: string -> string) returns (reply: Reply)
    requires db.Valid()
    modifies db`users
    ensures db.Valid()
    ensures !(Truthy(input.name) && Truthy(input.email)) ==> reply == Thrown(UpdateRequired)
    ensures Truthy(input.name) && Truthy(input.email) && userId !in old(db.users) ==> reply == Thrown(UpdateNotFound)
    ensures Truthy(input.name) && Truthy(input.email) && userId in old(db.users) && NameTaken(old(db.users) - {userId}, input.name.value) ==>
      reply == Thrown(NameInUse)
    ensures (Truthy(input.name) && Truthy(input.email) && userId in old(db.users) && !NameTaken(old(db.users) - {userId}, input.name.value)
      && EmailTaken(old(db.users) - {userId}, input.email.value)) ==> reply == Thrown(EmailInUse)
    ensures reply != Status(200) ==> db.users == old(db.users)
    ensures reply == Status(200) <==>
      Truthy(input.name) && Truthy(input.email) && userId in old(db.users)
      && !NameTaken(old(db.users) - {userId}, input.name.value) && !EmailTaken(old(db.users) - {userId}, input.email.value)
    ensures reply == Status(200) ==> db.users == old(db.users)[userId := UpdatedUser(old(db.users)[userId], input, hash)]
  {
    if !(Truthy(input.name) && Truthy(input.email)) {
      return Thrown(UpdateRequired);
    }
    if userId !in db.users {
      return Thrown(UpdateNotFound);
    }
    if NameTaken(db.users - {userId}, input.name.value) {
      return Thrown(NameInUse);
    }
    if EmailTaken(db.users - {userId}, input.email.value) {
      return Thrown(EmailInUse);
    }
    assert forall other :: other in db.users && other != userId ==> other in db.users - {userId};
    db.UpdateUserRow(userId, UpdatedUser(db.users[userId], input, hash));
    reply := Status(200);
  }

  /** `deleteUser`: a missing user is an error; otherwise the user, their reviews and their catalogs go. */
  method DeleteUser(db: Db.Store, userId: Db.Id) returns (reply: Reply)
    requires db.Valid()
    modifies db`reviews, db`catalogs, db`users
    ensures db.Valid() && db.games == old(db.games)
    ensures userId !in old(db.users) ==>
      reply == Thrown(DeleteNotFound) && db.users == old(db.users) && db.reviews == old(db.reviews) && db.catalogs == old(db.catalogs)
    ensures userId in old(db.users) ==>
      && reply == Status(200)
      && db.users == old(db.users) - {userId}
      && db.reviews == Db.WithoutAuthor(old(db.reviews), userId)
      && db.catalogs == Db.WithoutOwner(old(db.catalogs), userId)
  {
    if userId !in db.users {
      return Thrown(DeleteNotFound);
    }
    db.DeleteUserCascade(userId);
    reply := Status(200);
  }

  /** `deleteOwnUser`: the same cascade, with the self-service error message. */
  method DeleteOwnUser(db: Db.Store, userId: Db.Id) returns (reply: Reply)
    requires db.Valid()
    modifies db`reviews, db`catalogs, db`users
    ensures db.Valid() && db.games == old(db.games)
    ensures userId !in old(db.users) ==>
      reply == Thrown(DeleteOwnNotFound) && db.users == old(db.users) && db.reviews == old(db.reviews) && db.catalogs == old(db.catalogs)
    ensures userId in old(db.users) ==>
      && reply == Status(200)
      && db.users == old(db.users) - {userId}
      && db.reviews == Db.WithoutAuthor(old(db.reviews), userId)
      && db.catalogs == Db.WithoutOwner(old(db.catalogs), userId)
  {
    if userId !in db.users {
      return Thrown(DeleteOwnNotFound);
    }
    db.DeleteUserCascade(userId);
    reply := Status(200);
  }

  /** After the cascade nothing in the store refers to the deleted user. */
  lemma CascadeLeavesNoTrace(reviews: map<Db.Id, Db.Review>, catalogs: map<Db.Id, Db.Catalog>, userId: Db.Id)
    ensures forall id :: id in Db.WithoutAuthor(reviews, userId) ==> Db.WithoutAuthor(reviews, userId)[id].userId != userId
    ensures forall id :: id in Db.WithoutOwner(catalogs, userId) ==> Db.WithoutOwner(catalogs, userId)[id].userId != userId
    ensures forall id :: id in reviews && reviews[id].userId != userId ==> id in Db.WithoutAuthor(reviews, userId)
  {
  }

  /** A game none of whose reviews is by the deleted user keeps a fresh aggregate. */
  lemma CascadeKeepsOtherGamesFresh(reviews: map<Db.Id, Db.Review>, userId: Db.Id, gameId: Db.Id)
    requires forall id :: id in reviews && reviews[id].gameId == gameId ==> reviews[id].userId != userId
    ensures Db.RefreshedAverage(Db.WithoutAuthor(reviews, userId), gameId) == Db.RefreshedAverage(reviews, gameId)
  {
    var before := Db.ReviewsOf(reviews, gameId);
    var after := Db.ReviewsOf(Db.WithoutAuthor(reviews, userId), gameId);
    assert forall id :: id in after <==> id in before;
    assert after.Keys == before.Keys;
    assert forall id :: id in after ==> after[id] == before[id];
    assert after == before;
  }

  /**
   * The cascade does not refresh aggregates: a game whose only reviews are by the deleted
   * user keeps its old non-null aggregate although it now has no review.
   */
  lemma CascadeLeavesStaleAggregate(reviews: map<Db.Id, Db.Review>, games: map<Db.Id, Db.Game>, userId: Db.Id, gameId: Db.Id, reviewId: Db.Id)
    requires Db.AllFresh(reviews, games) && gameId in games
    requires reviewId in reviews && reviews[reviewId].gameId == gameId && reviews[reviewId].userId == userId
    requires forall id :: id in reviews && reviews[id].gameId == gameId ==> reviews[id].userId == userId
    ensures games[gameId].averageReviewRating.Some?
    ensures Db.RefreshedAverage(Db.WithoutAuthor(reviews, userId), gameId) == None
    ensures !Db.AllFresh(Db.WithoutAuthor(reviews, userId), games)
  {
    var before := Db.ReviewsOf(reviews, gameId);
    assert reviewId in before;
    Db.MemberMeansNonEmpty(before, reviewId);
    var after := Db.ReviewsOf(Db.WithoutAuthor(reviews, userId), gameId);
    if |after| != 0 {
      Db.HasKey(after);
      assert false;
    }
  }
}
