/**
 * The catalog services: creating, renaming and deleting a user's catalog, and adding or
 * removing a game in its many-to-many `games` relation, each with its status codes.
 */
module CatalogServices {
  import opened Common
  import Db

  /** A request body; an absent field is `None`. */
  datatype CatalogInput = CatalogInput(name: Option<string>, userId: Option<Db.Id>)

  /**
   * `catalog.findFirst({ where: { name, userId } })`: Prisma ignores a filter whose value is
   * `undefined`, so an absent field matches every catalog.
   */
  predicate Matches(c: Db.Catalog, input: CatalogInput) {
    (input.name.None? || c.name == input.name.value) && (input.userId.None? || c.userId == input.userId.value)
  }

  predicate AnyMatch(catalogs: map<Db.Id, Db.Catalog>, input: CatalogInput) {
    exists id :: id in catalogs && Matches(catalogs[id], input)
  }

  /** The catalog table with one game connected to one catalog. */
  function WithGame(catalogs: map<Db.Id, Db.Catalog>, catalogId: Db.Id, gameId: Db.Id): (r: map<Db.Id, Db.Catalog>)
    requires catalogId in catalogs
    ensures r.Keys == catalogs.Keys
    ensures r[catalogId] == catalogs[catalogId].(games := catalogs[catalogId].games + {gameId})
    ensures forall id :: id in catalogs && id != catalogId ==> r[id] == catalogs[id]
  {
    catalogs[catalogId := catalogs[catalogId].(games := catalogs[catalogId].games + {gameId})]
  }

  /** The catalog table with one game disconnected from one catalog. */
  function WithoutGame(catalogs: map<Db.Id, Db.Catalog>, catalogId: Db.Id, gameId: Db.Id): (r: map<Db.Id, Db.Catalog>)
    requires catalogId in catalogs
    ensures r.Keys == catalogs.Keys
    ensures r[catalogId] == catalogs[catalogId].(games := catalogs[catalogId].games - {gameId})
    ensures forall id :: id in catalogs && id != catalogId ==> r[id] == catalogs[id]
  {
    catalogs[catalogId := catalogs[catalogId].(games := catalogs[catalogId].games - {gameId})]
  }

  /**
   * `createCatalog`: 400 when some catalog matches the sent name and owner; otherwise a new
   * empty catalog and 201. Prisma refuses a row without a name or owner, or with an unknown
   * owner, and the refusal is rethrown.
   */
  method CreateCatalog(db: Db.Store, input: CatalogInput) returns (reply: Reply)
    requires db.Valid()
    modifies db`catalogs, db`nextCatalogId
    ensures db.Valid()
    ensures AnyMatch(old(db.catalogs), input) ==> reply == Status(400) && db.catalogs == old(db.catalogs)
    ensures !AnyMatch(old(db.catalogs), input) && (input.name.None? || input.userId.None? || input.userId.value !in db.users) ==>
      reply == Thrown("Erro ao criar catálogo") && db.catalogs == old(db.catalogs)
    ensures reply == Status(201) <==>
      !AnyMatch(old(db.catalogs), input) && input.name.Some? && input.userId.Some? && input.userId.value in db.users
    ensures reply == Status(201) ==>
      old(db.nextCatalogId) !in old(db.catalogs)
      && db.catalogs == old(db.catalogs)[old(db.nextCatalogId) := Db.Catalog(input.name.value, input.userId.value, {})]
  {
    if exists id :: id in db.catalogs && Matches(db.catalogs[id], input) {
      return Status(400);
    }
    if input.name.None? || input.userId.None? || input.userId.value !in db.users {
      return Thrown("Erro ao criar catálogo");
    }
    var id := db.CreateCatalogRow(Db.Catalog(input.name.value, input.userId.value, {}));
    reply := Status(201);
  }

  /**
   * `addGameToCatalog`: 404 for a missing catalog, 400 when the game is already in it, a
   * rethrown failure when the game does not exist, otherwise the game joins that catalog only.
   */
  method AddGameToCatalog(db: Db.Store, catalogId: Db.Id, gameId: Db.Id) returns (reply: Reply)
    requires db.Valid()
    modifies db`catalogs
    ensures db.Valid()
    ensures catalogId !in old(db.catalogs) ==> reply == Status(404) && db.catalogs == old(db.catalogs)
    ensures catalogId in old(db.catalogs) && gameId in old(db.catalogs)[catalogId].games ==>
      reply == Status(400) && db.catalogs == old(db.catalogs)
    ensures catalogId in old(db.catalogs) && gameId !in old(db.catalogs)[catalogId].games && gameId !in db.games ==>
      reply == Thrown("Erro ao adicionar jogo ao catálogo") && db.catalogs == old(db.catalogs)
    ensures reply == Status(200) <==>
      catalogId in old(db.catalogs) && gameId !in old(db.catalogs)[catalogId].games && gameId in db.games
    ensures reply == Status(200) ==> db.catalogs == WithGame(old(db.catalogs), catalogId, gameId)
  {
    if catalogId !in db.catalogs {
      return Status(404);
    }
    var c := db.catalogs[catalogId];
    if gameId in c.games {
      return Status(400);
    }
    if gameId !in db.games {
      // `connect` to a missing game fails.
      return Thrown("Erro ao adicionar jogo ao catálogo");
    }
    db.UpdateCatalogRow(catalogId, c.(games := c.games + {gameId}));
    reply := Status(200);
  }

  /**
   * `removeGameFromCatalog`: 404 for a missing catalog, 400 when the game is not in it,
   * otherwise the game leaves that catalog only.
   */
  method RemoveGameFromCatalog(db: Db.Store, catalogId: Db.Id, gameId: Db.Id) returns (reply: Reply)
    requires db.Valid()
    modifies db`catalogs
    ensures db.Valid()
    ensures catalogId !in old(db.catalogs) ==> reply == Status(404) && db.catalogs == old(db.catalogs)
    ensures catalogId in old(db.catalogs) && gameId !in old(db.catalogs)[catalogId].games ==>
      reply == Status(400) && db.catalogs == old(db.catalogs)
    ensures reply == Status(200) <==> catalogId in old(db.catalogs) && gameId in old(db.catalogs)[catalogId].games
    ensures reply == Status(200) ==> db.catalogs == WithoutGame(old(db.catalogs), catalogId, gameId)
  {
    if catalogId !in db.catalogs {
      return Status(404);
    }
    var c := db.catalogs[catalogId];
    if gameId !in c.games {
      return Status(400);
    }
    db.UpdateCatalogRow(catalogId, c.(games := c.games - {gameId}));
    reply := Status(200);
  }

  /** Adding a game that was not in a catalog and then removing it restores the table. */
  lemma AddThenRemoveRestores(catalogs: map<Db.Id, Db.Catalog>, catalogId: Db.Id, gameId: Db.Id)
    requires catalogId in catalogs && gameId !in catalogs[catalogId].games
    ensures WithoutGame(WithGame(catalogs, catalogId, gameId), catalogId, gameId) == catalogs
  {
    var c := catalogs[catalogId];
    assert forall g :: g in c.games + {gameId} - {gameId} <==> g in c.games;
    assert c.games + {gameId} - {gameId} == c.games;
    var r := WithoutGame(WithGame(catalogs, catalogId, gameId), catalogId, gameId);
    assert forall id :: id in r ==> r[id] == catalogs[id];
    assert r.Keys == catalogs.Keys;
  }

  /** Removing a game that was in a catalog and then adding it back restores the table. */
  lemma RemoveThenAddRestores(catalogs: map<Db.Id, Db.Catalog>, catalogId: Db.Id, gameId: Db.Id)
    requires catalogId in catalogs && gameId in catalogs[catalogId].games
    ensures WithGame(WithoutGame(catalogs, catalogId, gameId), catalogId, gameId) == catalogs
  {
    var c := catalogs[catalogId];
    assert forall g :: g in c.games - {gameId} + {gameId} <==> g in c.games;
    assert c.games - {gameId} + {gameId} == c.games;
    var r := WithGame(WithoutGame(catalogs, catalogId, gameId), catalogId, gameId);
    assert forall id :: id in r ==> r[id] == catalogs[id];
    assert r.Keys == catalogs.Keys;
  }

  /** The row after `updateCatalog`: the sent name and owner replace the stored ones. */
  function UpdatedCatalog(c: Db.Catalog, input: CatalogInput): (u: Db.Catalog)
    ensures u.games == c.games
    ensures input.name.None? ==> u.name == c.name
    ensures input.userId.None? ==> u.userId == c.userId
  {
    Db.Catalog(input.name.GetOr(c.name), input.userId.GetOr(c.userId), c.games)
  }

  /**
   * `updateCatalog`: 404 for a missing catalog; otherwise the sent fields overwrite the row,
   * with no duplicate check. An unknown new owner is refused by the store and rethrown.
   */
  method UpdateCatalog(db: Db.Store, id: Db.Id, input: CatalogInput) returns (reply: Reply)
    requires db.Valid()
    modifies db`catalogs
    ensures db.Valid()
    ensures id !in old(db.catalogs) ==> reply == Status(404) && db.catalogs == old(db.catalogs)
    ensures id in old(db.catalogs) && input.userId.Some? && input.userId.value !in db.users ==>
      reply == Thrown("Erro ao atualizar catálogo") && db.catalogs == old(db.catalogs)
    ensures reply == Status(200) <==> id in old(db.catalogs) && (input.userId.Some? ==> input.userId.value in db.users)
    ensures reply == Status(200) ==> db.catalogs == old(db.catalogs)[id := UpdatedCatalog(old(db.catalogs)[id], input)]
  {
    if id !in db.catalogs {
      return Status(404);
    }
    if input.userId.Some? && input.userId.value !in db.users {
      return Thrown("Erro ao atualizar catálogo");
    }
    db.UpdateCatalogRow(id, UpdatedCatalog(db.catalogs[id], input));
    reply := Status(200);
  }

  /**
   * Unlike creation, an update can give a catalog the name of another catalog of the same
   * owner: afterwards a create with that name and owner is refused, yet two such rows exist.
   */
  lemma UpdateAllowsDuplicates(catalogs: map<Db.Id, Db.Catalog>, a: Db.Id, b: Db.Id)
    requires a in catalogs && b in catalogs && a != b
    ensures var input := CatalogInput(Some(catalogs[a].name), Some(catalogs[a].userId));
      var r := catalogs[b := UpdatedCatalog(catalogs[b], input)];
      Matches(r[a], input) && Matches(r[b], input) && AnyMatch(r, input)
  {
  }

  /** `deleteCatalog`: a missing catalog makes the delete fail, which is rethrown. */
  method DeleteCatalog(db: Db.Store, id: Db.Id) returns (reply: Reply)
    requires db.Valid()
    modifies db`catalogs
    ensures db.Valid()
    ensures id !in old(db.catalogs) ==> reply == Thrown("Erro ao deletar catálogo") && db.catalogs == old(db.catalogs)
    ensures id in old(db.catalogs) ==> reply == Status(200) && db.catalogs == old(db.catalogs) - {id}
  {
    if id !in db.catalogs {
      return Thrown("Erro ao deletar catálogo");
    }
    db.DeleteCatalogRow(id);
    reply := Status(200);
  }
}
