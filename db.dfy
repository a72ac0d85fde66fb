/**
 * The relational store behind Prisma, as in-memory tables. Each table is a map from an
 * autoincrement id to a row and is one field of class `Store`; a Prisma call is one map
 * operation and a `$transaction` block is one method step. This module also defines the
 * aggregate a game is meant to carry: the rounded mean of its reviews' stored averages.
 */
module Db {
  import opened Common
  import Rating

  type Id = int

  /** A row of the review table; `averageRating` is in hundredths and `null` only on legacy rows. */
  datatype Review = Review(
    gameId: Id, userId: Id, ratings: Rating.Ratings,
    averageRating: Option<int>, comment: Option<string>)

  /**
   * A row of the game table. The list-valued columns are stored as comma-joined strings;
   * `averageReviewRating` is in hundredths, `null` for a game without reviews.
   */
  datatype Game = Game(
    name: string, description: Option<string>, backgroundImage: Option<string>,
    releaseDate: string, playtime: Option<int>,
    platforms: string, genres: string, publishers: string,
    metacriticScore: Option<int>, screenshots: string,
    averageReviewRating: Option<int>)

  /** A row of the catalog table with its many-to-many `games` relation. */
  datatype Catalog = Catalog(name: string, userId: Id, games: set<Id>)

  /** A row of the user table; `password` holds whatever hash the caller produced. */
  datatype User = User(name: string, email: string, password: string, isAdmin: bool)

  /** A stored review's average is the rounded mean of its ratings, or a legacy `null`. */
  predicate WellFormed(r: Review) {
    Rating.InRange(r.ratings)
    && (r.averageRating.Some? ==> r.averageRating.value == Rating.RecordAverage(r.ratings))
  }

  /** The foreign keys the database enforces. */
  predicate Linked(reviews: map<Id, Review>, games: map<Id, Game>,
                   catalogs: map<Id, Catalog>, users: map<Id, User>)
  {
    && (forall id :: id in reviews ==> reviews[id].gameId in games && reviews[id].userId in users)
    && (forall id :: id in catalogs ==> catalogs[id].userId in users && catalogs[id].games <= games.Keys)
  }

  /** The unique indexes on user name and user email. */
  predicate UniqueAccounts(users: map<Id, User>) {
    forall a, b :: a in users && b in users && a != b ==>
      users[a].name != users[b].name && users[a].email != users[b].email
  }

  class Store {
    var reviews: map<Id, Review>
    var games: map<Id, Game>
    var catalogs: map<Id, Catalog>
    var users: map<Id, User>
    var nextReviewId: Id
    var nextGameId: Id
    var nextCatalogId: Id
    var nextUserId: Id

    ghost predicate Valid()
      reads this
    {
      && Linked(reviews, games, catalogs, users)
      && UniqueAccounts(users)
      && (forall id :: id in reviews ==> WellFormed(reviews[id]))
      && 0 < nextReviewId && 0 < nextGameId && 0 < nextCatalogId && 0 < nextUserId
      && (forall id :: id in reviews ==> 0 < id < nextReviewId)
      && (forall id :: id in games ==> 0 < id < nextGameId)
      && (forall id :: id in catalogs ==> 0 < id < nextCatalogId)
      && (forall id :: id in users ==> 0 < id < nextUserId)
    }

    constructor ()
      ensures Valid()
      ensures reviews == map[] && games == map[] && catalogs == map[] && users == map[]
    {
      reviews, games, catalogs, users := map[], map[], map[], map[];
      nextReviewId, nextGameId, nextCatalogId, nextUserId := 1, 1, 1, 1;
    }

    /** `review.create`: the row takes the next autoincrement id; the foreign keys must hold. */
    method CreateReviewRow(row: Review) returns (id: Id)
      requires Valid() && WellFormed(row) && row.gameId in games && row.userId in users
      modifies this`reviews, this`nextReviewId
      ensures Valid()
      ensures id == old(nextReviewId) && id !in old(reviews) && reviews == old(reviews)[id := row]
    {
      id := nextReviewId;
      reviews := reviews[id := row];
      nextReviewId := nextReviewId + 1;
    }

    /** `review.update` of an existing row. */
    method UpdateReviewRow(id: Id, row: Review)
      requires Valid() && id in reviews && WellFormed(row) && row.gameId in games && row.userId in users
      modifies this`reviews
      ensures Valid()
      ensures reviews == old(reviews)[id := row]
    {
      reviews := reviews[id := row];
    }

    /** `review.delete` of an existing row. */
    method DeleteReviewRow(id: Id)
      requires Valid() && id in reviews
      modifies this`reviews
      ensures Valid()
      ensures reviews == old(reviews) - {id}
    {
      reviews := reviews - {id};
    }

    /** `game.create`: the row takes the next autoincrement id. */
    method CreateGameRow(g: Game) returns (id: Id)
      requires Valid()
      modifies this`games, this`nextGameId
      ensures Valid()
      ensures id == old(nextGameId) && id !in old(games) && games == old(games)[id := g]
      ensures forall r :: r in reviews ==> reviews[r].gameId != id
    {
      id := nextGameId;
      games := games[id := g];
      nextGameId := nextGameId + 1;
    }

    /** `game.update` of an existing game. */
    method UpdateGameRow(id: Id, g: Game)
      requires Valid() && id in games
      modifies this`games
      ensures Valid()
      ensures games == old(games)[id := g]
    {
      games := games[id := g];
    }

    /** `catalog.create`: the row takes the next autoincrement id; its owner must exist. */
    method CreateCatalogRow(c: Catalog) returns (id: Id)
      requires Valid() && c.userId in users && c.games <= games.Keys
      modifies this`catalogs, this`nextCatalogId
      ensures Valid()
      ensures id == old(nextCatalogId) && id !in old(catalogs) && catalogs == old(catalogs)[id := c]
    {
      id := nextCatalogId;
      catalogs := catalogs[id := c];
      nextCatalogId := nextCatalogId + 1;
    }

    /** `catalog.update` of an existing row, including `connect`/`disconnect` of games. */
    method UpdateCatalogRow(id: Id, c: Catalog)
      requires Valid() && id in catalogs && c.userId in users && c.games <= games.Keys
      modifies this`catalogs
      ensures Valid()
      ensures catalogs == old(catalogs)[id := c]
    {
      catalogs := catalogs[id := c];
    }

    /** `catalog.delete` of an existing row. */
    method DeleteCatalogRow(id: Id)
      requires Valid() && id in catalogs
      modifies this`catalogs
      ensures Valid()
      ensures catalogs == old(catalogs) - {id}
    {
      catalogs := catalogs - {id};
    }

    /**
     * `user.create` with a nested `catalogs.create`: both rows take the next autoincrement ids.
     * The unique indexes refuse a name or email already in use.
     */
    method CreateUserRow(u: User, catalogName: string) returns (userId: Id, catalogId: Id)
      requires Valid() && forall id :: id in users ==> users[id].name != u.name && users[id].email != u.email
      modifies this`users, this`nextUserId, this`catalogs, this`nextCatalogId
      ensures Valid()
      ensures userId == old(nextUserId) && userId !in old(users) && users == old(users)[userId := u]
      ensures catalogId == old(nextCatalogId) && catalogId !in old(catalogs)
      ensures catalogs == old(catalogs)[catalogId := Catalog(catalogName, userId, {})]
    {
      userId, catalogId := nextUserId, nextCatalogId;
      users := users[userId := u];
      catalogs := catalogs[catalogId := Catalog(catalogName, userId, {})];
      nextUserId, nextCatalogId := nextUserId + 1, nextCatalogId + 1;
    }

    /** `user.update` of an existing row; the unique indexes still hold. */
    method UpdateUserRow(id: Id, u: User)
      requires Valid() && id in users
      requires forall other :: other in users && other != id ==> users[other].name != u.name && users[other].email != u.email
      modifies this`users
      ensures Valid()
      ensures users == old(users)[id := u]
    {
      users := users[id := u];
    }

    /**
     * The `$transaction` that removes a user: `review.deleteMany` and `catalog.deleteMany` of
     * the user's rows, then `user.delete`. No game's aggregate is touched.
     */
    method DeleteUserCascade(id: Id)
      requires Valid() && id in users
      modifies this`reviews, this`catalogs, this`users
      ensures Valid()
      ensures reviews == WithoutAuthor(old(reviews), id)
      ensures catalogs == WithoutOwner(old(catalogs), id)
      ensures users == old(users) - {id}
    {
      reviews := WithoutAuthor(reviews, id);
      catalogs := WithoutOwner(catalogs, id);
      users := users - {id};
    }

    /** `game.update` of one existing game's `averageReviewRating`. */
    method SetAverageReviewRating(gameId: Id, average: Option<int>)
      requires Valid() && gameId in games
      modifies this`games
      ensures Valid()
      ensures games == old(games)[gameId := old(games)[gameId].(averageReviewRating := average)]
    {
      games := games[gameId := games[gameId].(averageReviewRating := average)];
    }
  }

  /** `review.findMany({ where: { gameId } })`. */
  /** `review.deleteMany({ where: { userId } })`. */
  function WithoutAuthor(reviews: map<Id, Review>, userId: Id): (r: map<Id, Review>)
    ensures forall id :: id in r <==> id in reviews && reviews[id].userId != userId
    ensures forall id :: id in r ==> r[id] == reviews[id]
  {
    map id | id in reviews && reviews[id].userId != userId :: reviews[id]
  }

  /** `catalog.deleteMany({ where: { userId } })`. */
  function WithoutOwner(catalogs: map<Id, Catalog>, userId: Id): (r: map<Id, Catalog>)
    ensures forall id :: id in r <==> id in catalogs && catalogs[id].userId != userId
    ensures forall id :: id in r ==> r[id] == catalogs[id]
  {
    map id | id in catalogs && catalogs[id].userId != userId :: catalogs[id]
  }

  function ReviewsOf(reviews: map<Id, Review>, gameId: Id): map<Id, Review> {
    map id | id in reviews && reviews[id].gameId == gameId :: reviews[id]
  }

  /** The rows whose `averageRating` is not `null`: the filter of the bulk recomputation. */
  function Rated(m: map<Id, Review>): map<Id, Review> {
    map id | id in m && m[id].averageRating.Some? :: m[id]
  }

  /** What one review adds to a JavaScript running sum: `sum + null` is `sum`. */
  function Contribution(r: Review): int {
    r.averageRating.GetOr(0)
  }

  /** A non-empty table has a row to take first. */
  lemma HasKey<T>(m: map<Id, T>)
    requires |m| != 0
    ensures exists k :: k in m
  {
    if forall k :: k !in m {
      assert false;
    }
  }

  /** A table holding a row is not empty. */
  lemma MemberMeansNonEmpty<T>(m: map<Id, T>, k: Id)
    requires k in m
    ensures |m| != 0
  {
    assert |m - {k}| == |m| - 1;
  }

  /** The sum of the stored averages of a set of rows, in any order. */
  ghost function SumOf(m: map<Id, Review>): int
    decreases |m|
  {
    if |m| == 0 then 0 else HasKey(m); var k :| k in m; Contribution(m[k]) + SumOf(m - {k})
  }

  /** The sum does not depend on which row is taken first. */
  lemma {:induction false} SumOfAny(m: map<Id, Review>, k: Id)
    requires k in m
    ensures SumOf(m) == Contribution(m[k]) + SumOf(m - {k})
    decreases |m|
  {
    var j :| j in m && SumOf(m) == Contribution(m[j]) + SumOf(m - {j});
    if j != k {
      SumOfAny(m - {j}, k);
      SumOfAny(m - {k}, j);
      assert m - {j} - {k} == m - {k} - {j};
    }
  }

  /** Filtering commutes with removing one row. */
  lemma RatedWithout(m: map<Id, Review>, k: Id)
    requires k in m
    ensures m[k].averageRating.Some? ==> k in Rated(m) && Rated(m) - {k} == Rated(m - {k})
    ensures m[k].averageRating.None? ==> Rated(m) == Rated(m - {k})
  {
    var rm, rest := Rated(m), Rated(m - {k});
    if m[k].averageRating.Some? {
      assert k in rm;
      assert forall id :: id in rm - {k} <==> id in rest;
      assert forall id :: id in rest ==> (rm - {k})[id] == rest[id];
    } else {
      assert forall id :: id in rm <==> id in rest;
      assert forall id :: id in rest ==> rm[id] == rest[id];
    }
  }

  /** `null` averages add nothing, so dropping them keeps the sum. */
  lemma {:induction false} SumOfRated(m: map<Id, Review>)
    ensures SumOf(Rated(m)) == SumOf(m)
    decreases |m|
  {
    if |m| != 0 {
      HasKey(m);
      var k :| k in m;
      SumOfAny(m, k);
      SumOfRated(m - {k});
      RatedWithout(m, k);
      if m[k].averageRating.Some? {
        SumOfAny(Rated(m), k);
      }
    }
  }

  /** Stored averages lie in 0..500 hundredths, so their sum lies in 0..500 per row. */
  lemma {:induction false} SumOfBetween(m: map<Id, Review>)
    requires forall id :: id in m ==> WellFormed(m[id])
    ensures 0 <= SumOf(m) <= 500 * |m|
    decreases |m|
  {
    if |m| != 0 {
      HasKey(m);
      var k :| k in m;
      SumOfAny(m, k);
      SumOfBetween(m - {k});
    }
  }

  /**
   * The aggregate `updateGameAverageRating` writes: `null` when the game has no review,
   * otherwise the rounded mean over ALL its reviews of their stored averages (mean of means).
   */
  ghost function RefreshedAverage(reviews: map<Id, Review>, gameId: Id): Option<int> {
    var m := ReviewsOf(reviews, gameId);
    if |m| == 0 then None else Some(Rating.RoundedMean(SumOf(m), |m|))
  }

  /** The aggregate the bulk recomputation writes: the same mean over the non-`null` rows only. */
  ghost function RecalculatedAverage(reviews: map<Id, Review>, gameId: Id): Option<int> {
    var m := Rated(ReviewsOf(reviews, gameId));
    if |m| == 0 then None else Some(Rating.RoundedMean(SumOf(m), |m|))
  }

  /** The game table after refreshing one game's aggregate. */
  ghost function Refreshed(reviews: map<Id, Review>, games: map<Id, Game>, gameId: Id): map<Id, Game>
    requires gameId in games
  {
    games[gameId := games[gameId].(averageReviewRating := RefreshedAverage(reviews, gameId))]
  }

  /** The central invariant: every game's aggregate is the one its current reviews determine. */
  ghost predicate AllFresh(reviews: map<Id, Review>, games: map<Id, Game>) {
    forall g :: g in games ==> games[g].averageReviewRating == RefreshedAverage(reviews, g)
  }

  /**
   * What a fresh aggregate means: `null` exactly when the game has no review, otherwise a value
   * in 0..5.00 within 0.005 of the exact mean of the stored averages.
   */
  lemma AggregateMeaning(reviews: map<Id, Review>, gameId: Id)
    requires forall id :: id in reviews ==> WellFormed(reviews[id])
    ensures RefreshedAverage(reviews, gameId).None? <==> forall id :: id in reviews ==> reviews[id].gameId != gameId
    ensures RefreshedAverage(reviews, gameId).Some? ==>
      var m := ReviewsOf(reviews, gameId);
      var v := RefreshedAverage(reviews, gameId).value;
      |m| > 0 && Rating.WithinHalf(v, SumOf(m), |m|) && 0 <= v <= 500
  {
    var m := ReviewsOf(reviews, gameId);
    if |m| == 0 {
      forall id | id in reviews ensures reviews[id].gameId != gameId {
        if reviews[id].gameId == gameId {
          MemberMeansNonEmpty(m, id);
          assert false;
        }
      }
    } else {
      HasKey(m);
      var id :| id in m;
      assert reviews[id].gameId == gameId;
      SumOfBetween(m);
      Rating.RoundedMeanBetween(SumOf(m), |m|, 0, 500);
    }
  }

  /** A game that no review names and whose aggregate is `null` is fresh. */
  lemma UnreviewedGameIsFresh(reviews: map<Id, Review>, games: map<Id, Game>, id: Id, g: Game)
    requires AllFresh(reviews, games)
    requires forall r :: r in reviews ==> reviews[r].gameId != id
    requires g.averageReviewRating.None?
    ensures AllFresh(reviews, games[id := g])
  {
    var m := ReviewsOf(reviews, id);
    var none: map<Id, Review> := map[];
    assert forall r :: r in m <==> r in none;
    assert m.Keys == none.Keys;
    assert m == none;
  }

  /** Filtering an empty table leaves it empty. */
  lemma RatedOfEmpty(m: map<Id, Review>)
    requires |m| == 0
    ensures |Rated(m)| == 0
  {
    var none: map<Id, Review> := map[];
    assert m == none;
    assert forall r :: r in Rated(m) <==> r in none;
    assert Rated(m).Keys == none.Keys;
    assert Rated(m) == none;
  }

  /** When no review of the game has a `null` average, both recomputations agree. */
  lemma RefreshAgreesWithRecalculation(reviews: map<Id, Review>, gameId: Id)
    requires forall id :: id in reviews ==> reviews[id].averageRating.Some?
    ensures RefreshedAverage(reviews, gameId) == RecalculatedAverage(reviews, gameId)
  {
    var m := ReviewsOf(reviews, gameId);
    assert forall id :: id in Rated(m) <==> id in m;
    assert Rated(m).Keys == m.Keys;
    assert Rated(m) == m;
  }

  /** The sum over a single row is that row's contribution. */
  lemma SumOfSingle(k: Id, r: Review)
    ensures SumOf(map[k := r]) == Contribution(r)
  {
    var one := map[k := r];
    SumOfAny(one, k);
    assert |one - {k}| == 0;
  }

  /**
   * With a legacy `null` row they disagree: the refresh counts it as 0.00 and divides by two,
   * the recomputation drops it and divides by one.
   */
  lemma NullRowDividesDifferently(gameId: Id, i: Id, j: Id, a: Review, b: Review)
    requires i != j && a.gameId == gameId && b.gameId == gameId
    requires a.averageRating.Some? && b.averageRating.None?
    ensures RefreshedAverage(map[i := a, j := b], gameId) == Some(Rating.RoundedMean(a.averageRating.value, 2))
    ensures RecalculatedAverage(map[i := a, j := b], gameId) == Some(a.averageRating.value)
  {
    var r := map[i := a, j := b];
    var one := map[i := a];
    assert forall id :: id in ReviewsOf(r, gameId) <==> id in r;
    assert ReviewsOf(r, gameId) == r;
    assert forall id :: id in Rated(r) <==> id in one;
    assert Rated(r) == one;
    assert r - {j} == one;
    SumOfSingle(i, a);
    SumOfAny(r, j);
    assert |r| == 2;
  }

  /** Concretely: a 4.00 review beside a `null` one reads 2.00 after a refresh and 4.00 after a recomputation. */
  lemma NullRowExample()
    ensures var r := map[1 := Review(7, 1, Rating.Ratings(4, 4, 4, 4, 4, 4), Some(400), None),
                         2 := Review(7, 2, Rating.Ratings(0, 0, 0, 0, 0, 0), None, None)];
            RefreshedAverage(r, 7) == Some(200) && RecalculatedAverage(r, 7) == Some(400)
  {
    NullRowDividesDifferently(7, 1, 2, Review(7, 1, Rating.Ratings(4, 4, 4, 4, 4, 4), Some(400), None),
                              Review(7, 2, Rating.Ratings(0, 0, 0, 0, 0, 0), None, None));
    assert Rating.RoundedMean(400, 2) == 200;
  }

  /** Rows whose game is not `gameId` are the same in both tables. */
  ghost predicate AgreeOutside(r0: map<Id, Review>, r1: map<Id, Review>, gameId: Id) {
    forall id :: (id in r0 && r0[id].gameId != gameId) || (id in r1 && r1[id].gameId != gameId) ==>
      id in r0 && id in r1 && r0[id] == r1[id]
  }

  /**
   * Changing only one game's reviews and then refreshing that game keeps every aggregate
   * fresh: the step each review service ends with.
   */
  lemma RefreshRestoresFreshness(r0: map<Id, Review>, r1: map<Id, Review>, games: map<Id, Game>, gameId: Id)
    requires AllFresh(r0, games) && gameId in games
    requires AgreeOutside(r0, r1, gameId)
    ensures AllFresh(r1, Refreshed(r1, games, gameId))
  {
    forall g | g in games && g != gameId
      ensures RefreshedAverage(r1, g) == RefreshedAverage(r0, g)
    {
      assert forall id :: id in ReviewsOf(r1, g) <==> id in ReviewsOf(r0, g);
      assert forall id :: id in ReviewsOf(r1, g) ==> ReviewsOf(r1, g)[id] == ReviewsOf(r0, g)[id];
      assert ReviewsOf(r1, g) == ReviewsOf(r0, g);
    }
  }
}
