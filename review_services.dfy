/**
 * The review services: creating, reading, updating and deleting a review, and the refresh of
 * a game's aggregate that each write ends with. Every service either returns a status or throws
 * a message, as the JavaScript functions do; the store is the `Db.Store` they all share.
 */
module ReviewServices {
  import opened Common
  import Rating
  import Db

  /**
   * A request body. A missing field, or one that is not a number, is `None`; the ratings are
   * JavaScript numbers, so they may be fractional.
   */
  datatype ReviewPayload = ReviewPayload(
    gameId: Option<Db.Id>, userId: Option<Db.Id>,
    gameplay: Option<real>, visual: Option<real>, audio: Option<real>,
    difficulty: Option<real>, immersion: Option<real>, history: Option<real>,
    comment: Option<string>)

  /** The answer of `getReviewById`. */
  datatype Lookup = Found(review: Db.Review) | NotFound | LookupThrown(message: string)

  const InvalidRatings := Status(400)

  /** The six ratings in the order the services check them. */
  function RatingFields(p: ReviewPayload): seq<Option<real>> {
    [p.gameplay, p.visual, p.audio, p.difficulty, p.immersion, p.history]
  }

  predicate RatingsValid(p: ReviewPayload) {
    forall i :: 0 <= i < 6 ==> Rating.ValidRating(RatingFields(p)[i])
  }

  /** The integer ratings of a payload that passed validation. */
  function PayloadRatings(p: ReviewPayload): (r: Rating.Ratings)
    requires RatingsValid(p)
    ensures Rating.InRange(r)
    ensures forall i :: 0 <= i < 6 ==> RatingFields(p)[i] == Some(RatingList(r)[i] as real)
  {
    var f := RatingFields(p);
    assert Rating.ValidRating(f[0]) && Rating.ValidRating(f[1]) && Rating.ValidRating(f[2]);
    assert Rating.ValidRating(f[3]) && Rating.ValidRating(f[4]) && Rating.ValidRating(f[5]);
    Rating.Ratings(p.gameplay.value.Floor, p.visual.value.Floor, p.audio.value.Floor,
                   p.difficulty.value.Floor, p.immersion.value.Floor, p.history.value.Floor)
  }

  function RatingList(r: Rating.Ratings): seq<int> {
    [r.gameplay, r.visual, r.audio, r.difficulty, r.immersion, r.history]
  }

  /** The row `updateReview` writes: new ratings, average and comment; game and author kept. */
  function UpdatedRow(old_: Db.Review, p: ReviewPayload): (r: Db.Review)
    requires RatingsValid(p)
    ensures Db.WellFormed(r) && r.averageRating.Some?
    ensures r.gameId == old_.gameId && r.userId == old_.userId
    ensures r.comment == (if p.comment.Some? then p.comment else old_.comment)
  {
    var ratings := PayloadRatings(p);
    Db.Review(old_.gameId, old_.userId, ratings, Some(Rating.RecordAverage(ratings)),
              if p.comment.Some? then p.comment else old_.comment)
  }

  /** The `reduce` of `updateGameAverageRating`: the running sum of the stored averages. */
  method SumAverages(m: map<Db.Id, Db.Review>) returns (total: int)
    ensures total == Db.SumOf(m)
  {
    var rest := m;
    total := 0;
    while |rest| != 0
      invariant total + Db.SumOf(rest) == Db.SumOf(m)
      decreases |rest|
    {
      Db.HasKey(rest);
      var k :| k in rest;
      Db.SumOfAny(rest, k);
      total := total + Db.Contribution(rest[k]);
      rest := rest - {k};
    }
  }

  /**
   * `updateGameAverageRating`: writes the rounded mean of the game's reviews' stored averages,
   * or `null` when it has none, into that game and nowhere else. The update of a missing game
   * fails and is rethrown.
   */
  method UpdateGameAverageRating(db: Db.Store, gameId: Db.Id) returns (result: Outcome)
    requires db.Valid()
    modifies db`games
    ensures db.Valid()
    ensures gameId in old(db.games) ==>
      result == Completed && db.games == Db.Refreshed(db.reviews, old(db.games), gameId)
    ensures gameId !in old(db.games) ==>
      result == Failed("Erro ao atualizar média de avaliação do jogo") && db.games == old(db.games)
  {
    var rows := Db.ReviewsOf(db.reviews, gameId);
    if gameId !in db.games {
      return Failed("Erro ao atualizar média de avaliação do jogo");
    }
    var average: Option<int>;
    if |rows| == 0 {
      average := None;
    } else {
      var total := SumAverages(rows);
      average := Some(Rating.RoundedMean(total, |rows|));
    }
    db.SetAverageReviewRating(gameId, average);
    result := Completed;
  }

  /** The validation loop both writers open with. */
  method CheckRatings(p: ReviewPayload) returns (ok: bool)
    ensures ok <==> RatingsValid(p)
  {
    ok := Rating.AllRatingsValid(RatingFields(p));
  }

  /**
   * `createReview`: 400 for invalid ratings before touching the store, 404 for a missing game,
   * a throw when Prisma refuses the row (no game id, or no such author), otherwise one new row
   * followed by a refresh of its game, and 201.
   */
  method CreateReview(db: Db.Store, p: ReviewPayload) returns (reply: Reply)
    requires db.Valid()
    modifies db
    ensures db.Valid()
    ensures Db.AllFresh(old(db.reviews), old(db.games)) ==> Db.AllFresh(db.reviews, db.games)
    ensures db.catalogs == old(db.catalogs) && db.users == old(db.users)
    ensures !RatingsValid(p) ==> reply == InvalidRatings
    ensures reply == Status(201) <==>
      RatingsValid(p) && p.gameId.Some? && p.gameId.value in old(db.games)
      && p.userId.Some? && p.userId.value in old(db.users)
    ensures reply == Status(201) ==>
      var id, row := old(db.nextReviewId), Db.Review(p.gameId.value, p.userId.value, PayloadRatings(p),
                                                     Some(Rating.RecordAverage(PayloadRatings(p))), p.comment);
      id !in old(db.reviews) && db.reviews == old(db.reviews)[id := row]
      && db.games == Db.Refreshed(db.reviews, old(db.games), p.gameId.value)
    ensures reply == Status(404) <==> RatingsValid(p) && p.gameId.Some? && p.gameId.value !in old(db.games)
    ensures reply != Status(201) ==>
      db.reviews == old(db.reviews) && db.games == old(db.games)
      && (reply == InvalidRatings || reply == Status(404) || reply == Thrown("Erro ao criar avaliação"))
  {
    var ok := CheckRatings(p);
    if !ok {
      return InvalidRatings;
    }
    if p.gameId.None? {
      return Thrown("Erro ao criar avaliação");
    }
    var gameId := p.gameId.value;
    if gameId !in db.games {
      return Status(404);
    }
    if p.userId.None? || p.userId.value !in db.users {
      return Thrown("Erro ao criar avaliação");
    }
    var ratings := PayloadRatings(p);
    var r0 := db.reviews;
    var id := db.CreateReviewRow(Db.Review(gameId, p.userId.value, ratings, Some(Rating.RecordAverage(ratings)), p.comment));
    assert Db.AgreeOutside(r0, db.reviews, gameId);
    var refreshed := UpdateGameAverageRating(db, gameId);
    if Db.AllFresh(r0, old(db.games)) {
      Db.RefreshRestoresFreshness(r0, db.reviews, old(db.games), gameId);
    }
    reply := Status(201);
  }

  /** `getReviewById`: `0` and `NaN` throw; otherwise the row or a 404 without a review. */
  method GetReviewById(db: Db.Store, id: Option<int>) returns (result: Lookup)
    ensures id.None? || id == Some(0) ==> result == LookupThrown("Erro ao buscar avaliação")
    ensures id.Some? && id.value != 0 ==>
      result == (if id.value in db.reviews then Found(db.reviews[id.value]) else NotFound)
  {
    if id.None? || id.value == 0 {
      return LookupThrown("Erro ao buscar avaliação");
    }
    if id.value in db.reviews {
      result := Found(db.reviews[id.value]);
    } else {
      result := NotFound;
    }
  }

  /**
   * `updateReview`: 400 for invalid ratings, 404 for a missing review, otherwise the row keeps
   * its game and author and takes the new ratings, average and (when given) comment; its
   * original game is refreshed. No author check happens here.
   */
  method UpdateReview(db: Db.Store, reviewId: Db.Id, p: ReviewPayload) returns (reply: Reply)
    requires db.Valid()
    modifies db`reviews, db`games
    ensures db.Valid()
    ensures Db.AllFresh(old(db.reviews), old(db.games)) ==> Db.AllFresh(db.reviews, db.games)
    ensures !RatingsValid(p) ==> reply == InvalidRatings && db.reviews == old(db.reviews) && db.games == old(db.games)
    ensures RatingsValid(p) && reviewId !in old(db.reviews) ==>
      reply == Status(404) && db.reviews == old(db.reviews) && db.games == old(db.games)
    ensures RatingsValid(p) && reviewId in old(db.reviews) ==>
      reply == Status(200)
      && db.reviews == old(db.reviews)[reviewId := UpdatedRow(old(db.reviews)[reviewId], p)]
      && db.games == Db.Refreshed(db.reviews, old(db.games), old(db.reviews)[reviewId].gameId)
  {
    var ok := CheckRatings(p);
    if !ok {
      return InvalidRatings;
    }
    if reviewId !in db.reviews {
      return Status(404);
    }
    var existing := db.reviews[reviewId];
    var r0 := db.reviews;
    db.UpdateReviewRow(reviewId, UpdatedRow(existing, p));
    assert Db.AgreeOutside(r0, db.reviews, existing.gameId);
    var refreshed := UpdateGameAverageRating(db, existing.gameId);
    if Db.AllFresh(r0, old(db.games)) {
      Db.RefreshRestoresFreshness(r0, db.reviews, old(db.games), existing.gameId);
    }
    reply := Status(200);
  }

  /**
   * `deleteReview`: one transaction reads the row, refuses a missing row or another author with
   * the same thrown message, and deletes; the game is refreshed after it commits.
   */
  method DeleteReview(db: Db.Store, reviewId: Db.Id, userId: Option<Db.Id>) returns (reply: Reply)
    requires db.Valid()
    modifies db`reviews, db`games
    ensures db.Valid()
    ensures Db.AllFresh(old(db.reviews), old(db.games)) ==> Db.AllFresh(db.reviews, db.games)
    ensures reviewId in old(db.reviews) && userId == Some(old(db.reviews)[reviewId].userId) ==>
      reply == Status(200) && db.reviews == old(db.reviews) - {reviewId}
      && db.games == Db.Refreshed(db.reviews, old(db.games), old(db.reviews)[reviewId].gameId)
    ensures !(reviewId in old(db.reviews) && userId == Some(old(db.reviews)[reviewId].userId)) ==>
      reply == Thrown("Erro ao deletar avaliação") && db.reviews == old(db.reviews) && db.games == old(db.games)
  {
    if reviewId !in db.reviews || userId != Some(db.reviews[reviewId].userId) {
      return Thrown("Erro ao deletar avaliação");
    }
    var gameId := db.reviews[reviewId].gameId;
    var r0 := db.reviews;
    db.DeleteReviewRow(reviewId);
    assert Db.AgreeOutside(r0, db.reviews, gameId);
    var refreshed := UpdateGameAverageRating(db, gameId);
    if Db.AllFresh(r0, old(db.games)) {
      Db.RefreshRestoresFreshness(r0, db.reviews, old(db.games), gameId);
    }
    reply := Status(200);
  }
}
