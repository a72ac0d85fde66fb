/**
 * The Express handlers for `/reviews`: they map a service's status or thrown error onto an
 * HTTP status, and the PUT and DELETE handlers hold the only author check, made against the
 * `userId` the client sends in the body.
 */
module ReviewRoutes {
  import opened Common
  import Db
  import ReviewServices

  /** The status a handler answers with when the service returned or threw `r`. */
  function StatusOf(r: Reply): (code: int)
    ensures r.Status? ==> code == r.code
    ensures r.Thrown? ==> code == 400
  {
    match r
    case Status(c) => c
    case Thrown(_) => 400
  }

  /** POST `/reviews`: the body goes to `createReview` unchanged; a throw becomes 400. */
  method Post(db: Db.Store, body: ReviewServices.ReviewPayload) returns (code: int)
    requires db.Valid()
    modifies db
    ensures db.Valid()
    ensures Db.AllFresh(old(db.reviews), old(db.games)) ==> Db.AllFresh(db.reviews, db.games)
    ensures code in {201, 400, 404}
    ensures code == 201 <==>
      ReviewServices.RatingsValid(body) && body.gameId.Some? && body.gameId.value in old(db.games)
      && body.userId.Some? && body.userId.value in old(db.users)
    ensures code != 201 ==> db.reviews == old(db.reviews) && db.games == old(db.games)
  {
    var reply := ReviewServices.CreateReview(db, body);
    code := StatusOf(reply);
  }

  /** Whether the author in the body is the stored author; a missing or non-numeric one never is. */
  predicate SameAuthor(stored: Db.Review, bodyUserId: Option<Db.Id>) {
    bodyUserId == Some(stored.userId)
  }

  /**
   * PUT `/reviews/:id`: a failed lookup (id `0` or `NaN`) or a missing review makes the owner
   * check itself throw, hence 400; another author gets 403; otherwise `updateReview`'s status.
   */
  method Put(db: Db.Store, id: Option<int>, body: ReviewServices.ReviewPayload) returns (code: int)
    requires db.Valid()
    modifies db`reviews, db`games
    ensures db.Valid()
    ensures Db.AllFresh(old(db.reviews), old(db.games)) ==> Db.AllFresh(db.reviews, db.games)
    ensures id.None? || id == Some(0) || id.value !in old(db.reviews) ==>
      code == 400 && db.reviews == old(db.reviews) && db.games == old(db.games)
    ensures id.Some? && id.value in old(db.reviews) && !SameAuthor(old(db.reviews)[id.value], body.userId) ==>
      code == 403 && db.reviews == old(db.reviews) && db.games == old(db.games)
    ensures code == 200 <==>
      id.Some? && id.value in old(db.reviews) && SameAuthor(old(db.reviews)[id.value], body.userId)
      && ReviewServices.RatingsValid(body)
    ensures code == 200 ==>
      db.reviews == old(db.reviews)[id.value := ReviewServices.UpdatedRow(old(db.reviews)[id.value], body)]
      && old(db.reviews)[id.value].gameId in old(db.games)
      && db.games == Db.Refreshed(db.reviews, old(db.games), old(db.reviews)[id.value].gameId)
    ensures code != 200 ==> db.reviews == old(db.reviews) && db.games == old(db.games)
  {
    var found := ReviewServices.GetReviewById(db, id);
    if !found.Found? {
      // `review.review` is undefined, so reading its `userId` throws.
      return 400;
    }
    if !SameAuthor(found.review, body.userId) {
      return 403;
    }
    var reply := ReviewServices.UpdateReview(db, id.value, body);
    code := StatusOf(reply);
  }

  /**
   * DELETE `/reviews/:id`: 400 for a non-numeric id before any lookup, 400 for id `0` (the
   * lookup throws), then 404 for a missing review, 403 for another author, and otherwise
   * `deleteReview`, which repeats the author check and succeeds.
   */
  method Delete(db: Db.Store, id: Option<int>, bodyUserId: Option<Db.Id>) returns (code: int)
    requires db.Valid()
    modifies db`reviews, db`games
    ensures db.Valid()
    ensures Db.AllFresh(old(db.reviews), old(db.games)) ==> Db.AllFresh(db.reviews, db.games)
    ensures id.None? || id == Some(0) ==> code == 400
    ensures id.Some? && id.value != 0 && id.value !in old(db.reviews) ==> code == 404
    ensures id.Some? && id.value != 0 && id.value in old(db.reviews) ==>
      code == (if SameAuthor(old(db.reviews)[id.value], bodyUserId) then 200 else 403)
    ensures code == 200 ==>
      db.reviews == old(db.reviews) - {id.value}
      && old(db.reviews)[id.value].gameId in old(db.games)
      && db.games == Db.Refreshed(db.reviews, old(db.games), old(db.reviews)[id.value].gameId)
    ensures code != 200 ==> db.reviews == old(db.reviews) && db.games == old(db.games)
  {
    if id.None? {
      return 400;
    }
    var found := ReviewServices.GetReviewById(db, id);
    if found.LookupThrown? {
      return 400;
    }
    if !found.Found? {
      return 404;
    }
    if !SameAuthor(found.review, bodyUserId) {
      return 403;
    }
    var reply := ReviewServices.DeleteReview(db, id.value, bodyUserId);
    code := StatusOf(reply);
  }
}
