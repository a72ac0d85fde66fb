/**
 * The game services that touch the store: the validation and duplicate check of `createGame`,
 * the partial update of `updateGame`, and `recalculateAllGameAverages`, which rebuilds every
 * game's aggregate from the non-`null` review averages.
 */
module GameServices {
  import opened Common
  import Rating
  import Db
  import GameFormat
  import ReviewServices

  /**
   * A request body. An absent field is `None`; the list fields are JavaScript arrays.
   * `releaseDate` is the text given to `new Date(...)`.
   */
  datatype GameInput = GameInput(
    name: Option<string>, description: Option<string>, backgroundImage: Option<string>,
    releaseDate: Option<string>, playtime: Option<int>,
    platforms: Option<seq<string>>, genres: Option<seq<string>>, publishers: Option<seq<string>>,
    metacriticScore: Option<int>, screenshots: Option<seq<string>>)

  /** The answer of `recalculateAllGameAverages`. */
  datatype RecalcResult = Recalculated(updatedCount: nat) | RecalcThrown(message: string)

  const CreateError := "Erro ao criar jogo"
  const UpdateError := "Erro ao atualizar jogo"
  const RecalcErrorPrefix := "Erro ao recalcular médias de avaliação: "

  predicate KnownGenres(genres: seq<string>) {
    forall i :: 0 <= i < |genres| ==> genres[i] in GameFormat.GenreMap
  }

  /** Genres `createGame` accepts: a list whose conversion is neither `null` nor `''`. */
  predicate GenresAcceptedOnCreate(genres: Option<seq<string>>) {
    genres.Some? && |genres.value| > 0 && KnownGenres(genres.value)
  }

  /** Genres `updateGame` accepts: absent, or a list whose conversion is not `null`. */
  predicate GenresAcceptedOnUpdate(genres: Option<seq<string>>) {
    genres.Some? ==> KnownGenres(genres.value)
  }

  /** Everything `createGame` checks before it looks for a duplicate. */
  predicate Acceptable(input: GameInput, validDate: string -> bool) {
    Truthy(input.name) && Truthy(input.releaseDate) && validDate(input.releaseDate.value)
    && GenresAcceptedOnCreate(input.genres)
  }

  /** A game with this name is already stored (`getGameByName` answers 200). */
  predicate NameTaken(games: map<Db.Id, Db.Game>, name: string) {
    exists id :: id in games && games[id].name == name
  }

  /** The row `createGame` inserts. */
  function NewGame(input: GameInput): (g: Db.Game)
    requires Acceptable(input, _ => true)
    ensures g.averageReviewRating.None?
    ensures g.genres == GameFormat.Join(GameFormat.EnumNames(input.genres.value), ",")
  {
    Db.Game(input.name.value, input.description, input.backgroundImage, input.releaseDate.value,
            input.playtime, GameFormat.ArrayToString(input.platforms),
            GameFormat.Join(GameFormat.EnumNames(input.genres.value), ","),
            GameFormat.ArrayToString(input.publishers), input.metacriticScore,
            GameFormat.ArrayToString(input.screenshots), None)
  }

  /**
   * `createGame`: every validation failure is the same thrown message; a duplicate name is 409
   * unless the lookup itself failed, in which case the game is created anyway; otherwise one
   * new row with a `null` aggregate, and 200. `validDate` stands for `new Date(...)` producing
   * a valid date; `lookupFailed` for `getGameByName` throwing.
   */
  method CreateGame(db: Db.Store, input: GameInput, validDate: string -> bool, lookupFailed: bool)
    returns (reply: Reply)
    requires db.Valid()
    modifies db`games, db`nextGameId
    ensures db.Valid()
    ensures Db.AllFresh(db.reviews, old(db.games)) ==> Db.AllFresh(db.reviews, db.games)
    ensures !Acceptable(input, validDate) ==> reply == Thrown(CreateError) && db.games == old(db.games)
    ensures Acceptable(input, validDate) && !lookupFailed && NameTaken(old(db.games), input.name.value) ==>
      reply == Status(409) && db.games == old(db.games)
    ensures Acceptable(input, validDate) && (lookupFailed || !NameTaken(old(db.games), input.name.value)) ==>
      reply == Status(200)
      && old(db.nextGameId) !in old(db.games) && db.games == old(db.games)[old(db.nextGameId) := NewGame(input)]
  {
    if !Truthy(input.name) || !Truthy(input.releaseDate) || !validDate(input.releaseDate.value) {
      return Thrown(CreateError);
    }
    if input.genres.None? {
      // Iterating `undefined` throws.
      return Thrown(CreateError);
    }
    var converted := GameFormat.ConvertGenresToEnum(input.genres.value);
    if converted.None? {
      return Thrown(CreateError);
    }
    GameFormat.GenreColumnRoundTrip(input.genres.value);
    if converted.value == "" {
      return Thrown(CreateError);
    }
    if !lookupFailed && exists id :: id in db.games && db.games[id].name == input.name.value {
      return Status(409);
    }
    var g := NewGame(input);
    var id := db.CreateGameRow(g);
    if Db.AllFresh(db.reviews, old(db.games)) {
      Db.UnreviewedGameIsFresh(db.reviews, old(db.games), id, g);
    }
    reply := Status(200);
  }

  /** What a created game reads back as: the same clean lists it was given, genres as enum names. */
  lemma CreatedGameReadsBack(input: GameInput)
    requires Acceptable(input, _ => true)
    requires input.platforms.Some? && forall i :: 0 <= i < |input.platforms.value| ==> GameFormat.Clean(input.platforms.value[i])
    ensures var f := GameFormat.FormatGameForResponse(Some(NewGame(input))).value;
      f.platforms == input.platforms.value && f.genres == GameFormat.EnumNames(input.genres.value)
      && f.name == input.name.value && f.averageReviewRating.None?
  {
    GameFormat.ArrayRoundTrip(input.platforms.value);
    GameFormat.GenreColumnRoundTrip(input.genres.value);
  }

  /** `x` when the field was sent, otherwise the stored value. */
  function Patch<T>(sent: Option<T>, stored: T): T {
    if sent.Some? then sent.value else stored
  }

  /** The row after `updateGame`: sent fields replace stored ones, list fields re-encoded. */
  function UpdatedGame(g: Db.Game, input: GameInput): (u: Db.Game)
    requires GenresAcceptedOnUpdate(input.genres)
    ensures u.averageReviewRating == g.averageReviewRating
    ensures input == GameInput(None, None, None, None, None, None, None, None, None, None) ==> u == g
    ensures input.genres.Some? ==> u.genres == GameFormat.Join(GameFormat.EnumNames(input.genres.value), ",")
    ensures input.genres.None? ==> u.genres == g.genres
  {
    var genres := if input.genres.Some? then GameFormat.Join(GameFormat.EnumNames(input.genres.value), ",") else g.genres;
    var u := Db.Game(
      Patch(input.name, g.name),
      if input.description.Some? then input.description else g.description,
      if input.backgroundImage.Some? then input.backgroundImage else g.backgroundImage,
      if Truthy(input.releaseDate) then input.releaseDate.value else g.releaseDate,
      if input.playtime.Some? then input.playtime else g.playtime,
      if input.platforms.Some? then GameFormat.ArrayToString(input.platforms) else g.platforms,
      genres,
      if input.publishers.Some? then GameFormat.ArrayToString(input.publishers) else g.publishers,
      if input.metacriticScore.Some? then input.metacriticScore else g.metacriticScore,
      if input.screenshots.Some? then GameFormat.ArrayToString(input.screenshots) else g.screenshots,
      g.averageReviewRating);
    u
  }

  /** Sent genres are stored so that reading the row back yields their enum names. */
  lemma UpdatedGenresReadBack(g: Db.Game, input: GameInput)
    requires input.genres.Some? && GenresAcceptedOnUpdate(input.genres)
    ensures GameFormat.StringToArray(UpdatedGame(g, input).genres) == GameFormat.EnumNames(input.genres.value)
  {
    GameFormat.GenreColumnRoundTrip(input.genres.value);
  }

  /**
   * `updateGame`: a sent but invalid date, sent genres that convert to `null`, and a missing
   * game all throw the same message; otherwise only the sent fields change.
   */
  method UpdateGame(db: Db.Store, id: Db.Id, input: GameInput, validDate: string -> bool) returns (reply: Reply)
    requires db.Valid()
    modifies db`games
    ensures db.Valid()
    ensures Db.AllFresh(db.reviews, old(db.games)) ==> Db.AllFresh(db.reviews, db.games)
    ensures reply == Status(200) <==>
      (Truthy(input.releaseDate) ==> validDate(input.releaseDate.value))
      && GenresAcceptedOnUpdate(input.genres) && id in old(db.games)
    ensures reply == Status(200) ==> db.games == old(db.games)[id := UpdatedGame(old(db.games)[id], input)]
    ensures reply != Status(200) ==> reply == Thrown(UpdateError) && db.games == old(db.games)
  {
    if Truthy(input.releaseDate) && !validDate(input.releaseDate.value) {
      return Thrown(UpdateError);
    }
    if input.genres.Some? {
      var converted := GameFormat.ConvertGenresToEnum(input.genres.value);
      if converted.None? {
        return Thrown(UpdateError);
      }
    }
    if id !in db.games {
      // `game.update` of a missing row fails.
      return Thrown(UpdateError);
    }
    db.UpdateGameRow(id, UpdatedGame(db.games[id], input));
    reply := Status(200);
  }

  /** An empty genre list is refused on creation and accepted on update. */
  lemma EmptyGenresOnlyOnUpdate()
    ensures !GenresAcceptedOnCreate(Some([]))
    ensures GenresAcceptedOnUpdate(Some([]))
    ensures GameFormat.Join(GameFormat.EnumNames([]), ",") == ""
  {
  }

  /** `after` is `before` with every game's aggregate recomputed from the non-`null` averages. */
  ghost predicate IsRecalculation(reviews: map<Db.Id, Db.Review>, before: map<Db.Id, Db.Game>, after: map<Db.Id, Db.Game>) {
    after.Keys == before.Keys
    && forall g :: g in before ==> after[g] == before[g].(averageReviewRating := Db.RecalculatedAverage(reviews, g))
  }

  /** The per-game body of the loop: `null`, or the rounded mean of the non-`null` averages. */
  method RecalculateOne(reviews: map<Db.Id, Db.Review>, gameId: Db.Id) returns (average: Option<int>)
    ensures average == Db.RecalculatedAverage(reviews, gameId)
  {
    var rows := Db.ReviewsOf(reviews, gameId);
    if |rows| == 0 {
      Db.RatedOfEmpty(rows);
      return None;
    }
    var valid := Db.Rated(rows);
    if |valid| == 0 {
      return None;
    }
    var total := ReviewServices.SumAverages(valid);
    average := Some(Rating.RoundedMean(total, |valid|));
  }

  /** One iteration of the loop: the visited game takes its recomputed aggregate. */
  method RecalculateGame(db: Db.Store, gameId: Db.Id)
    requires db.Valid() && gameId in db.games
    modifies db`games
    ensures db.Valid()
    ensures db.games == old(db.games)[gameId := old(db.games)[gameId].(averageReviewRating := Db.RecalculatedAverage(db.reviews, gameId))]
  {
    var average := RecalculateOne(db.reviews, gameId);
    db.SetAverageReviewRating(gameId, average);
  }

  lemma HasElement(s: set<Db.Id>)
    requires |s| != 0
    ensures exists x :: x in s
  {
    if forall x :: x !in s {
      assert false;
    }
  }

  /**
   * `recalculateAllGameAverages`: visits every game once, in the store's order, and writes its
   * recomputed aggregate. `failures` maps the games whose update fails to the store's message;
   * the first such failure aborts the run and is rethrown with a prefix, leaving the games
   * already visited recomputed and the rest untouched.
   */
  method RecalculateAllGameAverages(db: Db.Store, failures: map<Db.Id, string>) returns (result: RecalcResult)
    requires db.Valid()
    modifies db`games
    ensures db.Valid()
    ensures db.games.Keys == old(db.games).Keys
    ensures result.Recalculated? <==> forall g :: g in old(db.games) ==> g !in failures
    ensures result.Recalculated? ==>
      result.updatedCount == |old(db.games)| && IsRecalculation(db.reviews, old(db.games), db.games)
    ensures result.RecalcThrown? ==>
      (exists g :: g in old(db.games) && g in failures && result.message == RecalcErrorPrefix + failures[g]
                   && db.games[g] == old(db.games)[g])
      && forall g :: g in db.games ==>
           db.games[g] == old(db.games)[g]
           || db.games[g] == old(db.games)[g].(averageReviewRating := Db.RecalculatedAverage(db.reviews, g))
  {
    var todo := db.games.Keys;
    var updatedCount := 0;
    while |todo| != 0
      invariant db.Valid()
      invariant todo <= db.games.Keys
      invariant db.games.Keys == old(db.games).Keys
      invariant updatedCount == |old(db.games)| - |todo|
      invariant forall g :: g in old(db.games) && g !in todo ==> g !in failures
      invariant forall g :: g in db.games ==>
        db.games[g] == if g in todo then old(db.games)[g]
                       else old(db.games)[g].(averageReviewRating := Db.RecalculatedAverage(db.reviews, g))
      decreases |todo|
    {
      HasElement(todo);
      var g :| g in todo;
      if g in failures {
        return RecalcThrown(RecalcErrorPrefix + failures[g]);
      }
      RecalculateGame(db, g);
      todo := todo - {g};
      updatedCount := updatedCount + 1;
    }
    assert todo == {};
    result := Recalculated(updatedCount);
  }

  /**
   * What a recomputed aggregate means: `null` exactly when the game has no review with a
   * non-`null` average, otherwise within 0.005 of the mean of those averages and in 0..5.00.
   */
  lemma RecalculatedMeaning(reviews: map<Db.Id, Db.Review>, gameId: Db.Id)
    requires forall id :: id in reviews ==> Db.WellFormed(reviews[id])
    ensures Db.RecalculatedAverage(reviews, gameId).None? <==>
      forall id :: id in reviews && reviews[id].gameId == gameId ==> reviews[id].averageRating.None?
    ensures Db.RecalculatedAverage(reviews, gameId).Some? ==>
      var m := Db.Rated(Db.ReviewsOf(reviews, gameId));
      var v := Db.RecalculatedAverage(reviews, gameId).value;
      |m| > 0 && Rating.WithinHalf(v, Db.SumOf(m), |m|) && 0 <= v <= 500
  {
    var m := Db.Rated(Db.ReviewsOf(reviews, gameId));
    if |m| == 0 {
      forall id | id in reviews && reviews[id].gameId == gameId ensures reviews[id].averageRating.None? {
        if reviews[id].averageRating.Some? {
          Db.MemberMeansNonEmpty(m, id);
          assert false;
        }
      }
    } else {
      Db.HasKey(m);
      var id :| id in m;
      assert reviews[id].gameId == gameId && reviews[id].averageRating.Some?;
      Db.SumOfBetween(m);
      Rating.RoundedMeanBetween(Db.SumOf(m), |m|, 0, 500);
    }
  }

  /** Running the recomputation twice changes nothing the first run did not. */
  lemma RecalculationIsIdempotent(reviews: map<Db.Id, Db.Review>, a: map<Db.Id, Db.Game>,
                                  b: map<Db.Id, Db.Game>, c: map<Db.Id, Db.Game>)
    requires IsRecalculation(reviews, a, b) && IsRecalculation(reviews, b, c)
    ensures c == b
  {
    assert forall g :: g in c ==> c[g] == b[g];
    assert c.Keys == b.Keys;
  }

  /**
   * When no review has a legacy `null` average, the recomputation leaves every aggregate
   * fresh, whatever state the table was in: it repairs the staleness a user cascade leaves.
   */
  lemma RecalculationRestoresFreshness(reviews: map<Db.Id, Db.Review>, a: map<Db.Id, Db.Game>, b: map<Db.Id, Db.Game>)
    requires IsRecalculation(reviews, a, b)
    requires forall id :: id in reviews ==> reviews[id].averageRating.Some?
    ensures Db.AllFresh(reviews, b)
  {
    forall g | g in b ensures b[g].averageReviewRating == Db.RefreshedAverage(reviews, g) {
      Db.RefreshAgreesWithRecalculation(reviews, g);
    }
  }
}
