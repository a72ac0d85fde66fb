# PlayboxBase core, modelled in Dafny

PlayboxBase is a game-review site. Users create accounts, review games on six aspects (0 to 5
stars each), keep games in catalogs, and a game carries the mean of its reviews' averages.
Games are gathered from the RAWG API by a Python collector script. The web client validates
forms and draws a radar chart of a game's per-aspect averages.

This project models the core of that system:

- the Express services for reviews, games, catalogs and users, over an in-memory model of the
  Prisma tables (`Db.Store`, one `map` field per table, one method per Prisma call, one method
  step per `$transaction` block);
- the review routes (`PUT`/`DELETE` checks before the service is reached);
- the pure helpers of the game service (genre conversion, list columns as comma-joined strings);
- the collector's game formatting, name extraction, genre whitelist and HTML cleaning;
- the client's validators and the radar chart's per-aspect averages.

Numbers: ratings are integers. Every average the server stores (a review's `averageRating`, a
game's `averageReviewRating`) is held as an integer number of hundredths, which is what
`parseFloat(x.toFixed(2))` keeps. The radar chart's averages are integers in tenths
(`toFixed(1)`). `Rating.RoundedMean` is the rounding, and its contract says the result is
within half a unit of the exact quotient.

The central invariant is `Db.AllFresh`: every game's stored aggregate equals the rounded mean of
its reviews' stored averages. Review creation, update and deletion, game creation and update,
and the bulk recalculation all preserve or restore it. User deletion does not (see
`UserServices.CascadeLeavesStaleAggregate`).

Modules, one per source file: `Common`, `Rating`, `Db`, `ReviewServices`, `ReviewRoutes`,
`GameFormat`, `GameServices`, `CatalogServices`, `UserServices`, `Collector`, `Validation`,
`RadarChart`.

## Model

| member | source | states |
|---|---|---|
| Rating.AllRatingsValid | server/services/reviewServices.js:38-44 | true exactly when every one of the six ratings is present, an integer and between 0 and 5 |
| Rating.RoundedMean | server/services/reviewServices.js:381-385 | the stored mean is the integer nearest total/count, within half a unit of the exact quotient |
| Rating.NearestIsUnique | server/services/reviewServices.js:381-385 | two values both within half a unit (half-open) of the same quotient are equal, so the rounding is determined |
| Rating.RoundedMeanBetween | server/services/reviewServices.js:381-385 | a mean of values bounded by lo and hi is itself between lo and hi |
| Rating.RecordAverage | server/services/reviewServices.js:47-54 | a review's average in hundredths is between 0 and 500 and within 0.005 of the six-rating sum divided by 6 |
| Rating.RecordAverageHasNoTie | server/services/reviewServices.js:75 | the two-decimal value of sum/6 is never a tie: any h within the bound equals RecordAverage |
| Rating.TwoReviewExample | server/services/reviewServices.js:381-385 | ratings 5,4,3,2,1,0 store 2.50; with an all-zero review the game stores 1.25 |
| Db.Store.constructor | server/services/prisma.js:12 | a fresh store has empty tables and satisfies the referential invariant |
| Db.Store.CreateReviewRow | server/services/reviewServices.js:65-77 | the new row is inserted under a fresh autoincrement id, nothing else changes |
| Db.Store.UpdateReviewRow | server/services/reviewServices.js:253-265 | the row at the id is replaced, the other rows are kept |
| Db.Store.DeleteReviewRow | server/services/reviewServices.js:309-311 | the row at the id is removed, the other rows are kept |
| Db.Store.CreateGameRow | server/services/gameServices.js:132-145 | the game is inserted under a fresh id that no review references |
| Db.Store.UpdateGameRow | server/services/gameServices.js:267-280 | the game row at the id is replaced |
| Db.Store.CreateCatalogRow | server/services/catalogServices.js:55-60 | the catalog is inserted under a fresh id |
| Db.Store.UpdateCatalogRow | server/services/catalogServices.js:159-166 | the catalog row at the id is replaced |
| Db.Store.DeleteCatalogRow | server/services/catalogServices.js:230-232 | the catalog row at the id is removed |
| Db.Store.CreateUserRow | server/services/userServices.js:74-85 | the user and its nested empty favourites catalog are inserted under fresh ids |
| Db.Store.UpdateUserRow | server/services/userServices.js:238-249 | the user row at the id is replaced; name and email stay unique |
| Db.Store.DeleteUserCascade | server/services/userServices.js:284-299 | the user's reviews and catalogs are deleted, then the user itself |
| Db.Store.SetAverageReviewRating | server/services/reviewServices.js:385-388 | only the game's aggregate column changes |
| Db.WithoutAuthor | server/services/userServices.js:286-288 | exactly the reviews by other users remain, unchanged |
| Db.WithoutOwner | server/services/userServices.js:291-293 | exactly the catalogs of other users remain, unchanged |
| Db.SumOfAny | server/services/reviewServices.js:381 | the reduce sum does not depend on the order: any row can be taken out first |
| Db.RatedWithout | server/services/gameServices.js:416-418 | removing one row commutes with filtering out rows whose average is null |
| Db.SumOfRated | server/services/gameServices.js:416-418 | dropping null rows does not change the sum, since a null adds 0 in JavaScript |
| Db.SumOfBetween | server/services/reviewServices.js:381 | the sum of n review averages lies between 0 and 5.00·n |
| Db.AggregateMeaning | server/services/reviewServices.js:365-388 | the refreshed aggregate is null exactly when the game has no reviews, otherwise it is between 0 and 5.00 |
| Db.UnreviewedGameIsFresh | server/services/gameServices.js:132-145 | inserting a game that no review references keeps every aggregate fresh |
| Db.RatedOfEmpty | server/services/gameServices.js:416-418 | with no rows there are no rated rows |
| Db.RefreshAgreesWithRecalculation | server/services/gameServices.js:406-440 | when no review of the game has a null average, the per-game refresh and the bulk recalculation agree |
| Db.SumOfSingle | server/services/reviewServices.js:381 | the sum over one row is that row's contribution |
| Db.NullRowDividesDifferently | server/services/reviewServices.js:381-382 | with one null row beside a rated one, the refresh halves the average while the recalculation keeps it |
| Db.NullRowExample | server/services/gameServices.js:421-435 | a game with a 4.00 review and a null review gets 2.00 from the refresh and 4.00 from the recalculation |
| Db.RefreshRestoresFreshness | server/services/reviewServices.js:365-388 | after reviews change only for one game, refreshing that game restores freshness for all games |
| ReviewServices.PayloadRatings | server/services/reviewServices.js:38-44 | valid payload ratings become six in-range integers equal to the fields sent |
| ReviewServices.UpdatedRow | server/services/reviewServices.js:253-265 | the updated review keeps its game and author, gets a fresh average, and keeps its comment unless one is sent |
| ReviewServices.SumAverages | server/services/reviewServices.js:381 | the loop's total equals the sum of the rows' stored averages, nulls counting 0 |
| ReviewServices.UpdateGameAverageRating | server/services/reviewServices.js:365-393 | a known game's aggregate becomes the refreshed mean (null without reviews); an unknown game fails with the service's message |
| ReviewServices.CheckRatings | server/services/reviewServices.js:38-44 | accepts exactly the payloads whose six ratings are integers from 0 to 5 |
| ReviewServices.CreateReview | server/services/reviewServices.js:23-88 | 400 on bad ratings, 404 on an unknown game, a throw for a missing game id or an unknown author, otherwise 201 with the row and its average inserted and the game refreshed; every failure leaves the tables as they were; freshness is kept |
| ReviewServices.GetReviewById | server/services/reviewServices.js:95-128 | a missing or zero id throws; otherwise the stored review is found or 404 |
| ReviewServices.UpdateReview | server/services/reviewServices.js:211-275 | 400 on bad ratings, 404 on an unknown review, otherwise 200 with the row updated and its game refreshed; freshness is kept |
| ReviewServices.DeleteReview | server/services/reviewServices.js:284-331 | only the author deletes: then 200 with the row gone and its game refreshed; a missing row or another author throws the same message and nothing changes; freshness is kept |
| ReviewRoutes.StatusOf | server/routes/reviews.js:27-36 | a service status is passed through, a thrown error answers 400 |
| ReviewRoutes.Post | server/routes/reviews.js:27-36 | the status is 201, 400 or 404; 201 exactly when the service inserted; freshness is kept |
| ReviewRoutes.Put | server/routes/reviews.js:104-119 | a missing, zero or unknown id answers 400 (reading the author of an undefined review throws), another author 403, otherwise the service's status; 200 exactly when the author sent valid ratings, and then the row is updated and its game refreshed; freshness is kept |
| ReviewRoutes.Delete | server/routes/reviews.js:128-156 | 400 for a missing or zero id, 404 for an unknown review, 403 for another author, otherwise 200 with the row deleted and its game refreshed; freshness is kept |
| GameFormat.Split | server/services/gameServices.js:55-57 | the pieces contain no separator and join back to the input |
| GameFormat.TrimStart | server/services/gameServices.js:55-57 | removes exactly the leading JavaScript white space |
| GameFormat.TrimEnd | server/services/gameServices.js:55-57 | removes exactly the trailing JavaScript white space |
| GameFormat.Trim | server/services/gameServices.js:55-57 | the result is trimmed, uses only the input's characters, and a trimmed input is kept |
| GameFormat.TrimAndDrop | server/services/gameServices.js:55-57 | every kept item is non-empty and trimmed, and comma-free when the pieces were |
| GameFormat.TrimAndDropKeepsClean | server/services/gameServices.js:55-57 | clean items pass through trimming and filtering unchanged |
| GameFormat.StringToArray | server/services/gameServices.js:55-57 | every item read from a list column is clean: non-empty, trimmed, comma-free |
| GameFormat.ArrayToString | server/services/gameServices.js:46-48 | a missing array is stored as the empty string |
| GameFormat.SplitJoin | server/services/gameServices.js:46-57 | splitting a joined list on its separator gives the list back |
| GameFormat.ArrayRoundTrip | server/services/gameServices.js:46-57 | a list of clean items read back from its column is the same list |
| GameFormat.EnumNames | server/services/gameServices.js:15-26 | each genre becomes its enum name, position by position |
| GameFormat.ConvertGenresToEnum | server/services/gameServices.js:14-39 | fails exactly when some genre is unknown, otherwise the enum names joined by commas |
| GameFormat.GenreMapValues | server/services/gameServices.js:15-26 | every enum name in the map is upper-case letters and underscores |
| GameFormat.EnumNamesClean | server/services/gameServices.js:15-26 | converted genre names are clean list items |
| GameFormat.GenreColumnRoundTrip | server/services/gameServices.js:38 | the genre column reads back as the enum names, and is empty only for no genres |
| GameFormat.LookupAsWritten | server/services/gameServices.js:28-36 | the object lookup succeeds exactly for map keys and inherited Object.prototype names; keys give their enum name, inherited names give a value that is not an enum name |
| GameFormat.ConvertedAsWritten | server/services/gameServices.js:28-36 | the loop as written fails exactly when some lookup is undefined |
| GameFormat.InheritedNameIsAccepted | server/services/gameServices.js:28-36 | the genre "toString" is not in the map, yet the code as written converts it |
| GameFormat.ConstructorIsAccepted | server/services/gameServices.js:28-36 | as written, the genre "constructor" converts to the printed `Object` function |
| GameFormat.AsWrittenAgreesOffPrototype | server/services/gameServices.js:28-36 | for genres that are not prototype names, the code as written agrees with the corrected conversion |
| GameFormat.AsWrittenAgreesOnKnown | server/services/gameServices.js:28-36 | on known genres the code as written gives the enum names |
| GameFormat.FormatGameForResponse | server/services/gameServices.js:64-74 | null stays null; otherwise the list columns are read back as arrays and the other fields are copied |
| GameServices.NewGame | server/services/gameServices.js:132-145 | a new game has a null aggregate and its genres column is the joined enum names |
| GameServices.CreateGame | server/services/gameServices.js:92-155 | a missing name or date, a bad date, or bad, missing or empty genres throws; a taken name gives 409 unless the lookup failed; otherwise 200 with one new row |
| GameServices.CreatedGameReadsBack | server/services/gameServices.js:147-151 | the created game reads back with the clean lists it was given and its genres as enum names |
| GameServices.UpdatedGame | server/services/gameServices.js:267-280 | fields not sent are kept, the aggregate is never touched, and sent genres are stored as enum names |
| GameServices.UpdatedGenresReadBack | server/services/gameServices.js:255-261 | updated genres read back as their enum names |
| GameServices.UpdateGame | server/services/gameServices.js:241-291 | 200 exactly when the game exists and the date and genres are acceptable, with the row patched; otherwise it throws and nothing changes |
| GameServices.EmptyGenresOnlyOnUpdate | server/services/gameServices.js:255-261 | an empty genre list is refused on creation but stored as "" on update |
| GameServices.RecalculateOne | server/services/gameServices.js:406-440 | the loop's result is the mean of the rated reviews, null when there are none |
| GameServices.RecalculateGame | server/services/gameServices.js:406-440 | only this game's aggregate changes, to the recalculated mean |
| GameServices.RecalculateAllGameAverages | server/services/gameServices.js:398-448 | succeeds exactly when no update fails, and then every game carries the recalculated mean; on a failure, games already updated keep the new value |
| GameServices.RecalculatedMeaning | server/services/gameServices.js:416-435 | the recalculated aggregate is null exactly when no review of the game has an average, otherwise within 0 to 5.00 |
| GameServices.RecalculationIsIdempotent | server/services/gameServices.js:398-448 | running the recalculation twice gives the same games as running it once |
| GameServices.RecalculationRestoresFreshness | server/services/gameServices.js:398-448 | without null review averages, a recalculated store is fresh |
| CatalogServices.WithGame | server/services/catalogServices.js:159-166 | the target catalog's game set gains the game; every other catalog and all keys stay the same |
| CatalogServices.WithoutGame | server/services/catalogServices.js:206-213 | the target catalog's game set loses the game; every other catalog and all keys stay the same |
| CatalogServices.CreateCatalog | server/services/catalogServices.js:42-67 | 400 when a catalog matches the name and owner sent; an unknown owner or missing field throws; otherwise 201 with an empty catalog |
| CatalogServices.AddGameToCatalog | server/services/catalogServices.js:135-173 | 404 for an unknown catalog, 400 when the game is already in it, a throw for an unknown game, otherwise 200 with the game added |
| CatalogServices.RemoveGameFromCatalog | server/services/catalogServices.js:182-220 | 404 for an unknown catalog, 400 when the game is not in it, otherwise 200 with the game removed |
| CatalogServices.AddThenRemoveRestores | server/services/catalogServices.js:135-220 | adding a new game and removing it again gives back the same catalogs |
| CatalogServices.RemoveThenAddRestores | server/services/catalogServices.js:135-220 | removing a member and adding it back gives back the same catalogs |
| CatalogServices.UpdatedCatalog | server/services/catalogServices.js:262-268 | fields not sent are kept and the game set is untouched |
| CatalogServices.UpdateCatalog | server/services/catalogServices.js:249-275 | 404 for an unknown catalog, a throw for an unknown new owner, otherwise 200 with the row patched |
| CatalogServices.UpdateAllowsDuplicates | server/services/catalogServices.js:249-275 | an update can give a catalog the name and owner of another, which creation refuses |
| CatalogServices.DeleteCatalog | server/services/catalogServices.js:228-238 | an unknown id throws; otherwise 200 and the row is gone |
| UserServices.FavoritesName | server/services/userServices.js:80-84 | the favourites catalog's name is the fixed prefix followed by the user's name |
| UserServices.CreateUser | server/services/userServices.js:63-117 | a missing field throws; a taken name, then a taken email, throws its message; otherwise 201 with a non-admin user and its favourites catalog |
| UserServices.CreateAdmin | server/services/userServices.js:500-542 | a missing field throws; a collision throws the store's message; otherwise 201 with an admin user |
| UserServices.Register | server/services/userServices.js:74-111 | the insert succeeds exactly when name and email are free, the name collision reported first |
| UserServices.UpdatedUser | server/services/userServices.js:226-249 | name and email are replaced, the password only when a non-empty one is sent, the admin flag only when sent |
| UserServices.ResubmitIsIdentity | server/services/userServices.js:226-249 | resubmitting a user's own name and email without password or flag leaves it unchanged |
| UserServices.UpdateUser | server/services/userServices.js:212-265 | missing name or email, an unknown user, or a name or email of another user throws; otherwise 200 with the row patched |
| UserServices.DeleteUser | server/services/userServices.js:273-309 | an unknown user throws; otherwise 200 and the cascade runs; games are untouched |
| UserServices.DeleteOwnUser | server/services/userServices.js:7-40 | the same cascade with the own-account message; games are untouched |
| UserServices.CascadeLeavesNoTrace | server/services/userServices.js:284-299 | after the cascade no review or catalog belongs to the user, and every other one remains |
| UserServices.CascadeKeepsOtherGamesFresh | server/services/userServices.js:286-288 | the refreshed aggregate of a game the user did not review is unchanged |
| UserServices.CascadeLeavesStaleAggregate | server/services/userServices.js:284-299 | a game whose only reviewer is deleted keeps a non-null aggregate that should now be null |
| Collector.KeptNames | scripts/game_data_collector/main.py:72-97 | keeps at most the names given, and every kept name is non-empty |
| Collector.KeptNamesAppend | scripts/game_data_collector/main.py:72-97 | filtering a concatenation is concatenating the filtered parts |
| Collector.KeptNamesAll | scripts/game_data_collector/main.py:72-97 | when every name is present and non-empty, all are kept in order |
| Collector.KeptNamesFromInput | scripts/game_data_collector/main.py:72-97 | every kept name is one of the input names |
| Collector.GetPlatformsNames | scripts/game_data_collector/main.py:72-79 | the loop returns the non-empty platform names in order |
| Collector.GetPublishersNames | scripts/game_data_collector/main.py:81-88 | the loop returns the non-empty publisher names in order |
| Collector.GetGenresNames | scripts/game_data_collector/main.py:90-97 | the loop returns the non-empty genre names in order |
| Collector.AreGenresValid | scripts/game_data_collector/main.py:99-115 | true exactly when every genre is in the whitelist |
| Collector.ValidGenresAreGenreMapKeys | scripts/game_data_collector/main.py:101-104 | the collector's whitelist is exactly the server's genre map keys |
| Collector.AcceptedGenresConvert | scripts/game_data_collector/main.py:45-70 | a non-empty list the collector accepts is converted by the server to a non-empty genre column |
| Collector.IndexOf | scripts/game_data_collector/main.py:244 | the first position of the character, or the length when it is absent |
| Collector.StripTags | scripts/game_data_collector/main.py:244 | the result uses only input characters, keeps a leading non-tag character, and has no complete tag left |
| Collector.StripTagsKeepsPlainText | scripts/game_data_collector/main.py:244 | text without '<' is left as it is |
| Collector.ReplaceAll | scripts/game_data_collector/main.py:247-259 | a text shorter than the pattern is unchanged; what a replacement does is stated by ReplaceFirst and ReplaceAbsent |
| Collector.ReplaceFirst | scripts/game_data_collector/main.py:247-259 | `str.replace` keeps the text before the leftmost occurrence, puts the replacement in its place, and continues after it without overlap |
| Collector.LeadAbsent | scripts/game_data_collector/main.py:247-259 | a pattern whose first character is not in the text does not occur in it |
| Collector.ReplaceAbsent | scripts/game_data_collector/main.py:247-259 | a text with no occurrence of the pattern is unchanged |
| Collector.ApplyEntities | scripts/game_data_collector/main.py:247-259 | a text shorter than every entity is unchanged; its all-inputs meaning is ApplyWithoutAmpersand |
| Collector.ApplyWithoutAmpersand | scripts/game_data_collector/main.py:247-259 | text without `&` passes unchanged through any sequence of replacements whose patterns start with `&` |
| Collector.DecodeWithoutAmpersand | scripts/game_data_collector/main.py:247-259 | the entity table leaves every text without `&` as it is |
| Collector.Word | scripts/game_data_collector/main.py:261-262 | the first word is the longest space-free prefix |
| Collector.Words | scripts/game_data_collector/main.py:261-262 | the words are non-empty and space-free |
| Collector.WordsOfJoin | scripts/game_data_collector/main.py:261-262 | splitting words joined by single spaces gives the words back |
| Collector.NormalizeMeaning | scripts/game_data_collector/main.py:261-262 | normalized text has single spaces and no outer space, keeps the words, and normalizing again changes nothing |
| Collector.CleanHtmlTags | scripts/game_data_collector/main.py:238-267 | the loop's result is tags stripped, entities decoded in order, spaces normalized |
| Collector.CleanedTextWithoutMarkup | scripts/game_data_collector/main.py:238-267 | a non-empty text with neither `<` nor `&` is only whitespace-normalised |
| Collector.DoubleEscapeDecodes | scripts/game_data_collector/main.py:247-259 | "&amp;lt;" is decoded twice, to "<" |
| Collector.FormatGameData | scripts/game_data_collector/main.py:42-70 | no payload exactly when the metacritic score is missing or 0 or a genre is not whitelisted; otherwise the payload with cleaned description and the name lists |
| Validation.EmailCharacterisation | client/src/utils/validation.js:11-14 | the regular expression accepts exactly the strings with one '@', a non-empty part before, and a dot after it with non-empty parts on both sides, none containing space or '@' |
| Validation.ValidatePassword | client/src/utils/validation.js:21-23 | true exactly for a password of at least 6 characters; a falsy input is returned as it is |
| Validation.ValidateRequired | client/src/utils/validation.js:30-32 | a falsy input is returned as it is |
| Validation.RequiredMeaning | client/src/utils/validation.js:30-32 | true exactly when the value has a non-white-space character |
| Validation.FirstFailure | client/src/utils/validation.js:43-51 | none exactly when every validator returns true, otherwise the first result that is not true |
| Validation.FormErrors | client/src/utils/validation.js:40-57 | error keys are field names from the rules, and no error value is true |
| Validation.FormErrorsPerField | client/src/utils/validation.js:43-51 | with distinct fields, a field has an error exactly when some validator fails, and it is the first failure |
| Validation.ValidateForm | client/src/utils/validation.js:40-57 | the loops compute the error map, and the form is valid exactly when it is empty |
| RadarChart.TotalsAppend | client/src/components/GameRadarChart.jsx:47-62 | the reduce over two halves is the sum of the two reduces |
| RadarChart.SingleReviewTotals | client/src/components/GameRadarChart.jsx:47-62 | one review's totals are its ratings, missing ones as 0 |
| RadarChart.SumOfTotals | client/src/components/GameRadarChart.jsx:47-62 | the six totals add up to the sum of the reviews' rating sums |
| RadarChart.RowSumIsServerTotal | client/src/components/GameRadarChart.jsx:47-62 | a review with all six ratings sums to the server's rating total |
| RadarChart.TotalsBounded | client/src/components/GameRadarChart.jsx:47-62 | each total of n reviews is between 0 and 5·n |
| RadarChart.CalculateAverages | client/src/components/GameRadarChart.jsx:35-74 | zeros without reviews, otherwise each aspect within half a tenth of its total over the count |
| RadarChart.AveragesInScale | client/src/components/GameRadarChart.jsx:35-74 | every average is between 0.0 and 5.0 |
| RadarChart.MissingRatingCountsAsZero | client/src/components/GameRadarChart.jsx:50-57 | a review without a gameplay rating pulls the average down, as a 0 would |

## Left out

- Rating.RoundedMean: a game-level mean that falls exactly halfway between two hundredths is rounded up; `toFixed` on a double may round it either way, so the contracts state only the half-unit bound. A review's own average never falls on a tie.
- RadarChart.CalculateAverages: the averages are integers in tenths, not the strings `toFixed(1)` returns; a half-tenth tie is rounded up; the empty case is the number 0 for every aspect.
- Floating point: the model uses exact integers. Ratings that are non-integer numbers are refused as in the source, so only the averages involve division.
- Store failures that the code catches are parameters. CreateGame's `lookupFailed` stands for `getGameByName` throwing. RecalculateAllGameAverages' `failures` names the games whose update throws. CreateAdmin's `storeMessage` is the store's error text. Other database errors are not modelled.
- Password hashing (bcrypt) is the `hash` parameter. Authentication, JWT tokens, password reset and the admin middleware are not part of this model.
- Date parsing is the `validDate` parameter, so which strings `new Date` accepts is not modelled.
- JSON `null` in a request body is treated as an absent field.
- The Prisma P2025 "record not found" branches cannot happen in this model. Each lookup and the write after it form one atomic step.
- In createReview, updateReview and deleteReview the write and the aggregate refresh are sequential steps of one method. Concurrent requests interleaving between them are not modelled.
- Genres sent as something other than an array (a string, an object) are not modelled. A `null` or absent list is.
- Route ids that are fractional or non-numeric strings are not modelled. An id is absent, zero or an integer.
- The order of `findMany` results is not modelled. Sums are proved independent of it (`Db.SumOfAny`).
- UserServices.CreateUser: when both the name and the email collide, the model reports the name. Which of the two unique constraints the database reports is not modelled.
- catalogServices.js repeats stringToArray and formatGameForResponse. They are modelled once, in GameFormat.
- Validation.ValidatePassword: string length is counted in Dafny characters, not JavaScript UTF-16 code units.
- Validation: form values are strings or absent. Other JavaScript values, and falsy values other than `undefined` and `""`, are not modelled.
- GameServices.CreateGame, GameServices.UpdateGame: use the corrected genre conversion of "## Findings", so names inherited from Object.prototype (`toString`, `constructor`, ...) are refused where the source stores the printed inherited value and answers 200.
- Collector.PlatformNamesOf: an entry whose `platform` value is `None` is read as a missing name; in the source `None.get('name')` raises AttributeError, which no handler in the script catches, so the whole collection run ends.
- The read-only listings (getAllGames, getGamesByGenre, getCatalogsByUserId, getAllUsers, getReviewsByGameId and the like) only select and format rows. They are not part of this model.
- The collector's HTTP requests to RAWG and the backend, its paging and its printing are not part of this model. Only the pure formatting steps are.
- Collector.CleanHtmlTags: tags are stripped before entities are decoded, as in the source, so an escaped `&lt;b&gt;` comes out as the text `<b>`. The model keeps this order.

## Findings

| source | as written | input that shows it | evidently intended | confidence | as-written member | corrected member |
|---|---|---|---|---|---|---|
| server/services/gameServices.js:28-36 | `genreMap[genre]` on an object literal also finds names inherited from `Object.prototype`, so such a genre is "supported" | genres `["toString"]` converts to the text of a native function instead of failing | only the ten keys of the map are accepted; any other genre makes the conversion return null | not executed | GameFormat.InheritedNameIsAccepted | GameFormat.ConvertGenresToEnum |
