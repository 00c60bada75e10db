# Streaming catalogue: a verified model of its rules

This project models the core of a small Flask streaming-catalogue application in Dafny.
Users browse movies and shows, rate them, comment on them and receive genre-based
recommendations. The model covers:

- the entity shapes and the blended `average_rating` of `app/models.py`;
- the video path builder and the recommendation merge of `app/utils.py`;
- the home page, the title search, the recommendations page and the watch page, with its
  episode selection and comment form, of `app/routes/main.py`;
- the advanced search, the rating upsert and the comment listing of `app/routes/movie.py`;
- the advanced search of `app/routes/show.py`.

Database tables are sequences of rows in insertion order. A query `filter` is `Seqs.Filter`.
`order_by(external_rating.desc())` is a stable descending insertion sort (`Seqs.SortDesc`),
and `.limit(n)` is a prefix (`Seqs.Top`). The catalogue tables are read-only for the modelled
routes, so they are kept as values in `Models.Database`. Its invariant `Valid` says that the movie and show tables hold their own kind of row, that ids are primary keys (app/models.py:22, 42) and that usernames and emails are unique (app/models.py:9-10). The ratings and comments, which the
routes write, are the fields of the class `Interactions.Ledger`, and its methods update them
in place.

Ratings and comments name their movie or show through a tagged reference
`ContentRef(kind, id)`, not through two nullable columns. Where the declared columns do
something different, the difference is recorded under "## Findings".

Points where the code does something a reader might not expect, and the model follows the code:

- With no user ratings, `average_rating` is `round(external_rating / 2, 1)` (`Models.AverageWithoutRatings`).
  It is not the external rating itself.
- On the class, `Movie.average_rating` (app/routes/movie.py:42, 44) and `Show.average_rating`
  (app/routes/show.py:16, 18) are the `property` objects themselves. Comparing one with a float
  raises TypeError in Python before SQLAlchemy builds any query, so as written every truthy
  `min_rating` or `max_rating` answers HTTP 500 (`Catalog.AdvancedSearchAsWritten`). The search
  functions model the evident intent, in which each row's own blended rating is compared with the
  bound. "## Findings" records the difference.
- A NULL preferred genre is written into the pattern as the text "None" (`Utils.GenrePattern`).

Modules, with dependencies pointing up the list:

| module | file | content |
|---|---|---|
| Wrappers | wrappers.dfy | `Option`, `Result` |
| Text | text.dfy | `str.strip()`, SQL `lower()` and `ILIKE '%q%'`, integer formatting and `int()` of a string |
| Seqs | seqs.dfy | filters, the stable descending sort, top-n |
| Models | models.dfy | entities, the database, the blended rating |
| Catalog | catalog.dfy | shared query rules: title and genre match, top-rated, the advanced-search filter chain |
| Utils | utils.dfy | `get_video_path`, `get_recommended_movies`, `get_recommended_shows` |
| Interactions | interactions.dfy | the ratings and comments tables (`Ledger`) and the rating upsert |
| MovieRoutes | movie_routes.dfy | app/routes/movie.py |
| ShowRoutes | show_routes.dfy | app/routes/show.py |
| MainRoutes | main_routes.dfy | app/routes/main.py |

## Model

| member | source | states |
|---|---|---|
| Text.TrimLeft | app/routes/main.py:30 | drops exactly the leading run of Python whitespace: the result is a suffix, everything cut is whitespace, and it does not start with whitespace |
| Text.TrimRight | app/routes/main.py:30 | drops exactly the trailing run of whitespace: the result is a prefix, everything cut is whitespace, and it does not end with whitespace |
| Text.StripIsInnerSlice | app/routes/main.py:30 | `strip()` returns a slice `s[i..j]`, everything outside it is whitespace, and the result neither starts nor ends with whitespace |
| Text.Lower | app/routes/main.py:33 | SQL `lower()` keeps the length and lower-cases each ASCII letter in place |
| Text.LowerIdempotent | app/routes/main.py:33 | lower-casing twice is the same as lower-casing once |
| Text.ContainsIff | app/routes/main.py:33 | the recursive `%t%` match holds exactly when `t` occurs at some position of `s` |
| Text.ContainsCIQueryCase | app/routes/main.py:33 | the case of the query never changes an `ILIKE` match |
| Text.ContainsCIEmpty | app/routes/main.py:33 | the empty pattern `%%` matches every string |
| Text.NatToString | app/utils.py:48 | the f-string form of a natural number is a nonempty run of digits, with no leading zero unless it is "0" |
| Text.DigitsOfNatToString | app/utils.py:48 | reading the written digits back gives the number again |
| Text.ParseIntOfIntToString | app/routes/movie.py:56 | `int(str(i)) == i` for every integer, negative ones included |
| Seqs.Filter | app/routes/movie.py:38-47 | a `WHERE` keeps exactly the rows that satisfy the condition, and never adds rows |
| Seqs.FilterFilter | app/routes/movie.py:38-47 | two chained `filter` calls select what the conjunction of their conditions selects, in table order |
| Seqs.FilterAppend | app/utils.py:61 | filtering a concatenation is concatenating the filtered parts |
| Seqs.SortDesc | app/utils.py:57 | `ORDER BY key DESC` returns a permutation of the table (same multiset) in descending key order |
| Seqs.TopSpec | app/utils.py:57 | `ORDER BY … DESC LIMIT n` has min(n, size) rows, is sorted, is drawn from the table, and no row left out has a larger key than a row kept |
| Models.FindById | app/routes/movie.py:54 | `get_or_404` finds a row with that id exactly when the id is in the table |
| Models.SeasonsOf | app/models.py:49 | a show's seasons are exactly the season rows whose `show_id` is the show |
| Models.EpisodesOf | app/models.py:65 | a season's episodes are exactly the episode rows whose `season_id` is the season |
| Models.NewMovie | app/models.py:21-29 | a new movie has the given id, title and video location, and `external_rating` defaults to 0 |
| Models.NewShow | app/models.py:41-48 | a new show has the given id and title, and `external_rating` defaults to 0 |
| Models.AddUser | app/models.py:9-10 | inserting a user fails exactly when the username or the email is taken; otherwise the row is appended and both stay unique |
| Models.Round1 | app/models.py:38 | `round(x, 1)` lies within 0.05 of `x` and is a whole number of tenths |
| Models.Round1OfTenths | app/models.py:38 | a value that is already a whole number of tenths is unchanged by rounding |
| Models.AverageWithoutRatings | app/models.py:33-38 | with no ratings for the item, `average_rating` is `round(external_rating / 2, 1)` |
| Models.BlendedBetween | app/models.py:38 | with at least one rating, the blend before rounding lies between the user mean and the external rating |
| Models.SumBounds | app/models.py:34 | a sum of n scores in `lo..hi` lies in `n*lo..n*hi` |
| Models.MeanBounds | app/models.py:34 | the mean of scores in `lo..hi` lies in `lo..hi` |
| Models.BlendedExample | app/models.py:31-38 | ratings 8 and 10 with external rating 6 give an average rating of 7.5 |
| Models.ScoresForIgnoresOthers | app/models.py:51-58 | rows for other movies or shows never enter an item's scores, so a show's average uses only that show's ratings |
| Models.DeclaredScoresForShow | app/models.py:51-58 | as written over the declared `rating` table (app/models.py:76-80): a show's scores hold one score per row whose `show_id` is its id, in table order, so `AVG` sees every such row, whichever movie or show it was meant for |
| Models.DeclaredSchemaMixesMovieAndShow | app/models.py:80 | under the declared schema a rating of movie 1 is counted by show 1; keyed by a content reference it is not |
| Catalog.TopRatedSpec | app/routes/main.py:12-13 | the top-n list has min(n, size) rows with unique ids, is in descending external rating, is drawn from the table, and no row left out rates higher than one kept |
| Catalog.FilterNoDupIds | app/routes/movie.py:47 | a filtered table keeps unique ids |
| Catalog.SortDescNoDupIds | app/utils.py:57 | sorting keeps the set of ids and their uniqueness |
| Catalog.FilterIfAsFilter | app/routes/movie.py:39-46 | `if flag: query = query.filter(cond)` is the single filter `flag ==> cond` |
| Catalog.FilterIfStep | app/routes/movie.py:39-46 | one more conditional filter after a filter is a single filter on the conjunction |
| Catalog.AdvancedSearch | app/routes/movie.py:38-47 | the search keeps, in table order, exactly the rows that pass every filter whose parameter is truthy |
| Catalog.AdvancedSearchIsConjunction | app/routes/movie.py:38-47 | the chain of four conditional filters equals one filter on the conjunction of the active conditions |
| Catalog.AdvancedSearchNoParams | app/routes/movie.py:38-47 | with no truthy parameter the whole table is returned |
| Catalog.AdvancedSearchGenre | app/routes/movie.py:39-40 | a truthy genre keeps only rows with a genre that contains it, ignoring case |
| Catalog.AdvancedSearchBounds | app/routes/movie.py:41-44 | truthy bounds are inclusive limits on `average_rating` |
| Catalog.AdvancedSearchYear | app/routes/movie.py:45-46 | a truthy year keeps exactly the rows of that year that pass the other filters |
| Catalog.AdvancedSearchZeroIgnored | app/routes/movie.py:41-44 | a bound of 0 gives the same result as no bound |
| Catalog.AdvancedSearchAsWritten | app/routes/movie.py:41-44 | as written, the search fails with a TypeError exactly when a rating bound is truthy; otherwise it returns the rows passing the genre and year filters |
| Catalog.RatingBoundFailsAsWritten | app/routes/movie.py:41-42 | `min_rating=5` fails as written, while the per-row reading keeps exactly the rows whose average rating is at least 5 |
| Utils.VideoPath | app/utils.py:34-50 | the path builder fails with ValueError exactly when the type is neither "movie" nor "show" with a truthy season |
| Utils.MovieVideoPath | app/utils.py:45-46 | a movie's file is `<root>/static/videos/movies/<title>.mp4` |
| Utils.ShowVideoPath | app/utils.py:47-48 | an episode's file is `<root>/static/videos/shows/season_<n>/<title>.mp4` |
| Utils.AbsoluteTitleVideoPath | app/utils.py:46 | a title starting with '/' makes `os.path.join` drop the directory, so the path is `<title>.mp4` |
| Utils.FindPreference | app/utils.py:55 | `.first()` of the user's preferences is None exactly when the user has none, and otherwise the first such row |
| Utils.FirstById | app/utils.py:61 | first-occurrence de-duplication gives unique ids, keeps every id, and adds nothing |
| Utils.FirstByIdSnoc | app/utils.py:61 | a row with a new id is appended, and a row whose id was seen is dropped |
| Utils.DictValuesIsFirstById | app/utils.py:61 | when ids determine rows, the `{x.id: x}.values()` of a list is its first-occurrence de-duplication |
| Utils.FirstByIdOfNoDup | app/utils.py:61 | a list with unique ids is its own de-duplication |
| Utils.FirstByIdAppend | app/utils.py:61 | de-duplicating `a + b` gives the de-duplicated `a` followed by the rows of de-duplicated `b` whose id `a` lacks |
| Utils.GenreTopSpec | app/utils.py:59 | the genre list holds min(5, number of matching rows) rows, all from the table with a genre matching the preference, in descending external rating, with unique ids, and no matching row left out rates higher than one kept |
| Utils.MergeIsGenreThenFreshTop | app/utils.py:59-61 | with a preference, the merged list is the genre list followed by the top-5 rows whose id it does not yet hold, in their own order |
| Utils.RecommendedSpec | app/utils.py:54-61 | recommendations are at most 10 rows with unique ids, all from the table; without a preference they are the top 10; with one they start with the genre list and hold nothing outside the two lists |
| Utils.RecommendedMovies | app/utils.py:54-61 | the movie recommendations are at most 10 distinct movies from the movie table |
| Utils.RecommendedShows | app/utils.py:64-71 | the show recommendations are at most 10 distinct shows from the show table |
| Interactions.FindRating | app/routes/movie.py:62 | the lookup returns the position of the first row of that user for that item, and None exactly when there is none |
| Interactions.UpsertExisting | app/routes/movie.py:62-64 | with an existing row, the table keeps its size, that row now holds the new value, and every other row is unchanged |
| Interactions.UpsertNew | app/routes/movie.py:65-67 | with no existing row, exactly the row (user, item, value) is appended |
| Interactions.UpsertKeepsInvariants | app/routes/movie.py:57-68 | a submission keeps one rating per (user, item) and every score within 1..10 |
| Interactions.UserMeanInRange | app/models.py:33-37 | while every stored score is in 1..10, an item's `AVG(rating)` over its ratings lies in 1..10 |
| Interactions.UpsertLatestWins | app/routes/movie.py:62-68 | after a submission the user's rating for the item exists and holds the submitted value |
| Interactions.UpsertTwice | app/routes/movie.py:62-68 | submitting twice gives the table of submitting the second value once |
| Interactions.UpsertOtherItemsUnchanged | app/routes/movie.py:62-68 | rating one item changes no other item's scores, for movies and shows alike |
| Interactions.UpsertScoresReplaced | app/routes/movie.py:62-64 | with an existing row, the item's score list keeps its length and the user's old score is replaced by the new one at its position |
| Interactions.UpsertScoresAppended | app/routes/movie.py:65-67 | with no existing row, the item's score list gains the new score at the end |
| Interactions.CommentsOf | app/routes/main.py:52 | an item's comments are exactly the comment rows that name it |
| Interactions.Ledger.constructor | app/models.py:76-97 | the ledger starts with empty rating and comment tables |
| Interactions.Ledger.SubmitRating | app/routes/movie.py:62-68 | the read-then-write upsert leaves the ratings table equal to `Upserted` of the old one, keeps the invariants, and does not touch comments |
| Interactions.Ledger.AddComment | app/routes/main.py:74-75 | the comments table grows by exactly the new row, and ratings are unchanged |
| MovieRoutes.AdvancedSearch | app/routes/movie.py:32-48 | exactly the movies passing every truthy filter, all of them movies, with unique ids |
| MovieRoutes.SearchWithoutParams | app/routes/movie.py:38-47 | with no truthy parameter every movie is returned, in table order |
| MovieRoutes.Truncate | app/routes/movie.py:56 | `int(float)` truncates toward zero |
| MovieRoutes.CheckRating | app/routes/movie.py:55-60 | a rating is accepted exactly when `int()` converts it to a value in 1..10, and then as that value; every rejection is InvalidRating |
| MovieRoutes.CheckRatingOfInt | app/routes/movie.py:57-58 | an integer is accepted exactly when it lies in 1..10, and then as itself |
| MovieRoutes.CheckRatingOfText | app/routes/movie.py:56 | the decimal text of an integer is judged exactly as the integer |
| MovieRoutes.CheckRatingOfFloat | app/routes/movie.py:56-58 | a float is accepted exactly when it lies in [1, 11), because it is truncated first |
| MovieRoutes.CheckRatingMissing | app/routes/movie.py:56-60 | a body without a rating defaults to 0 and is rejected as InvalidRating |
| MovieRoutes.CheckRatingOfBool | app/routes/movie.py:56-58 | JSON `true` counts as the rating 1 and is accepted; `false` is 0 and rejected |
| MovieRoutes.RateMovie | app/routes/movie.py:51-70 | an unknown movie gives NotFound and an invalid value gives InvalidRating, in that order, both leaving the table unchanged; otherwise the table is upserted and the returned average is computed from the new table |
| MovieRoutes.RatedAverageCountsNewScore | app/routes/movie.py:62-70 | the scores behind the returned average are the movie's old scores with the user's old score replaced by the new one in place, or with the new score appended when the user had not rated it; either way the new score is among them |
| MovieRoutes.CommentsNewestFirst | app/routes/movie.py:78-79 | the listing is a permutation of exactly that movie's comments, newest first |
| ShowRoutes.AdvancedSearch | app/routes/show.py:6-22 | exactly the shows passing every truthy filter, all of them shows, with unique ids |
| ShowRoutes.SearchWithoutParams | app/routes/show.py:12-21 | with no truthy parameter every show is returned, in table order |
| ShowRoutes.SearchByGenre | app/routes/show.py:13-14 | a truthy genre keeps only shows whose genre contains it, ignoring case |
| ShowRoutes.SearchByRating | app/routes/show.py:15-18 | min or max rating 0 is ignored; a truthy bound is an inclusive limit on `average_rating` |
| ShowRoutes.SearchByYear | app/routes/show.py:19-21 | a truthy year keeps exactly the shows of that year that pass the other filters; the result is always a subset of the shows |
| MainRoutes.Index | app/routes/main.py:10-24 | a visitor gets, for each table, min(10, size) distinct rows in descending external rating, with no row left out rated higher; a signed-in user gets the recommendations |
| MainRoutes.TitleSearch | app/routes/main.py:33-35 | keeps exactly the rows whose title contains the query, ignoring case |
| MainRoutes.ContentList | app/routes/main.py:27-39 | the whole table for an empty stripped query, and nothing for a type other than movie or show |
| MainRoutes.ContentListIsTitleSearch | app/routes/main.py:30-35 | skipping the filter for an empty query changes nothing: the list is always the title search on the stripped query |
| MainRoutes.Search | app/routes/main.py:88-100 | exactly the rows of the named table whose title contains the stripped query; nothing for another stripped type |
| MainRoutes.SearchAgreesWithContentList | app/routes/main.py:90-94 | without a type, search and the content list return the same movies for every query |
| MainRoutes.Recommendations | app/routes/main.py:103-114 | the type "movie" (the default) gives the user's recommended movies and "show" the recommended shows; another type gives nothing; always at most 10 distinct rows |
| MainRoutes.FindEpisode | app/routes/main.py:62 | the lookup finds an episode with that id and season id exactly when the table holds one |
| MainRoutes.SelectEpisode | app/routes/main.py:59-64 | a truthy (season, episode) pair selects that episode or none; otherwise the first episode of the first season, or none when there is no season or the first season is empty |
| MainRoutes.DefaultEpisodeIsFromFirstSeason | app/routes/main.py:63-64 | a default selection belongs to the show's first season |
| MainRoutes.DefaultEpisodeExample | app/routes/main.py:63-64 | seasons S1 (E1, E2) and S2 (E1) with no explicit choice open S1/E1 |
| MainRoutes.EmptyFirstSeasonSelectsNothing | app/routes/main.py:63-64 | later seasons are not consulted: an empty first season means no episode is selected |
| MainRoutes.ExplicitPairIgnoresShow | app/routes/main.py:61-62 | the explicit pair is not checked against the show, so it can open another show's episode |
| MainRoutes.CommentTarget | app/routes/main.py:71-72 | a comment names an item exactly for "movie" or "show", with that kind and the page's id |
| MainRoutes.Watch | app/routes/main.py:42-65 | NotFound exactly for a missing movie or show; a movie page has no seasons or episode; a show page lists its seasons and the selected episode; another type renders with every field None |
| MainRoutes.WatchRequest | app/routes/main.py:42-85 | the page fails or renders without a change unless a signed-in user posts non-blank text; then exactly one comment naming the item is appended, or an unknown type is refused |
| MainRoutes.PostedCommentIsListed | app/routes/main.py:52-55 | a stored comment appears last in its item's listing and changes no other item's listing |
| MainRoutes.CommentRowAsWritten | app/routes/main.py:68-73 | the stored row carries the posted text and the user; `movie_id` is set exactly for "movie" and `show_id` exactly for "show", in both cases to the page's content id |
| MainRoutes.OrphanCommentAsWritten | app/routes/main.py:67-75 | for a third content type the page renders, and a posted comment would be stored with neither column set |

## Left out

- `upload_to_s3`, `save_video` and `fetch_external_rating` (app/utils.py): storage, filesystem and network I/O.
- `add_movie` (app/routes/movie.py:10-29) depends on the uploads and the form; only the new row's defaults are modelled (`Models.NewMovie`).
- app/routes/auth.py, password hashing, sessions, CSRF tokens, config.py, static/script.js and blueprint wiring.
- Form validation is modelled only for the comment text (DataRequired, as `MainRoutes.HasText`).
- `login_required` is not modelled: the routes that need a user take the signed-in user's id as a parameter.
- Template rendering, redirects and `flash`. A route's result is the data it would render or return.
- The `sort_by == 'popular'` listing of comments: the `Comment` model has no `likes` column.
- `get_comments` returns model objects that Flask cannot serialise; the model gives the query result.
- WatchHistory is declared as an entity only, since none of the modelled routes writes it.
- `Models.Round1`: exact half-to-even rounding on real numbers. IEEE-754 float representation errors are not modelled.
- `MovieRoutes.ToInt`: Python's `int()` also accepts underscores and non-ASCII digits in strings, which the model rejects.
- `MovieRoutes.ToInt`: JSON `null`, lists and objects (a TypeError and HTTP 500) are not modelled, nor are NaN or infinite floats or a body that is not JSON.
- `Catalog.GenreMatches`, `Catalog.TitleMatches`, `MainRoutes.TitleSearch`, `MainRoutes.Search`: `%` and `_` inside a query or genre are matched literally, while SQL `ILIKE` treats them as wildcards (app/routes/main.py:33, 35, 94, 96; app/routes/movie.py:40; app/routes/show.py:14; app/utils.py:59, 69).
- `Text.Lower`: folds ASCII letters only, which is what SQLite's `lower()` does under the configured database (config.py:6). It would differ only on a database whose `lower()` also folds non-ASCII letters.
- NULL titles are not modelled; a NULL genre never matches a pattern.
- Comment and watch timestamps are integers taken from a `now` parameter instead of the clock.
- Rows with equal sort keys keep table order, one deterministic choice where SQL leaves the order undefined.
- `Seqs.SortDesc`: that it is stable holds by construction but is not stated as a contract.
- Relationship collections (`show.seasons`, `season.episodes`) are in table order.
- The surrogate ids of rating and comment rows are not modelled.
- The race between the lookup and the insert in the rating upsert: requests are modelled as sequential.
- `MovieRoutes.AdvancedSearch`: the class-level `average_rating` comparison at app/routes/movie.py:41-44 raises TypeError; the route is modelled with the per-row comparison it evidently intends, and `Catalog.AdvancedSearchAsWritten` records the failure.
- `ShowRoutes.AdvancedSearch`: the same applies at app/routes/show.py:15-18.

## Findings

| source | as written | input that shows it | evidently intended | confidence | as-written member | corrected member |
|---|---|---|---|---|---|---|
| app/models.py:80 | `Rating` has a single content column `show_id`, whose foreign key is `movie.id`. On the show side, `Show.average_rating` (app/models.py:55) averages every row whose `show_id` equals the show's id, movie ratings included. On the movie side, `Rating.movie_id` is not declared. So `Movie.average_rating` (app/models.py:35) raises AttributeError, and `rate_movie` fails at `filter_by(movie_id=…)` (app/routes/movie.py:62) before it writes anything: as written, no route can store a movie rating. | A row (rating 9, user 1, `show_id = 1`) is the only kind of rating row the schema admits, and it stands for movie 1 through its foreign key. It is counted in show 1's `average_rating`. | A rating names exactly one movie or show, and each item averages only its own ratings. | not executed | Models.DeclaredSchemaMixesMovieAndShow | Interactions.UpsertOtherItemsUnchanged |
| app/routes/main.py:67-75 | `watch` stores a posted comment for any `content_type`; only "movie" and "show" set a content column. | A signed-in user posts "Great" to `/watch/episode/1`: the page renders (nothing is looked up) and the comment is stored with `movie_id` and `show_id` both NULL. | Every stored comment names exactly one item; other content types are refused. | not executed | MainRoutes.OrphanCommentAsWritten | MainRoutes.WatchRequest |
| app/routes/movie.py:41-44 | The rating bounds compare the class attribute `Movie.average_rating`, which is a `property` object, with a float (the same at app/routes/show.py:15-18). | `GET /movie/search?min_rating=5` raises TypeError and answers HTTP 500. | Each row's own `average_rating` is compared with the bound, and the bound is inclusive. | not executed | Catalog.RatingBoundFailsAsWritten | Catalog.AdvancedSearchBounds |
