/**
 * The movie blueprint of app/routes/movie.py: the advanced search, the rating
 * submission and the comment listing.
 */
module MovieRoutes {
  import opened Wrappers
  import opened Text
  import opened Seqs
  import opened Models
  import opened Catalog
  import opened Interactions

  // ---- advanced_search ----

  /** `/movie/search`: the movies that pass every truthy filter, in table order. */
  function AdvancedSearch(db: Database, ratings: seq<Rating>, p: SearchParams): (r: seq<Content>)
    requires db.Valid()
    ensures forall c :: c in r <==> c in db.movies && PassesFilters(c, ratings, p)
    ensures forall c :: c in r ==> c.Movie?
    ensures NoDupIds(r)
  {
    FilterNoDupIds(db.movies, (c: Content) => PassesFilters(c, ratings, p));
    Catalog.AdvancedSearch(db.movies, ratings, p)
  }

  /** With no truthy parameter every movie is returned, in table order. */
  lemma SearchWithoutParams(db: Database, ratings: seq<Rating>, p: SearchParams)
    requires db.Valid()
    requires !TruthyText(p.genre) && !TruthyReal(p.minRating) && !TruthyReal(p.maxRating) && !TruthyInt(p.year)
    ensures AdvancedSearch(db, ratings, p) == db.movies
  {
    AdvancedSearchNoParams(db.movies, ratings, p);
  }

  // ---- rate_movie ----

  /** The JSON value found under "rating" in the request body, or Missing when the key is absent. */
  datatype RatingInput =
    | Missing
    | IntValue(i: int)
    | FloatValue(x: real)
    | TextValue(s: string)
    | BoolValue(b: bool)

  /** `int(x)` of a float: truncation toward zero. */
  function Truncate(x: real): (r: int)
    ensures 0.0 <= x ==> r as real <= x < r as real + 1.0
    ensures x < 0.0 ==> r as real - 1.0 < x <= r as real
  {
    if x >= 0.0 then x.Floor else -((-x).Floor)
  }

  /** `int(request.json.get('rating', 0))`, with None standing for the ValueError. */
  function ToInt(input: RatingInput): Option<int> {
    match input
    case Missing => Some(0)
    case IntValue(i) => Some(i)
    case FloatValue(x) => Some(Truncate(x))
    case TextValue(s) => ParseInt(s)
    case BoolValue(b) => Some(if b then 1 else 0)
  }

  /** The validation block: a score in 1..10, or the 400 answer "Rating must be between 1 and 10". */
  function CheckRating(input: RatingInput): (r: Result<int, Error>)
    ensures r.Success? ==> 1 <= r.value <= 10 && ToInt(input) == Some(r.value)
    ensures r.Success? <==> ToInt(input).Some? && 1 <= ToInt(input).value <= 10
    ensures r.Failure? ==> r.error == InvalidRating
  {
    match ToInt(input)
    case None => Failure(InvalidRating)
    case Some(v) => if 1 <= v <= 10 then Success(v) else Failure(InvalidRating)
  }

  /** An integer is accepted exactly when it lies in 1..10, and then as itself. */
  lemma CheckRatingOfInt(v: int)
    ensures CheckRating(IntValue(v)).Success? <==> 1 <= v <= 10
    ensures CheckRating(IntValue(v)).Success? ==> CheckRating(IntValue(v)).value == v
  {
  }

  /** A missing value defaults to 0 and is rejected. */
  lemma CheckRatingMissing()
    ensures CheckRating(Missing) == Failure(InvalidRating)
  {
  }

  /** The decimal text of an integer is judged as the integer itself. */
  lemma CheckRatingOfText(v: int)
    ensures CheckRating(TextValue(IntToString(v))) == CheckRating(IntValue(v))
  {
    ParseIntOfIntToString(v);
  }

  /** A float is truncated first, so exactly the values in [1, 11) are accepted. */
  lemma CheckRatingOfFloat(x: real)
    ensures CheckRating(FloatValue(x)).Success? <==> 1.0 <= x < 11.0
  {
  }

  /** `True` converts to 1 and is accepted; `False` converts to 0 and is not. */
  lemma CheckRatingOfBool(b: bool)
    ensures CheckRating(BoolValue(b)) == if b then Success(1) else Failure(InvalidRating)
  {
  }

  /**
   * `POST /movie/<id>/rate` by an authenticated user: 404 for an unknown movie, 400
   * for an invalid value, otherwise the upsert followed by the movie's average read
   * after the write.
   */
  method RateMovie(ledger: Ledger, db: Database, userId: int, movieId: int, input: RatingInput)
    returns (r: Result<real, Error>)
    requires ledger.Valid()
    modifies ledger
    ensures ledger.Valid() && ledger.comments == old(ledger.comments)
    ensures FindById(db.movies, movieId).None? ==> r == Failure(NotFound) && ledger.ratings == old(ledger.ratings)
    ensures FindById(db.movies, movieId).Some? && CheckRating(input).Failure? ==>
              r == Failure(InvalidRating) && ledger.ratings == old(ledger.ratings)
    ensures FindById(db.movies, movieId).Some? && CheckRating(input).Success? ==>
              && ledger.ratings == Upserted(old(ledger.ratings), userId, ContentRef(MovieKind, movieId), CheckRating(input).value)
              && r == Success(AverageRating(FindById(db.movies, movieId).value, ledger.ratings))
  {
    var movie := FindById(db.movies, movieId);
    if movie.None? {
      return Failure(NotFound);
    }
    var checked := CheckRating(input);
    if checked.Failure? {
      return Failure(InvalidRating);
    }
    ledger.SubmitRating(userId, ContentRef(MovieKind, movieId), checked.value);
    r := Success(AverageRating(movie.value, ledger.ratings));
  }

  /**
   * The scores the returned average is computed from: the movie's old scores with this
   * user's score replaced in place, or with the new score appended when the user had none.
   */
  lemma RatedAverageCountsNewScore(ratings: seq<Rating>, movie: Content, userId: int, value: int)
    ensures var before := ScoresFor(ratings, movie.Ref());
            var after := ScoresFor(Upserted(ratings, userId, movie.Ref(), value), movie.Ref());
      && value in after
      && (FindRating(ratings, userId, movie.Ref()).None? ==> after == before + [value])
      && (FindRating(ratings, userId, movie.Ref()).Some? ==>
            exists k :: 0 <= k < |before| && before[k] == ratings[FindRating(ratings, userId, movie.Ref()).value].rating
                        && after == before[k := value])
  {
    var t := movie.Ref();
    var before := ScoresFor(ratings, t);
    if FindRating(ratings, userId, t).Some? {
      var k := UpsertScoresReplaced(ratings, userId, t, value);
      assert before[k := value][k] == value;
    } else {
      UpsertScoresAppended(ratings, userId, t, value);
      assert (before + [value])[|before|] == value;
    }
  }

  // ---- get_comments ----

  function CommentTime(c: Comment): real {
    c.timestamp as real
  }

  /** `GET /movie/<id>/comments` without `sort_by=popular`: that movie's comments, newest first. */
  function CommentsNewestFirst(comments: seq<Comment>, movieId: int): (r: seq<Comment>)
    ensures multiset(r) == multiset(CommentsOf(comments, ContentRef(MovieKind, movieId)))
    ensures forall c :: c in r <==> c in comments && c.target == ContentRef(MovieKind, movieId)
    ensures forall i, j :: 0 <= i < j < |r| ==> r[i].timestamp >= r[j].timestamp
  {
    var mine := CommentsOf(comments, ContentRef(MovieKind, movieId));
    var r := SortDesc(mine, CommentTime);
    assert forall c :: c in r <==> c in multiset(r);
    assert forall c :: c in mine <==> c in multiset(mine);
    r
  }
}
