/**
 * The entities of app/models.py and the blended rating each movie and show reports.
 * Tables are sequences of rows in insertion order; relationships are foreign-key filters.
 */
module Models {
  import opened Wrappers
  import opened Seqs

  /** The failures the application reports. */
  datatype Error =
    | NotFound             // get_or_404 found no row
    | InvalidRating        // rating outside 1..10, answered with HTTP 400
    | InvalidContentType   // ValueError of get_video_path
    | UnknownContentType   // a content type other than "movie" or "show"
    | DuplicateAccount     // IntegrityError of the unique username or email columns
    | PropertyComparison   // TypeError of comparing the class-level `average_rating` property, HTTP 500

  datatype Kind = MovieKind | ShowKind

  /** The movie or show a rating, comment or history row belongs to: exactly one of the two. */
  datatype ContentRef = ContentRef(kind: Kind, id: int)

  /**
   * A row of the movie or the show table. The two tables share every column but the
   * movie's `video_url`; a show's episodes hang off its seasons.
   */
  datatype Content =
    | Movie(id: int, title: string, description: string, genre: Option<string>, year: Option<int>,
            thumbnailUrl: string, videoUrl: string, externalRating: real)
    | Show(id: int, title: string, description: string, genre: Option<string>, year: Option<int>,
           thumbnailUrl: string, externalRating: real)
  {
    function Ref(): ContentRef {
      ContentRef(if Movie? then MovieKind else ShowKind, id)
    }
  }

  datatype Season = Season(id: int, seasonNumber: int, showId: int)

  datatype Episode = Episode(id: int, episodeNumber: int, title: string, videoUrl: string, seasonId: int)

  datatype User = User(id: int, username: string, email: string, passwordHash: string)

  datatype Rating = Rating(rating: int, userId: int, target: ContentRef)

  /** `timestamp` is the creation time the database assigns, in clock ticks. */
  datatype Comment = Comment(content: string, timestamp: int, userId: int, target: ContentRef)

  datatype WatchHistory = WatchHistory(userId: int, target: ContentRef, watchedAt: int)

  datatype UserPreference =
    UserPreference(userId: int, genre: Option<string>, lastWatchedMovie: Option<int>, lastWatchedShow: Option<int>)

  /** The ids present in a movie or show table. */
  function Ids(s: seq<Content>): set<int> {
    set x | x in s :: x.id
  }

  /** `id` is the primary key: no two rows share it. */
  predicate NoDupIds(s: seq<Content>) {
    forall i, j :: 0 <= i < j < |s| ==> s[i].id != s[j].id
  }

  /** `username` and `email` are each declared `unique=True`. */
  predicate UniqueAccounts(users: seq<User>) {
    forall i, j :: 0 <= i < j < |users| ==> users[i].username != users[j].username && users[i].email != users[j].email
  }

  /** The catalogue tables and the user-side tables the core reads. */
  datatype Database = Database(
    users: seq<User>,
    movies: seq<Content>,
    shows: seq<Content>,
    seasons: seq<Season>,
    episodes: seq<Episode>,
    preferences: seq<UserPreference>)
  {
    ghost predicate Valid() {
      && (forall m :: m in movies ==> m.Movie?)
      && (forall s :: s in shows ==> s.Show?)
      && NoDupIds(movies) && NoDupIds(shows)
      && UniqueAccounts(users)
    }
  }

  /** `get_or_404(id)`: the row with that primary key, or None where the route answers 404. */
  function FindById(table: seq<Content>, id: int): (r: Option<Content>)
    ensures r.Some? ==> r.value in table && r.value.id == id
    ensures r.None? <==> id !in Ids(table)
    decreases |table|
  {
    if table == [] then None
    else if table[0].id == id then Some(table[0])
    else
      assert forall x :: x in table <==> x == table[0] || x in table[1..];
      FindById(table[1..], id)
  }

  /** `Show.seasons`: the seasons whose `show_id` is the show, in table order. */
  function SeasonsOf(db: Database, showId: int): (r: seq<Season>)
    ensures forall s :: s in r <==> s in db.seasons && s.showId == showId
  {
    Filter(db.seasons, (s: Season) => s.showId == showId)
  }

  /** `Season.episodes`: the episodes whose `season_id` is the season, in table order. */
  function EpisodesOf(db: Database, seasonId: int): (r: seq<Episode>)
    ensures forall e :: e in r <==> e in db.episodes && e.seasonId == seasonId
  {
    Filter(db.episodes, (e: Episode) => e.seasonId == seasonId)
  }

  /** A new movie row: `external_rating` is not supplied, so the column default 0 applies. */
  function NewMovie(id: int, title: string, description: string, genre: Option<string>, year: Option<int>,
                    thumbnailUrl: string, videoUrl: string): (m: Content)
    ensures m.Ref() == ContentRef(MovieKind, id) && m.title == title && m.videoUrl == videoUrl
    ensures m.externalRating == 0.0
  {
    Movie(id, title, description, genre, year, thumbnailUrl, videoUrl, 0.0)
  }

  /** A new show row, with the same column default. */
  function NewShow(id: int, title: string, description: string, genre: Option<string>, year: Option<int>,
                   thumbnailUrl: string): (s: Content)
    ensures s.Ref() == ContentRef(ShowKind, id) && s.title == title
    ensures s.externalRating == 0.0
  {
    Show(id, title, description, genre, year, thumbnailUrl, 0.0)
  }

  /**
   * Inserting a user: the unique constraints reject a row whose username or email is
   * already taken, and the table is left as it was.
   */
  function AddUser(users: seq<User>, u: User): (r: Result<seq<User>, Error>)
    ensures r.Failure? <==> exists i :: 0 <= i < |users| && (users[i].username == u.username || users[i].email == u.email)
    ensures r.Failure? ==> r.error == DuplicateAccount
    ensures r.Success? ==> r.value == users + [u]
    ensures r.Success? && UniqueAccounts(users) ==> UniqueAccounts(r.value)
  {
    if exists i :: 0 <= i < |users| && (users[i].username == u.username || users[i].email == u.email) then
      Failure(DuplicateAccount)
    else
      Success(users + [u])
  }

  // ---- Blended rating (Movie.average_rating, Show.average_rating) ----

  /** The rating rows of one movie or show, in table order. */
  function RatingsOf(ratings: seq<Rating>, target: ContentRef): seq<Rating> {
    Filter(ratings, (row: Rating) => row.target == target)
  }

  function Values(rows: seq<Rating>): (r: seq<int>)
    ensures |r| == |rows| && forall i :: 0 <= i < |rows| ==> r[i] == rows[i].rating
  {
    seq(|rows|, i requires 0 <= i < |rows| => rows[i].rating)
  }

  /** The scores users gave one movie or show. */
  function ScoresFor(ratings: seq<Rating>, target: ContentRef): seq<int> {
    Values(RatingsOf(ratings, target))
  }

  function Sum(s: seq<int>): int
    decreases |s|
  {
    if s == [] then 0 else Sum(s[..|s| - 1]) + s[|s| - 1]
  }

  /** `AVG(rating) or 0`: SQL's mean, or 0 when there is no row. */
  function UserMean(scores: seq<int>): real {
    if |scores| == 0 then 0.0 else Sum(scores) as real / |scores| as real
  }

  /** The blended score before rounding: user mean and external rating, averaged. */
  function Blended(scores: seq<int>, externalRating: real): real {
    (UserMean(scores) + externalRating) / 2.0
  }

  /**
   * Python's `round(x, 1)` on an exact value: the nearest tenth, a tie going to the
   * even tenth.
   */
  function Round1(x: real): (r: real)
    ensures -0.05 <= r - x <= 0.05
    ensures (r * 10.0).Floor as real == r * 10.0
  {
    var y := x * 10.0;
    var f := y.Floor;
    var d := y - f as real;
    var k := if d < 0.5 then f else if d > 0.5 then f + 1 else if f % 2 == 0 then f else f + 1;
    k as real / 10.0
  }

  /** A value that is already a whole number of tenths is not changed by rounding. */
  lemma Round1OfTenths(k: int)
    ensures Round1(k as real / 10.0) == k as real / 10.0
  {
    var y := (k as real / 10.0) * 10.0;
    assert y == k as real;
    assert y.Floor == k;
  }

  /** `average_rating` of a movie or show given the current ratings table. */
  function AverageRating(c: Content, ratings: seq<Rating>): real {
    Round1(Blended(ScoresFor(ratings, c.Ref()), c.externalRating))
  }

  /** Without ratings the blend halves the external rating (it does not return it unchanged). */
  lemma AverageWithoutRatings(c: Content, ratings: seq<Rating>)
    requires forall row :: row in ratings ==> row.target != c.Ref()
    ensures ScoresFor(ratings, c.Ref()) == []
    ensures AverageRating(c, ratings) == Round1(c.externalRating / 2.0)
  {
    FilterNone(ratings, (row: Rating) => row.target == c.Ref());
  }

  /** With at least one rating the blend lies between the user mean and the external rating. */
  lemma BlendedBetween(scores: seq<int>, externalRating: real)
    requires |scores| > 0
    ensures var m := UserMean(scores);
            (if m <= externalRating then m else externalRating) <= Blended(scores, externalRating)
            <= (if m <= externalRating then externalRating else m)
  {
  }

  lemma {:induction false} SumBounds(s: seq<int>, lo: int, hi: int)
    requires forall i :: 0 <= i < |s| ==> lo <= s[i] <= hi
    ensures |s| * lo <= Sum(s) <= |s| * hi
    decreases |s|
  {
    if s != [] {
      var m := |s| - 1;
      SumBounds(s[..m], lo, hi);
      assert Sum(s) == Sum(s[..m]) + s[m];
      assert m * lo + lo == |s| * lo && m * hi + hi == |s| * hi;
    }
  }

  lemma QuotientBounds(a: int, n: int, lo: int, hi: int)
    requires n > 0 && n * lo <= a <= n * hi
    ensures lo as real <= a as real / n as real <= hi as real
  {
    var q := a as real / n as real;
    assert a as real == q * n as real;
    assert lo as real * n as real <= a as real <= hi as real * n as real;
  }

  /** The mean of scores in `lo..hi` lies in `lo..hi`. */
  lemma MeanBounds(s: seq<int>, lo: int, hi: int)
    requires |s| > 0
    requires forall i :: 0 <= i < |s| ==> lo <= s[i] <= hi
    ensures lo as real <= UserMean(s) <= hi as real
  {
    SumBounds(s, lo, hi);
    QuotientBounds(Sum(s), |s|, lo, hi);
  }

  /** Ratings 8 and 10 with an external rating of 6 blend to 7.5, which rounding keeps. */
  lemma BlendedExample(c: Content)
    requires c.externalRating == 6.0
    ensures AverageRating(c, [Rating(8, 1, c.Ref()), Rating(10, 2, c.Ref())]) == 7.5
  {
    var rows := [Rating(8, 1, c.Ref()), Rating(10, 2, c.Ref())];
    FilterAll(rows, (row: Rating) => row.target == c.Ref());
    assert ScoresFor(rows, c.Ref()) == [8, 10];
    assert Sum([8, 10]) == 18 by {
      assert [8, 10][..1] == [8];
      assert [8][..0] == [];
    }
    assert Blended([8, 10], 6.0) == 7.5;
    Round1OfTenths(75);
  }

  /** A rating row for some other movie or show never enters this one's scores. */
  lemma ScoresForIgnoresOthers(ratings: seq<Rating>, extra: seq<Rating>, target: ContentRef)
    requires forall row :: row in extra ==> row.target != target
    ensures ScoresFor(ratings + extra, target) == ScoresFor(ratings, target)
  {
    FilterAppend(ratings, extra, (row: Rating) => row.target == target);
    FilterNone(extra, (row: Rating) => row.target == target);
    assert Filter(extra, (row: Rating) => row.target == target) == [];
    assert Filter(ratings, (row: Rating) => row.target == target) + [] == Filter(ratings, (row: Rating) => row.target == target);
  }

  // ---- The ratings table as declared ----

  /**
   * A row of the `rating` table as app/models.py declares it: one content column,
   * `show_id`, whose foreign key references `movie.id`.
   */
  datatype DeclaredRating = DeclaredRating(rating: int, userId: int, showId: int)

  /** `Show.average_rating`'s filter `Rating.show_id == self.id` over the declared table. */
  function DeclaredScoresForShow(rows: seq<DeclaredRating>, showId: int): (r: seq<int>)
    ensures |r| <= |rows|
    ensures forall v :: v in r <==> exists row :: row in rows && row.showId == showId && row.rating == v
    ensures var f := Filter(rows, (row: DeclaredRating) => row.showId == showId);
            |r| == |f| && forall i :: 0 <= i < |f| ==> r[i] == f[i].rating
    decreases |rows|
  {
    if rows == [] then []
    else
      var rest := DeclaredScoresForShow(rows[1..], showId);
      assert forall row :: row in rows <==> row == rows[0] || row in rows[1..];
      (if rows[0].showId == showId then [rows[0].rating] else []) + rest
  }

  /**
   * Under the declared schema, a rating of movie 1 (the only id its foreign key admits)
   * is counted by show 1; keyed by a content reference it is not.
   */
  lemma DeclaredSchemaMixesMovieAndShow()
    ensures DeclaredScoresForShow([DeclaredRating(9, 1, 1)], 1) == [9]
    ensures ScoresFor([Rating(9, 1, ContentRef(MovieKind, 1))], ContentRef(ShowKind, 1)) == []
  {
    assert RatingsOf([Rating(9, 1, ContentRef(MovieKind, 1))], ContentRef(ShowKind, 1)) == [];
  }
}
