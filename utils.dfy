/**
 * app/utils.py: the local video path of a movie or an episode, and the
 * recommendation lists (a genre-affinity list merged with the global top list).
 */
module Utils {
  import opened Wrappers
  import opened Text
  import opened Seqs
  import opened Models
  import opened Catalog

  // ---- get_video_path ----

  /** `os.path.join(a, b)` on POSIX: an absolute `b` replaces `a`; otherwise one '/' separates them. */
  function PathJoin(a: string, b: string): string {
    if |b| > 0 && b[0] == '/' then b
    else if a == [] || a[|a| - 1] == '/' then a + b
    else a + "/" + b
  }

  /** A season argument counts only when it is given and not 0. */
  predicate TruthySeason(season: Option<int>) {
    season.Some? && season.value != 0
  }

  /**
   * `get_video_path(content_type, title, season)` under the application root `root`:
   * movies live in static/videos/movies, episodes in static/videos/shows/season_<n>;
   * any other content type, or a show without a truthy season, raises ValueError.
   */
  function VideoPath(root: string, contentType: string, title: string, season: Option<int>): (r: Result<string, Error>)
    ensures r.Failure? <==> !(contentType == "movie" || (contentType == "show" && TruthySeason(season)))
    ensures r.Failure? ==> r.error == InvalidContentType
  {
    var base := PathJoin(root, "static/videos");
    if contentType == "movie" then
      Success(PathJoin(PathJoin(base, "movies"), title + ".mp4"))
    else if contentType == "show" && TruthySeason(season) then
      Success(PathJoin(PathJoin(PathJoin(base, "shows"), "season_" + IntToString(season.value)), title + ".mp4"))
    else
      Failure(InvalidContentType)
  }

  lemma JoinPlain(a: string, b: string)
    requires a != [] && a[|a| - 1] != '/'
    requires b != [] && b[0] != '/'
    ensures PathJoin(a, b) == a + "/" + b
    ensures PathJoin(a, b)[|PathJoin(a, b)| - 1] == b[|b| - 1]
  {
  }

  /** With an ordinary root and title, a movie's file is <root>/static/videos/movies/<title>.mp4. */
  lemma MovieVideoPath(root: string, title: string, season: Option<int>)
    requires root != [] && root[|root| - 1] != '/'
    requires title == [] || title[0] != '/'
    ensures VideoPath(root, "movie", title, season)
            == Success(root + "/" + "static/videos" + "/" + "movies" + "/" + title + ".mp4")
  {
    JoinPlain(root, "static/videos");
    var base := root + "/" + "static/videos";
    JoinPlain(base, "movies");
    var dir := base + "/" + "movies";
    var file := title + ".mp4";
    assert file[0] == (if title == [] then '.' else title[0]);
    JoinPlain(dir, file);
    AppendAssoc(dir + "/", title, ".mp4");
  }

  /** An episode's file is <root>/static/videos/shows/season_<n>/<title>.mp4. */
  lemma ShowVideoPath(root: string, title: string, n: int)
    requires root != [] && root[|root| - 1] != '/'
    requires title == [] || title[0] != '/'
    requires n != 0
    ensures VideoPath(root, "show", title, Some(n))
            == Success(root + "/" + "static/videos" + "/" + "shows" + "/" + ("season_" + IntToString(n))
                       + "/" + title + ".mp4")
  {
    JoinPlain(root, "static/videos");
    var base := root + "/" + "static/videos";
    JoinPlain(base, "shows");
    var shows := base + "/" + "shows";
    var num := IntToString(n);
    var season := "season_" + num;
    assert season[|season| - 1] == num[|num| - 1];
    JoinPlain(shows, season);
    var dir := shows + "/" + season;
    var file := title + ".mp4";
    assert file[0] == (if title == [] then '.' else title[0]);
    JoinPlain(dir, file);
    AppendAssoc(dir + "/", title, ".mp4");
  }

  /** A title starting with '/' is an absolute path component, so `os.path.join` drops the whole directory. */
  lemma AbsoluteTitleVideoPath(root: string, title: string)
    requires title != [] && title[0] == '/'
    ensures VideoPath(root, "movie", title, None) == Success(title + ".mp4")
  {
    assert (title + ".mp4")[0] == '/';
  }

  // ---- the user's preference ----

  /** `UserPreference.query.filter_by(user_id=user_id).first()`. */
  function FindPreference(prefs: seq<UserPreference>, userId: int): (r: Option<UserPreference>)
    ensures r.None? <==> forall p :: p in prefs ==> p.userId != userId
    ensures r.Some? ==> r.value.userId == userId
    ensures r.Some? ==>
              exists i :: 0 <= i < |prefs| && prefs[i] == r.value && forall j :: 0 <= j < i ==> prefs[j].userId != userId
    decreases |prefs|
  {
    if prefs == [] then None
    else if prefs[0].userId == userId then
      Some(prefs[0])
    else
      var r := FindPreference(prefs[1..], userId);
      assert prefs == [prefs[0]] + prefs[1..];
      if r.Some? then
        var i :| 0 <= i < |prefs[1..]| && prefs[1..][i] == r.value && forall j :: 0 <= j < i ==> prefs[1..][j].userId != userId;
        assert prefs[i + 1] == r.value;
        assert forall j :: 0 <= j < i + 1 ==> prefs[j].userId != userId by {
          forall j | 0 <= j < i + 1 ensures prefs[j].userId != userId {
            if j > 0 {
              assert prefs[j] == prefs[1..][j - 1];
            }
          }
        }
        r
      else
        r
  }

  // ---- {movie.id: movie for movie in rows}.values() ----

  /** Where a key sits among the dict's entries, if it is there. */
  function IndexOfId(d: seq<Content>, id: int): (r: Option<nat>)
    ensures r.Some? ==> r.value < |d| && d[r.value].id == id
    ensures r.None? <==> id !in Ids(d)
    decreases |d|
  {
    if d == [] then None
    else if d[0].id == id then Some(0)
    else
      assert d == [d[0]] + d[1..];
      match IndexOfId(d[1..], id)
      case Some(i) => Some(i + 1)
      case None => None
  }

  /** `d[x.id] = x`: an existing key keeps its position and takes the new value; a new key goes last. */
  function DictPut(d: seq<Content>, x: Content): seq<Content> {
    match IndexOfId(d, x.id)
    case Some(i) => d[i := x]
    case None => d + [x]
  }

  /** The values of the dict built by the comprehension, in the dict's insertion order. */
  function DictValues(s: seq<Content>): seq<Content>
    decreases |s|
  {
    if s == [] then [] else DictPut(DictValues(s[..|s| - 1]), s[|s| - 1])
  }

  lemma SnocNoDupIds(d: seq<Content>, x: Content)
    requires NoDupIds(d) && x.id !in Ids(d)
    ensures NoDupIds(d + [x])
  {
    var r := d + [x];
    forall i, j | 0 <= i < j < |r| ensures r[i].id != r[j].id {
      assert r[i] == d[i];
      if j < |d| {
        assert r[j] == d[j];
      } else {
        assert d[i] in d;
      }
    }
  }

  lemma IdsAppend(a: seq<Content>, b: seq<Content>)
    ensures Ids(a + b) == Ids(a) + Ids(b)
  {
    forall z ensures z in a + b <==> z in a || z in b { }
  }

  /**
   * The rows with each id's first occurrence only, in order: the reference for the
   * de-duplication the dict performs.
   */
  function FirstById(s: seq<Content>): (r: seq<Content>)
    ensures NoDupIds(r)
    ensures Ids(r) == Ids(s)
    ensures forall x :: x in r ==> x in s
    decreases |s|
  {
    if s == [] then []
    else
      var d := FirstById(s[..|s| - 1]);
      var x := s[|s| - 1];
      assert s == s[..|s| - 1] + [x];
      IdsAppend(s[..|s| - 1], [x]);
      if x.id in Ids(d) then d
      else
        SnocNoDupIds(d, x);
        IdsAppend(d, [x]);
        d + [x]
  }

  /** One more row: kept if its id is new, dropped otherwise. */
  lemma FirstByIdSnoc(s: seq<Content>, x: Content)
    ensures FirstById(s + [x]) == if x.id in Ids(s) then FirstById(s) else FirstById(s) + [x]
  {
    assert (s + [x])[..|s + [x]| - 1] == s;
  }

  /** Items that share an id are the same item (true of rows drawn from one table). */
  ghost predicate IdsDetermine(s: seq<Content>) {
    forall a, b :: a in s && b in s && a.id == b.id ==> a == b
  }

  /** When ids determine items, the dict's values are exactly the first occurrences, in order. */
  lemma {:induction false} DictValuesIsFirstById(s: seq<Content>)
    requires IdsDetermine(s)
    ensures DictValues(s) == FirstById(s)
    decreases |s|
  {
    if s != [] {
      var s' := s[..|s| - 1];
      var x := s[|s| - 1];
      assert s == s' + [x];
      assert IdsDetermine(s');
      DictValuesIsFirstById(s');
      var d := FirstById(s');
      match IndexOfId(d, x.id)
      case Some(i) => {
        assert d[i] in s;
        assert d[i] == x;
        assert d[i := x] == d;
      }
      case None => {
      }
    }
  }

  /** A list with unique ids loses nothing to de-duplication. */
  lemma {:induction false} FirstByIdOfNoDup(s: seq<Content>)
    requires NoDupIds(s)
    ensures FirstById(s) == s
    decreases |s|
  {
    if s != [] {
      var s' := s[..|s| - 1];
      assert NoDupIds(s') by {
        forall i, j | 0 <= i < j < |s'| ensures s'[i].id != s'[j].id {
          assert s'[i] == s[i] && s'[j] == s[j];
        }
      }
      FirstByIdOfNoDup(s');
      assert s[|s| - 1].id !in Ids(s') by {
        forall y | y in s' ensures y.id != s[|s| - 1].id {
          var k :| 0 <= k < |s'| && s'[k] == y;
          assert s[k] == y;
        }
      }
      assert s == s' + [s[|s| - 1]];
    }
  }

  /**
   * De-duplicating a concatenation: the first part's survivors, then the second
   * part's survivors whose id the first part does not already hold, each in order.
   */
  lemma {:induction false} FirstByIdAppend(a: seq<Content>, b: seq<Content>, unseen: Content -> bool)
    requires forall x :: unseen(x) == (x.id !in Ids(a))
    ensures FirstById(a + b) == FirstById(a) + Filter(FirstById(b), unseen)
    decreases |b|
  {
    if b == [] {
      assert a + b == a;
    } else {
      var b' := b[..|b| - 1];
      var y := b[|b| - 1];
      assert b == b' + [y];
      assert a + b == (a + b') + [y];
      FirstByIdAppend(a, b', unseen);
      var d := FirstById(a + b');
      var fb' := FirstById(b');
      var fa := FirstById(a);
      assert d == fa + Filter(fb', unseen);
      IdsAppend(a, b');
      assert Ids(d) == Ids(a) + Ids(b');
      FirstByIdSnoc(a + b', y);
      FirstByIdSnoc(b', y);
      FilterSnoc(fb', y, unseen);
      var fr := Filter(fb', unseen);
      if y.id in Ids(a) {
        assert y.id in Ids(a + b');
        assert FirstById(a + b) == d;
        assert !unseen(y);
        assert Filter(fb' + [y], unseen) == fr;
        assert Filter(FirstById(b), unseen) == fr;
      } else if y.id in Ids(b') {
        assert y.id in Ids(a + b');
        assert FirstById(a + b) == d;
        assert FirstById(b) == fb';
      } else {
        assert y.id !in Ids(a + b');
        assert FirstById(a + b) == d + [y];
        assert FirstById(b) == fb' + [y];
        assert unseen(y);
        assert Filter(FirstById(b), unseen) == fr + [y];
        AppendAssoc(fa, fr, [y]);
      }
    }
  }

  // ---- get_recommended_movies / get_recommended_shows ----

  /** The preferred genre as the f-string writes it into the pattern: a NULL genre becomes the text "None". */
  function GenrePattern(pref: UserPreference): string {
    match pref.genre
    case None => "None"
    case Some(g) => g
  }

  /** The rows whose genre contains the preferred genre, best external rating first, at most 5. */
  function GenreTop(table: seq<Content>, pref: UserPreference): seq<Content> {
    TopRated(Filter(table, (c: Content) => GenreMatches(c, GenrePattern(pref))), 5)
  }

  /** The recommendation list over one table (movies or shows). */
  function Recommended(prefs: seq<UserPreference>, userId: int, table: seq<Content>): seq<Content> {
    match FindPreference(prefs, userId)
    case None => TopRated(table, 10)
    case Some(pref) => DictValues(GenreTop(table, pref) + TopRated(table, 5))
  }

  /** The genre list: at most 5 rows of the table, each of a matching genre, best first, unique ids. */
  lemma GenreTopSpec(table: seq<Content>, pref: UserPreference)
    requires NoDupIds(table)
    ensures |GenreTop(table, pref)| <= 5
    ensures var m := Filter(table, (c: Content) => GenreMatches(c, GenrePattern(pref)));
            |GenreTop(table, pref)| == (if 5 <= |m| then 5 else |m|)
    ensures forall x :: x in GenreTop(table, pref) ==> x in table && GenreMatches(x, GenrePattern(pref))
    ensures forall x, y :: (x in table && GenreMatches(x, GenrePattern(pref)) && x !in GenreTop(table, pref)
                            && y in GenreTop(table, pref)) ==> x.externalRating <= y.externalRating
    ensures SortedDesc(GenreTop(table, pref), ByExternalRating)
    ensures NoDupIds(GenreTop(table, pref))
  {
    var p := (c: Content) => GenreMatches(c, GenrePattern(pref));
    FilterNoDupIds(table, p);
    TopRatedSpec(Filter(table, p), 5);
  }

  /**
   * With a preference, the merge is the genre list followed by those of the global
   * top 5 whose id the genre list does not already hold, in their own order.
   */
  lemma MergeIsGenreThenFreshTop(table: seq<Content>, pref: UserPreference)
    requires NoDupIds(table)
    ensures var g := GenreTop(table, pref);
            DictValues(g + TopRated(table, 5)) == FirstById(g + TopRated(table, 5))
            == g + Filter(TopRated(table, 5), (x: Content) => x.id !in Ids(g))
  {
    var g := GenreTop(table, pref);
    var t := TopRated(table, 5);
    GenreTopSpec(table, pref);
    TopRatedSpec(table, 5);
    assert IdsDetermine(g + t) by {
      forall a: Content, b: Content | a in g + t && b in g + t && a.id == b.id ensures a == b {
        assert a in table && b in table;
        var i :| 0 <= i < |table| && table[i] == a;
        var j :| 0 <= j < |table| && table[j] == b;
        assert i == j;
      }
    }
    DictValuesIsFirstById(g + t);
    var unseen := (x: Content) => x.id !in Ids(g);
    FirstByIdAppend(g, t, unseen);
    FirstByIdOfNoDup(g);
    FirstByIdOfNoDup(t);
  }

  /**
   * The recommendation list has at most 10 rows, no two with the same id, all from the
   * table. Without a preference it is the top 10; with one it starts with the genre list.
   */
  lemma RecommendedSpec(prefs: seq<UserPreference>, userId: int, table: seq<Content>)
    requires NoDupIds(table)
    ensures var r := Recommended(prefs, userId, table);
      && |r| <= 10
      && NoDupIds(r)
      && (forall x :: x in r ==> x in table)
      && (FindPreference(prefs, userId).None? ==> r == TopRated(table, 10))
      && (FindPreference(prefs, userId).Some? ==>
            var g := GenreTop(table, FindPreference(prefs, userId).value);
            |g| <= |r| && r[..|g|] == g &&
            forall x :: x in r ==> x in g || x in TopRated(table, 5))
  {
    match FindPreference(prefs, userId)
    case None => {
      TopRatedSpec(table, 10);
    }
    case Some(pref) => {
      var g := GenreTop(table, pref);
      var t := TopRated(table, 5);
      var r := Recommended(prefs, userId, table);
      GenreTopSpec(table, pref);
      TopRatedSpec(table, 5);
      MergeIsGenreThenFreshTop(table, pref);
      var rest := Filter(t, (x: Content) => x.id !in Ids(g));
      assert r == g + rest;
      assert r[..|g|] == g;
      assert r == FirstById(g + t);
    }
  }

  /** `get_recommended_movies(user_id)`. */
  function RecommendedMovies(db: Database, userId: int): (r: seq<Content>)
    requires db.Valid()
    ensures |r| <= 10 && NoDupIds(r)
    ensures forall x :: x in r ==> x in db.movies && x.Movie?
  {
    RecommendedSpec(db.preferences, userId, db.movies);
    Recommended(db.preferences, userId, db.movies)
  }

  /** `get_recommended_shows(user_id)`: the same rules over the show table. */
  function RecommendedShows(db: Database, userId: int): (r: seq<Content>)
    requires db.Valid()
    ensures |r| <= 10 && NoDupIds(r)
    ensures forall x :: x in r ==> x in db.shows && x.Show?
  {
    RecommendedSpec(db.preferences, userId, db.shows);
    Recommended(db.preferences, userId, db.shows)
  }
}
