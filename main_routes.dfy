/**
 * The main blueprint of app/routes/main.py: the home page lists, title search,
 * recommendations and the watch page with its comment form.
 */
module MainRoutes {
  import opened Wrappers
  import opened Text
  import opened Seqs
  import opened Models
  import opened Catalog
  import opened Utils
  import opened Interactions

  // ---- index ----

  /** The two lists the home page shows. */
  datatype HomePage = HomePage(movies: seq<Content>, shows: seq<Content>)

  /** `index`: the global top 10 of each table for a visitor, the recommendations for a signed-in user. */
  function Index(db: Database, user: Option<int>): (r: HomePage)
    requires db.Valid()
    ensures |r.movies| <= 10 && NoDupIds(r.movies) && forall x :: x in r.movies ==> x in db.movies
    ensures |r.shows| <= 10 && NoDupIds(r.shows) && forall x :: x in r.shows ==> x in db.shows
    ensures user.None? ==> |r.movies| == (if 10 <= |db.movies| then 10 else |db.movies|)
    ensures user.None? ==> |r.shows| == (if 10 <= |db.shows| then 10 else |db.shows|)
    ensures user.None? ==> SortedDesc(r.movies, ByExternalRating) && SortedDesc(r.shows, ByExternalRating)
    ensures user.None? ==> forall x, y :: x in db.movies && x !in r.movies && y in r.movies ==>
              x.externalRating <= y.externalRating
    ensures user.None? ==> forall x, y :: x in db.shows && x !in r.shows && y in r.shows ==>
              x.externalRating <= y.externalRating
    ensures user.Some? ==> r == HomePage(RecommendedMovies(db, user.value), RecommendedShows(db, user.value))
  {
    TopRatedSpec(db.movies, 10);
    TopRatedSpec(db.shows, 10);
    match user
    case None => HomePage(TopRated(db.movies, 10), TopRated(db.shows, 10))
    case Some(u) => HomePage(RecommendedMovies(db, u), RecommendedShows(db, u))
  }

  // ---- content_list and search ----

  /** The table a `type` argument names; None for any other value. */
  function TableFor(db: Database, contentType: string): Option<seq<Content>> {
    if contentType == "movie" then Some(db.movies)
    else if contentType == "show" then Some(db.shows)
    else None
  }

  /** `title ILIKE '%query%'` over one table. */
  function TitleSearch(table: seq<Content>, query: string): (r: seq<Content>)
    ensures forall c :: c in r <==> c in table && ContainsCI(c.title, query)
  {
    Filter(table, (c: Content) => TitleMatches(c, query))
  }

  /** `content_list`: the whole table for an empty stripped query, else the title matches; nothing for another type. */
  function ContentList(db: Database, typeArg: Option<string>, queryArg: Option<string>): (r: seq<Content>)
    ensures TableFor(db, typeArg.GetOr("movie")).None? ==> r == []
    ensures TableFor(db, typeArg.GetOr("movie")).Some? && Strip(queryArg.GetOr("")) == "" ==>
              r == TableFor(db, typeArg.GetOr("movie")).value
  {
    var query := Strip(queryArg.GetOr(""));
    match TableFor(db, typeArg.GetOr("movie"))
    case None => []
    case Some(table) => if query != "" then TitleSearch(table, query) else table
  }

  /** Skipping the filter for an empty query changes nothing: the list is always the title search. */
  lemma ContentListIsTitleSearch(db: Database, typeArg: Option<string>, queryArg: Option<string>)
    requires TableFor(db, typeArg.GetOr("movie")).Some?
    ensures ContentList(db, typeArg, queryArg)
            == TitleSearch(TableFor(db, typeArg.GetOr("movie")).value, Strip(queryArg.GetOr("")))
  {
    var table := TableFor(db, typeArg.GetOr("movie")).value;
    var query := Strip(queryArg.GetOr(""));
    if query == "" {
      forall c | c in table ensures TitleMatches(c, query) {
        ContainsCIEmpty(c.title);
      }
      FilterAll(table, (c: Content) => TitleMatches(c, query));
    }
  }

  /** `search`: the title search, with the query and the type both stripped; nothing for another type. */
  function Search(db: Database, queryArg: Option<string>, typeArg: Option<string>): (r: seq<Content>)
    ensures TableFor(db, Strip(typeArg.GetOr("movie"))).None? ==> r == []
    ensures TableFor(db, Strip(typeArg.GetOr("movie"))).Some? ==>
              forall c :: c in r <==> c in TableFor(db, Strip(typeArg.GetOr("movie"))).value &&
                                      ContainsCI(c.title, Strip(queryArg.GetOr("")))
  {
    match TableFor(db, Strip(typeArg.GetOr("movie")))
    case None => []
    case Some(table) => TitleSearch(table, Strip(queryArg.GetOr("")))
  }

  /** Without a type both pages search movies, and they agree on every query. */
  lemma SearchAgreesWithContentList(db: Database, queryArg: Option<string>)
    ensures Search(db, queryArg, None) == ContentList(db, None, queryArg)
    ensures forall c :: c in Search(db, queryArg, None) ==> c in db.movies
  {
    assert Strip("movie") == "movie" by {
      StripUnpadded("movie");
    }
    ContentListIsTitleSearch(db, None, queryArg);
    assert Search(db, queryArg, None) == TitleSearch(db.movies, Strip(queryArg.GetOr("")));
  }

  // ---- recommendations ----

  /** `recommendations`: the user's recommended movies or shows; nothing for another type. */
  function Recommendations(db: Database, userId: int, typeArg: Option<string>): (r: seq<Content>)
    requires db.Valid()
    ensures |r| <= 10 && NoDupIds(r)
    ensures typeArg.GetOr("movie") == "movie" ==> r == RecommendedMovies(db, userId)
    ensures typeArg.GetOr("movie") == "show" ==> r == RecommendedShows(db, userId)
    ensures TableFor(db, typeArg.GetOr("movie")).None? ==> r == []
    ensures TableFor(db, typeArg.GetOr("movie")).Some? ==>
              forall x :: x in r ==> x in TableFor(db, typeArg.GetOr("movie")).value
  {
    var t := typeArg.GetOr("movie");
    if t == "movie" then RecommendedMovies(db, userId)
    else if t == "show" then RecommendedShows(db, userId)
    else []
  }

  // ---- watch: episode selection ----

  /** `Episode.query.filter_by(season_id=…, id=…).first()`, over the whole episode table. */
  function FindEpisode(episodes: seq<Episode>, seasonId: int, episodeId: int): (r: Option<Episode>)
    ensures r.Some? ==> r.value in episodes && r.value.id == episodeId && r.value.seasonId == seasonId
    ensures r.None? <==> forall e :: e in episodes ==> !(e.id == episodeId && e.seasonId == seasonId)
    decreases |episodes|
  {
    if episodes == [] then None
    else if episodes[0].id == episodeId && episodes[0].seasonId == seasonId then Some(episodes[0])
    else
      assert forall e :: e in episodes <==> e == episodes[0] || e in episodes[1..];
      FindEpisode(episodes[1..], seasonId, episodeId)
  }

  /**
   * The episode the watch page opens on: the one named by a truthy (season, episode)
   * pair, else the first episode of the show's first season, if any.
   */
  function SelectEpisode(db: Database, showId: int, season: Option<int>, episode: Option<int>): (r: Option<Episode>)
    ensures TruthyInt(season) && TruthyInt(episode) ==>
              && (r.Some? ==> r.value in db.episodes && r.value.seasonId == season.value && r.value.id == episode.value)
              && (r.None? <==> forall e :: e in db.episodes ==> !(e.id == episode.value && e.seasonId == season.value))
    ensures !(TruthyInt(season) && TruthyInt(episode)) && SeasonsOf(db, showId) == [] ==> r.None?
    ensures !(TruthyInt(season) && TruthyInt(episode)) && SeasonsOf(db, showId) != [] ==>
              && (r.Some? ==> |EpisodesOf(db, SeasonsOf(db, showId)[0].id)| > 0 &&
                              r.value == EpisodesOf(db, SeasonsOf(db, showId)[0].id)[0])
              && (r.None? <==> forall e :: e in db.episodes ==> e.seasonId != SeasonsOf(db, showId)[0].id)
  {
    if TruthyInt(season) && TruthyInt(episode) then
      FindEpisode(db.episodes, season.value, episode.value)
    else
      var seasons := SeasonsOf(db, showId);
      if seasons == [] then None
      else
        var first := EpisodesOf(db, seasons[0].id);
        if first == [] then None
        else
          assert first[0] in first;
          Some(first[0])
  }

  /** The first episode of the first season, when there is one, belongs to that season and to no later one. */
  lemma DefaultEpisodeIsFromFirstSeason(db: Database, showId: int)
    requires SeasonsOf(db, showId) != []
    ensures var r := SelectEpisode(db, showId, None, None);
            r.Some? ==> r.value in db.episodes && r.value.seasonId == SeasonsOf(db, showId)[0].id
  {
    var s := SeasonsOf(db, showId)[0];
    var es := EpisodesOf(db, s.id);
    if es != [] {
      assert es[0] in es;
    }
  }

  /** Seasons S1 (episodes E1, E2) and S2 (episode E1) with no explicit choice open S1/E1. */
  lemma DefaultEpisodeExample()
    ensures var db := Database([], [], [], [Season(1, 1, 7), Season(2, 2, 7)],
                               [Episode(10, 1, "S1E1", "a.mp4", 1), Episode(11, 2, "S1E2", "b.mp4", 1),
                                Episode(12, 1, "S2E1", "c.mp4", 2)], []);
            SelectEpisode(db, 7, None, None) == Some(Episode(10, 1, "S1E1", "a.mp4", 1))
  {
    var db := Database([], [], [], [Season(1, 1, 7), Season(2, 2, 7)],
                       [Episode(10, 1, "S1E1", "a.mp4", 1), Episode(11, 2, "S1E2", "b.mp4", 1),
                        Episode(12, 1, "S2E1", "c.mp4", 2)], []);
    FilterAll(db.seasons, (s: Season) => s.showId == 7);
    var es := EpisodesOf(db, 1);
    assert es == Filter(db.episodes, (e: Episode) => e.seasonId == 1);
    assert db.episodes == [db.episodes[0]] + db.episodes[1..];
    assert es[0] == Episode(10, 1, "S1E1", "a.mp4", 1);
  }

  /** Later seasons are not consulted: an empty first season leaves no episode selected. */
  lemma EmptyFirstSeasonSelectsNothing()
    ensures var db := Database([], [], [], [Season(1, 1, 7), Season(2, 2, 7)], [Episode(5, 1, "Pilot", "v.mp4", 2)], []);
            SelectEpisode(db, 7, None, None).None?
  {
    var db := Database([], [], [], [Season(1, 1, 7), Season(2, 2, 7)], [Episode(5, 1, "Pilot", "v.mp4", 2)], []);
    assert SeasonsOf(db, 7)[0] == Season(1, 1, 7) by {
      FilterAll(db.seasons, (s: Season) => s.showId == 7);
    }
  }

  /** The explicit pair is not checked against the show: it may open another show's episode. */
  lemma ExplicitPairIgnoresShow()
    ensures var db := Database([], [], [], [Season(3, 1, 8)], [Episode(4, 1, "Other", "o.mp4", 3)], []);
            && SelectEpisode(db, 7, Some(3), Some(4)) == Some(Episode(4, 1, "Other", "o.mp4", 3))
            && SeasonsOf(db, 7) == []
  {
    var db := Database([], [], [], [Season(3, 1, 8)], [Episode(4, 1, "Other", "o.mp4", 3)], []);
    FilterNone(db.seasons, (s: Season) => s.showId == 7);
  }

  // ---- watch: the page ----

  /** What the watch page renders; a field the route leaves at None stays None. */
  datatype WatchView = WatchView(
    content: Option<Content>,
    comments: Option<seq<Comment>>,
    seasons: Option<seq<Season>>,
    selected: Option<Episode>)

  /** The item a content type and id name, when the type is one of the two. */
  function CommentTarget(contentType: string, contentId: int): (r: Option<ContentRef>)
    ensures r.Some? <==> contentType == "movie" || contentType == "show"
    ensures r.Some? ==> r.value.id == contentId && (r.value.kind == MovieKind <==> contentType == "movie")
  {
    if contentType == "movie" then Some(ContentRef(MovieKind, contentId))
    else if contentType == "show" then Some(ContentRef(ShowKind, contentId))
    else None
  }

  /** The GET half of `watch`: 404 for a missing movie or show, the page otherwise. */
  function Watch(db: Database, comments: seq<Comment>, contentType: string, contentId: int,
                 season: Option<int>, episode: Option<int>): (r: Result<WatchView, Error>)
    ensures contentType == "movie" ==> (r.Failure? <==> contentId !in Ids(db.movies))
    ensures contentType == "show" ==> (r.Failure? <==> contentId !in Ids(db.shows))
    ensures r.Failure? ==> r.error == NotFound
    ensures contentType == "movie" && r.Success? ==>
              && r.value.content.Some? && r.value.content.value in db.movies && r.value.content.value.id == contentId
              && r.value.comments == Some(CommentsOf(comments, ContentRef(MovieKind, contentId)))
              && r.value.seasons.None? && r.value.selected.None?
    ensures contentType == "show" && r.Success? ==>
              && r.value.content.Some? && r.value.content.value in db.shows && r.value.content.value.id == contentId
              && r.value.comments == Some(CommentsOf(comments, ContentRef(ShowKind, contentId)))
              && r.value.seasons == Some(SeasonsOf(db, contentId))
              && r.value.selected == SelectEpisode(db, contentId, season, episode)
    ensures CommentTarget(contentType, contentId).None? ==> r == Success(WatchView(None, None, None, None))
  {
    if contentType == "movie" then
      match FindById(db.movies, contentId)
      case None => Failure(NotFound)
      case Some(m) => Success(WatchView(Some(m), Some(CommentsOf(comments, ContentRef(MovieKind, contentId))), None, None))
    else if contentType == "show" then
      match FindById(db.shows, contentId)
      case None => Failure(NotFound)
      case Some(s) =>
        Success(WatchView(Some(s), Some(CommentsOf(comments, ContentRef(ShowKind, contentId))),
                          Some(SeasonsOf(db, contentId)), SelectEpisode(db, contentId, season, episode)))
    else
      Success(WatchView(None, None, None, None))
  }

  // ---- watch: the comment form ----

  /** WTForms' DataRequired on the comment text: something other than whitespace. */
  predicate HasText(text: string) {
    Strip(text) != ""
  }

  /** A watch request either renders the page or stores a comment and redirects back. */
  datatype WatchOutcome = Rendered(view: WatchView) | Redirected(target: ContentRef)

  /**
   * `watch` in full. A signed-in user who posts a non-blank comment for an existing movie
   * or show adds one row naming exactly that item; an unknown content type is refused.
   */
  method WatchRequest(ledger: Ledger, db: Database, contentType: string, contentId: int,
                      season: Option<int>, episode: Option<int>,
                      user: Option<int>, posted: Option<string>, now: int)
    returns (r: Result<WatchOutcome, Error>)
    requires ledger.Valid()
    modifies ledger
    ensures ledger.Valid() && ledger.ratings == old(ledger.ratings)
    ensures var page := Watch(db, old(ledger.comments), contentType, contentId, season, episode);
      && (page.Failure? ==> r == Failure(NotFound) && ledger.comments == old(ledger.comments))
      && (page.Success? && !(user.Some? && posted.Some? && HasText(posted.value)) ==>
            r == Success(Rendered(page.value)) && ledger.comments == old(ledger.comments))
    ensures var page := Watch(db, old(ledger.comments), contentType, contentId, season, episode);
      page.Success? && user.Some? && posted.Some? && HasText(posted.value) ==>
        match CommentTarget(contentType, contentId)
        case None => r == Failure(UnknownContentType) && ledger.comments == old(ledger.comments)
        case Some(target) =>
          && r == Success(Redirected(target))
          && ledger.comments == old(ledger.comments) + [Comment(posted.value, now, user.value, target)]
  {
    var page := Watch(db, ledger.comments, contentType, contentId, season, episode);
    if page.Failure? {
      return Failure(NotFound);
    }
    if !(user.Some? && posted.Some? && HasText(posted.value)) {
      return Success(Rendered(page.value));
    }
    var target := CommentTarget(contentType, contentId);
    if target.None? {
      return Failure(UnknownContentType);
    }
    ledger.AddComment(Comment(posted.value, now, user.value, target.value));
    r := Success(Redirected(target.value));
  }

  /** A stored comment belongs to exactly one item, and it is listed on that item's page afterwards. */
  lemma PostedCommentIsListed(comments: seq<Comment>, c: Comment)
    ensures CommentsOf(comments + [c], c.target) == CommentsOf(comments, c.target) + [c]
    ensures forall other :: other != c.target ==> CommentsOf(comments + [c], other) == CommentsOf(comments, other)
  {
    FilterSnoc(comments, c, (x: Comment) => x.target == c.target);
    forall other | other != c.target
      ensures CommentsOf(comments + [c], other) == CommentsOf(comments, other)
    {
      FilterSnoc(comments, c, (x: Comment) => x.target == other);
      assert CommentsOf(comments, other) + [] == CommentsOf(comments, other);
    }
  }

  // ---- watch: the comment row as the source builds it ----

  /** A row of the `comment` table as declared: two nullable content columns. */
  datatype CommentRow = CommentRow(content: string, userId: int, movieId: Option<int>, showId: Option<int>)

  /** The row `watch` adds: `movie_id` set only for "movie", `show_id` only for "show". */
  function CommentRowAsWritten(contentType: string, contentId: int, userId: int, text: string): (r: CommentRow)
    ensures r.movieId.Some? <==> contentType == "movie"
    ensures r.showId.Some? <==> contentType == "show"
    ensures r.movieId.Some? ==> r.movieId.value == contentId
    ensures r.showId.Some? ==> r.showId.value == contentId
    ensures r.content == text && r.userId == userId
  {
    CommentRow(text, userId,
               if contentType == "movie" then Some(contentId) else None,
               if contentType == "show" then Some(contentId) else None)
  }

  /** For any third content type the page renders, and a posted comment is stored with neither column set. */
  lemma OrphanCommentAsWritten(db: Database, comments: seq<Comment>)
    ensures Watch(db, comments, "episode", 1, None, None).Success?
    ensures var row := CommentRowAsWritten("episode", 1, 1, "Great");
            row.movieId.None? && row.showId.None?
    ensures CommentTarget("episode", 1).None?
  {
  }
}
