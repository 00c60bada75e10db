/** The show blueprint of app/routes/show.py: the advanced search over shows. */
module ShowRoutes {
  import opened Wrappers
  import opened Text
  import opened Models
  import opened Catalog

  /**
   * `/show/search`: the shows that pass every truthy filter, in table order. Each
   * filter narrows the result only when its parameter is truthy.
   */
  function AdvancedSearch(db: Database, ratings: seq<Rating>, p: SearchParams): (r: seq<Content>)
    requires db.Valid()
    ensures forall c :: c in r <==> c in db.shows && PassesFilters(c, ratings, p)
    ensures forall c :: c in r ==> c.Show?
    ensures NoDupIds(r)
  {
    FilterNoDupIds(db.shows, (c: Content) => PassesFilters(c, ratings, p));
    Catalog.AdvancedSearch(db.shows, ratings, p)
  }

  /** With no truthy parameter every show is returned, in table order. */
  lemma SearchWithoutParams(db: Database, ratings: seq<Rating>, p: SearchParams)
    requires db.Valid()
    requires !TruthyText(p.genre) && !TruthyReal(p.minRating) && !TruthyReal(p.maxRating) && !TruthyInt(p.year)
    ensures AdvancedSearch(db, ratings, p) == db.shows
  {
    AdvancedSearchNoParams(db.shows, ratings, p);
  }

  /** A truthy genre keeps only shows whose genre contains it, ignoring case. */
  lemma SearchByGenre(db: Database, ratings: seq<Rating>, p: SearchParams)
    requires db.Valid() && TruthyText(p.genre)
    ensures forall c :: c in AdvancedSearch(db, ratings, p) ==>
              c.genre.Some? && ContainsCI(c.genre.value, p.genre.value)
  {
    AdvancedSearchGenre(db.shows, ratings, p);
  }

  /** A bound of 0 is ignored; a truthy bound is an inclusive limit on the average rating. */
  lemma SearchByRating(db: Database, ratings: seq<Rating>, p: SearchParams)
    requires db.Valid()
    ensures p.minRating == Some(0.0) ==> AdvancedSearch(db, ratings, p) == AdvancedSearch(db, ratings, p.(minRating := None))
    ensures p.maxRating == Some(0.0) ==> AdvancedSearch(db, ratings, p) == AdvancedSearch(db, ratings, p.(maxRating := None))
    ensures forall c :: c in AdvancedSearch(db, ratings, p) && TruthyReal(p.minRating) ==>
              AverageRating(c, ratings) >= p.minRating.value
    ensures forall c :: c in AdvancedSearch(db, ratings, p) && TruthyReal(p.maxRating) ==>
              AverageRating(c, ratings) <= p.maxRating.value
  {
    if p.minRating == Some(0.0) || p.maxRating == Some(0.0) {
      AdvancedSearchZeroIgnored(db.shows, ratings, p);
    }
    AdvancedSearchBounds(db.shows, ratings, p);
  }

  /** A truthy year keeps exactly the shows of that year that pass the other filters; the result is always a subset of the shows. */
  lemma SearchByYear(db: Database, ratings: seq<Rating>, p: SearchParams)
    requires db.Valid()
    ensures TruthyInt(p.year) ==> forall c :: c in AdvancedSearch(db, ratings, p) <==>
              c in db.shows && c.year == p.year && PassesFilters(c, ratings, p.(year := None))
    ensures forall c :: c in AdvancedSearch(db, ratings, p) ==> c in db.shows
  {
    if TruthyInt(p.year) {
      AdvancedSearchYear(db.shows, ratings, p);
    }
  }
}
