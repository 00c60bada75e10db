/**
 * The query rules the catalogue routes and the recommendations share: the
 * case-insensitive `ILIKE '%…%'` matches, `ORDER BY external_rating DESC LIMIT n`,
 * and the chain of optional filters of the advanced searches.
 */
module Catalog {
  import opened Wrappers
  import opened Text
  import opened Seqs
  import opened Models

  /** `title ILIKE '%query%'`. */
  predicate TitleMatches(c: Content, query: string) {
    ContainsCI(c.title, query)
  }

  /** `genre ILIKE '%pattern%'`: a NULL genre matches no pattern. */
  predicate GenreMatches(c: Content, pattern: string) {
    c.genre.Some? && ContainsCI(c.genre.value, pattern)
  }

  function ByExternalRating(c: Content): real {
    c.externalRating
  }

  /** `ORDER BY external_rating DESC LIMIT n`. */
  function TopRated(table: seq<Content>, n: nat): seq<Content> {
    Top(table, n, ByExternalRating)
  }

  lemma ConsNoDupIds(x: Content, s: seq<Content>)
    requires NoDupIds(s) && x.id !in Ids(s)
    ensures NoDupIds([x] + s)
  {
    var r := [x] + s;
    forall i, j | 0 <= i < j < |r| ensures r[i].id != r[j].id {
      assert r[j] == s[j - 1];
      if i > 0 {
        assert r[i] == s[i - 1];
      } else {
        assert s[j - 1] in s;
      }
    }
  }

  /** The rows after the first keep the key unique and do not reuse the first row's id. */
  lemma TailNoDupIds(s: seq<Content>)
    requires NoDupIds(s) && s != []
    ensures NoDupIds(s[1..]) && s[0].id !in Ids(s[1..])
  {
    forall i, j | 0 <= i < j < |s[1..]| ensures s[1..][i].id != s[1..][j].id {
      assert s[1..][i] == s[i + 1] && s[1..][j] == s[j + 1];
    }
    forall y | y in s[1..] ensures y.id != s[0].id {
      var k :| 0 <= k < |s[1..]| && s[1..][k] == y;
      assert s[k + 1] == y;
    }
  }

  lemma PrefixNoDupIds(s: seq<Content>, k: nat)
    requires NoDupIds(s) && k <= |s|
    ensures NoDupIds(s[..k])
  {
    assert forall i :: 0 <= i < k ==> s[..k][i] == s[i];
  }

  lemma {:induction false} InsertNoDupIds(x: Content, s: seq<Content>, key: Content -> real)
    requires NoDupIds(s) && x.id !in Ids(s)
    ensures NoDupIds(Insert(x, s, key))
    decreases |s|
  {
    if s == [] || key(x) >= key(s[0]) {
      ConsNoDupIds(x, s);
    } else {
      var rest := Insert(x, s[1..], key);
      assert Ids(s[1..]) <= Ids(s) by {
        forall y | y in s[1..] ensures y in s { }
      }
      TailNoDupIds(s);
      InsertNoDupIds(x, s[1..], key);
      InsertPerm(x, s[1..], key);
      assert s[0].id !in Ids(rest) by {
        forall y | y in rest ensures y.id != s[0].id {
          assert y in multiset(rest);
          if y != x {
            assert y in multiset(s[1..]);
          }
        }
      }
      ConsNoDupIds(s[0], rest);
    }
  }

  /** A rows' order changes nothing about the primary key. */
  lemma {:induction false} SortDescNoDupIds(s: seq<Content>, key: Content -> real)
    requires NoDupIds(s)
    ensures NoDupIds(SortDesc(s, key)) && Ids(SortDesc(s, key)) == Ids(s)
    decreases |s|
  {
    var r := SortDesc(s, key);
    forall y ensures y in r <==> y in s {
      assert y in r <==> y in multiset(r);
      assert y in s <==> y in multiset(s);
    }
    if s != [] {
      var rest := SortDesc(s[1..], key);
      TailNoDupIds(s);
      SortDescNoDupIds(s[1..], key);
      InsertNoDupIds(s[0], rest, key);
    }
  }

  lemma {:induction false} FilterNoDupIds(s: seq<Content>, p: Content -> bool)
    requires NoDupIds(s)
    ensures NoDupIds(Filter(s, p))
    decreases |s|
  {
    if s != [] {
      TailNoDupIds(s);
      FilterNoDupIds(s[1..], p);
      var rest := Filter(s[1..], p);
      if p(s[0]) {
        assert Ids(rest) <= Ids(s[1..]);
        ConsNoDupIds(s[0], rest);
      } else {
        assert Filter(s, p) == rest;
      }
    }
  }

  /**
   * The `n` rows with the highest external rating: up to `n` of them, best first,
   * drawn from the table, none better left out, and still keyed uniquely.
   */
  lemma TopRatedSpec(table: seq<Content>, n: nat)
    requires NoDupIds(table)
    ensures |TopRated(table, n)| == (if n <= |table| then n else |table|)
    ensures SortedDesc(TopRated(table, n), ByExternalRating)
    ensures forall x :: x in TopRated(table, n) ==> x in table
    ensures forall x, y :: x in table && x !in TopRated(table, n) && y in TopRated(table, n) ==>
              x.externalRating <= y.externalRating
    ensures NoDupIds(TopRated(table, n))
  {
    TopSpec(table, n, ByExternalRating);
    var r := TopRated(table, n);
    forall x, y | x in table && x !in r && y in r ensures x.externalRating <= y.externalRating {
      assert ByExternalRating(x) <= ByExternalRating(y);
    }
    SortDescNoDupIds(table, ByExternalRating);
    var t := SortDesc(table, ByExternalRating);
    if n <= |t| {
      PrefixNoDupIds(t, n);
    }
  }

  // ---- advanced_search: a chain of optional filters ----

  /** The query parameters; a parameter that is absent or failed to convert is None. */
  datatype SearchParams = SearchParams(genre: Option<string>, minRating: Option<real>, maxRating: Option<real>, year: Option<int>)

  /** Python truthiness of the optional parameters: None, "" and 0 are all false. */
  predicate TruthyText(o: Option<string>) {
    o.Some? && o.value != ""
  }

  predicate TruthyReal(o: Option<real>) {
    o.Some? && o.value != 0.0
  }

  predicate TruthyInt(o: Option<int>) {
    o.Some? && o.value != 0
  }

  predicate MinKeeps(c: Content, ratings: seq<Rating>, min: real) {
    AverageRating(c, ratings) >= min
  }

  predicate MaxKeeps(c: Content, ratings: seq<Rating>, max: real) {
    AverageRating(c, ratings) <= max
  }

  predicate YearKeeps(c: Content, year: int) {
    c.year == Some(year)
  }

  /** The conjunction the filter chain stands for: each condition counts only when its parameter is truthy. */
  predicate PassesFilters(c: Content, ratings: seq<Rating>, p: SearchParams) {
    && (TruthyText(p.genre) ==> GenreMatches(c, p.genre.value))
    && (TruthyReal(p.minRating) ==> MinKeeps(c, ratings, p.minRating.value))
    && (TruthyReal(p.maxRating) ==> MaxKeeps(c, ratings, p.maxRating.value))
    && (TruthyInt(p.year) ==> YearKeeps(c, p.year.value))
  }

  /** `if flag: query = query.filter(cond)`. */
  function FilterIf(s: seq<Content>, active: bool, p: Content -> bool): seq<Content> {
    if active then Filter(s, p) else s
  }

  lemma FilterIfAsFilter(s: seq<Content>, active: bool, p: Content -> bool, q: Content -> bool)
    requires forall c :: q(c) == (active ==> p(c))
    ensures FilterIf(s, active, p) == Filter(s, q)
  {
    if active {
      FilterExt(s, p, q);
    } else {
      FilterAll(s, q);
    }
  }

  /**
   * `advanced_search`: the query narrowed by each truthy parameter in turn. It selects,
   * in table order, exactly the rows that pass every active filter.
   */
  function AdvancedSearch(table: seq<Content>, ratings: seq<Rating>, p: SearchParams): (r: seq<Content>)
    ensures r == Filter(table, (c: Content) => PassesFilters(c, ratings, p))
    ensures forall c :: c in r <==> c in table && PassesFilters(c, ratings, p)
  {
    var g := (c: Content) => GenreMatches(c, p.genre.GetOr(""));
    var lo := (c: Content) => MinKeeps(c, ratings, p.minRating.GetOr(0.0));
    var hi := (c: Content) => MaxKeeps(c, ratings, p.maxRating.GetOr(0.0));
    var y := (c: Content) => YearKeeps(c, p.year.GetOr(0));
    var byGenre := FilterIf(table, TruthyText(p.genre), g);
    var byMin := FilterIf(byGenre, TruthyReal(p.minRating), lo);
    var byMax := FilterIf(byMin, TruthyReal(p.maxRating), hi);
    var byYear := FilterIf(byMax, TruthyInt(p.year), y);
    AdvancedSearchIsConjunction(table, ratings, p, g, lo, hi, y);
    byYear
  }

  /**
   * The chain as the code runs it: on the class, `average_rating` is the property object
   * itself, so a truthy rating bound raises TypeError before any row is compared.
   */
  function AdvancedSearchAsWritten(table: seq<Content>, ratings: seq<Rating>, p: SearchParams): (r: Result<seq<Content>, Error>)
    ensures r.Failure? <==> TruthyReal(p.minRating) || TruthyReal(p.maxRating)
    ensures r.Failure? ==> r.error == PropertyComparison
    ensures r.Success? ==> forall c :: c in r.value <==> c in table && PassesFilters(c, ratings, p)
  {
    if TruthyReal(p.minRating) || TruthyReal(p.maxRating) then Failure(PropertyComparison)
    else Success(AdvancedSearch(table, ratings, p))
  }

  /** A minimum rating of 5 fails as written, while the per-row reading keeps only rows rated 5 or more. */
  lemma RatingBoundFailsAsWritten(table: seq<Content>, ratings: seq<Rating>)
    ensures AdvancedSearchAsWritten(table, ratings, SearchParams(None, Some(5.0), None, None))
            == Failure(PropertyComparison)
    ensures forall c :: c in AdvancedSearch(table, ratings, SearchParams(None, Some(5.0), None, None)) <==>
              c in table && AverageRating(c, ratings) >= 5.0
  {
  }

  /** One more link of the chain: a conditional filter after a filter is one filter. */
  lemma FilterIfStep(table: seq<Content>, prev: Content -> bool, active: bool, p: Content -> bool,
                     p': Content -> bool, next: Content -> bool)
    requires forall c :: p'(c) == (active ==> p(c))
    requires forall c :: next(c) == (prev(c) && p'(c))
    ensures FilterIf(Filter(table, prev), active, p) == Filter(table, next)
  {
    FilterIfAsFilter(Filter(table, prev), active, p, p');
    FilterFilter(table, prev, p', next);
  }

  lemma AdvancedSearchIsConjunction(table: seq<Content>, ratings: seq<Rating>, p: SearchParams,
                                    g: Content -> bool, lo: Content -> bool, hi: Content -> bool, y: Content -> bool)
    requires forall c :: g(c) == GenreMatches(c, p.genre.GetOr(""))
    requires forall c :: lo(c) == MinKeeps(c, ratings, p.minRating.GetOr(0.0))
    requires forall c :: hi(c) == MaxKeeps(c, ratings, p.maxRating.GetOr(0.0))
    requires forall c :: y(c) == YearKeeps(c, p.year.GetOr(0))
    ensures FilterIf(FilterIf(FilterIf(FilterIf(table, TruthyText(p.genre), g), TruthyReal(p.minRating), lo),
                              TruthyReal(p.maxRating), hi), TruthyInt(p.year), y)
            == Filter(table, (c: Content) => PassesFilters(c, ratings, p))
  {
    var g' := (c: Content) => TruthyText(p.genre) ==> g(c);
    var lo' := (c: Content) => TruthyReal(p.minRating) ==> lo(c);
    var hi' := (c: Content) => TruthyReal(p.maxRating) ==> hi(c);
    var y' := (c: Content) => TruthyInt(p.year) ==> y(c);
    var c2 := (c: Content) => g'(c) && lo'(c);
    var c3 := (c: Content) => c2(c) && hi'(c);
    var c4 := (c: Content) => PassesFilters(c, ratings, p);
    FilterIfAsFilter(table, TruthyText(p.genre), g, g');
    FilterIfStep(table, g', TruthyReal(p.minRating), lo, lo', c2);
    FilterIfStep(table, c2, TruthyReal(p.maxRating), hi, hi', c3);
    FilterIfStep(table, c3, TruthyInt(p.year), y, y', c4);
  }

  /** With no truthy parameter every row is returned. */
  lemma AdvancedSearchNoParams(table: seq<Content>, ratings: seq<Rating>, p: SearchParams)
    requires !TruthyText(p.genre) && !TruthyReal(p.minRating) && !TruthyReal(p.maxRating) && !TruthyInt(p.year)
    ensures AdvancedSearch(table, ratings, p) == table
  {
    FilterAll(table, (c: Content) => PassesFilters(c, ratings, p));
  }

  /** A truthy genre keeps only rows whose genre contains it, ignoring case. */
  lemma AdvancedSearchGenre(table: seq<Content>, ratings: seq<Rating>, p: SearchParams)
    requires TruthyText(p.genre)
    ensures forall c :: c in AdvancedSearch(table, ratings, p) ==>
              c.genre.Some? && ContainsCI(c.genre.value, p.genre.value)
  {
  }

  /** Truthy bounds are inclusive limits on the blended rating. */
  lemma AdvancedSearchBounds(table: seq<Content>, ratings: seq<Rating>, p: SearchParams)
    ensures forall c :: c in AdvancedSearch(table, ratings, p) && TruthyReal(p.minRating) ==>
              AverageRating(c, ratings) >= p.minRating.value
    ensures forall c :: c in AdvancedSearch(table, ratings, p) && TruthyReal(p.maxRating) ==>
              AverageRating(c, ratings) <= p.maxRating.value
  {
  }

  /** A truthy year keeps exactly the rows of that year. */
  lemma AdvancedSearchYear(table: seq<Content>, ratings: seq<Rating>, p: SearchParams)
    requires TruthyInt(p.year)
    ensures forall c :: c in AdvancedSearch(table, ratings, p) <==>
              c in table && c.year == p.year && PassesFilters(c, ratings, p.(year := None))
  {
  }

  /** A bound of 0 is the same as no bound at all. */
  lemma AdvancedSearchZeroIgnored(table: seq<Content>, ratings: seq<Rating>, p: SearchParams)
    requires p.minRating == Some(0.0) || p.maxRating == Some(0.0)
    ensures p.minRating == Some(0.0) ==>
              AdvancedSearch(table, ratings, p) == AdvancedSearch(table, ratings, p.(minRating := None))
    ensures p.maxRating == Some(0.0) ==>
              AdvancedSearch(table, ratings, p) == AdvancedSearch(table, ratings, p.(maxRating := None))
  {
    if p.minRating == Some(0.0) {
      FilterExt(table, (c: Content) => PassesFilters(c, ratings, p),
                       (c: Content) => PassesFilters(c, ratings, p.(minRating := None)));
    }
    if p.maxRating == Some(0.0) {
      FilterExt(table, (c: Content) => PassesFilters(c, ratings, p),
                       (c: Content) => PassesFilters(c, ratings, p.(maxRating := None)));
    }
  }
}
