/**
 * The interaction ledger: the rating and comment tables the routes write, as a
 * class whose fields the routes' methods update in place.
 */
module Interactions {
  import opened Wrappers
  import opened Seqs
  import opened Models

  /** The row belongs to this user and this movie or show. */
  predicate IsKey(row: Rating, userId: int, target: ContentRef) {
    row.userId == userId && row.target == target
  }

  /** `Rating.query.filter_by(user_id=…, movie_id=…).first()`: the position of the first matching row. */
  function FindRating(ratings: seq<Rating>, userId: int, target: ContentRef): (r: Option<nat>)
    ensures r.Some? ==> r.value < |ratings| && IsKey(ratings[r.value], userId, target)
    ensures r.Some? ==> forall j :: 0 <= j < r.value ==> !IsKey(ratings[j], userId, target)
    ensures r.None? <==> forall j :: 0 <= j < |ratings| ==> !IsKey(ratings[j], userId, target)
    decreases |ratings|
  {
    if ratings == [] then None
    else if IsKey(ratings[0], userId, target) then Some(0)
    else
      match FindRating(ratings[1..], userId, target)
      case Some(i) =>
        assert forall j :: 1 <= j < i + 1 ==> ratings[j] == ratings[1..][j - 1];
        Some(i + 1)
      case None =>
        assert forall j :: 1 <= j < |ratings| ==> ratings[j] == ratings[1..][j - 1];
        None
  }

  /** The first matching position is the one `FindRating` reports. */
  lemma FindRatingAt(ratings: seq<Rating>, userId: int, target: ContentRef, k: nat)
    requires k < |ratings| && IsKey(ratings[k], userId, target)
    requires forall j :: 0 <= j < k ==> !IsKey(ratings[j], userId, target)
    ensures FindRating(ratings, userId, target) == Some(k)
  {
  }

  /** The ratings table after a submission: the user's row for the item is overwritten, or a row is added. */
  function Upserted(ratings: seq<Rating>, userId: int, target: ContentRef, value: int): seq<Rating> {
    match FindRating(ratings, userId, target)
    case Some(i) => ratings[i := ratings[i].(rating := value)]
    case None => ratings + [Rating(value, userId, target)]
  }

  /** At most one rating per (user, movie or show). */
  ghost predicate OneRatingPerPair(ratings: seq<Rating>) {
    forall i, j :: 0 <= i < j < |ratings| ==>
      !(ratings[i].userId == ratings[j].userId && ratings[i].target == ratings[j].target)
  }

  ghost predicate ScoresInRange(ratings: seq<Rating>) {
    forall i :: 0 <= i < |ratings| ==> 1 <= ratings[i].rating <= 10
  }

  /** An existing row: the table keeps its size, that row now holds the new value, every other row is as it was. */
  lemma UpsertExisting(ratings: seq<Rating>, userId: int, target: ContentRef, value: int)
    requires exists j :: 0 <= j < |ratings| && IsKey(ratings[j], userId, target)
    ensures var r := Upserted(ratings, userId, target, value);
      && |r| == |ratings|
      && exists i :: 0 <= i < |r| && r[i] == Rating(value, userId, target) && IsKey(ratings[i], userId, target)
                     && forall j :: 0 <= j < |r| && j != i ==> r[j] == ratings[j]
  {
    var i := FindRating(ratings, userId, target).value;
    assert Upserted(ratings, userId, target, value)[i] == Rating(value, userId, target);
  }

  /** No existing row: exactly one row (user, item, value) is appended. */
  lemma UpsertNew(ratings: seq<Rating>, userId: int, target: ContentRef, value: int)
    requires forall j :: 0 <= j < |ratings| ==> !IsKey(ratings[j], userId, target)
    ensures Upserted(ratings, userId, target, value) == ratings + [Rating(value, userId, target)]
  {
  }

  /** The table invariants survive a valid submission. */
  lemma UpsertKeepsInvariants(ratings: seq<Rating>, userId: int, target: ContentRef, value: int)
    requires OneRatingPerPair(ratings) && ScoresInRange(ratings)
    requires 1 <= value <= 10
    ensures var r := Upserted(ratings, userId, target, value);
      OneRatingPerPair(r) && ScoresInRange(r)
  {
    var r := Upserted(ratings, userId, target, value);
    match FindRating(ratings, userId, target)
    case Some(i) => {
      assert forall j :: 0 <= j < |r| ==> r[j].userId == ratings[j].userId && r[j].target == ratings[j].target;
    }
    case None => {
      assert forall j :: 0 <= j < |ratings| ==> r[j] == ratings[j];
    }
  }

  /** Under the score invariant, an item's user mean (`AVG(rating)`) lies in 1..10. */
  lemma UserMeanInRange(ratings: seq<Rating>, target: ContentRef)
    requires ScoresInRange(ratings)
    requires ScoresFor(ratings, target) != []
    ensures 1.0 <= UserMean(ScoresFor(ratings, target)) <= 10.0
  {
    var rows := RatingsOf(ratings, target);
    var s := ScoresFor(ratings, target);
    forall i | 0 <= i < |s|
      ensures 1 <= s[i] <= 10
    {
      assert rows[i] in ratings;
    }
    MeanBounds(s, 1, 10);
  }

  /** After a submission the user has exactly one row for the item, and it holds the value just submitted. */
  lemma UpsertLatestWins(ratings: seq<Rating>, userId: int, target: ContentRef, value: int)
    requires OneRatingPerPair(ratings)
    ensures var r := Upserted(ratings, userId, target, value);
      && (exists i :: 0 <= i < |r| && r[i] == Rating(value, userId, target))
      && (forall j :: 0 <= j < |r| && IsKey(r[j], userId, target) ==> r[j].rating == value)
  {
    var r := Upserted(ratings, userId, target, value);
    match FindRating(ratings, userId, target)
    case Some(i) => {
      assert r[i] == Rating(value, userId, target);
      assert forall j :: 0 <= j < |ratings| && j != i ==> !IsKey(ratings[j], userId, target);
    }
    case None => {
      assert r[|ratings|] == Rating(value, userId, target);
    }
  }

  /** Submitting twice is submitting the second value once: only the latest value is reflected. */
  lemma UpsertTwice(ratings: seq<Rating>, userId: int, target: ContentRef, first: int, second: int)
    ensures Upserted(Upserted(ratings, userId, target, first), userId, target, second)
            == Upserted(ratings, userId, target, second)
  {
    var r := Upserted(ratings, userId, target, first);
    match FindRating(ratings, userId, target)
    case Some(i) => {
      assert forall j :: 0 <= j < i ==> r[j] == ratings[j];
      FindRatingAt(r, userId, target, i);
      assert r[i := r[i].(rating := second)] == ratings[i := ratings[i].(rating := second)];
    }
    case None => {
      assert forall j :: 0 <= j < |ratings| ==> r[j] == ratings[j];
      FindRatingAt(r, userId, target, |ratings|);
      assert r[|ratings| := r[|ratings|].(rating := second)] == ratings + [Rating(second, userId, target)];
    }
  }

  /** Rating one item changes no other item's scores, movie or show, whoever rated it. */
  lemma UpsertOtherItemsUnchanged(ratings: seq<Rating>, userId: int, target: ContentRef, value: int, other: ContentRef)
    requires other != target
    ensures ScoresFor(Upserted(ratings, userId, target, value), other) == ScoresFor(ratings, other)
  {
    var p := (row: Rating) => row.target == other;
    match FindRating(ratings, userId, target)
    case Some(i) => {
      FilterUpdateDropped(ratings, i, ratings[i].(rating := value), p);
    }
    case None => {
      ScoresForIgnoresOthers(ratings, [Rating(value, userId, target)], other);
    }
  }

  /** With an existing row, the item's scores have that user's old score replaced in place. */
  lemma UpsertScoresReplaced(ratings: seq<Rating>, userId: int, target: ContentRef, value: int) returns (k: nat)
    requires FindRating(ratings, userId, target).Some?
    ensures var before := ScoresFor(ratings, target);
      && k < |before| && before[k] == ratings[FindRating(ratings, userId, target).value].rating
      && ScoresFor(Upserted(ratings, userId, target, value), target) == before[k := value]
  {
    var i := FindRating(ratings, userId, target).value;
    var x := ratings[i].(rating := value);
    assert Upserted(ratings, userId, target, value) == ratings[i := x];
    k := FilterUpdateKept(ratings, i, x, (row: Rating) => row.target == target);
    assert RatingsOf(ratings[i := x], target) == RatingsOf(ratings, target)[k := x];
  }

  /** With no existing row, the item's scores gain the new score at the end. */
  lemma UpsertScoresAppended(ratings: seq<Rating>, userId: int, target: ContentRef, value: int)
    requires FindRating(ratings, userId, target).None?
    ensures ScoresFor(Upserted(ratings, userId, target, value), target) == ScoresFor(ratings, target) + [value]
  {
    var row := Rating(value, userId, target);
    var p := (r: Rating) => r.target == target;
    FilterAppend(ratings, [row], p);
    assert Filter([row], p) == [row];
    assert RatingsOf(ratings + [row], target) == RatingsOf(ratings, target) + [row];
  }

  /** The comments of one movie or show, in table order. */
  function CommentsOf(comments: seq<Comment>, target: ContentRef): (r: seq<Comment>)
    ensures forall c :: c in r <==> c in comments && c.target == target
  {
    Filter(comments, (c: Comment) => c.target == target)
  }

  /** The rating and comment tables. */
  class Ledger {
    var ratings: seq<Rating>
    var comments: seq<Comment>

    ghost predicate Valid()
      reads this
    {
      OneRatingPerPair(ratings) && ScoresInRange(ratings)
    }

    constructor ()
      ensures Valid() && ratings == [] && comments == []
    {
      ratings := [];
      comments := [];
    }

    /** The read-then-write upsert: overwrite the user's row for the item if there is one, else insert. */
    method SubmitRating(userId: int, target: ContentRef, value: int)
      requires Valid() && 1 <= value <= 10
      modifies this
      ensures Valid()
      ensures ratings == Upserted(old(ratings), userId, target, value)
      ensures comments == old(comments)
    {
      UpsertKeepsInvariants(ratings, userId, target, value);
      var found := FindRating(ratings, userId, target);
      if found.Some? {
        var i := found.value;
        ratings := ratings[i := ratings[i].(rating := value)];
      } else {
        ratings := ratings + [Rating(value, userId, target)];
      }
    }

    /** `db.session.add(comment)`: the comment table grows by this one row. */
    method AddComment(c: Comment)
      requires Valid()
      modifies this
      ensures Valid()
      ensures comments == old(comments) + [c] && ratings == old(ratings)
    {
      comments := comments + [c];
    }
  }
}
