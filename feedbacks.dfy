/** The feedback directory: the Feedbacks table behind `FeedbackService`, with
    at most one feedback per user, and its rating summary. */
module Feedbacks {
  import opened Wrappers
  import opened Errors
  import opened Entities
  import opened Queries
  import opened Reports

  // Columns of the Feedbacks table, in table order.

  function FeedbackIds(feedbacks: seq<Feedback>): seq<int> {
    seq(|feedbacks|, i requires 0 <= i < |feedbacks| => feedbacks[i].id)
  }

  function UserRefs(feedbacks: seq<Feedback>): seq<int> {
    seq(|feedbacks|, i requires 0 <= i < |feedbacks| => feedbacks[i].userRef)
  }

  function Types(feedbacks: seq<Feedback>): seq<string> {
    seq(|feedbacks|, i requires 0 <= i < |feedbacks| => feedbacks[i].feedbackType)
  }

  function Ratings(feedbacks: seq<Feedback>): seq<int> {
    seq(|feedbacks|, i requires 0 <= i < |feedbacks| => feedbacks[i].ratings)
  }

  /** The report of `GetAverageRatings`; `totalFeedbacks` counts only the
      feedbacks classified as positive or negative. */
  datatype RatingSummary = RatingSummary(
    rate: Number,
    positivePercentage: Number,
    negativePercentage: Number,
    totalFeedbacks: nat)

  /** Feedback types that count as positive. */
  predicate IsPositive(feedbackType: string) {
    feedbackType == "Positive" || feedbackType == "Semi Positive"
  }

  /** Feedback types that count as negative. */
  predicate IsNegative(feedbackType: string) {
    feedbackType == "Negative"
  }

  /** Number of positive feedbacks among `types`. */
  function PositiveCount(types: seq<string>): (r: nat)
    ensures r <= |types|
  {
    if |types| == 0 then 0
    else PositiveCount(types[..|types| - 1]) + (if IsPositive(types[|types| - 1]) then 1 else 0)
  }

  /** Number of negative feedbacks among `types`. */
  function NegativeCount(types: seq<string>): (r: nat)
    ensures r <= |types|
  {
    if |types| == 0 then 0
    else NegativeCount(types[..|types| - 1]) + (if IsNegative(types[|types| - 1]) then 1 else 0)
  }

  /** The sentiment classes are disjoint: together they count no feedback twice,
      and any type other than the three recognised ones counts in neither. */
  lemma {:induction false} ClassifiedAtMostAll(types: seq<string>)
    ensures PositiveCount(types) + NegativeCount(types) <= |types|
    ensures PositiveCount(types) + NegativeCount(types)
            == Occurrences(types, "Positive") + Occurrences(types, "Semi Positive") + Occurrences(types, "Negative")
  {
    if |types| > 0 {
      ClassifiedAtMostAll(types[..|types| - 1]);
    }
  }

  /** A feedback added for a user with none is what a lookup for that user finds. */
  lemma AddedFeedbackIsFound(feedbacks: seq<Feedback>, f: Feedback)
    requires f.userRef !in UserRefs(feedbacks)
    ensures IndexOf(UserRefs(feedbacks + [f]), f.userRef) == Some(|feedbacks|)
  {
    assert UserRefs(feedbacks + [f]) == UserRefs(feedbacks) + [f.userRef];
  }

  class FeedbackService {
    /** The Feedbacks table, in table order. */
    var feedbacks: seq<Feedback>
    /** The next value of the table's identity column. */
    var nextId: int

    /** At most one feedback per user; ids are keys below the identity counter. */
    ghost predicate Valid()
      reads this
    {
      && Distinct(UserRefs(feedbacks))
      && Distinct(FeedbackIds(feedbacks))
      && forall i | 0 <= i < |feedbacks| :: feedbacks[i].id < nextId
    }

    constructor ()
      ensures Valid() && feedbacks == [] && nextId == 1
    {
      feedbacks := [];
      nextId := 1;
    }

    /** `Create`: refuses a second feedback from the same user; otherwise
        stores the feedback with the next id and returns it. */
    method Create(feedback: Feedback) returns (r: Result<Feedback, Error>)
      requires Valid()
      modifies this
      ensures Valid()
      ensures feedback.userRef in UserRefs(old(feedbacks)) ==>
                && r == Failure(AppError("Feedback is already taken"))
                && feedbacks == old(feedbacks) && nextId == old(nextId)
      ensures feedback.userRef !in UserRefs(old(feedbacks)) ==>
                && r == Success(feedback.(id := old(nextId)))
                && feedbacks == old(feedbacks) + [r.value]
                && nextId == old(nextId) + 1
    {
      if feedback.userRef in UserRefs(feedbacks) {
        return Failure(AppError("Feedback is already taken"));
      }
      var added := feedback.(id := nextId);
      assert UserRefs(feedbacks + [added]) == UserRefs(feedbacks) + [added.userRef];
      assert FeedbackIds(feedbacks + [added]) == FeedbackIds(feedbacks) + [added.id];
      DistinctAppend(UserRefs(feedbacks), added.userRef);
      DistinctAppend(FeedbackIds(feedbacks), added.id);
      feedbacks := feedbacks + [added];
      nextId := nextId + 1;
      return Success(added);
    }

    /** `GetAll`: the whole table, which it leaves as it is. */
    method GetAll() returns (r: seq<Feedback>)
      ensures r == feedbacks
    {
      r := feedbacks;
    }

    /** `GetByRef`: the first feedback, in table order, written by user `id`. */
    function GetByRef(id: int): (r: Result<Feedback, Error>)
      reads this
      ensures r.Failure? <==> id !in UserRefs(feedbacks)
      ensures r.Failure? ==> r.error == AppError("Feedback not added yet")
      ensures r.Success? ==>
                exists k | 0 <= k < |feedbacks| ::
                  feedbacks[k] == r.value && r.value.userRef == id && id !in UserRefs(feedbacks)[..k]
    {
      match IndexOf(UserRefs(feedbacks), id)
      case None => Failure(AppError("Feedback not added yet"))
      case Some(k) => Success(feedbacks[k])
    }

    /** `GetAverageRatings`: the mean of all ratings, whatever their type, and
        the positive and negative shares among the classified feedbacks; the
        negative share is derived as 100 minus the positive one. */
    method GetAverageRatings() returns (r: RatingSummary)
      ensures var types := Types(feedbacks);
        && r.rate == Mean(Sum(Ratings(feedbacks)), |feedbacks|)
        && r.totalFeedbacks == PositiveCount(types) + NegativeCount(types)
        && r.positivePercentage == Percentage(PositiveCount(types), r.totalFeedbacks)
        && r.negativePercentage == Complement(r.positivePercentage)
        && r.negativePercentage == Percentage(NegativeCount(types), r.totalFeedbacks)
      ensures r.totalFeedbacks <= |feedbacks|
    {
      var types, ratings := Types(feedbacks), Ratings(feedbacks);
      var avg, n, positive, negative := 0, 0, 0, 0;
      for i := 0 to |feedbacks|
        invariant avg == Sum(ratings[..i])
        invariant n == i
        invariant positive == PositiveCount(types[..i])
        invariant negative == NegativeCount(types[..i])
        invariant positive + negative <= i
      {
        assert ratings[..i + 1][..i] == ratings[..i];
        assert types[..i + 1][..i] == types[..i];
        avg := avg + ratings[i];
        n := n + 1;
        if types[i] == "Positive" || types[i] == "Semi Positive" {
          positive := positive + 1;
        } else if types[i] == "Negative" {
          negative := negative + 1;
        }
      }
      assert ratings[..|feedbacks|] == ratings;
      assert types[..|feedbacks|] == types;
      var totalFeedback := positive + negative;
      var positivePercentage := Percentage(positive, totalFeedback);
      var negativePercentage := Complement(positivePercentage);
      if totalFeedback > 0 {
        ComplementOfShare(positive, negative);
      }
      r := RatingSummary(Mean(avg, n), positivePercentage, negativePercentage, totalFeedback);
    }
  }
}
