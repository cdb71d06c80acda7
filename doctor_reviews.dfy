/** The doctor reviews panel: the star row of each review, built from full
    stars, an optional half star and grey stars filling up to five, and the
    review form with its rating picker, submit guard and reset. Fetching
    and posting reviews are outside the model; the outcome of a post
    arrives as a method parameter. */
module DoctorReviews {
  import opened JsText
  import opened ListOps
  import opened DoctorSearch

  // ---------------------------------------------------------------------
  // Star row

  /** `n` copies of `x`, none when `n` is not positive. */
  function Repeat<T>(x: T, n: int): (r: seq<T>)
    ensures |r| == Max(0, n)
    ensures forall i :: 0 <= i < |r| ==> r[i] == x
  {
    seq(Max(0, n), _ => x)
  }

  /** Whether the review row has a half star: `rating % 1 >= 0.5`. */
  predicate HasHalfStar(rating: real)
  {
    JsFrac(rating) >= 0.5
  }

  /** The number of full stars: the loop up to `Math.floor(rating)` runs
      only for a positive bound. */
  function FullStars(rating: real): nat
  {
    Max(0, rating.Floor)
  }

  /** The review row: the full stars, then the half star if any, then grey
      stars up to five in all; none when five are already there. */
  function ReviewRow(rating: real): (row: seq<Star>)
  {
    var lead := Repeat(Full, rating.Floor) + (if HasHalfStar(rating) then [Half] else []);
    lead + Repeat(Empty, 5 - |lead|)
  }

  /** `renderStars`: push the full stars, then the half star, then as many
      grey stars as are missing to five. */
  method ReviewStars(rating: real) returns (stars: seq<Star>)
    ensures stars == ReviewRow(rating)
  {
    stars := [];
    var fullStars := rating.Floor;
    var hasHalfStar := JsFrac(rating) >= 0.5;
    var i := 0;
    while i < fullStars
      invariant 0 <= i <= Max(0, fullStars)
      invariant stars == Repeat(Full, i)
    {
      stars := stars + [Full];
      i := i + 1;
    }
    assert stars == Repeat(Full, fullStars);
    if hasHalfStar {
      stars := stars + [Half];
    }
    var lead := stars;
    var remainingStars := 5 - |stars|;
    var j := 0;
    while j < remainingStars
      invariant 0 <= j <= Max(0, remainingStars)
      invariant stars == lead + Repeat(Empty, j)
    {
      stars := stars + [Empty];
      j := j + 1;
    }
  }

  /** The row holds `Math.floor(rating)` full stars (none for a negative
      rating), one half star exactly when the fraction is at least one half,
      and is ordered full, half, grey. */
  lemma ReviewRowShape(rating: real)
    ensures var row := ReviewRow(rating);
      && (forall i :: 0 <= i < |row| ==> (row[i] == Full <==> i < FullStars(rating)))
      && (forall i :: 0 <= i < |row| ==> (row[i] == Half <==> i == FullStars(rating) && HasHalfStar(rating)))
      && (forall i, j :: 0 <= i < j < |row| ==> Rank(row[i]) <= Rank(row[j]))
  {
  }

  /** The row has five stars unless the rating's full and half stars alone
      exceed five, in which case the grey loop does not run. */
  lemma ReviewRowLength(rating: real)
    ensures |ReviewRow(rating)| == Max(5, FullStars(rating) + (if HasHalfStar(rating) then 1 else 0))
    ensures 0.0 <= rating <= 5.0 ==> |ReviewRow(rating)| == 5
  {
    if rating == 5.0 {
      assert rating.Floor == 5;
      assert JsFrac(rating) == 0.0;
    }
  }

  /** Below 5.5 the review row and the search card's row are the same; from
      5.5 on the review row is longer than five. */
  lemma ReviewRowMatchesSearch(rating: real)
    ensures rating < 5.5 ==> ReviewRow(rating) == SearchStars(rating)
    ensures rating >= 5.5 ==> |ReviewRow(rating)| > 5
  {
    var row := ReviewRow(rating);
    ReviewRowLength(rating);
    if rating < 0.0 {
      assert !HasHalfStar(rating);
    }
    if rating < 5.5 {
      if rating >= 5.0 {
        assert rating.Floor == 5 && !HasHalfStar(rating);
      }
      assert |row| == 5;
      ReviewRowShape(rating);
      forall i | 0 <= i < 5 ensures row[i] == SearchStars(rating)[i] {
        if rating < 0.0 {
          assert row[i] == Empty;
        }
      }
    } else {
      assert rating.Floor >= 5;
      if rating.Floor == 5 {
        assert JsFrac(rating) >= 0.5;
      }
    }
  }

  // ---------------------------------------------------------------------
  // Review form

  /** How posting a review ended: accepted, or rejected with the error's
      message (possibly empty). */
  datatype Outcome = Accepted | Rejected(message: string)

  /** The panel's form state; `canReview` is the component's property. */
  class ReviewPanel {
    const canReview: bool
    var showReviewForm: bool
    var rating: int
    var comment: string
    var submitting: bool
    var error: string

    /** The picker only offers 1 to 5, and 0 means "not picked yet". */
    predicate Valid()
      reads this
    {
      0 <= rating <= 5 && !submitting
    }

    /** Once `error` is set the component renders nothing but the error
        text: no header button, no form, no list. Nothing clears it. */
    predicate ShowsOnlyError()
      reads this
    {
      error != ""
    }

    /** "Write a Review" is shown to a patient who may review while the
        form is closed and no error has taken over the panel. */
    predicate ShowWriteButton()
      reads this
    {
      canReview && !showReviewForm && !ShowsOnlyError()
    }

    /** The form, with its picker, comment box, Submit and Cancel, is on
        screen. */
    predicate ShowForm()
      reads this
    {
      showReviewForm && !ShowsOnlyError()
    }

    /** The form can be submitted while it is on screen, once a rating is
        picked, no post is in flight and the required comment is not empty. */
    predicate CanSubmit()
      reads this
    {
      ShowForm() && !submitting && rating != 0 && comment != ""
    }

    constructor(canReview: bool)
      ensures Valid() && this.canReview == canReview
      ensures !showReviewForm && rating == 0 && comment == "" && error == ""
      ensures ShowWriteButton() <==> canReview
    {
      this.canReview := canReview;
      showReviewForm := false;
      rating := 0;
      comment := "";
      submitting := false;
      error := "";
    }

    /** "Write a Review" opens the form. */
    method OpenForm()
      requires Valid() && ShowWriteButton()
      modifies this
      ensures Valid() && ShowForm() && !ShowWriteButton()
      ensures rating == old(rating) && comment == old(comment) && error == old(error)
    {
      showReviewForm := true;
    }

    /** "Cancel" closes the form and keeps what was entered. */
    method CancelForm()
      requires Valid() && ShowForm()
      modifies this
      ensures Valid() && !ShowForm() && (ShowWriteButton() <==> canReview)
      ensures rating == old(rating) && comment == old(comment) && error == old(error)
    {
      showReviewForm := false;
    }

    /** Clicking picker star `value`. */
    method PickRating(value: int)
      requires Valid() && ShowForm() && 1 <= value <= 5
      modifies this
      ensures Valid() && ShowForm() && rating == value && rating != 0
      ensures showReviewForm == old(showReviewForm) && comment == old(comment) && error == old(error)
    {
      rating := value;
    }

    /** Typing in the comment box. */
    method SetComment(text: string)
      requires Valid() && ShowForm()
      modifies this
      ensures Valid() && ShowForm() && comment == text
      ensures showReviewForm == old(showReviewForm) && rating == old(rating) && error == old(error)
    {
      comment := text;
    }

    /** Submitting: the post is in flight until its outcome arrives. On
        success the form closes and is emptied. On failure the error becomes
        the message, or "Failed to submit review" when the message is empty,
        and from then on the panel shows only that text: no form, no button,
        and no method here can run again, since each needs the form or the
        button on screen. */
    method SubmitReview(outcome: Outcome)
      requires Valid() && CanSubmit()
      modifies this
      ensures Valid() && !CanSubmit()
      ensures outcome.Accepted? ==>
        && !showReviewForm && rating == 0 && comment == "" && error == old(error)
        && !ShowsOnlyError() && (ShowWriteButton() <==> canReview)
      ensures outcome.Rejected? ==>
        && ShowsOnlyError() && !ShowForm() && !ShowWriteButton()
        && showReviewForm == old(showReviewForm) && rating == old(rating) && comment == old(comment)
        && error == (if outcome.message != "" then outcome.message else "Failed to submit review")
    {
      submitting := true;
      match outcome {
        case Accepted =>
          showReviewForm := false;
          rating := 0;
          comment := "";
        case Rejected(message) =>
          error := if message != "" then message else "Failed to submit review";
      }
      submitting := false;
    }
  }
}
