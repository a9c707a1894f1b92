/** The daily-wish decision of `process_get_wish` (bot.py lines 109-150) as a
    pure step: given a user's record, today's day number, whether the caller
    is the owner and the catalog index the random draw would pick, decide
    between granting a new wish and repeating today's, and compute the
    record that gets saved. */
module Engine {

  import opened Wrappers
  import opened Wishes
  import opened UserRecord

  /** What the user is told: either a new wish with the updated streak and
      total, or the wish already received today. */
  datatype Decision =
    | Granted(wish: string, streak: nat, total: nat)
    | Denied(shown: Option<string>)

  /** A request is refused only when the caller is not the owner and the
      stored wish date is today. */
  predicate Eligible(r: Record, today: int, isOwner: bool)
  {
    isOwner || r.lastWishDate != Some(today)
  }

  /** The streak after a grant on `today`, given the stored anchor day: it
      grows by one when the anchor is exactly yesterday and restarts at one
      otherwise, including an absent anchor, a gap of two or more days, an
      anchor in the future and a second owner grant on the same day. */
  function NextStreak(anchor: Option<int>, streak: nat, today: int): (s: nat)
    ensures anchor == Some(today - 1) ==> s == streak + 1
    ensures anchor != Some(today - 1) ==> s == 1
  {
    match anchor
    case None => 1
    case Some(last) => if today - last == 1 then streak + 1 else 1
  }

  /** One button press. */
  function Step(r: Record, today: int, isOwner: bool, i: WishIndex): (out: (Decision, Record))
    // refused exactly when a non-owner already received a wish today
    ensures out.0.Denied? <==> !isOwner && r.lastWishDate == Some(today)
    // a refusal repeats the stored wish and saves nothing
    ensures out.0.Denied? ==> out.0.shown == r.lastWishText && out.1 == r
    // a grant hands out a catalog wish and reports the saved counters
    ensures out.0.Granted? ==>
              && out.0.wish in Catalog
              && out.1.lastWishText == Some(out.0.wish)
              && out.0.streak == out.1.streak
              && out.0.total == out.1.totalWishes
    // a grant counts exactly one more wish and moves both dates to today
    ensures out.0.Granted? ==>
              && out.1.totalWishes == r.totalWishes + 1
              && out.1.lastWishDate == Some(today)
              && out.1.lastStreakDate == Some(today)
    // the streak continues only from an anchor of exactly yesterday
    ensures out.0.Granted? && r.lastStreakDate == Some(today - 1) ==> out.1.streak == r.streak + 1
    ensures out.0.Granted? && r.lastStreakDate != Some(today - 1) ==> out.1.streak == 1
  {
    if !Eligible(r, today, isOwner) then
      (Denied(r.lastWishText), r)
    else
      var wish := Pick(i);
      var streak := NextStreak(r.lastStreakDate, r.streak, today);
      var r' := Record(Some(today), Some(wish), Some(today), streak, r.totalWishes + 1);
      (Granted(wish, r'.streak, r'.totalWishes), r')
  }

  /** The owner is granted on every request, whatever the stored date. */
  lemma OwnerAlwaysGranted(r: Record, today: int, i: WishIndex)
    ensures Step(r, today, true, i).0.Granted?
  {
  }

  /** A step keeps the reachable-state invariant: a grant adds one to the
      total and at most one to the streak. */
  lemma StepConsistent(r: Record, today: int, isOwner: bool, i: WishIndex)
    requires Consistent(r)
    ensures Consistent(Step(r, today, isOwner, i).1)
  {
  }

  /** The total never decreases, whatever is decided. */
  lemma TotalMonotone(r: Record, today: int, isOwner: bool, i: WishIndex)
    ensures r.totalWishes <= Step(r, today, isOwner, i).1.totalWishes <= r.totalWishes + 1
  {
  }

  /** Two presses by a non-owner on the same day: the second is refused,
      leaves the record as the first saved it and repeats the wish the first
      one gave (or showed). */
  lemma SameDayRepeat(r: Record, today: int, i: WishIndex, j: WishIndex)
    ensures var (d1, r1) := Step(r, today, false, i);
            var (d2, r2) := Step(r1, today, false, j);
            && d2.Denied?
            && r2 == r1
            && (d1.Granted? ==> d2.shown == Some(d1.wish))
            && (d1.Denied? ==> d2 == d1)
  {
  }

  /** Refusal is idempotent: pressing again with the same inputs after a
      refusal gives the identical answer and record. */
  lemma DeniedIdempotent(r: Record, today: int, isOwner: bool, i: WishIndex, j: WishIndex)
    requires Step(r, today, isOwner, i).0.Denied?
    ensures Step(Step(r, today, isOwner, i).1, today, isOwner, j) == Step(r, today, isOwner, i)
  {
  }

  /** The owner pressing twice on one day is granted twice, counts two
      wishes, and the second grant restarts the streak at one because the
      anchor is today rather than yesterday. */
  lemma OwnerSameDayRepeat(r: Record, today: int, i: WishIndex, j: WishIndex)
    ensures var (d1, r1) := Step(r, today, true, i);
            var (d2, r2) := Step(r1, today, true, j);
            && d1.Granted? && d2.Granted?
            && r2.totalWishes == r.totalWishes + 2
            && r2.streak == 1
  {
  }

}
