/** The per-user record the bot keeps in its JSON store, with calendar dates
    as integer day numbers. */
module UserRecord {

  import opened Wrappers
  import Wishes

  /** One user's entry: the day and text of the latest wish, the day the
      streak was last extended or restarted, the streak length and the number
      of wishes ever received. */
  datatype Record = Record(
    lastWishDate: Option<int>,
    lastWishText: Option<string>,
    lastStreakDate: Option<int>,
    streak: nat,
    totalWishes: nat
  )

  /** The record `get_user` creates for a user seen for the first time. */
  function Default(): (r: Record)
    ensures r.lastWishDate.None? && r.lastWishText.None? && r.lastStreakDate.None?
    ensures r.streak == 0 && r.totalWishes == 0
  {
    Record(None, None, None, 0, 0)
  }

  /** What every record reachable from the default one satisfies: the streak
      never exceeds the total; a user with no wish yet still has the default
      record; a user with at least one wish has a streak of at least one, a
      wish text from the catalog, and the same day as wish date and streak
      anchor. */
  ghost predicate Consistent(r: Record)
  {
    && r.streak <= r.totalWishes
    && (r.totalWishes == 0 ==> r == Default())
    && (r.totalWishes >= 1 ==>
          && r.streak >= 1
          && r.lastWishDate.Some?
          && r.lastWishDate == r.lastStreakDate
          && r.lastWishText.Some?
          && r.lastWishText.value in Wishes.Catalog)
  }

  /** A newly created record already satisfies the invariant. */
  lemma DefaultConsistent()
    ensures Consistent(Default())
  {
  }

}
