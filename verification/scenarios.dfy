/** Worked examples of the daily-wish rules on concrete days (day numbers
    stand for calendar dates: day 10 is the first press). */
module Scenarios {

  import opened Wrappers
  import opened UserRecord
  import opened Engine

  /** A new user pressing on days 10, 11, 13 and again on 13: granted with
      streak 1 and total 1, then streak 2 and total 2, then (after a
      two-day gap) streak 1 and total 3, then refused with the day-13 wish
      and nothing changed. */
  lemma NewUserWeek(i1: Wishes.WishIndex, i2: Wishes.WishIndex, i3: Wishes.WishIndex, i4: Wishes.WishIndex)
    ensures var (d1, r1) := Step(Default(), 10, false, i1);
            var (d2, r2) := Step(r1, 11, false, i2);
            var (d3, r3) := Step(r2, 13, false, i3);
            var (d4, r4) := Step(r3, 13, false, i4);
            && d1.Granted? && d1.streak == 1 && d1.total == 1 && r1.lastStreakDate == Some(10)
            && d2.Granted? && d2.streak == 2 && d2.total == 2
            && d3.Granted? && d3.streak == 1 && d3.total == 3
            && d4 == Denied(Some(d3.wish)) && r4 == r3
  {
  }

}
