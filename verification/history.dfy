/** Histories of button presses by one user, and what they imply about the
    saved record: the reachable-state invariant; for a user starting from the
    new-user record, the total as the number of grants and the streak as the
    length of the final run of consecutive grant days; and, for a user who is
    not the owner and a clock that never goes back, at most one grant per
    day. */
module History {

  import opened Wrappers
  import opened Wishes
  import opened UserRecord
  import opened Engine

  /** One button press: the day it happened, whether the presser is the
      owner, and the catalog index the random draw would pick. */
  datatype Event = Event(today: int, isOwner: bool, pick: WishIndex)

  function Last(evs: seq<Event>): Event
    requires |evs| > 0
  {
    evs[|evs| - 1]
  }

  function Prefix(evs: seq<Event>): seq<Event>
    requires |evs| > 0
  {
    evs[..|evs| - 1]
  }

  /** The record after all presses of `evs`, in order, starting from `r`. */
  function Run(r: Record, evs: seq<Event>): Record
    decreases |evs|
  {
    if |evs| == 0 then r
    else
      var e := Last(evs);
      Step(Run(r, Prefix(evs)), e.today, e.isOwner, e.pick).1
  }

  /** Whether the last press of a non-empty history is granted. */
  predicate LastGranted(r: Record, evs: seq<Event>)
    requires |evs| > 0
  {
    var e := Last(evs);
    Step(Run(r, Prefix(evs)), e.today, e.isOwner, e.pick).0.Granted?
  }

  /** The days of the granted presses of `evs`, in order. */
  function GrantDays(r: Record, evs: seq<Event>): seq<int>
    decreases |evs|
  {
    if |evs| == 0 then []
    else GrantDays(r, Prefix(evs)) + (if LastGranted(r, evs) then [Last(evs).today] else [])
  }

  /** `days[start..]` is a run of consecutive calendar days. */
  ghost predicate ConsecutiveFrom(days: seq<int>, start: nat)
  {
    forall k :: start < k < |days| ==> days[k] == days[k - 1] + 1
  }

  /** `k` is the length of the longest run of consecutive days at the end
      of `days`: the last `k` days are consecutive and the one before them,
      if any, does not lead into them. */
  ghost predicate IsTrailingRun(days: seq<int>, k: nat)
  {
    && 1 <= k <= |days|
    && ConsecutiveFrom(days, |days| - k)
    && (k < |days| ==> days[|days| - k] != days[|days| - k - 1] + 1)
  }

  ghost predicate NonDecreasingDays(evs: seq<Event>)
  {
    forall a, b :: 0 <= a < b < |evs| ==> evs[a].today <= evs[b].today
  }

  ghost predicate NoOwner(evs: seq<Event>)
  {
    forall a :: 0 <= a < |evs| ==> !evs[a].isOwner
  }

  ghost predicate StrictlyIncreasing(days: seq<int>)
  {
    forall a, b :: 0 <= a < b < |days| ==> days[a] < days[b]
  }

  /** Every history keeps the reachable-state invariant. */
  lemma {:induction false} RunConsistent(r: Record, evs: seq<Event>)
    requires Consistent(r)
    ensures Consistent(Run(r, evs))
    decreases |evs|
  {
    if |evs| > 0 {
      var e := Last(evs);
      RunConsistent(r, Prefix(evs));
      StepConsistent(Run(r, Prefix(evs)), e.today, e.isOwner, e.pick);
    }
  }

  /** Starting from a new user's record, the total is the number of grants,
      and after the first grant both saved dates are the day of the latest
      grant; before it the record is still the default. */
  lemma {:induction false} RunSummary(evs: seq<Event>)
    ensures var r := Run(Default(), evs);
            var g := GrantDays(Default(), evs);
            && r.totalWishes == |g|
            && (|g| == 0 ==> r == Default())
            && (|g| > 0 ==> r.lastWishDate == Some(g[|g| - 1]) && r.lastStreakDate == Some(g[|g| - 1]))
    decreases |evs|
  {
    if |evs| > 0 {
      RunSummary(Prefix(evs));
    }
  }

  /** Starting from a new user's record, the streak is zero before the
      first grant and afterwards the length of the final run of grants on
      consecutive days. */
  lemma {:induction false} StreakIsTrailingRun(evs: seq<Event>)
    ensures var r := Run(Default(), evs);
            var g := GrantDays(Default(), evs);
            (|g| == 0 && r.streak == 0) || (|g| > 0 && IsTrailingRun(g, r.streak))
    decreases |evs|
  {
    if |evs| > 0 {
      var e := Last(evs);
      var pre := Prefix(evs);
      var r0 := Run(Default(), pre);
      var g0 := GrantDays(Default(), pre);
      var st := Step(r0, e.today, e.isOwner, e.pick);
      assert Run(Default(), evs) == st.1;
      StreakIsTrailingRun(pre);
      RunSummary(pre);
      if st.0.Granted? {
        assert GrantDays(Default(), evs) == g0 + [e.today];
        if |g0| > 0 && g0[|g0| - 1] == e.today - 1 {
          assert st.1.streak == r0.streak + 1;
          TrailingRunExtend(g0, r0.streak, e.today);
        } else {
          assert st.1.streak == 1;
          TrailingRunRestart(g0, e.today);
        }
      } else {
        assert GrantDays(Default(), evs) == g0;
      }
    }
  }

  /** A grant on the day after the last grant day lengthens the final run
      by one. */
  lemma TrailingRunExtend(days: seq<int>, k: nat, today: int)
    requires IsTrailingRun(days, k)
    requires days[|days| - 1] == today - 1
    ensures IsTrailingRun(days + [today], k + 1)
  {
    var g := days + [today];
    forall m | |g| - (k + 1) < m < |g|
      ensures g[m] == g[m - 1] + 1
    {
      if m < |g| - 1 {
        assert g[m] == days[m] && g[m - 1] == days[m - 1];
      }
    }
    if k + 1 < |g| {
      assert g[|g| - (k + 1)] == days[|days| - k];
      assert g[|g| - (k + 1) - 1] == days[|days| - k - 1];
    }
  }

  /** A first grant, or one that does not follow the last grant day,
      starts a final run of length one. */
  lemma TrailingRunRestart(days: seq<int>, today: int)
    requires |days| == 0 || days[|days| - 1] != today - 1
    ensures IsTrailingRun(days + [today], 1)
  {
    var g := days + [today];
    if |g| > 1 {
      assert g[|g| - 2] == days[|days| - 1];
    }
  }

  /** In a non-empty history whose days never go backwards, every grant
      falls on or before the day of the last press. */
  lemma {:induction false} GrantDaysBounded(evs: seq<Event>)
    requires |evs| > 0
    requires NonDecreasingDays(evs)
    ensures forall m :: 0 <= m < |GrantDays(Default(), evs)| ==> GrantDays(Default(), evs)[m] <= Last(evs).today
    decreases |evs|
  {
    var pre := Prefix(evs);
    var g0 := GrantDays(Default(), pre);
    var g := GrantDays(Default(), evs);
    if |pre| > 0 {
      GrantDaysBounded(pre);
      assert Last(pre).today <= Last(evs).today;
    } else {
      assert g0 == [];
    }
    forall m | 0 <= m < |g|
      ensures g[m] <= Last(evs).today
    {
      if m < |g0| {
        assert g[m] == g0[m];
      }
    }
  }

  /** Without the owner exemption, and with a clock that never goes
      backwards, grants fall on strictly increasing days: at most one grant
      per calendar day. */
  lemma {:induction false} AtMostOneGrantPerDay(evs: seq<Event>)
    requires NonDecreasingDays(evs)
    requires NoOwner(evs)
    ensures StrictlyIncreasing(GrantDays(Default(), evs))
    decreases |evs|
  {
    if |evs| > 0 {
      var e := Last(evs);
      var pre := Prefix(evs);
      var g0 := GrantDays(Default(), pre);
      assert NonDecreasingDays(pre) && NoOwner(pre);
      AtMostOneGrantPerDay(pre);
      if LastGranted(Default(), evs) && |g0| > 0 {
        var g := g0 + [e.today];
        assert GrantDays(Default(), evs) == g;
        RunSummary(pre);
        GrantDaysBounded(pre);
        assert Last(pre).today <= e.today;
        assert !e.isOwner;
        assert g0[|g0| - 1] < e.today;
        forall a, b | 0 <= a < b < |g|
          ensures g[a] < g[b]
        {
          if b == |g| - 1 {
            assert g[a] == g0[a];
            if a < |g0| - 1 {
              assert g0[a] < g0[|g0| - 1];
            }
          } else {
            assert g[a] == g0[a] && g[b] == g0[b];
          }
        }
      }
    }
  }

  /** The once-per-day rule compares only with the latest wish date, so a
      clock that goes back a day lets a non-owner receive two wishes on the
      same day: presses on days 5, 4 and 5 are all granted. */
  lemma ClockRegressionAllowsRepeat()
    ensures GrantDays(Default(), [Event(5, false, 0), Event(4, false, 0), Event(5, false, 0)]) == [5, 4, 5]
  {
    var evs := [Event(5, false, 0), Event(4, false, 0), Event(5, false, 0)];
    assert Prefix(evs) == evs[..2];
    assert Prefix(evs[..2]) == evs[..1];
    assert Prefix(evs[..1]) == [];
  }

}
