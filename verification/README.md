# Daily wish bot — eligibility and streak model

A Dafny model of the core of a chat bot that hands each user one warm
"wish" per calendar day. The user presses a button. If the user already got
a wish today and is not the bot's owner, the bot repeats today's wish.
Otherwise it draws a new wish from a fixed catalog, saves it with today's
date, counts it in the user's total, and updates the streak. The streak
grows by one when the previous streak day was yesterday and restarts at one
otherwise. The owner is exempt from the once-per-day limit.

Calendar dates are integer day numbers. `bot.py` compares ISO date strings
for equality and takes `(now - last_date).days`; on day numbers these are
equality and subtraction. The clock, the random draw and the owner
configuration are inputs: `today`, a catalog index (`WishIndex`) and the
owner id (or the `isOwner` flag of a single step).

Modules:

- `Wrappers` (wrappers.dfy): `Option`, standing for the record's nullable fields.
- `Wishes` (wishes.dfy): the fifteen-entry catalog and the index a grant picks.
- `UserRecord` (record.dfy): the five-field per-user record, the default
  record, and the reachable-state invariant `Consistent`.
- `Engine` (engine.dfy): the decision `Step` and the streak rule `NextStreak`.
- `History` (history.dfy): sequences of presses by one user. Shows that,
  from a new user, the total is the number of grants and the streak is the
  length of the final run of consecutive grant days. Also shows at most one
  grant per day without the owner exemption, for a clock that never goes
  back.
- `Scenarios` (scenarios.dfy): a worked week of presses.
- `Store` (store.dfy): the id-to-record map, `get_user` and the request handler.

## Model

| member | source | states |
|---|---|---|
| Wishes.Pick | bot.py:131 | the wish handed out is one of the catalog's entries |
| Wishes.EveryWishReachable | bot.py:27-43 | every catalog entry is handed out for some draw |
| UserRecord.Default | bot.py:67-74 | a first-seen user has no wish date, no wish text, no streak date, streak 0 and total 0 |
| Engine.NextStreak | bot.py:138-146 | the streak grows by one exactly when the anchor is yesterday; any other anchor, or none, restarts it at 1 |
| Engine.Step | bot.py:109-150 | refused iff a non-owner's wish date is today; a refusal shows the stored wish and saves nothing; a grant gives a catalog wish, adds exactly one to the total, sets both dates to today, and continues the streak only from yesterday |
| Engine.OwnerAlwaysGranted | bot.py:115-118 | the owner is granted whatever the stored date |
| Engine.StepConsistent | bot.py:131-148 | a press keeps streak <= total, streak >= 1 once a wish was granted, and the wish date equal to the streak date |
| Engine.TotalMonotone | bot.py:136 | the total never decreases and grows by at most one per press |
| Engine.SameDayRepeat | bot.py:118-135 | a non-owner's second press on one day is refused, changes nothing, and shows the wish the first press gave |
| Engine.DeniedIdempotent | bot.py:118-127 | after a refusal, the same press again gives the identical answer and record |
| Engine.OwnerSameDayRepeat | bot.py:115-146 | the owner pressing twice on a day is granted twice, counts two wishes, and the second grant restarts the streak at 1 |
| History.RunConsistent | bot.py:131-148 | every sequence of presses from a consistent record ends in a consistent record |
| History.RunSummary | bot.py:134-148 | from a new user, the total equals the number of grants; before the first grant the record is the default; afterwards both dates are the latest grant's day |
| History.StreakIsTrailingRun | bot.py:138-148 | from a new user, the streak is the length of the final run of grants on consecutive days (0 before any grant) |
| History.AtMostOneGrantPerDay | bot.py:117-118 | without the owner and with a clock that never goes back, grant days strictly increase: at most one grant per day |
| History.ClockRegressionAllowsRepeat | bot.py:110-118 | the once-per-day rule looks only at the latest wish date, so presses on days 5, 4, 5 are all granted |
| Scenarios.NewUserWeek | bot.py:109-150 | a new user on days 10, 11, 13 gets streaks 1, 2, 1 and totals 1, 2, 3; a second press on day 13 repeats that day's wish and changes nothing |
| Store.GetUser | bot.py:63-77 | returns the stored record, or adds and returns the default record for a new id; no other record changes |
| Store.Handle | bot.py:107-150 | only the presser's record can change; a new user is always granted with streak 1 and total 1; a refusal hits only a known non-owner and leaves the store as it was; the owner is always granted |
| Store.HandleConsistent | bot.py:63-150 | handling a press keeps every stored record consistent |

## Left out

- The chat framework (`Bot`, `Dispatcher`, handlers, keyboards, `/start`, polling, `asyncio`). It is transport and UI glue.
- Reply text formatting for grants and refusals. It is presentation only. The model's `Decision` carries the values the replies show.
- Reading `BOT_TOKEN` and `OWNER_ID` from the environment. The owner id is a parameter of `Store.Handle`.
- Loading and saving the JSON file, including the save that `get_user` does when it creates a record. The store is a map and "saved" means "in the returned map". A file that is not valid JSON makes `bot.py` raise, and that failure is not modelled.
- `datetime.now()`. The current day is the `today` parameter.
- `random.choice`. The draw is an arbitrary `WishIndex`, so every property holds for every choice.
- User ids are JSON keys written as `str(user_id)`. The model keys the map by the integer id. This is equivalent because the conversion is injective.
- A stored date string that `fromisoformat` cannot parse, or a hand-edited negative streak. `bot.py` only ever writes ISO dates and counts up from 0, so the model has integer days and `nat` counters.
- A "time remaining until midnight" on refusals is not modelled. `bot.py` neither computes nor shows it, and the model follows the code.
