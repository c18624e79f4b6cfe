# Holiday scheduler: a verified model of the assignment core

The scheduler hands out a year's holidays to employees. It has two parts.

The auto-assign run does four things:

1. It groups the date-ordered holidays into maximal runs of consecutive days. It cuts each run into pairs, and an odd day left over becomes a single.
2. It hands each pair to the employee under a cursor that walks a shuffled order of the employees. Each single goes to an employee drawn from the unshuffled list, and the cursor does not move.
3. It commits the result.
4. It reports every employee's days and a weight. The weight runs from 0 to 3 and shows how far the employee is below the busiest one.

The statistics endpoint re-reads the stored assignments of a year. It counts each employee's days, and credits each run of consecutive assigned days to the holder of its first day, as continuous days (two or more days) or as a single day. It reports these figures with a second weight formula.

The model is written in Dafny, one module per part of the program:

| module | file | what it holds |
|---|---|---|
| `Types` | `types.dfy` | employees, holiday rows, report rows, errors, tallies and their sums |
| `Grouping` | `grouping.dfy` | the grouper as a scan (`GroupHolidays`) proved equal to a reference definition by runs (`Group`) |
| `Rotation` | `rotation.dfy` | the assigner, which works in place on an `array<Holiday>` and is proved against the functions `Assignment` and `Counts` |
| `Fairness` | `fairness.dfy` | half-even rounding, both weight formulas, the stable sort by count |
| `Scheduler` | `scheduler.dfy` | the auto-assign run end to end, with its report |
| `Stats` | `stats.dfy` | the statistics pass as a loop, its meaning (`TalliesOf`), the statistics report and the endpoint |

How the program's behaviour is represented:

- **Dates.** A date is a day number, because only differences of dates are ever used.
- **Randomness.** The random choices of a run are inputs, gathered in a `Roster`:
  - the shuffled order is a permutation of the employee list;
  - the j-th single goes to `employees[draws[j] mod |employees|]`.
- **Commit.** The store's answer to the commit is a boolean input. When the store refuses, the holidays are restored as they were.
- **Rounding.** Both weights use exact rational arithmetic with ties going to the even integer, which is the rounding rule of Python's `round`.

The statistics pass finds runs by date adjacency alone (app/main.py:482); it does not check that one employee holds the whole run:

- a run of two or more assigned days credits its whole length, as continuous days, to the holder of its first day;
- a run of one day credits one single day to its holder.

`Stats.MixedRunCreditsFirst` shows the result on a two-day run held by two employees. The first holder gets two continuous days. The second holder has one day in their total and none in their continuous or single days.

A holiday counts as assigned only when its employee id is set and not 0, because the code tests the id for truth. A stored holiday whose employee is not on the list makes the code fail on a missing dictionary key. The model returns `Err(UnknownEmployee(id))` for the first such holiday.

## Model

| member | source | states |
|---|---|---|
| Grouping.RunEnd | app/main.py:358-363 | the run starting at i ends at the first position whose date is not the day after its predecessor's, or at the end of the list |
| Grouping.SplitRun | app/main.py:366-372 | cutting a run of N days gives pairs and singles covering exactly N days, the single (if any) being the run's last day |
| Grouping.SplitRunShape | app/main.py:366-372 | a run of N days gives N / 2 pairs, and one single, its last day, exactly when N is odd |
| Grouping.Flush | app/main.py:366-374 | the flushing loop appends exactly the pairs and single of the run [start, end) to what was already grouped |
| Grouping.GroupHolidays | app/main.py:353-385 | the scan, including the final flush, yields exactly the reference grouping `Group` (runs cut into pairs) |
| Grouping.CloseRun | app/main.py:362-375 | where a run ends, the grouping is that run's pieces followed by the grouping of the rest |
| Grouping.GroupIsPartition | app/main.py:353-385 | every holiday lies in exactly one pair or is exactly once a single; nothing is lost, duplicated or out of range |
| Grouping.GroupFromCount | app/main.py:353-385 | each position from i on appears exactly once among the pieces of the grouping from i |
| Grouping.GroupFromLength | app/main.py:353-385 | the grouping from i covers exactly the remaining number of holidays |
| Grouping.SplitRunPairs | app/main.py:368-370 | the k-th pair of a run is its days s + 2k and s + 2k + 1 |
| Grouping.PairsAreNextDays | app/main.py:362-370 | both days of every pair lie in one run, the second the calendar day after the first |
| Grouping.SinglesEndRuns | app/main.py:372-374 | every single is the last day of its run |
| Grouping.PairsInOrder | app/main.py:368-370 | pairs come out in chronological order, none overlapping |
| Grouping.SinglesInOrder | app/main.py:372-385 | singles come out in strictly increasing position |
| Rotation.Advance | app/main.py:400 | the cursor after a pair wraps round and stays below the number of employees |
| Rotation.AdvanceIsNextTurn | app/main.py:388-400 | after k pairs the cursor is k mod E, so the k-th pair goes to rotation[k mod E] |
| Rotation.OwnersAreEmployees | app/main.py:391-407 | every pair and single goes to one of the run's employees (rotation is a permutation of them) |
| Rotation.Give | app/main.py:395-397 | one assignment overwrites that holiday's employee in place and adds one to that employee's count |
| Rotation.AssignPairs | app/main.py:387-400 | the pair loop with its cursor leaves the holidays and counts of the first twice as many slots as pairs handed out |
| Rotation.AssignSingles | app/main.py:402-407 | the single loop completes the assignment and the counts, without a cursor |
| Rotation.AssignGroups | app/main.py:387-407 | the assigner's array and counts end as `Assignment` and `Counts` |
| Rotation.AppliedDates | app/main.py:395-406 | assignment never changes a holiday's date |
| Rotation.AppliedOwners | app/main.py:395-406 | a later assignment never overwrites an earlier one: every handed-out holiday keeps its slot's employee |
| Rotation.AppliedElsewhere | app/main.py:395-406 | a holiday not yet handed out is unchanged |
| Rotation.TallyKeys | app/main.py:351 | the count map has exactly one entry per employee |
| Rotation.TallyOwned | app/main.py:395-407 | after m slots each count is the number of those holidays carrying that employee |
| Rotation.TallyTurns | app/main.py:391-400 | after k pairs an employee's count is twice their rotation turns |
| Rotation.TallyDraws | app/main.py:403-407 | after the pairs and j singles an employee's count is twice their turns plus their draws |
| Rotation.AssignmentOwners | app/main.py:391-407 | both days of the k-th pair carry rotation[k mod E], the j-th single its drawn employee, no date moves |
| Rotation.AssignmentComplete | app/main.py:391-407 | after a run every holiday is assigned to an employee of the run |
| Rotation.CountsAreOwned | app/main.py:395-407 | every employee's count equals the number of holidays they now hold |
| Rotation.CountsAreTurns | app/main.py:391-407 | every employee's count is twice their pair turns plus their single draws |
| Rotation.CountsSum | app/main.py:351-407 | the counts sum to the number of holidays |
| Fairness.RoundHalfEven | app/main.py:430 | the rounded quotient is within half a step of n / d, ties going to the even integer |
| Fairness.RoundUnique | app/main.py:430 | that rounding is the only integer with those two properties |
| Fairness.RoundMonotone | app/main.py:430 | rounding never reverses the order of two quotients |
| Fairness.RoundExact | app/main.py:430 | a whole number rounds to itself |
| Fairness.LiveWeight | app/main.py:425-430 | the live weight is 0 for everyone when all counts are equal and 0 for the busiest employee |
| Fairness.LiveWeightBounds | app/main.py:418-430 | the live weight lies in 0..3, is 0 for the busiest employee and 3 for the least busy when counts differ |
| Fairness.LiveWeightMonotone | app/main.py:425-430 | more days never gives a larger live weight |
| Fairness.StatsWeight | app/main.py:510-513 | the statistics weight is half the distance below the busiest, to the nearest integer, an odd distance going to the even neighbour |
| Fairness.StatsWeightZero | app/main.py:509-513 | the statistics weight is never negative and is 0 exactly when the employee is at most one day below the busiest |
| Fairness.StatsWeightTie | app/main.py:511 | a half-day distance rounds to even (2.5 to 2, 1.5 to 2, 0.5 to 0) |
| Fairness.MaxLoad | app/main.py:509 | the maximum is an upper bound of every count and is attained; 0 with no employees |
| Fairness.Insert | app/main.py:413-417 | inserting into a list sorted by descending count keeps it sorted and adds exactly that employee |
| Fairness.SortByLoad | app/main.py:413-417 | the sorted list is in descending count order and a permutation of the input |
| Fairness.InsertStable | app/main.py:413-417 | insertion puts the new employee before those of its own count |
| Fairness.SortStable | app/main.py:413-417 | employees with equal counts keep their input order |
| Scheduler.LiveReport | app/main.py:432-447 | the order lists the shuffled names and there is one row per employee |
| Scheduler.LiveReportShape | app/main.py:413-447 | rows are a permutation of the employees by non-increasing total; weights in 0..3, 0 first and 3 last when totals differ |
| Scheduler.LiveReportStable | app/main.py:413-417 | rows with equal totals keep the shuffled order |
| Scheduler.PairDaysOf | app/main.py:441 | an employee's pair days are even, at most two per pair, and 0 exactly when no pair's first day carries the employee |
| Scheduler.SingleDaysOf | app/main.py:442 | an employee's single days are at most one per single, and 0 exactly when no single carries the employee |
| Scheduler.PairDaysAssigned | app/main.py:441 | after a run an employee's continuous days are twice their rotation turns |
| Scheduler.SingleDaysAssigned | app/main.py:442 | after a run an employee's single days are their draws |
| Scheduler.LiveReportAddsUp | app/main.py:436-445 | in every row the continuous days are twice the turns, single days the draws, and their sum the total |
| Scheduler.AutoAssign | app/main.py:337-456 | no employees or no holidays fails with nothing changed; a refused commit restores the holidays; otherwise the holidays become the assignment of the grouping and the report is that of the counts |
| Stats.IsAssigned | app/main.py:479 | a holiday counts when its employee id is truthy: not when it is unset or 0, always otherwise |
| Stats.Joins | app/main.py:482 | a holiday joins an empty group, and a non-empty one exactly when its date is the day after the group's last |
| Stats.Close | app/main.py:486-501 | closing a group of two or more days adds its length to its first holder's continuous days, a group of one day adds one single day to its holder, and nobody else's credits change |
| Stats.AssignedUpTo | app/main.py:479 | only holidays carrying a non-zero employee id are counted |
| Stats.FirstUnknown | app/main.py:479-480 | finds the first assigned holiday whose employee is not listed, or none |
| Stats.FirstUnknownAt | app/main.py:479-480 | an unlisted employee met after only listed ones is the first such |
| Stats.OpenGroupTail | app/main.py:482-492 | the open group is always a contiguous stretch of the assigned holidays ending at the last one seen |
| Stats.OpenGroupRun | app/main.py:482-483 | the open group lies inside a single run of consecutive days |
| Stats.CloseAt | app/main.py:484-492 | a holiday that does not join closes a group that is a whole run |
| Stats.TotalAfterHeld | app/main.py:479-480 | the held-day tally counts, per listed employee, the assigned holidays that name them |
| Stats.CloseRunCredits | app/main.py:486-491 | closing a whole run adds its credits and keeps the rest settled |
| Stats.CreditsClose | app/main.py:484-492 | a holiday that starts a new group settles the closed group's run |
| Stats.CreditsKeep | app/main.py:479-483 | a holiday that is unassigned or joins the open group leaves the credits and the group's start as they were |
| Stats.CreditsAfterRuns | app/main.py:478-492 | the credits so far are those of the runs before the open group |
| Stats.FinishSettled | app/main.py:494-501 | closing the last group settles every run |
| Stats.SumsAfter | app/main.py:478-492 | held days sum to the assigned holidays seen; credits plus the open group too |
| Stats.PassMeaning | app/main.py:472-501 | the pass's three tallies are `TalliesOf`: held days, and the run credits of the adjacency grouping |
| Stats.StatsConserve | app/main.py:472-501 | summed over the employees, both total days and continuous plus single days equal the number of assigned holidays |
| Stats.CloseGroup | app/main.py:486-491 | closing a group credits its length as continuous days to its first holder when it has two or more days, and otherwise one single day to its holder, as `Close` states |
| Stats.CountStats | app/main.py:472-501 | the pass fails exactly when some assigned holiday names an unlisted employee (reporting the first one), and otherwise returns `TalliesOf` |
| Stats.StatsReport | app/main.py:515-529 | one row per employee and the order names the rows' employees |
| Stats.StatsReportShape | app/main.py:504-529 | rows are a permutation of the employees by non-increasing total; every weight is at least 0 and is 0 exactly at most one day below the busiest |
| Stats.StatsReportStable | app/main.py:504-508 | employees with equal totals keep the order of the employee list |
| Stats.StatsReportEmpty | app/main.py:509 | with no employees the maximum is 0 and the report is empty |
| Stats.AssignmentStats | app/main.py:458-529 | the endpoint fails on the first unlisted employee and otherwise reports the pass's tallies |
| Stats.MixedRunCreditsFirst | app/main.py:482-488 | a run held by two employees credits all its days to the first, none to the second |

## Left out

- Persistence, HTTP routing, templates and the year filter of the queries: the holidays come in already restricted to the year and sorted by date.
- The CSV import, employee and holiday editing, and the colour generator: these are outside the assignment core.
- The uniformity of `random.shuffle` and `random.choice`: their outcomes are inputs.
- The rewriting of the 400 errors into 500 errors by the run's exception handler: the model keeps the failure reason.
- The " → " joining of the names in the report's order: the model keeps the list of names.
- Floating-point arithmetic in the weights: weights use exact rationals. The statistics weight is exact anyway, and the live weight could differ from Python's only at ties that the float quotient misses.
- The employee colour in the report rows: it is display data.
- Scheduler.AutoAssign: requires distinct employee ids, the rotation to be a permutation of the employees, and enough draws, all of which the database and the random calls guarantee.
- Scheduler.AutoAssign: the commit is a single yes/no answer; a failure after a partial write is not modelled.
- app/schemas.py is not part of this model.
