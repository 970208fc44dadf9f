# Shift scheduling core, in Dafny

This project models the weekly shift scheduler of a small Flask and SQLite staff-management app.

The centre is `solve_shift_schedule`. It creates one boolean per (employee, day, slot) cell and posts four families of hard constraints:

- unavailable cells are 0;
- each (day, slot) is staffed by exactly its required number of employees;
- each employee stays within a weekly cap;
- each employee works at most one slot per day.

It accepts any feasible assignment, then reads the switched-on cells back employee-major, then by day, then by slot. When nothing is feasible it returns None.

Around the solver, the model covers the pure rules of the web handlers:

- how `generate_schedule` assembles the solver's arguments, when it refuses, and how it replaces a week's stored shifts;
- the two display sorts;
- the week-start arithmetic of `get_week_dates`;
- the next-worker-id rule.

Modules:

- `Lists`: sequence helpers. These are `IndexOf` (Python's `list.index`), `Chosen` (filter by a set) and distinctness.
- `ShiftGrid`: the grid of cells, in the order the triple loop creates them, and that order as a relation.
- `ShiftConstraints`: the problem, the missing-key conditions, the four constraint families as predicates, and `Valid`.
- `ShiftSearch`: a backtracking search over the grid that stands in for the CP-SAT solver. It is proved sound and complete.
- `Scheduler`: extraction, the properties of the returned list, and `SolveShiftSchedule` with its grid-building loops.
- `ScheduleGeneration`: `generate_schedule`.
- `RowOrdering`: the sorts of `view_constraints_api` and `view_schedule_api`.
- `WeekDates`: `get_week_dates`.
- `WorkerIds`: the next worker id.

Conventions:

- An assignment of the solver's variables is the set of cells set to 1.
- CP-SAT's `solver.Solve` is replaced by a search. The search tries 1 before 0 for each cell in creation order, and prunes a branch once it breaks an exclusion or an upper bound. Which solution CP-SAT would pick is unknowable, so the contracts depend only on the facts that hold for any solver:
  - the result is None exactly when no valid assignment exists;
  - otherwise the result is the ordered read-back of some valid assignment.
- Python's `sum` over a list counts repeated list positions, and `Hits` counts them the same way.
- The statements about the returned list itself require that the employee, day and slot lists have no repeats (`DistinctLists`). Those statements cover headcounts, order and absence of duplicates. The app's day list is fixed and has no repeats. Worker ids and shift-type names can repeat, because `workers.worker_id` (app.py:84) and `shift_types.name` (app.py:146) carry no UNIQUE constraint. With a repeated worker id or slot name, the list-level promises (`MeetsSchedule`) are not claimed. `Valid` and `Hits` still count list positions as Python's `sum` does, so `Solve` keeps its None-exactly-when-infeasible contract.
- Dates are proleptic Gregorian ordinals, as in Python's `date.toordinal`. Worker ids, day names and slot names are strings.

Three facts about the source that a reader might not expect:

- `solve_shift_schedule` accepts an empty roster. It then returns None when some slot needs staff, or `[]` when no slot does. `generate_schedule` rejects an empty roster before calling it (app.py:951-953).
- Extraction is employee-major, then by day, then by slot (scheduler.py:36-42). `Extract` and `ExtractOrdered` state that order.
- The comment at app.py:977 calls the cap of 20 soft, but scheduler.py:24 posts it as a hard `<=` constraint. `WithinCaps` models it as hard.

## Model

| member | source | states |
|---|---|---|
| Scheduler.BuildGrid | scheduler.py:8-11 | The triple loop yields every (employee, day, slot) cell once, employee-major, in input-list order. |
| ShiftGrid.GridMembers | scheduler.py:8-11 | A triple is a grid cell exactly when its employee, day and slot are in their lists. |
| ShiftGrid.GridOrdered | scheduler.py:8-11 | With repeat-free input lists, the grid is strictly ordered employee, then day, then slot, and has no duplicate cell. |
| ShiftConstraints.RepeatedExclusionsSame | scheduler.py:14-15 | Unavailability depends only on which triples are listed. Listing one several times changes neither validity nor the missing-key condition. |
| ShiftConstraints.ConsistentBelowValid | scheduler.py:18-29 | Any subset of a valid assignment already meets every exclusion and upper bound. So a partial assignment that breaks one can never be completed. |
| ShiftConstraints.TooFewEligibleInfeasible | scheduler.py:14-20 | A slot whose non-unavailable employees are fewer than its required coverage makes the model infeasible. |
| ShiftConstraints.ZeroCapsInfeasible | scheduler.py:18-24 | If every cap is at most 0 and some slot needs staff, the model is infeasible. |
| ShiftSearch.Search | scheduler.py:32-35 | Any assignment the search returns is valid and keeps every cell already switched on. |
| ShiftSearch.SearchComplete | scheduler.py:32-35 | If some valid assignment agrees with the decisions taken so far, the search finds an assignment. |
| ShiftSearch.FindAssignment | scheduler.py:32-35 | The search returns a valid assignment, and returns None exactly when no valid assignment exists. |
| ShiftSearch.FindAssignmentIgnoresRepeats | scheduler.py:14-15 | Duplicated unavailable entries leave the search's answer unchanged. |
| Scheduler.ExtractMembers | scheduler.py:36-42 | The returned triples are exactly the switched-on grid cells. |
| Scheduler.ExtractOrdered | scheduler.py:36-42 | With repeat-free lists, the returned triples are ordered employee, day, slot and contain no repeat. |
| Scheduler.ExtractTallies | scheduler.py:18-29 | With repeat-free lists, counting returned rows per (day, slot), per employee, and per (employee, day) gives the constraint sums. |
| Scheduler.ValidIffMeetsSchedule | scheduler.py:13-42 | With repeat-free lists, an assignment is valid exactly when its returned list meets five conditions: it avoids unavailable cells, has exact headcounts, keeps within caps, gives one slot per employee per day, and is ordered and repeat-free. |
| Scheduler.Solve | scheduler.py:33-44 | None exactly when no assignment satisfies the four families. Otherwise the read-back of a valid assignment, which with repeat-free lists meets every list-level promise. |
| Scheduler.SolveIgnoresRepeats | scheduler.py:14-15 | Repeated unavailable triples give the same result as single ones. |
| Scheduler.SolveFailsWhenUnderstaffed | scheduler.py:14-44 | A slot with fewer available employees than required makes the result None. |
| Scheduler.SolveFailsWithZeroCaps | scheduler.py:18-44 | Caps of 0 for all employees, with some positive coverage, make the result None. |
| Scheduler.SolveShiftSchedule | scheduler.py:3-44 | Needs the three key lookups to succeed. Equals `Solve`, so it is None exactly when infeasible. Its rows lie in the grid, avoid unavailable cells, and with repeat-free lists meet every list-level promise. |
| ScheduleGeneration.TimeSlotsFrom | app.py:958-962 | With a missing `shift_types` table or no rows, the four default slots in fixed order. Otherwise the names in query order. Never empty. |
| ScheduleGeneration.CoverageFor | app.py:973-975 | One entry per (day, slot) of days × slots and no other. The value is 2 for morning and noon and 1 otherwise. |
| ScheduleGeneration.CapsFor | app.py:977-978 | One entry per employee and no other, each 20. |
| ScheduleGeneration.AssembledMapsComplete | app.py:955-980 | The assembled coverage and caps never miss a key. So the solver's lookups fail only for a constraint row outside the grid, and every slot needs at least one employee. |
| ScheduleGeneration.SolutionsNonEmpty | app.py:980-983 | Any solution of the assembled problem yields a non-empty list. So `if not schedule` rejects exactly the None result. |
| ScheduleGeneration.GenerateSchedule | app.py:934-997 | The reply is one of the following. A missing company id: nothing changes. No workers: no solve happens and nothing changes. A constraint outside the grid: a KeyError crash, nothing changes. An infeasible problem: rejection before any deletion, nothing changes. Otherwise the solver's list, with the week's rows deleted and one row inserted per triple in order. |
| ScheduleGeneration.DeleteWeekRemovesWeek | app.py:986 | After the delete, no row of that week and company remains. The kept rows are the table minus the week's rows, counted with repetitions. |
| ScheduleGeneration.ReplacementStoresSchedule | app.py:986-993 | After delete and insert, the week's rows are exactly the new schedule in solver order. As a multiset, the table is the old table minus the week's rows plus the new rows. |
| ScheduleGeneration.SolveAssembled | app.py:973-980 | Building the coverage and caps and calling the solver gives `Solve` of the assembled problem. |
| ScheduleGeneration.ReplaceWeek | app.py:986-993 | The delete-then-insert loop leaves the table without the week's rows, followed by one row per schedule triple in schedule order. |
| RowOrdering.SortByCorrect | app.py:863 | The sort returns a permutation of its input in non-decreasing key order, and keeps rows with equal keys in input order, as Python's `sorted` does. |
| RowOrdering.LabelIndex | app.py:858-860 | The label's list position when it is listed, otherwise 999. |
| RowOrdering.ViewConstraintsOrder | app.py:855-863 | A permutation of the rows, sorted by (day index, slot index, name) with 999 for unknown labels, stable on equal keys. |
| RowOrdering.UnknownLabelsLast | app.py:858-863 | Rows with an unknown day come after all rows with a known day. Within one day label, rows with an unknown slot come after rows with a known slot. |
| RowOrdering.ViewScheduleOrder | app.py:928-930 | None (a ValueError from `.index`) exactly when some row has an unknown day or slot. Otherwise a permutation sorted by (day index, slot index), stable on equal keys. |
| WeekDates.SundayOffset | app.py:308 | The offset `(weekday + 1) % 7` lies in 0..6, is 0 exactly on a Sunday, and always lands on a Sunday. |
| WeekDates.WeekStart | app.py:306-310 | The start is a Sunday. For the current week it is on or before today and less than 7 days back. For "next" it lies 1 to 7 days after today. |
| WeekDates.CurrentWeekStartUnique | app.py:308 | The current week's start is the only Sunday among the 7 days ending today. |
| WeekDates.NextWeekFollows | app.py:309-310 | "next" starts exactly 7 days after the current week. |
| WeekDates.WeekDays | app.py:311 | Seven consecutive dates from the week's start. |
| WeekDates.WeekRunsSundayToSaturday | app.py:306-311 | The seven dates fall on Sunday through Saturday, and the current week contains today. |
| WorkerIds.MaxOf | app.py:354 | SQLite's MAX: None over no values, otherwise a listed value that no other exceeds. |
| WorkerIds.NextWorkerId | app.py:354-355 | Greater than every existing id. It is 10 when there are none, and otherwise one more than a listed id. |
| WorkerIds.NextWorkerIdFresh | app.py:483-484 | The new id is unused. When it fits in 64 bits, storing it and casting it back makes the following id one larger. When the largest id is already 9223372036854775807, the stored text saturates and the same id is handed out again. |
| WorkerIds.StoredIdRoundTrip | app.py:355 | The decimal string `str` makes of a number reads back under SQLite's integer cast as that number when it fits in 64 bits, and as the nearer 64-bit bound otherwise. |

## Left out

- The CP-SAT solver itself (scheduler.py:1, 32-33) is replaced by the verified backtracking search. Which of several solutions CP-SAT returns is not modelled. Neither are the UNKNOWN and MODEL_INVALID statuses, time limits, and parallel search (a timeout would make the real function return None for a feasible model).
- `Scheduler.SolveShiftSchedule`: its requires clauses stand for the KeyError that missing keys raise, which the function does not catch. `ScheduleGeneration.GenerateSchedule` models the only one that can occur there, a constraint row outside the grid, as the `Crashed` reply.
- Flask routing, request and session reading, `get_company_id_from_request`, JSON bodies and status codes are left out. The handlers receive their query results and the shifts table as values. The company id is "" when missing, and the `week` argument is a string.
- SQLite I/O is left out. That covers connections, migrations, the workers, messages and attendance handlers, the joins that produce the rows, and commit atomicity. The shifts table is a list of rows.
- `RowOrdering.ViewConstraintsOrder`: it does not model SQLite's `NULL` names, for which Python's tuple comparison would raise. Names are always strings.
- `WorkerIds.NextWorkerId`: the input is the list of values SQLite's `CAST(worker_id AS INTEGER)` yields. How SQLite casts a non-numeric text to 0 is not modelled.
- `WeekDates.WeekStart`: it does not model the OverflowError Python raises for dates before 1 January of year 1 or after 9999-12-31. `datetime.now()` becomes the `today` parameter.
- `WeekDates.WeekDays` returns ordinals. The `strftime('%d/%m')` formatting is left out.
- `export_schedule` (spreadsheet generation through pandas and openpyxl), project.py, and the login and registration password checks are not part of this model.
- The company-id fallback of `register_manager` (app.py:349-351) is not part of this model.
