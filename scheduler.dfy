/** `solve_shift_schedule` (scheduler.py): build one variable per grid cell, post the four constraint
    families, search for any satisfying assignment and read the switched-on cells back in creation
    order, or return None. */
module Scheduler {
  import opened Lists
  import opened ShiftGrid
  import opened ShiftConstraints
  import opened ShiftSearch

  /** Lines 36-42: `[(e, d, t) for e in employees for d in days for t in time_slots if X[(e, d, t)] == 1]`. */
  function Extract(p: Problem, on: set<Shift>): seq<Shift> {
    Chosen(Grid(p.employees, p.days, p.timeSlots), on)
  }

  /** What to count in a returned list: the rows of one (day, slot), of one employee, or of one
      employee on one day. */
  datatype Pattern = AtSlot(d: Day, t: Slot) | OfWorker(e: Worker) | OfWorkerOn(e: Worker, d: Day)

  predicate Matches(x: Shift, pat: Pattern) {
    match pat
    case AtSlot(d, t) => x.day == d && x.slot == t
    case OfWorker(e) => x.worker == e
    case OfWorkerOn(e, d) => x.worker == e && x.day == d
  }

  function Select(r: seq<Shift>, pat: Pattern): seq<Shift> {
    if r == [] then []
    else (if Matches(r[0], pat) then [r[0]] else []) + Select(r[1..], pat)
  }

  /** The number of rows of `r` that match `pat`. */
  function Tally(r: seq<Shift>, pat: Pattern): nat {
    |Select(r, pat)|
  }

  lemma {:induction false} SelectMembers(r: seq<Shift>, pat: Pattern)
    ensures forall x :: x in Select(r, pat) <==> x in r && Matches(x, pat)
  {
    if r != [] {
      SelectMembers(r[1..], pat);
      assert forall x :: x in r <==> x == r[0] || x in r[1..];
    }
  }

  lemma {:induction false} SelectDistinct(r: seq<Shift>, pat: Pattern)
    requires Distinct(r)
    ensures Distinct(Select(r, pat))
  {
    if r != [] {
      SelectDistinct(r[1..], pat);
      SelectMembers(r[1..], pat);
      assert r[0] !in r[1..];
      DistinctCons(r[0], Select(r[1..], pat));
    }
  }

  /** No employee, day or slot is listed twice. The app passes fixed day lists and worker ids; with
      a repeated entry Python's own result repeats rows, so list-level statements require this. */
  predicate DistinctLists(p: Problem) {
    Distinct(p.employees) && Distinct(p.days) && Distinct(p.timeSlots)
  }

  /** The promises of the returned list itself: its rows lie in the grid and avoid every unavailable
      triple, each (day, slot) has exactly the required headcount, no employee exceeds a cap or
      works twice on a day, and the rows are in employee, day, slot order without repetition. */
  predicate MeetsSchedule(p: Problem, r: seq<Shift>)
    requires WellFormed(p)
  {
    && (forall x :: x in r ==> InGrid(p.employees, p.days, p.timeSlots, x) && x !in p.unavailable)
    && (forall d, t :: d in p.days && t in p.timeSlots ==> Tally(r, AtSlot(d, t)) == p.coverage[(d, t)])
    && (forall e :: e in p.employees ==> Tally(r, OfWorker(e)) <= p.maxShifts[e])
    && (forall e, d :: e in p.employees && d in p.days ==> Tally(r, OfWorkerOn(e, d)) <= 1)
    && Ordered(p.employees, p.days, p.timeSlots, r)
    && Distinct(r)
  }

  /** The extracted rows are exactly the switched-on grid cells. */
  lemma ExtractMembers(p: Problem, on: set<Shift>)
    ensures forall x :: x in Extract(p, on) <==> x in on && InGrid(p.employees, p.days, p.timeSlots, x)
  {
    ChosenMembers(Grid(p.employees, p.days, p.timeSlots), on);
    GridMembers(p.employees, p.days, p.timeSlots);
  }

  /** The extracted rows follow employee, then day, then slot order and never repeat. */
  lemma ExtractOrdered(p: Problem, on: set<Shift>)
    requires DistinctLists(p)
    ensures Ordered(p.employees, p.days, p.timeSlots, Extract(p, on))
    ensures Distinct(Extract(p, on))
  {
    GridOrdered(p.employees, p.days, p.timeSlots);
    ChosenOrdered(p.employees, p.days, p.timeSlots, Grid(p.employees, p.days, p.timeSlots), on);
    ChosenDistinct(Grid(p.employees, p.days, p.timeSlots), on);
  }

  /** Counting matching rows of the result is counting the switched-on cells of any duplicate-free
      list of the grid cells that match. */
  lemma TallyIsHits(p: Problem, on: set<Shift>, pat: Pattern, cs: seq<Shift>)
    requires DistinctLists(p) && Distinct(cs)
    requires forall x :: x in cs <==> InGrid(p.employees, p.days, p.timeSlots, x) && Matches(x, pat)
    ensures Tally(Extract(p, on), pat) == Hits(on, cs)
  {
    var r := Extract(p, on);
    ExtractMembers(p, on);
    ExtractOrdered(p, on);
    SelectMembers(r, pat);
    SelectDistinct(r, pat);
    ChosenMembers(cs, on);
    ChosenDistinct(cs, on);
    SameElementsSameLength(Select(r, pat), Chosen(cs, on));
  }

  /** Each of the solver's sums equals the number of rows of the result it describes. */
  lemma ExtractTallies(p: Problem, on: set<Shift>)
    requires DistinctLists(p)
    ensures forall d, t :: d in p.days && t in p.timeSlots ==>
      Tally(Extract(p, on), AtSlot(d, t)) == Hits(on, SlotColumn(p.employees, d, t))
    ensures forall e :: e in p.employees ==>
      Tally(Extract(p, on), OfWorker(e)) == Hits(on, WeekSlots(e, p.days, p.timeSlots))
    ensures forall e, d :: e in p.employees && d in p.days ==>
      Tally(Extract(p, on), OfWorkerOn(e, d)) == Hits(on, DaySlots(e, d, p.timeSlots))
  {
    forall d, t | d in p.days && t in p.timeSlots
      ensures Tally(Extract(p, on), AtSlot(d, t)) == Hits(on, SlotColumn(p.employees, d, t))
    {
      SlotColumnMembers(p.employees, d, t);
      SlotColumnDistinct(p.employees, d, t);
      TallyIsHits(p, on, AtSlot(d, t), SlotColumn(p.employees, d, t));
    }
    forall e | e in p.employees
      ensures Tally(Extract(p, on), OfWorker(e)) == Hits(on, WeekSlots(e, p.days, p.timeSlots))
    {
      WeekSlotsMembers(e, p.days, p.timeSlots);
      WeekSlotsDistinct(e, p.days, p.timeSlots);
      TallyIsHits(p, on, OfWorker(e), WeekSlots(e, p.days, p.timeSlots));
    }
    forall e, d | e in p.employees && d in p.days
      ensures Tally(Extract(p, on), OfWorkerOn(e, d)) == Hits(on, DaySlots(e, d, p.timeSlots))
    {
      DaySlotsMembers(e, d, p.timeSlots);
      DaySlotsDistinct(e, d, p.timeSlots);
      TallyIsHits(p, on, OfWorkerOn(e, d), DaySlots(e, d, p.timeSlots));
    }
  }

  /** An assignment of the grid satisfies the model exactly when the list read back from it keeps
      every promise of the returned schedule. */
  lemma ValidIffMeetsSchedule(p: Problem, on: set<Shift>)
    requires WellFormed(p) && DistinctLists(p)
    requires forall x :: x in on ==> InGrid(p.employees, p.days, p.timeSlots, x)
    ensures Valid(p, on) <==> MeetsSchedule(p, Extract(p, on))
  {
    ExtractMembers(p, on);
    ExtractOrdered(p, on);
    ExtractTallies(p, on);
  }

  /** The whole solver as a function of its arguments. */
  function Solve(p: Problem): (r: Option<seq<Shift>>)
    requires WellFormed(p)
    ensures r.None? <==> !Feasible(p)
    ensures r.Some? ==> exists on :: Valid(p, on) && r.value == Extract(p, on)
    ensures r.Some? && DistinctLists(p) ==> MeetsSchedule(p, r.value)
  {
    match FindAssignment(p)
    case None => None
    case Some(on) =>
      SolutionMeetsSchedule(p, on);
      Some(Extract(p, on))
  }

  lemma SolutionMeetsSchedule(p: Problem, on: set<Shift>)
    requires WellFormed(p) && Valid(p, on)
    ensures DistinctLists(p) ==> MeetsSchedule(p, Extract(p, on))
  {
    if DistinctLists(p) {
      ValidIffMeetsSchedule(p, on);
    }
  }

  /** Listing an unavailable triple twice gives the same result as listing it once. */
  lemma SolveIgnoresRepeats(p: Problem, q: Problem)
    requires q == p.(unavailable := q.unavailable)
    requires forall u :: u in p.unavailable <==> u in q.unavailable
    requires WellFormed(p)
    ensures WellFormed(q) && Solve(p) == Solve(q)
  {
    FindAssignmentIgnoresRepeats(p, q);
  }

  /** A slot with fewer available employees than it needs makes the solver return None. */
  lemma SolveFailsWhenUnderstaffed(p: Problem, d: Day, t: Slot)
    requires WellFormed(p) && d in p.days && t in p.timeSlots
    requires Eligible(p, d, t) < p.coverage[(d, t)]
    ensures Solve(p) == None
  {
    TooFewEligibleInfeasible(p, d, t);
  }

  /** With every cap at 0 (or below), a slot that needs anyone makes the solver return None. */
  lemma SolveFailsWithZeroCaps(p: Problem, d: Day, t: Slot)
    requires WellFormed(p) && d in p.days && t in p.timeSlots
    requires forall e :: e in p.employees ==> p.maxShifts[e] <= 0
    requires p.coverage[(d, t)] > 0
    ensures Solve(p) == None
  {
    ZeroCapsInfeasible(p, d, t);
  }

  /** Lines 8-11: one cell per (employee, day, slot), created employee-major. */
  method BuildGrid(employees: seq<Worker>, days: seq<Day>, timeSlots: seq<Slot>) returns (cells: seq<Shift>)
    ensures cells == Grid(employees, days, timeSlots)
  {
    cells := [];
    for i := 0 to |employees|
      invariant cells == GridUpTo(employees, days, timeSlots, i)
    {
      var e := employees[i];
      for j := 0 to |days|
        invariant cells == GridUpTo(employees, days, timeSlots, i) + WeekUpTo(e, days, timeSlots, j)
      {
        var d := days[j];
        ghost var before := cells;
        for k := 0 to |timeSlots|
          invariant cells == before + DaySlots(e, d, timeSlots)[..k]
        {
          assert DaySlots(e, d, timeSlots)[..k + 1] == DaySlots(e, d, timeSlots)[..k] + [Shift(e, d, timeSlots[k])];
          cells := cells + [Shift(e, d, timeSlots[k])];
        }
        assert DaySlots(e, d, timeSlots)[..|timeSlots|] == DaySlots(e, d, timeSlots);
      }
    }
  }

  /** `solve_shift_schedule(employees, days, time_slots, unavailable, coverage, max_shifts)`. */
  method SolveShiftSchedule(
    employees: seq<Worker>, days: seq<Day>, timeSlots: seq<Slot>,
    unavailable: seq<Shift>, coverage: map<(Day, Slot), int>, maxShifts: map<Worker, int>)
    returns (result: Option<seq<Shift>>)
    requires forall u :: u in unavailable ==> InGrid(employees, days, timeSlots, u)
    requires forall d, t :: d in days && t in timeSlots ==> (d, t) in coverage
    requires forall e :: e in employees ==> e in maxShifts
    ensures result == Solve(Problem(employees, days, timeSlots, unavailable, coverage, maxShifts))
    ensures result.None? <==> !Feasible(Problem(employees, days, timeSlots, unavailable, coverage, maxShifts))
    ensures result.Some? ==> forall x :: x in result.value ==>
      InGrid(employees, days, timeSlots, x) && x !in unavailable
    ensures result.Some? && DistinctLists(Problem(employees, days, timeSlots, unavailable, coverage, maxShifts)) ==>
      MeetsSchedule(Problem(employees, days, timeSlots, unavailable, coverage, maxShifts), result.value)
  {
    var p := Problem(employees, days, timeSlots, unavailable, coverage, maxShifts);
    var cells := BuildGrid(employees, days, timeSlots);
    var found := Search(p, cells, 0, {});
    if found.Some? {
      ExtractMembers(p, found.value);
      result := Some(Chosen(cells, found.value));
    } else {
      result := None;
    }
  }
}
