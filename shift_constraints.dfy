/** The hard constraints `solve_shift_schedule` posts (scheduler.py, lines 13-29). An assignment
    of the solver's boolean variables is the set `on` of cells whose variable is 1. */
module ShiftConstraints {
  import opened Lists
  import opened ShiftGrid

  /** The six arguments of `solve_shift_schedule`, in order. */
  datatype Problem = Problem(
    employees: seq<Worker>,
    days: seq<Day>,
    timeSlots: seq<Slot>,
    unavailable: seq<Shift>,
    coverage: map<(Day, Slot), int>,
    maxShifts: map<Worker, int>)

  /** Every dictionary lookup the solver makes finds its key; otherwise Python raises KeyError
      at line 15 (an unavailable triple outside the grid), 20 (a missing coverage entry) or
      24 (a missing cap). */
  predicate WellFormed(p: Problem) {
    && (forall u :: u in p.unavailable ==> InGrid(p.employees, p.days, p.timeSlots, u))
    && (forall d, t :: d in p.days && t in p.timeSlots ==> (d, t) in p.coverage)
    && (forall e :: e in p.employees ==> e in p.maxShifts)
  }

  /** `sum(X[c] for c in cs)`: how many positions of `cs` hold a switched-on cell. A list with
      a repeated entry counts that variable once per repetition, as Python's sum does. */
  function Hits(on: set<Shift>, cs: seq<Shift>): nat {
    |Chosen(cs, on)|
  }

  /** Line 15: every unavailable triple is 0. */
  predicate Excludes(p: Problem, on: set<Shift>) {
    forall u :: u in p.unavailable ==> u !in on
  }

  /** Line 20: each (day, slot) is staffed by exactly `coverage[(d, t)]` employees. */
  predicate CoverageExact(p: Problem, on: set<Shift>)
    requires WellFormed(p)
  {
    forall d, t :: d in p.days && t in p.timeSlots ==>
      Hits(on, SlotColumn(p.employees, d, t)) == p.coverage[(d, t)]
  }

  /** Line 24: each employee works at most `max_shifts[e]` cells over the whole week. */
  predicate WithinCaps(p: Problem, on: set<Shift>)
    requires WellFormed(p)
  {
    forall e :: e in p.employees ==> Hits(on, WeekSlots(e, p.days, p.timeSlots)) <= p.maxShifts[e]
  }

  /** Line 29: each employee works at most one slot per day. */
  predicate OnePerDay(p: Problem, on: set<Shift>) {
    forall e, d :: e in p.employees && d in p.days ==> Hits(on, DaySlots(e, d, p.timeSlots)) <= 1
  }

  /** A value for every variable of the model (only grid cells have one) that meets all four
      constraint families. */
  predicate Valid(p: Problem, on: set<Shift>)
    requires WellFormed(p)
  {
    && (forall x :: x in on ==> InGrid(p.employees, p.days, p.timeSlots, x))
    && Excludes(p, on)
    && CoverageExact(p, on)
    && WithinCaps(p, on)
    && OnePerDay(p, on)
  }

  /** What a partial assignment must already satisfy for some valid assignment to contain it:
      the exclusions and every upper bound (coverage read as "at most"). */
  predicate Consistent(p: Problem, on: set<Shift>)
    requires WellFormed(p)
  {
    && Excludes(p, on)
    && (forall d, t :: d in p.days && t in p.timeSlots ==>
          Hits(on, SlotColumn(p.employees, d, t)) <= p.coverage[(d, t)])
    && WithinCaps(p, on)
    && OnePerDay(p, on)
  }

  /** The model has a solution: CP-SAT would report FEASIBLE or OPTIMAL (line 35). */
  ghost predicate Feasible(p: Problem)
    requires WellFormed(p)
  {
    exists on :: Valid(p, on)
  }

  /** Every part of a valid assignment is consistent; so a partial assignment that is not consistent
      cannot be completed, which is what lets the search prune it. */
  lemma ConsistentBelowValid(p: Problem, part: set<Shift>, full: set<Shift>)
    requires WellFormed(p) && part <= full && Valid(p, full)
    ensures Consistent(p, part)
  {
    forall d, t | d in p.days && t in p.timeSlots
      ensures Hits(part, SlotColumn(p.employees, d, t)) <= p.coverage[(d, t)]
    {
      ChosenMonotone(SlotColumn(p.employees, d, t), part, full);
    }
    forall e | e in p.employees
      ensures Hits(part, WeekSlots(e, p.days, p.timeSlots)) <= p.maxShifts[e]
    {
      ChosenMonotone(WeekSlots(e, p.days, p.timeSlots), part, full);
    }
    forall e, d | e in p.employees && d in p.days
      ensures Hits(part, DaySlots(e, d, p.timeSlots)) <= 1
    {
      ChosenMonotone(DaySlots(e, d, p.timeSlots), part, full);
    }
  }

  /** Exclusions depend only on which triples are listed, not on how often. */
  lemma RepeatedExclusionsSame(p: Problem, q: Problem, on: set<Shift>)
    requires q == p.(unavailable := q.unavailable)
    requires forall u :: u in p.unavailable <==> u in q.unavailable
    ensures WellFormed(p) <==> WellFormed(q)
    ensures WellFormed(p) ==> (Valid(p, on) <==> Valid(q, on)) && (Consistent(p, on) <==> Consistent(q, on))
  {
  }

  /** The number of employees not marked unavailable for (d, t). */
  function Eligible(p: Problem, d: Day, t: Slot): nat {
    var column := SlotColumn(p.employees, d, t);
    Hits((set x | x in column && x !in p.unavailable), column)
  }

  /** A slot that needs more employees than are available for it makes the model infeasible. */
  lemma TooFewEligibleInfeasible(p: Problem, d: Day, t: Slot)
    requires WellFormed(p) && d in p.days && t in p.timeSlots
    requires Eligible(p, d, t) < p.coverage[(d, t)]
    ensures !Feasible(p)
  {
    var column := SlotColumn(p.employees, d, t);
    var available := set x | x in column && x !in p.unavailable;
    forall on | Excludes(p, on) ensures Hits(on, column) <= Eligible(p, d, t) {
      ChosenMonotone(column, on, available);
    }
  }

  /** A switched-on cell of a coverage column is a switched-on cell of its employee's week. */
  lemma ColumnHitIsWeekHit(p: Problem, on: set<Shift>, d: Day, t: Slot)
    requires d in p.days && t in p.timeSlots
    requires Hits(on, SlotColumn(p.employees, d, t)) >= 1
    ensures exists e :: e in p.employees && Hits(on, WeekSlots(e, p.days, p.timeSlots)) >= 1
  {
    var column := SlotColumn(p.employees, d, t);
    var x := Chosen(column, on)[0];
    ChosenMembers(column, on);
    SlotColumnMembers(p.employees, d, t);
    WeekSlotsMembers(x.worker, p.days, p.timeSlots);
    ChosenPositive(WeekSlots(x.worker, p.days, p.timeSlots), on, x);
  }

  /** With every cap at most 0, any slot that needs someone makes the model infeasible. */
  lemma ZeroCapsInfeasible(p: Problem, d: Day, t: Slot)
    requires WellFormed(p) && d in p.days && t in p.timeSlots
    requires forall e :: e in p.employees ==> p.maxShifts[e] <= 0
    requires p.coverage[(d, t)] > 0
    ensures !Feasible(p)
  {
    forall on | Hits(on, SlotColumn(p.employees, d, t)) >= 1
      ensures exists e :: e in p.employees && Hits(on, WeekSlots(e, p.days, p.timeSlots)) >= 1
    {
      ColumnHitIsWeekHit(p, on, d, t);
    }
  }
}
