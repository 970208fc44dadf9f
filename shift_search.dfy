/** The search that stands in for CP-SAT's `solver.Solve(model)` (scheduler.py, lines 32-35): a
    backtracking search over the grid cells in creation order that decides each variable in turn,
    tries 1 before 0, and abandons a branch as soon as the partial assignment breaks an exclusion
    or an upper bound. It accepts the first complete assignment that satisfies every constraint. */
module ShiftSearch {
  import opened Lists
  import opened ShiftGrid
  import opened ShiftConstraints

  /** `on` makes the same choice as `chosen` on each of the first `i` cells. */
  predicate Agrees(on: set<Shift>, chosen: set<Shift>, cells: seq<Shift>, i: nat)
    requires i <= |cells|
  {
    forall j :: 0 <= j < i ==> (cells[j] in on <==> cells[j] in chosen)
  }

  /** Every switched-on cell of `chosen` is one of the first `i` cells. */
  predicate Decided(chosen: set<Shift>, cells: seq<Shift>, i: nat)
    requires i <= |cells|
  {
    forall x :: x in chosen ==> x in cells[..i]
  }

  /** Decide cells `i..` having switched on `chosen` among the first `i`. */
  function Search(p: Problem, cells: seq<Shift>, i: nat, chosen: set<Shift>): (r: Option<set<Shift>>)
    requires WellFormed(p) && cells == Grid(p.employees, p.days, p.timeSlots)
    requires i <= |cells| && Decided(chosen, cells, i)
    ensures r.Some? ==> Valid(p, r.value) && chosen <= r.value
    decreases |cells| - i
  {
    if i == |cells| then
      if Valid(p, chosen) then Some(chosen) else None
    else
      var c := cells[i];
      var taken := if Consistent(p, chosen + {c}) then Search(p, cells, i + 1, chosen + {c}) else None;
      if taken.Some? then taken else Search(p, cells, i + 1, chosen)
  }

  lemma AgreedIsContained(on: set<Shift>, chosen: set<Shift>, cells: seq<Shift>, i: nat)
    requires i <= |cells| && Decided(chosen, cells, i) && Agrees(on, chosen, cells, i)
    ensures chosen <= on
  {
    forall x | x in chosen ensures x in on {
      var j :| 0 <= j < i && cells[..i][j] == x;
      assert cells[j] == x;
    }
  }

  lemma AgreedEverywhere(on: set<Shift>, chosen: set<Shift>, cells: seq<Shift>)
    requires Decided(chosen, cells, |cells|) && Agrees(on, chosen, cells, |cells|)
    requires forall x :: x in on ==> x in cells
    ensures on == chosen
  {
    AgreedIsContained(on, chosen, cells, |cells|);
    forall x | x in on ensures x in chosen {
      var j :| 0 <= j < |cells| && cells[j] == x;
    }
  }

  /** Deciding cell `i` the way `on` does keeps the two in agreement. */
  lemma AgreesStep(on: set<Shift>, chosen: set<Shift>, cells: seq<Shift>, i: nat)
    requires i < |cells| && Decided(chosen, cells, i) && Agrees(on, chosen, cells, i)
    ensures cells[i] in on ==> Decided(chosen + {cells[i]}, cells, i + 1) && Agrees(on, chosen + {cells[i]}, cells, i + 1)
    ensures cells[i] !in on ==> Decided(chosen, cells, i + 1) && Agrees(on, chosen, cells, i + 1)
  {
    assert cells[..i + 1] == cells[..i] + [cells[i]];
    AgreedIsContained(on, chosen, cells, i);
  }

  /** The search misses no solution: whenever a valid assignment agrees with the decisions taken so
      far, the search from that point finds one. */
  lemma {:induction false} SearchComplete(p: Problem, cells: seq<Shift>, i: nat, chosen: set<Shift>, on: set<Shift>)
    requires WellFormed(p) && cells == Grid(p.employees, p.days, p.timeSlots)
    requires i <= |cells| && Decided(chosen, cells, i)
    requires Valid(p, on) && Agrees(on, chosen, cells, i)
    ensures Search(p, cells, i, chosen).Some?
    decreases |cells| - i
  {
    if i == |cells| {
      GridMembers(p.employees, p.days, p.timeSlots);
      AgreedEverywhere(on, chosen, cells);
    } else {
      var c := cells[i];
      AgreesStep(on, chosen, cells, i);
      if c in on {
        AgreedIsContained(on, chosen, cells, i);
        ConsistentBelowValid(p, chosen + {c}, on);
        SearchComplete(p, cells, i + 1, chosen + {c}, on);
      } else {
        SearchComplete(p, cells, i + 1, chosen, on);
      }
    }
  }

  /** The whole search: an assignment of every variable that satisfies the model, or None. */
  function FindAssignment(p: Problem): (r: Option<set<Shift>>)
    requires WellFormed(p)
    ensures r.Some? ==> Valid(p, r.value)
    ensures r.None? <==> !Feasible(p)
  {
    var cells := Grid(p.employees, p.days, p.timeSlots);
    SearchFromStartComplete(p);
    Search(p, cells, 0, {})
  }

  lemma SearchFromStartComplete(p: Problem)
    requires WellFormed(p)
    ensures Feasible(p) ==> Search(p, Grid(p.employees, p.days, p.timeSlots), 0, {}).Some?
  {
    if Feasible(p) {
      var on :| Valid(p, on);
      SearchComplete(p, Grid(p.employees, p.days, p.timeSlots), 0, {}, on);
    }
  }

  /** Two problems on which validity and consistency agree everywhere drive the search alike. */
  lemma {:induction false} SearchAgrees(p: Problem, q: Problem, cells: seq<Shift>, i: nat, chosen: set<Shift>)
    requires WellFormed(p) && WellFormed(q)
    requires q.employees == p.employees && q.days == p.days && q.timeSlots == p.timeSlots
    requires forall on :: Valid(p, on) == Valid(q, on)
    requires forall on :: Consistent(p, on) == Consistent(q, on)
    requires cells == Grid(p.employees, p.days, p.timeSlots)
    requires i <= |cells| && Decided(chosen, cells, i)
    ensures Search(p, cells, i, chosen) == Search(q, cells, i, chosen)
    decreases |cells| - i
  {
    if i < |cells| {
      var c := cells[i];
      assert cells[..i + 1] == cells[..i] + [c];
      if Consistent(p, chosen + {c}) {
        SearchAgrees(p, q, cells, i + 1, chosen + {c});
      }
      SearchAgrees(p, q, cells, i + 1, chosen);
    }
  }

  /** Listing an unavailable triple several times changes nothing the search does. */
  lemma SearchIgnoresRepeats(p: Problem, q: Problem, cells: seq<Shift>, i: nat, chosen: set<Shift>)
    requires q == p.(unavailable := q.unavailable)
    requires forall u :: u in p.unavailable <==> u in q.unavailable
    requires WellFormed(p) && cells == Grid(p.employees, p.days, p.timeSlots)
    requires i <= |cells| && Decided(chosen, cells, i)
    ensures WellFormed(q) && Search(p, cells, i, chosen) == Search(q, cells, i, chosen)
  {
    RepeatedExclusionsSame(p, q, {});
    forall on ensures Valid(p, on) == Valid(q, on) && Consistent(p, on) == Consistent(q, on) {
      RepeatedExclusionsSame(p, q, on);
    }
    SearchAgrees(p, q, cells, i, chosen);
  }

  lemma FindAssignmentIgnoresRepeats(p: Problem, q: Problem)
    requires q == p.(unavailable := q.unavailable)
    requires forall u :: u in p.unavailable <==> u in q.unavailable
    requires WellFormed(p)
    ensures WellFormed(q) && FindAssignment(p) == FindAssignment(q)
  {
    SearchIgnoresRepeats(p, q, Grid(p.employees, p.days, p.timeSlots), 0, {});
  }
}
