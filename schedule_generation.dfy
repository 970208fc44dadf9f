/** The `generate_schedule` handler (app.py, lines 934-997) without its web and database plumbing:
    how it assembles the solver's arguments, when it gives up, and how it replaces the week's
    stored shifts. The database rows it reads are parameters; the shifts table is a list value. */
module ScheduleGeneration {
  import opened Lists
  import opened ShiftGrid
  import opened ShiftConstraints
  import opened Scheduler

  /** Line 955: Sunday to Saturday. */
  const DayLabels: seq<Day> := ["ראשון", "שני", "שלישי", "רביעי", "חמישי", "שישי", "שבת"]

  const Morning: Slot := "בוקר"
  const Noon: Slot := "צהריים"
  const Evening: Slot := "ערב"
  const Night: Slot := "לילה"

  /** Lines 960 and 962: the slots used when the shift_types table is empty or missing. */
  const DefaultSlots: seq<Slot> := [Morning, Noon, Evening, Night]

  /** Line 978: the cap given to every worker. */
  const CapPerWorker: int := 20

  /** Lines 958-962. `shiftTypes` is the list of names the query returns in id order, or None when
      the query raises OperationalError (the table does not exist). */
  function TimeSlotsFrom(shiftTypes: Option<seq<Slot>>): (ts: seq<Slot>)
    ensures shiftTypes.None? ==> ts == DefaultSlots
    ensures shiftTypes.Some? ==> ts == if shiftTypes.value == [] then DefaultSlots else shiftTypes.value
    ensures ts != []
  {
    match shiftTypes
    case None => DefaultSlots
    case Some(names) => if names == [] then DefaultSlots else names
  }

  /** Lines 974-975: two employees for morning and noon, one for every other slot, on every day. */
  function CoverageFor(days: seq<Day>, timeSlots: seq<Slot>): (m: map<(Day, Slot), int>)
    ensures forall d, t :: (d, t) in m <==> d in days && t in timeSlots
    ensures forall d, t :: d in days && t in timeSlots ==>
      m[(d, t)] == (if t == Morning || t == Noon then 2 else 1)
  {
    map d, t | d in days && t in timeSlots :: (d, t) := (if t in {Morning, Noon} then 2 else 1)
  }

  /** Line 978: every employee, and no one else, gets the cap of 20. */
  function CapsFor(employees: seq<Worker>): (m: map<Worker, int>)
    ensures forall e :: e in m <==> e in employees
    ensures forall e :: e in m ==> m[e] == CapPerWorker
  {
    map e | e in employees :: CapPerWorker
  }

  /** The solver call of line 980, with the assembled arguments. */
  function Assemble(employees: seq<Worker>, shiftTypes: Option<seq<Slot>>, unavailable: seq<Shift>): Problem {
    var timeSlots := TimeSlotsFrom(shiftTypes);
    Problem(employees, DayLabels, timeSlots, unavailable, CoverageFor(DayLabels, timeSlots), CapsFor(employees))
  }

  /** The assembled maps always cover every key the solver looks up, so the only lookup that can fail
      is that of a constraint row outside the grid; and every slot needs at least one employee. */
  lemma AssembledMapsComplete(employees: seq<Worker>, shiftTypes: Option<seq<Slot>>, unavailable: seq<Shift>)
    ensures var p := Assemble(employees, shiftTypes, unavailable);
      && (WellFormed(p) <==> forall u :: u in unavailable ==> InGrid(p.employees, p.days, p.timeSlots, u))
      && (forall d, t :: d in p.days && t in p.timeSlots ==> p.coverage[(d, t)] >= 1)
  {
  }

  /** A slot staffed by someone contributes a row to the extracted schedule. */
  lemma StaffedSlotExtracted(p: Problem, on: set<Shift>, d: Day, t: Slot)
    requires d in p.days && t in p.timeSlots
    requires Hits(on, SlotColumn(p.employees, d, t)) >= 1
    ensures Extract(p, on) != []
  {
    var column := SlotColumn(p.employees, d, t);
    var x := Chosen(column, on)[0];
    ChosenMembers(column, on);
    SlotColumnMembers(p.employees, d, t);
    ExtractMembers(p, on);
    assert x in Extract(p, on);
  }

  /** In the app's setting every solution staffs at least one slot, so a found schedule is never
      empty and `if not schedule` (line 981) fails only when the solver returned None. */
  lemma SolutionsNonEmpty(employees: seq<Worker>, shiftTypes: Option<seq<Slot>>, unavailable: seq<Shift>, on: set<Shift>)
    requires WellFormed(Assemble(employees, shiftTypes, unavailable))
    requires Valid(Assemble(employees, shiftTypes, unavailable), on)
    ensures Extract(Assemble(employees, shiftTypes, unavailable), on) != []
  {
    var p := Assemble(employees, shiftTypes, unavailable);
    var d, t := DayLabels[0], p.timeSlots[0];
    assert d in p.days && t in p.timeSlots;
    assert CoverageExact(p, on);
    assert p.coverage[(d, t)] >= 1;
    StaffedSlotExtracted(p, on, d, t);
  }

  /** One row of the shifts table. */
  datatype StoredShift = StoredShift(day: Day, time: Slot, employee: Worker, week: string, companyId: string)

  /** The handler's replies. `Crashed` is the unhandled KeyError the solver raises for a
      constraint row outside the grid (scheduler.py, line 15). */
  datatype Reply =
    | NoCompany                           // lines 938-939, status 400
    | NoWorkers                           // lines 951-953, status 400
    | Crashed                             // KeyError, status 500
    | NoSchedule                          // lines 981-983, status 400
    | Created(schedule: seq<Shift>)       // line 997, status 201

  predicate OfWeek(r: StoredShift, week: string, companyId: string) {
    r.week == week && r.companyId == companyId
  }

  /** Line 986: `DELETE FROM shifts WHERE week = ? AND company_id = ?`. */
  function DeleteWeek(store: seq<StoredShift>, week: string, companyId: string): seq<StoredShift> {
    if store == [] then []
    else (if OfWeek(store[0], week, companyId) then [] else [store[0]]) + DeleteWeek(store[1..], week, companyId)
  }

  /** The rows the loop of lines 988-993 inserts, one per solver row, in its order. */
  function RowsFor(schedule: seq<Shift>, week: string, companyId: string): (rows: seq<StoredShift>)
    ensures |rows| == |schedule|
  {
    seq(|schedule|, i requires 0 <= i < |schedule| =>
      StoredShift(schedule[i].day, schedule[i].slot, schedule[i].worker, week, companyId))
  }

  lemma RowsForSnoc(schedule: seq<Shift>, i: nat, week: string, companyId: string)
    requires i < |schedule|
    ensures RowsFor(schedule[..i + 1], week, companyId) == RowsFor(schedule[..i], week, companyId)
      + [StoredShift(schedule[i].day, schedule[i].slot, schedule[i].worker, week, companyId)]
  {
  }

  /** The rows of one week and company, in table order. */
  function WeekRows(store: seq<StoredShift>, week: string, companyId: string): seq<StoredShift> {
    if store == [] then []
    else (if OfWeek(store[0], week, companyId) then [store[0]] else []) + WeekRows(store[1..], week, companyId)
  }

  lemma {:induction false} WeekRowsConcat(a: seq<StoredShift>, b: seq<StoredShift>, week: string, companyId: string)
    ensures WeekRows(a + b, week, companyId) == WeekRows(a, week, companyId) + WeekRows(b, week, companyId)
  {
    if a == [] {
      assert a + b == b;
    } else {
      var head := if OfWeek(a[0], week, companyId) then [a[0]] else [];
      assert (a + b)[0] == a[0];
      assert (a + b)[1..] == a[1..] + b;
      assert WeekRows(a + b, week, companyId) == head + WeekRows(a[1..] + b, week, companyId);
      assert WeekRows(a, week, companyId) == head + WeekRows(a[1..], week, companyId);
      WeekRowsConcat(a[1..], b, week, companyId);
      assert head + (WeekRows(a[1..], week, companyId) + WeekRows(b, week, companyId))
          == (head + WeekRows(a[1..], week, companyId)) + WeekRows(b, week, companyId);
    }
  }

  /** The table splits into the rows the delete keeps and the rows of the week, counted with
      their repetitions. */
  lemma {:induction false} DeleteWeekSplits(store: seq<StoredShift>, week: string, companyId: string)
    ensures multiset(DeleteWeek(store, week, companyId)) + multiset(WeekRows(store, week, companyId)) == multiset(store)
  {
    if store != [] {
      DeleteWeekSplits(store[1..], week, companyId);
      assert store == [store[0]] + store[1..];
    }
  }

  lemma {:induction false} DeleteWeekRemovesWeek(store: seq<StoredShift>, week: string, companyId: string)
    ensures WeekRows(DeleteWeek(store, week, companyId), week, companyId) == []
    ensures forall r :: r in DeleteWeek(store, week, companyId) <==> r in store && !OfWeek(r, week, companyId)
    ensures multiset(DeleteWeek(store, week, companyId)) == multiset(store) - multiset(WeekRows(store, week, companyId))
  {
    if store != [] {
      DeleteWeekRemovesWeek(store[1..], week, companyId);
      var head := if OfWeek(store[0], week, companyId) then [] else [store[0]];
      WeekRowsConcat(head, DeleteWeek(store[1..], week, companyId), week, companyId);
      assert forall r :: r in store <==> r == store[0] || r in store[1..];
    }
    DeleteWeekSplits(store, week, companyId);
  }

  lemma {:induction false} WeekRowsOfInserted(schedule: seq<Shift>, week: string, companyId: string)
    ensures WeekRows(RowsFor(schedule, week, companyId), week, companyId) == RowsFor(schedule, week, companyId)
  {
    var rows := RowsFor(schedule, week, companyId);
    if schedule != [] {
      WeekRowsOfInserted(schedule[1..], week, companyId);
      assert rows[1..] == RowsFor(schedule[1..], week, companyId);
    }
  }

  /** After the replacement, the week's rows are exactly the new schedule, in its order, and every
      row of another week or company is kept, as often as it occurred. */
  lemma ReplacementStoresSchedule(store: seq<StoredShift>, schedule: seq<Shift>, week: string, companyId: string)
    ensures var after := DeleteWeek(store, week, companyId) + RowsFor(schedule, week, companyId);
      && WeekRows(after, week, companyId) == RowsFor(schedule, week, companyId)
      && (forall r :: r in store && !OfWeek(r, week, companyId) ==> r in after)
      && multiset(after) == multiset(store) - multiset(WeekRows(store, week, companyId))
           + multiset(RowsFor(schedule, week, companyId))
  {
    WeekRowsConcat(DeleteWeek(store, week, companyId), RowsFor(schedule, week, companyId), week, companyId);
    DeleteWeekRemovesWeek(store, week, companyId);
    WeekRowsOfInserted(schedule, week, companyId);
  }

  /** Lines 973-980: build the coverage and caps and call the solver. */
  method SolveAssembled(employees: seq<Worker>, shiftTypes: Option<seq<Slot>>, unavailable: seq<Shift>)
    returns (schedule: Option<seq<Shift>>)
    requires WellFormed(Assemble(employees, shiftTypes, unavailable))
    ensures schedule == Solve(Assemble(employees, shiftTypes, unavailable))
  {
    var timeSlots := TimeSlotsFrom(shiftTypes);
    var coverage := CoverageFor(DayLabels, timeSlots);
    var maxShifts := CapsFor(employees);
    schedule := SolveShiftSchedule(employees, DayLabels, timeSlots, unavailable, coverage, maxShifts);
  }

  /** Lines 986-993: delete the week's rows, then insert one row per schedule entry in order. */
  method ReplaceWeek(store: seq<StoredShift>, week: string, companyId: string, schedule: seq<Shift>)
    returns (store': seq<StoredShift>)
    ensures store' == DeleteWeek(store, week, companyId) + RowsFor(schedule, week, companyId)
  {
    store' := DeleteWeek(store, week, companyId);
    ghost var kept := store';
    for i := 0 to |schedule|
      invariant store' == kept + RowsFor(schedule[..i], week, companyId)
    {
      RowsForSnoc(schedule, i, week, companyId);
      store' := store' + [StoredShift(schedule[i].day, schedule[i].slot, schedule[i].worker, week, companyId)];
    }
    assert schedule[..|schedule|] == schedule;
  }

  /** Lines 934-997 for one week: `companyId` is the resolved company id ("" when missing),
      `employees` the company's worker ids, `shiftTypes` the shift_types query, `unavailable` the
      company's constraint rows, `store` the shifts table. */
  method GenerateSchedule(
    week: string, companyId: string, employees: seq<Worker>, shiftTypes: Option<seq<Slot>>,
    unavailable: seq<Shift>, store: seq<StoredShift>)
    returns (reply: Reply, store': seq<StoredShift>)
    ensures reply == NoCompany <==> companyId == ""
    ensures reply == NoWorkers <==> companyId != "" && employees == []
    ensures reply == Crashed <==>
      companyId != "" && employees != [] && !WellFormed(Assemble(employees, shiftTypes, unavailable))
    ensures reply == NoSchedule <==>
      companyId != "" && employees != [] && WellFormed(Assemble(employees, shiftTypes, unavailable))
      && !Feasible(Assemble(employees, shiftTypes, unavailable))
    ensures reply.Created? ==>
      && Some(reply.schedule) == Solve(Assemble(employees, shiftTypes, unavailable))
      && reply.schedule != []
      && store' == DeleteWeek(store, week, companyId) + RowsFor(reply.schedule, week, companyId)
    ensures !reply.Created? ==> store' == store
  {
    store' := store;
    if companyId == "" {
      return NoCompany, store';
    }
    if employees == [] {
      return NoWorkers, store';
    }
    ghost var p := Assemble(employees, shiftTypes, unavailable);
    AssembledMapsComplete(employees, shiftTypes, unavailable);
    var timeSlots := TimeSlotsFrom(shiftTypes);
    if !(forall u :: u in unavailable ==> InGrid(employees, DayLabels, timeSlots, u)) {
      return Crashed, store';
    }
    var schedule := SolveAssembled(employees, shiftTypes, unavailable);
    if schedule.None? {
      return NoSchedule, store';
    }
    var rows := schedule.value;
    // `if not schedule` also rejects an empty list, which no solution here can be.
    if rows == [] {
      ghost var on :| Valid(p, on) && rows == Extract(p, on);
      SolutionsNonEmpty(employees, shiftTypes, unavailable, on);
      assert false;
    }
    store' := ReplaceWeek(store, week, companyId, rows);
    reply := Created(rows);
  }
}
