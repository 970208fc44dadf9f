/** The solver's variable space: one cell per (employee, day, slot) triple, listed employee-major,
    then by day, then by slot, in the order of the input lists (scheduler.py, lines 8-11 and 36-42). */
module ShiftGrid {
  import opened Lists

  type Worker = string
  type Day = string
  type Slot = string

  /** One decision variable X[(e, d, t)] of the solver, and one row of its result. */
  datatype Shift = Shift(worker: Worker, day: Day, slot: Slot)

  predicate InGrid(es: seq<Worker>, ds: seq<Day>, ts: seq<Slot>, x: Shift) {
    x.worker in es && x.day in ds && x.slot in ts
  }

  /** `[(e, d, t) for t in ts]` */
  function DaySlots(e: Worker, d: Day, ts: seq<Slot>): seq<Shift> {
    seq(|ts|, i requires 0 <= i < |ts| => Shift(e, d, ts[i]))
  }

  /** `[(e, d, t) for e in es]`: the cells summed by one coverage constraint. */
  function SlotColumn(es: seq<Worker>, d: Day, t: Slot): seq<Shift> {
    seq(|es|, i requires 0 <= i < |es| => Shift(es[i], d, t))
  }

  /** The cells of worker `e` on the first `k` days. */
  function WeekUpTo(e: Worker, ds: seq<Day>, ts: seq<Slot>, k: nat): seq<Shift>
    requires k <= |ds|
  {
    if k == 0 then [] else WeekUpTo(e, ds, ts, k - 1) + DaySlots(e, ds[k - 1], ts)
  }

  /** `[(e, d, t) for d in ds for t in ts]`: the cells summed by one weekly cap. */
  function WeekSlots(e: Worker, ds: seq<Day>, ts: seq<Slot>): seq<Shift> {
    WeekUpTo(e, ds, ts, |ds|)
  }

  /** The cells of the first `k` employees. */
  function GridUpTo(es: seq<Worker>, ds: seq<Day>, ts: seq<Slot>, k: nat): seq<Shift>
    requires k <= |es|
  {
    if k == 0 then [] else GridUpTo(es, ds, ts, k - 1) + WeekSlots(es[k - 1], ds, ts)
  }

  /** `[(e, d, t) for e in es for d in ds for t in ts]`: every variable, in creation order. */
  function Grid(es: seq<Worker>, ds: seq<Day>, ts: seq<Slot>): seq<Shift> {
    GridUpTo(es, ds, ts, |es|)
  }

  // ---------------------------------------------------------------------------------------------
  // Which cells the lists contain

  lemma DaySlotsMembers(e: Worker, d: Day, ts: seq<Slot>)
    ensures forall x :: x in DaySlots(e, d, ts) <==> x.worker == e && x.day == d && x.slot in ts
  {
    var cs := DaySlots(e, d, ts);
    forall x: Shift | x.worker == e && x.day == d && x.slot in ts ensures x in cs {
      var i :| 0 <= i < |ts| && ts[i] == x.slot;
      assert cs[i] == x;
    }
  }

  lemma SlotColumnMembers(es: seq<Worker>, d: Day, t: Slot)
    ensures forall x :: x in SlotColumn(es, d, t) <==> x.worker in es && x.day == d && x.slot == t
  {
    var cs := SlotColumn(es, d, t);
    forall x: Shift | x.worker in es && x.day == d && x.slot == t ensures x in cs {
      var i :| 0 <= i < |es| && es[i] == x.worker;
      assert cs[i] == x;
    }
  }

  lemma {:induction false} WeekUpToMembers(e: Worker, ds: seq<Day>, ts: seq<Slot>, k: nat)
    requires k <= |ds|
    ensures forall x :: x in WeekUpTo(e, ds, ts, k) <==> x.worker == e && x.day in ds[..k] && x.slot in ts
  {
    if k > 0 {
      WeekUpToMembers(e, ds, ts, k - 1);
      DaySlotsMembers(e, ds[k - 1], ts);
      assert ds[..k] == ds[..k - 1] + [ds[k - 1]];
    }
  }

  lemma WeekSlotsMembers(e: Worker, ds: seq<Day>, ts: seq<Slot>)
    ensures forall x :: x in WeekSlots(e, ds, ts) <==> x.worker == e && x.day in ds && x.slot in ts
  {
    WeekUpToMembers(e, ds, ts, |ds|);
    assert ds[..|ds|] == ds;
  }

  lemma {:induction false} GridUpToMembers(es: seq<Worker>, ds: seq<Day>, ts: seq<Slot>, k: nat)
    requires k <= |es|
    ensures forall x :: x in GridUpTo(es, ds, ts, k) <==> x.worker in es[..k] && x.day in ds && x.slot in ts
  {
    if k > 0 {
      GridUpToMembers(es, ds, ts, k - 1);
      WeekSlotsMembers(es[k - 1], ds, ts);
      assert es[..k] == es[..k - 1] + [es[k - 1]];
    }
  }

  /** The grid holds exactly the triples drawn from the three lists. */
  lemma GridMembers(es: seq<Worker>, ds: seq<Day>, ts: seq<Slot>)
    ensures forall x :: x in Grid(es, ds, ts) <==> InGrid(es, ds, ts, x)
  {
    GridUpToMembers(es, ds, ts, |es|);
    assert es[..|es|] == es;
  }

  // ---------------------------------------------------------------------------------------------
  // The order of the lists

  /** `x` comes strictly before `y` when ranked by (employee position, day position, slot position). */
  predicate Before(es: seq<Worker>, ds: seq<Day>, ts: seq<Slot>, x: Shift, y: Shift) {
    var ex, ey := IndexOf(es, x.worker), IndexOf(es, y.worker);
    var dx, dy := IndexOf(ds, x.day), IndexOf(ds, y.day);
    ex < ey || (ex == ey && (dx < dy || (dx == dy && IndexOf(ts, x.slot) < IndexOf(ts, y.slot))))
  }

  /** Employee-major, then day, then slot, following the input lists. */
  predicate Ordered(es: seq<Worker>, ds: seq<Day>, ts: seq<Slot>, cs: seq<Shift>) {
    forall i, j :: 0 <= i < j < |cs| ==> Before(es, ds, ts, cs[i], cs[j])
  }

  /** A list ordered strictly has no repeated entry. */
  lemma OrderedDistinct(es: seq<Worker>, ds: seq<Day>, ts: seq<Slot>, cs: seq<Shift>)
    requires Ordered(es, ds, ts, cs)
    ensures Distinct(cs)
  {
  }

  lemma OrderedConcat(es: seq<Worker>, ds: seq<Day>, ts: seq<Slot>, a: seq<Shift>, b: seq<Shift>)
    requires Ordered(es, ds, ts, a) && Ordered(es, ds, ts, b)
    requires forall x, y :: x in a && y in b ==> Before(es, ds, ts, x, y)
    ensures Ordered(es, ds, ts, a + b)
  {
    var c := a + b;
    forall i, j | 0 <= i < j < |c| ensures Before(es, ds, ts, c[i], c[j]) {
      if j < |a| {
        assert c[i] == a[i] && c[j] == a[j];
      } else if i < |a| {
        assert c[i] == a[i] && c[j] == b[j - |a|];
      } else {
        assert c[i] == b[i - |a|] && c[j] == b[j - |a|];
      }
    }
  }

  lemma DaySlotsOrdered(es: seq<Worker>, ds: seq<Day>, ts: seq<Slot>, e: Worker, d: Day)
    requires Distinct(ts)
    ensures Ordered(es, ds, ts, DaySlots(e, d, ts))
  {
    var cs := DaySlots(e, d, ts);
    forall i, j | 0 <= i < j < |cs| ensures Before(es, ds, ts, cs[i], cs[j]) {
      IndexOfDistinct(ts, i);
      IndexOfDistinct(ts, j);
    }
  }

  lemma {:induction false} WeekUpToOrdered(es: seq<Worker>, ds: seq<Day>, ts: seq<Slot>, e: Worker, k: nat)
    requires Distinct(ds) && Distinct(ts) && k <= |ds|
    ensures Ordered(es, ds, ts, WeekUpTo(e, ds, ts, k))
  {
    if k > 0 {
      var a, b := WeekUpTo(e, ds, ts, k - 1), DaySlots(e, ds[k - 1], ts);
      WeekUpToOrdered(es, ds, ts, e, k - 1);
      DaySlotsOrdered(es, ds, ts, e, ds[k - 1]);
      WeekUpToMembers(e, ds, ts, k - 1);
      DaySlotsMembers(e, ds[k - 1], ts);
      IndexOfDistinct(ds, k - 1);
      forall x, y | x in a && y in b ensures Before(es, ds, ts, x, y) {
        IndexOfInPrefix(ds, k - 1, x.day);
      }
      OrderedConcat(es, ds, ts, a, b);
    }
  }

  lemma WeekSlotsOrdered(es: seq<Worker>, ds: seq<Day>, ts: seq<Slot>, e: Worker)
    requires Distinct(ds) && Distinct(ts)
    ensures Ordered(es, ds, ts, WeekSlots(e, ds, ts))
  {
    WeekUpToOrdered(es, ds, ts, e, |ds|);
  }

  lemma {:induction false} GridUpToOrdered(es: seq<Worker>, ds: seq<Day>, ts: seq<Slot>, k: nat)
    requires Distinct(es) && Distinct(ds) && Distinct(ts) && k <= |es|
    ensures Ordered(es, ds, ts, GridUpTo(es, ds, ts, k))
  {
    if k > 0 {
      var a, b := GridUpTo(es, ds, ts, k - 1), WeekSlots(es[k - 1], ds, ts);
      GridUpToOrdered(es, ds, ts, k - 1);
      WeekSlotsOrdered(es, ds, ts, es[k - 1]);
      GridUpToMembers(es, ds, ts, k - 1);
      WeekSlotsMembers(es[k - 1], ds, ts);
      IndexOfDistinct(es, k - 1);
      forall x, y | x in a && y in b ensures Before(es, ds, ts, x, y) {
        IndexOfInPrefix(es, k - 1, x.worker);
      }
      OrderedConcat(es, ds, ts, a, b);
    }
  }

  /** With duplicate-free input lists, the grid is strictly ordered employee-major, then by day,
      then by slot, and so lists every triple once. */
  lemma GridOrdered(es: seq<Worker>, ds: seq<Day>, ts: seq<Slot>)
    requires Distinct(es) && Distinct(ds) && Distinct(ts)
    ensures Ordered(es, ds, ts, Grid(es, ds, ts))
    ensures Distinct(Grid(es, ds, ts))
  {
    GridUpToOrdered(es, ds, ts, |es|);
    OrderedDistinct(es, ds, ts, Grid(es, ds, ts));
  }

  /** Keeping only the switched-on cells keeps their order. */
  lemma {:induction false} ChosenOrdered(es: seq<Worker>, ds: seq<Day>, ts: seq<Slot>, cs: seq<Shift>, on: set<Shift>)
    requires Ordered(es, ds, ts, cs)
    ensures Ordered(es, ds, ts, Chosen(cs, on))
  {
    if cs != [] {
      var head := if cs[0] in on then [cs[0]] else [];
      var tail := cs[1..];
      assert Ordered(es, ds, ts, tail) by {
        forall i, j | 0 <= i < j < |tail| ensures Before(es, ds, ts, tail[i], tail[j]) {
          assert tail[i] == cs[i + 1] && tail[j] == cs[j + 1];
        }
      }
      ChosenOrdered(es, ds, ts, tail, on);
      ChosenMembers(tail, on);
      forall x, y | x in head && y in Chosen(tail, on) ensures Before(es, ds, ts, x, y) {
        var j :| 0 <= j < |tail| && tail[j] == y;
        assert cs[j + 1] == y;
      }
      OrderedConcat(es, ds, ts, head, Chosen(tail, on));
    }
  }

  lemma SlotColumnDistinct(es: seq<Worker>, d: Day, t: Slot)
    requires Distinct(es)
    ensures Distinct(SlotColumn(es, d, t))
  {
  }

  lemma DaySlotsDistinct(e: Worker, d: Day, ts: seq<Slot>)
    requires Distinct(ts)
    ensures Distinct(DaySlots(e, d, ts))
  {
  }

  lemma WeekSlotsDistinct(e: Worker, ds: seq<Day>, ts: seq<Slot>)
    requires Distinct(ds) && Distinct(ts)
    ensures Distinct(WeekSlots(e, ds, ts))
  {
    WeekSlotsOrdered([e], ds, ts, e);
    OrderedDistinct([e], ds, ts, WeekSlots(e, ds, ts));
  }
}
