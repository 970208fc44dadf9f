/** The display orderings of `view_constraints_api` (app.py, lines 855-863) and `view_schedule_api`
    (app.py, lines 928-930): the rows a query returns, sorted by Python's stable `sorted` under a
    key of (day index, slot index, name). */
module RowOrdering {
  import opened Lists

  /** One joined row: worker id, worker name, day label, slot label. */
  datatype Row = Row(workerId: string, name: string, day: string, time: string)

  /** A sort key, compared as a Python tuple. */
  datatype SortKey = SortKey(day: int, time: int, name: string)

  /** Lines 855-856 and 928-929. */
  const DayOrder: seq<string> := ["ראשון", "שני", "שלישי", "רביעי", "חמישי", "שישי", "שבת"]
  const TimeOrder: seq<string> := ["בוקר", "צהריים", "ערב", "לילה"]

  /** The index `sort_key` gives a label that is not in its list. */
  const Unknown: int := 999

  /** Python's `<=` on strings: code point by code point, a proper prefix first. */
  predicate StrLe(a: string, b: string) {
    a == [] || (b != [] && (a[0] < b[0] || (a[0] == b[0] && StrLe(a[1..], b[1..]))))
  }

  lemma {:induction false} StrLeTotal(a: string, b: string)
    ensures StrLe(a, b) || StrLe(b, a)
  {
    if a != [] && b != [] && a[0] == b[0] {
      StrLeTotal(a[1..], b[1..]);
    }
  }

  lemma {:induction false} StrLeTrans(a: string, b: string, c: string)
    requires StrLe(a, b) && StrLe(b, c)
    ensures StrLe(a, c)
  {
    if a != [] && a[0] == b[0] && b[0] == c[0] {
      StrLeTrans(a[1..], b[1..], c[1..]);
    }
  }

  /** Python's `<=` on (int, int, str) tuples. */
  predicate KeyLe(a: SortKey, b: SortKey) {
    a.day < b.day || (a.day == b.day && (a.time < b.time || (a.time == b.time && StrLe(a.name, b.name))))
  }

  lemma KeyLeTotal(a: SortKey, b: SortKey)
    ensures KeyLe(a, b) || KeyLe(b, a)
  {
    StrLeTotal(a.name, b.name);
  }

  lemma KeyLeTrans(a: SortKey, b: SortKey, c: SortKey)
    requires KeyLe(a, b) && KeyLe(b, c)
    ensures KeyLe(a, c)
  {
    if a.day == b.day == c.day && a.time == b.time == c.time {
      StrLeTrans(a.name, b.name, c.name);
    }
  }

  predicate SortedBy(rows: seq<Row>, key: Row -> SortKey) {
    forall i, j :: 0 <= i < j < |rows| ==> KeyLe(key(rows[i]), key(rows[j]))
  }

  /** The rows whose key is `k`, in their order. */
  function WithKey(rows: seq<Row>, key: Row -> SortKey, k: SortKey): seq<Row> {
    if rows == [] then []
    else (if key(rows[0]) == k then [rows[0]] else []) + WithKey(rows[1..], key, k)
  }

  /** Places `x` before the first row whose key is not below its own. */
  function Insert(x: Row, s: seq<Row>, key: Row -> SortKey): seq<Row> {
    if s == [] || KeyLe(key(x), key(s[0])) then [x] + s else [s[0]] + Insert(x, s[1..], key)
  }

  lemma {:induction false} InsertMultiset(x: Row, s: seq<Row>, key: Row -> SortKey)
    ensures multiset(Insert(x, s, key)) == multiset([x] + s)
  {
    if s != [] && !KeyLe(key(x), key(s[0])) {
      InsertMultiset(x, s[1..], key);
      assert s == [s[0]] + s[1..];
    }
  }

  lemma {:induction false} InsertSorted(x: Row, s: seq<Row>, key: Row -> SortKey)
    requires SortedBy(s, key)
    ensures SortedBy(Insert(x, s, key), key)
  {
    var r := Insert(x, s, key);
    if s == [] {
    } else if KeyLe(key(x), key(s[0])) {
      forall j | 0 < j < |r| ensures KeyLe(key(r[0]), key(r[j])) {
        if j > 1 {
          KeyLeTrans(key(x), key(s[0]), key(s[j - 1]));
        }
      }
    } else {
      var rest := Insert(x, s[1..], key);
      InsertSorted(x, s[1..], key);
      InsertMultiset(x, s[1..], key);
      KeyLeTotal(key(x), key(s[0]));
      forall j | 0 < j < |r| ensures KeyLe(key(r[0]), key(r[j])) {
        assert r[j] == rest[j - 1];
        assert r[j] in multiset([x] + s[1..]);
        if r[j] != x {
          var k :| 0 <= k < |s[1..]| && s[1..][k] == r[j];
          assert s[k + 1] == r[j];
        }
      }
    }
  }

  /** Rows with another key are passed over, and `x` goes before every row with its own key;
      this is what makes the sort stable. */
  lemma {:induction false} InsertWithKey(x: Row, s: seq<Row>, key: Row -> SortKey, k: SortKey)
    ensures WithKey(Insert(x, s, key), key, k) == (if key(x) == k then [x] else []) + WithKey(s, key, k)
  {
    var r := Insert(x, s, key);
    if s == [] || KeyLe(key(x), key(s[0])) {
      assert r[1..] == s;
    } else {
      assert key(s[0]) != key(x) by {
        StrLeTotal(key(x).name, key(x).name);
      }
      InsertWithKey(x, s[1..], key, k);
      assert r[1..] == Insert(x, s[1..], key);
      assert s == [s[0]] + s[1..];
      assert WithKey(s, key, k) == (if key(s[0]) == k then [s[0]] else []) + WithKey(s[1..], key, k);
    }
  }

  /** Python's `sorted(rows, key=key)`, as an insertion sort. */
  function SortBy(rows: seq<Row>, key: Row -> SortKey): seq<Row> {
    if rows == [] then [] else Insert(rows[0], SortBy(rows[1..], key), key)
  }

  /** The sort returns a permutation of its input, ordered by key, and keeps rows of equal key in
      their input order. */
  lemma {:induction false} SortByCorrect(rows: seq<Row>, key: Row -> SortKey)
    ensures multiset(SortBy(rows, key)) == multiset(rows)
    ensures SortedBy(SortBy(rows, key), key)
    ensures forall k :: WithKey(SortBy(rows, key), key, k) == WithKey(rows, key, k)
  {
    if rows != [] {
      SortByCorrect(rows[1..], key);
      InsertMultiset(rows[0], SortBy(rows[1..], key), key);
      InsertSorted(rows[0], SortBy(rows[1..], key), key);
      assert rows == [rows[0]] + rows[1..];
      forall k ensures WithKey(SortBy(rows, key), key, k) == WithKey(rows, key, k) {
        InsertWithKey(rows[0], SortBy(rows[1..], key), key, k);
      }
    }
  }

  /** Position of a label in its list, or 999 (lines 859-860). */
  function LabelIndex(order: seq<string>, name: string): (i: int)
    ensures name in order ==> 0 <= i < |order| && order[i] == name
    ensures name !in order ==> i == Unknown
  {
    if name in order then IndexOf(order, name) else Unknown
  }

  /** `sort_key` of lines 858-861. */
  function ConstraintKey(r: Row): SortKey {
    SortKey(LabelIndex(DayOrder, r.day), LabelIndex(TimeOrder, r.time), r.name)
  }

  /** Line 863. */
  function ViewConstraintsOrder(rows: seq<Row>): (r: seq<Row>)
    ensures multiset(r) == multiset(rows)
    ensures forall i, j :: 0 <= i < j < |r| ==> KeyLe(ConstraintKey(r[i]), ConstraintKey(r[j]))
    ensures forall k :: WithKey(r, ConstraintKey, k) == WithKey(rows, ConstraintKey, k)
  {
    SortByCorrect(rows, ConstraintKey);
    SortBy(rows, ConstraintKey)
  }

  /** In any order sorted by `sort_key`, known day labels precede unknown ones, and within one day
      label known slot labels precede unknown ones. */
  lemma KnownLabelsFirst(r: seq<Row>)
    requires SortedBy(r, ConstraintKey)
    ensures forall i, j :: 0 <= i < |r| && 0 <= j < |r| && r[i].day in DayOrder && r[j].day !in DayOrder ==> i < j
    ensures forall i, j :: (0 <= i < |r| && 0 <= j < |r| && r[i].day == r[j].day
      && r[i].time in TimeOrder && r[j].time !in TimeOrder) ==> i < j
  {
    forall i, j | 0 <= i < |r| && 0 <= j < |r| && r[i].day in DayOrder && r[j].day !in DayOrder
      ensures i < j
    {
      var a, b := ConstraintKey(r[i]), ConstraintKey(r[j]);
      assert a.day < 7 && b.day == Unknown;
      assert j < i ==> KeyLe(b, a);
    }
    forall i, j | 0 <= i < |r| && 0 <= j < |r| && r[i].day == r[j].day
        && r[i].time in TimeOrder && r[j].time !in TimeOrder
      ensures i < j
    {
      var a, b := ConstraintKey(r[i]), ConstraintKey(r[j]);
      assert a.day == b.day && a.time < 4 && b.time == Unknown;
      assert j < i ==> KeyLe(b, a);
    }
  }

  /** A row whose day is not in the day list comes after every row whose day is; among rows of one
      day label, a row whose slot is not in the slot list comes after every row whose slot is. */
  lemma UnknownLabelsLast(rows: seq<Row>)
    ensures var r := ViewConstraintsOrder(rows);
      && (forall i, j :: 0 <= i < |r| && 0 <= j < |r| && r[i].day in DayOrder && r[j].day !in DayOrder ==> i < j)
      && (forall i, j :: (0 <= i < |r| && 0 <= j < |r| && r[i].day == r[j].day
            && r[i].time in TimeOrder && r[j].time !in TimeOrder) ==> i < j)
  {
    KnownLabelsFirst(ViewConstraintsOrder(rows));
  }

  /** The key of line 930 with a constant name, so tuples compare on the two indices alone. */
  function ScheduleKey(r: Row): SortKey {
    SortKey(IndexOf(DayOrder, r.day), IndexOf(TimeOrder, r.time), "")
  }

  predicate KnownLabels(r: Row) {
    r.day in DayOrder && r.time in TimeOrder
  }

  /** Line 930: None when `.index` raises ValueError for some row's label. */
  function ViewScheduleOrder(rows: seq<Row>): (r: Option<seq<Row>>)
    ensures r.None? <==> exists x :: x in rows && !KnownLabels(x)
    ensures r.Some? ==> multiset(r.value) == multiset(rows)
    ensures r.Some? ==> forall i, j :: 0 <= i < j < |r.value| ==>
      var a, b := r.value[i], r.value[j];
      IndexOf(DayOrder, a.day) < IndexOf(DayOrder, b.day)
      || (IndexOf(DayOrder, a.day) == IndexOf(DayOrder, b.day) && IndexOf(TimeOrder, a.time) <= IndexOf(TimeOrder, b.time))
    ensures r.Some? ==> forall k :: WithKey(r.value, ScheduleKey, k) == WithKey(rows, ScheduleKey, k)
  {
    if forall x :: x in rows ==> KnownLabels(x) then
      SortByCorrect(rows, ScheduleKey);
      Some(SortBy(rows, ScheduleKey))
    else
      None
  }
}
