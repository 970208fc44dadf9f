/** Small facts about sequences shared by the scheduler and the request handlers. */
module Lists {

  datatype Option<+T> = None | Some(value: T)

  /** Every element occurs at most once. */
  predicate Distinct<T(==)>(s: seq<T>) {
    forall i, j :: 0 <= i < j < |s| ==> s[i] != s[j]
  }

  /** The position of the first occurrence of `v` in `s` (what Python's `list.index` returns),
      and `|s|` when `v` does not occur. */
  function IndexOf<T(==)>(s: seq<T>, v: T): (k: nat)
    ensures k <= |s|
    ensures k < |s| <==> v in s
    ensures k < |s| ==> s[k] == v && forall j :: 0 <= j < k ==> s[j] != v
  {
    if s == [] then 0
    else if s[0] == v then 0
    else 1 + IndexOf(s[1..], v)
  }

  /** In a duplicate-free list, the first occurrence of `s[i]` is at `i`. */
  lemma IndexOfDistinct<T>(s: seq<T>, i: nat)
    requires Distinct(s) && i < |s|
    ensures IndexOf(s, s[i]) == i
  {
  }

  /** An element of the first `k` entries is first found before position `k`. */
  lemma IndexOfInPrefix<T>(s: seq<T>, k: nat, v: T)
    requires k <= |s| && v in s[..k]
    ensures IndexOf(s, v) < k
  {
    var j :| 0 <= j < k && s[..k][j] == v;
    assert s[j] == v;
  }

  /** The cells of `cs` that the set `on` switches on, in the order of `cs`
      (the list comprehension `[c for c in cs if c in on]`). */
  function Chosen<T>(cs: seq<T>, on: set<T>): seq<T> {
    if cs == [] then []
    else (if cs[0] in on then [cs[0]] else []) + Chosen(cs[1..], on)
  }

  lemma {:induction false} ChosenMembers<T>(cs: seq<T>, on: set<T>)
    ensures forall x :: x in Chosen(cs, on) <==> x in cs && x in on
  {
    if cs != [] {
      ChosenMembers(cs[1..], on);
      assert forall x :: x in cs <==> x == cs[0] || x in cs[1..];
    }
  }

  lemma {:induction false} ChosenDistinct<T>(cs: seq<T>, on: set<T>)
    requires Distinct(cs)
    ensures Distinct(Chosen(cs, on))
  {
    if cs != [] {
      var rest := Chosen(cs[1..], on);
      ChosenDistinct(cs[1..], on);
      ChosenMembers(cs[1..], on);
      assert cs[0] !in cs[1..];
      DistinctCons(cs[0], rest);
    }
  }

  /** Switching on more cells never switches on fewer of them. */
  lemma {:induction false} ChosenMonotone<T>(cs: seq<T>, a: set<T>, b: set<T>)
    requires forall x :: x in cs && x in a ==> x in b
    ensures |Chosen(cs, a)| <= |Chosen(cs, b)|
  {
    if cs != [] {
      ChosenMonotone(cs[1..], a, b);
    }
  }

  /** A cell of `cs` that is on makes the count positive. */
  lemma ChosenPositive<T>(cs: seq<T>, on: set<T>, x: T)
    requires x in cs && x in on
    ensures |Chosen(cs, on)| >= 1
  {
    ChosenMembers(cs, on);
  }

  lemma DistinctCons<T>(h: T, t: seq<T>)
    requires Distinct(t) && h !in t
    ensures Distinct([h] + t)
  {
    var s := [h] + t;
    forall i, j | 0 <= i < j < |s| ensures s[i] != s[j] {
      assert s[j] == t[j - 1];
      if i > 0 {
        assert s[i] == t[i - 1];
      }
    }
  }

  function Elements<T>(s: seq<T>): set<T> {
    set x | x in s
  }

  lemma {:induction false} DistinctCardinality<T>(s: seq<T>)
    requires Distinct(s)
    ensures |Elements(s)| == |s|
  {
    if s != [] {
      var t := s[1..];
      assert Distinct(t) by {
        forall i, j | 0 <= i < j < |t| ensures t[i] != t[j] {
          assert t[i] == s[i + 1] && t[j] == s[j + 1];
        }
      }
      DistinctCardinality(t);
      assert Elements(s) == {s[0]} + Elements(t) by {
        assert forall x :: x in s <==> x == s[0] || x in t;
      }
      assert s[0] !in Elements(t);
    }
  }

  /** Two duplicate-free lists with the same elements have the same length. */
  lemma SameElementsSameLength<T>(a: seq<T>, b: seq<T>)
    requires Distinct(a) && Distinct(b)
    requires forall x :: x in a <==> x in b
    ensures |a| == |b|
  {
    DistinctCardinality(a);
    DistinctCardinality(b);
    assert Elements(a) == Elements(b);
  }
}
