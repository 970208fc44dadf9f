/** The next-worker-id rule of `register_manager` and `add_worker` (app.py, lines 354-355 and
    483-484). `ids` are the values `CAST(worker_id AS INTEGER)` gives for the workers whose id is
    not NULL; SQLite's MAX over them is None when there are none. */
module WorkerIds {
  import opened Lists

  /** SQLite's `MAX`: None over no values. */
  function MaxOf(ids: seq<int>): (m: Option<int>)
    ensures m.None? <==> ids == []
    ensures m.Some? ==> m.value in ids && forall i :: i in ids ==> i <= m.value
  {
    if ids == [] then None
    else
      assert forall i :: i in ids <==> i == ids[0] || i in ids[1..];
      match MaxOf(ids[1..])
      case None => Some(ids[0])
      case Some(rest) => Some(if ids[0] >= rest then ids[0] else rest)
  }

  /** `(int(max_id) if max_id is not None else 9) + 1`. */
  function NextWorkerId(ids: seq<int>): (r: int)
    ensures forall i :: i in ids ==> i < r
    ensures ids == [] ==> r == 10
    ensures ids != [] ==> r - 1 in ids
  {
    match MaxOf(ids)
    case None => 10
    case Some(m) => m + 1
  }

  /** Decimal digits of a natural number, most significant first. */
  function Digits(n: nat): (s: string)
    ensures s != [] && forall i :: 0 <= i < |s| ==> '0' <= s[i] <= '9'
    decreases n
  {
    var d := ['0' + (n % 10) as char];
    if n < 10 then d else Digits(n / 10) + d
  }

  /** `str` of an integer. */
  function Decimal(n: int): (s: string)
    ensures s != [] && forall i :: (if s[0] == '-' then 1 else 0) <= i < |s| ==> '0' <= s[i] <= '9'
  {
    if n < 0 then "-" + Digits(-n) else Digits(n)
  }

  function ParseDigits(s: string): nat
    requires forall i :: 0 <= i < |s| ==> '0' <= s[i] <= '9'
    decreases |s|
  {
    if s == [] then 0 else 10 * ParseDigits(s[..|s| - 1]) + (s[|s| - 1] - '0') as nat
  }

  /** SQLite's integers are 64-bit; its CAST of text saturates at the two ends of that range. */
  const MinInt64: int := -0x8000_0000_0000_0000
  const MaxInt64: int := 0x7FFF_FFFF_FFFF_FFFF

  predicate InInt64(n: int) {
    MinInt64 <= n <= MaxInt64
  }

  function Saturate(n: int): (m: int)
    ensures InInt64(m)
    ensures InInt64(n) ==> m == n
  {
    if n < MinInt64 then MinInt64 else if n > MaxInt64 then MaxInt64 else n
  }

  /** SQLite's CAST of a decimal string to INTEGER, saturating out of range. */
  function ParseDecimal(s: string): int
    requires s != []
    requires forall i :: (if s[0] == '-' then 1 else 0) <= i < |s| ==> '0' <= s[i] <= '9'
  {
    Saturate(if s[0] == '-' then -(ParseDigits(s[1..]) as int) else ParseDigits(s))
  }

  lemma {:induction false} ParseDigitsOfDigits(n: nat)
    ensures ParseDigits(Digits(n)) == n
    decreases n
  {
    var s := Digits(n);
    if n >= 10 {
      ParseDigitsOfDigits(n / 10);
      assert s[..|s| - 1] == Digits(n / 10);
    }
  }

  /** A number written by `str` reads back under CAST as itself when it fits in 64 bits, and as
      the nearer end of the 64-bit range otherwise. */
  lemma StoredIdRoundTrip(n: int)
    ensures ParseDecimal(Decimal(n)) == Saturate(n)
    ensures InInt64(n) ==> ParseDecimal(Decimal(n)) == n
  {
    if n < 0 {
      ParseDigitsOfDigits(-n);
      assert Decimal(n)[1..] == Digits(-n);
    } else {
      ParseDigitsOfDigits(n);
    }
  }

  /** Adding one more value `c` to the ids moves the next id to just above `c` when `c` is at least
      the current largest id. */
  lemma {:induction false} NextAfterAdding(ids: seq<int>, c: int)
    ensures ids == [] ==> NextWorkerId(ids + [c]) == c + 1
    ensures ids != [] ==>
      NextWorkerId(ids + [c]) == if c >= NextWorkerId(ids) - 1 then c + 1 else NextWorkerId(ids)
  {
    var r' := NextWorkerId(ids + [c]);
    assert c in ids + [c];
    assert r' - 1 in ids + [c];
    assert forall i :: i in ids + [c] <==> i in ids || i == c;
    if ids != [] {
      assert NextWorkerId(ids) - 1 in ids + [c];
    }
  }

  /** The new id is unused. Once stored and cast back, it makes the following id one larger, unless
      the largest id is already 9223372036854775807: then the stored text saturates to that value
      and the same id is handed out again. `ids` are values a CAST yields, so they fit in 64 bits. */
  lemma NextWorkerIdFresh(ids: seq<int>)
    requires forall i :: i in ids ==> InInt64(i)
    ensures NextWorkerId(ids) !in ids
    ensures NextWorkerId(ids) <= MaxInt64 ==>
      NextWorkerId(ids + [ParseDecimal(Decimal(NextWorkerId(ids)))]) == NextWorkerId(ids) + 1
    ensures NextWorkerId(ids) > MaxInt64 ==>
      NextWorkerId(ids + [ParseDecimal(Decimal(NextWorkerId(ids)))]) == NextWorkerId(ids)
  {
    var r := NextWorkerId(ids);
    StoredIdRoundTrip(r);
    var c := ParseDecimal(Decimal(r));
    assert ids != [] ==> r - 1 in ids && InInt64(r - 1);
    NextAfterAdding(ids, c);
  }
}
