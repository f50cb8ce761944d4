/** A channel's activity record: how many games were played on each day number, the update
    that counts one more game today and forgets old days, and the weighted score over the
    last seven days. */
module Activity {
  import Text

  /** How many days `update` keeps by default. */
  const Preserve := 7

  /** The number of days the score weighs. */
  const Length := 7

  /** `(1 << (Length - 1)) - 1`: the weights of the score add up to this. */
  const Denominator := 63

  /** The count of a day, absent days counting 0. */
  function At(a: map<int, int>, d: int): (r: int)
    ensures d in a ==> r == a[d]
    ensures d !in a ==> r == 0
  {
    if d in a then a[d] else 0
  }

  /** The count `back` days before `date`. */
  function Day(a: map<int, int>, date: int, back: int): int
  {
    At(a, date - back)
  }

  /** The days after `limit`, with their counts. */
  function Recent(a: map<int, int>, limit: int): (r: map<int, int>)
    ensures forall k :: k in r <==> k in a && k > limit
    ensures forall k :: k in r ==> r[k] == a[k]
  {
    map k | k in a && k > limit :: a[k]
  }

  /** The record and the returned count after counting a game on day `date`: a day already
      counted goes up by one and nothing else changes; a new day starts at 1 after every day
      `preserve` or more days back has been dropped. */
  function Updated(a: map<int, int>, date: int, preserve: int): (r: (map<int, int>, int))
    ensures date in r.0 && r.1 == r.0[date]
    ensures At(a, date) != 0 ==> r.1 == a[date] + 1 && r.0.Keys == a.Keys
    ensures At(a, date) == 0 ==> r.1 == 1
    ensures forall k :: k in r.0 && k != date ==> k in a && r.0[k] == a[k]
    ensures forall k :: k in a && k > date - preserve ==> k in r.0
    ensures At(a, date) == 0 ==> forall k :: k in r.0 ==> k == date || k > date - preserve
  {
    if At(a, date) != 0 then (a[date := a[date] + 1], a[date] + 1)
    else (Recent(a, date - preserve)[date := 1], 1)
  }

  /** Every counted day has played at least one game. */
  predicate Positive(a: map<int, int>)
  {
    forall k :: k in a ==> a[k] >= 1
  }

  /** `n` games counted on the same day, one after another. */
  function Repeated(a: map<int, int>, date: int, preserve: int, n: nat): map<int, int>
  {
    if n == 0 then a else Updated(Repeated(a, date, preserve, n - 1), date, preserve).0
  }

  lemma UpdateKeepsPositive(a: map<int, int>, date: int, preserve: int)
    requires Positive(a)
    ensures Positive(Updated(a, date, preserve).0)
  {
    var r := Updated(a, date, preserve).0;
    forall k | k in r
      ensures r[k] >= 1
    {
      if k != date {
        assert k in a && r[k] == a[k];
      }
    }
  }

  /** On a record of positive counts, `n` games on one day raise that day's count by exactly
      `n`, and every day after the cut-off keeps its count. */
  lemma {:induction false} RepeatedTally(a: map<int, int>, date: int, preserve: int, n: nat)
    requires Positive(a)
    ensures Positive(Repeated(a, date, preserve, n))
    ensures At(Repeated(a, date, preserve, n), date) == At(a, date) + n
    ensures forall k :: k in a && k > date - preserve && k != date ==>
      k in Repeated(a, date, preserve, n) && Repeated(a, date, preserve, n)[k] == a[k]
  {
    if n > 0 {
      RepeatedTally(a, date, preserve, n - 1);
      var b := Repeated(a, date, preserve, n - 1);
      UpdateKeepsPositive(b, date, preserve);
      assert Repeated(a, date, preserve, n) == Updated(b, date, preserve).0;
    }
  }

  /** JavaScript's `ToInt32`: the integer reduced to a signed 32-bit value. */
  function Wrap32(x: int): (r: int)
    ensures -0x8000_0000 <= r < 0x8000_0000
    ensures (r - x) % 0x1_0000_0000 == 0
  {
    var u := x % 0x1_0000_0000;
    if u >= 0x8000_0000 then u - 0x1_0000_0000 else u
  }

  function Pow2(n: nat): (r: nat)
    ensures r >= 1
  {
    if n == 0 then 1 else 2 * Pow2(n - 1)
  }

  /** JavaScript's `x << n` for a shift below 32: both the operand and the result are taken
      to signed 32 bits. */
  function Shl32(x: int, n: nat): int
    requires n < 32
  {
    Wrap32(Wrap32(x) * Pow2(n))
  }

  /** A shift that stays below 2^31 is exact. */
  lemma ShlExact(x: int, n: nat)
    requires 0 <= x < 0x400_0000 && n <= 5
    ensures Shl32(x, n) == x * Pow2(n)
  {
    assert Pow2(n) <= 32 by {
      assert Pow2(0) == 1 && Pow2(1) == 2 && Pow2(2) == 4 && Pow2(3) == 8 && Pow2(4) == 16 && Pow2(5) == 32;
    }
    assert Wrap32(x) == x;
    assert 0 <= x * Pow2(n) <= x * 32 < 0x8000_0000;
  }

  /** The running total after the days `1 .. n - 1` before `date`, each shifted left by
      `Length - offset - 2`. */
  function Weighted(a: map<int, int>, date: int, n: nat): int
    requires n <= Length - 1
  {
    if n <= 1 then 0 else Weighted(a, date, n - 1) + Shl32(At(a, date - (n - 1)), Length - (n - 1) - 2)
  }

  /** The activity score: exact when today's weighting is at least yesterday's, otherwise
      the two weighted sums that the clock interpolates between. */
  datatype Score = Exact(value: real) | Interpolated(value1: int, value2: int)

  /** The weighted sum ending yesterday: twice the total plus the sixth day back. */
  function Value1(a: map<int, int>, date: int): int
  {
    Weighted(a, date, Length - 1) * 2 + At(a, date - Length + 1)
  }

  /** The weighted sum ending today: the total plus today shifted left by `Length - 2`. */
  function Value2(a: map<int, int>, date: int): int
  {
    Weighted(a, date, Length - 1) + Shl32(At(a, date), Length - 2)
  }

  function Scored(a: map<int, int>, date: int): Score
  {
    var value1 := Value1(a, date);
    var value2 := Value2(a, date);
    if value1 <= value2 then Exact(value2 as real / Denominator as real) else Interpolated(value1, value2)
  }

  /** Every count fits comfortably below the 32-bit shift limit. */
  predicate Small(a: map<int, int>, date: int)
  {
    forall i :: 0 <= i < Length ==> 0 <= Day(a, date, i) < 0x400_0000
  }

  /** With counts below 2^26 the shifts are exact: the total weighs the five days before
      `date` by 16, 8, 4, 2 and 1; yesterday's sum weighs the six days before by 32 down to
      1, today's sum weighs today by 32 and the five days before by 16 down to 1. */
  lemma {:induction false} ClosedForm(a: map<int, int>, date: int)
    requires Small(a, date)
    ensures Weighted(a, date, Length - 1) ==
      16 * Day(a, date, 1) + 8 * Day(a, date, 2) + 4 * Day(a, date, 3) + 2 * Day(a, date, 4) + Day(a, date, 5)
    ensures Value1(a, date) ==
      32 * Day(a, date, 1) + 16 * Day(a, date, 2) + 8 * Day(a, date, 3) + 4 * Day(a, date, 4) +
      2 * Day(a, date, 5) + Day(a, date, 6)
    ensures Value2(a, date) ==
      32 * Day(a, date, 0) + 16 * Day(a, date, 1) + 8 * Day(a, date, 2) + 4 * Day(a, date, 3) +
      2 * Day(a, date, 4) + Day(a, date, 5)
  {
    var x0, x1, x2, x3, x4, x5 := Day(a, date, 0), Day(a, date, 1), Day(a, date, 2), Day(a, date, 3),
      Day(a, date, 4), Day(a, date, 5);
    assert 0 <= x0 < 0x400_0000 && 0 <= x1 < 0x400_0000 && 0 <= x2 < 0x400_0000;
    assert 0 <= x3 < 0x400_0000 && 0 <= x4 < 0x400_0000 && 0 <= x5 < 0x400_0000;
    ShlTable(x1, x2, x3, x4, x5, x0);
    assert Weighted(a, date, 2) == 16 * x1;
    assert Weighted(a, date, 3) == 16 * x1 + 8 * x2;
    assert Weighted(a, date, 4) == 16 * x1 + 8 * x2 + 4 * x3;
    assert Weighted(a, date, 5) == 16 * x1 + 8 * x2 + 4 * x3 + 2 * x4;
    assert Weighted(a, date, 6) == 16 * x1 + 8 * x2 + 4 * x3 + 2 * x4 + x5;
  }

  /** The shifts the score uses, on counts below 2^26. */
  lemma ShlTable(x1: int, x2: int, x3: int, x4: int, x5: int, x0: int)
    requires 0 <= x0 < 0x400_0000 && 0 <= x1 < 0x400_0000 && 0 <= x2 < 0x400_0000
    requires 0 <= x3 < 0x400_0000 && 0 <= x4 < 0x400_0000 && 0 <= x5 < 0x400_0000
    ensures Shl32(x1, 4) == 16 * x1 && Shl32(x2, 3) == 8 * x2 && Shl32(x3, 2) == 4 * x3
    ensures Shl32(x4, 1) == 2 * x4 && Shl32(x5, 0) == x5 && Shl32(x0, 5) == 32 * x0
  {
    assert Pow2(0) == 1 && Pow2(1) == 2 && Pow2(2) == 4 && Pow2(3) == 8 && Pow2(4) == 16 && Pow2(5) == 32;
    ShlExact(x1, 4);
    ShlExact(x2, 3);
    ShlExact(x3, 2);
    ShlExact(x4, 1);
    ShlExact(x5, 0);
    ShlExact(x0, 5);
  }

  /** The score is a weighted average: with every count of the window at most `m`, an
      exact score lies between 0 and `m`. */
  lemma ScoreBounded(a: map<int, int>, date: int, m: int)
    requires Small(a, date)
    requires forall i :: 0 <= i < Length ==> Day(a, date, i) <= m
    ensures Scored(a, date).Exact? ==> 0.0 <= Scored(a, date).value <= m as real
  {
    ClosedForm(a, date);
    assert 0 <= Day(a, date, 0) <= m && 0 <= Day(a, date, 1) <= m && 0 <= Day(a, date, 2) <= m;
    assert 0 <= Day(a, date, 3) <= m && 0 <= Day(a, date, 4) <= m && 0 <= Day(a, date, 5) <= m;
    var v2 := Value2(a, date);
    assert 0 <= v2 <= 63 * m;
    if Scored(a, date).Exact? {
      assert Scored(a, date).value == v2 as real / 63.0;
    }
  }

  /** Seven days of the same count score exactly that count. */
  lemma SteadyScore(a: map<int, int>, date: int, c: int)
    requires 0 <= c < 0x400_0000
    requires forall i :: 0 <= i < Length ==> Day(a, date, i) == c
    ensures Scored(a, date) == Exact(c as real)
  {
    assert Small(a, date);
    ClosedForm(a, date);
    assert Day(a, date, 0) == c && Day(a, date, 1) == c && Day(a, date, 2) == c;
    assert Day(a, date, 3) == c && Day(a, date, 4) == c && Day(a, date, 5) == c && Day(a, date, 6) == c;
    assert Value1(a, date) == 63 * c && Value2(a, date) == 63 * c;
    assert (63 * c) as real / 63.0 == c as real;
  }

  /** The score is exact exactly when today, weighed by 32, outweighs the five days before
      it (weighed by 16 down to 1) together with the sixth day back. */
  lemma ExactWhen(a: map<int, int>, date: int)
    requires Small(a, date)
    ensures Scored(a, date).Exact? <==>
      16 * Day(a, date, 1) + 8 * Day(a, date, 2) + 4 * Day(a, date, 3) + 2 * Day(a, date, 4) +
      Day(a, date, 5) + Day(a, date, 6) <= 32 * Day(a, date, 0)
  {
    ClosedForm(a, date);
  }

  /** The activity record as the host stores it, changed in place. */
  class Activity {
    var counts: map<int, int>

    constructor ()
      ensures counts == map[] && Valid()
    {
      counts := map[];
    }

    ghost predicate Valid()
      reads this
    {
      Positive(counts)
    }

    /** Counts one game on day `date` and returns that day's new count. */
    method Update(date: int, preserve: int) returns (r: int)
      modifies this
      ensures (counts, r) == Updated(old(counts), date, preserve)
      ensures old(Valid()) ==> Valid()
    {
      var a0 := counts;
      if Positive(a0) {
        UpdateKeepsPositive(a0, date, preserve);
      }
      if date in counts && counts[date] != 0 {
        counts := counts[date := counts[date] + 1];
        return counts[date];
      }
      Prune(date - preserve);
      counts := counts[date := 1];
      r := 1;
    }

    /** Drops every day up to `limit`. */
    method Prune(limit: int)
      modifies this
      ensures counts == Recent(old(counts), limit)
    {
      var a0 := counts;
      var dates := Text.Elements(counts.Keys);
      for i := 0 to |dates|
        invariant forall k :: k in counts <==> k in a0 && (k !in dates[..i] || k > limit)
        invariant forall k :: k in counts ==> counts[k] == a0[k]
      {
        assert dates[..i + 1] == dates[..i] + [dates[i]];
        if dates[i] <= limit {
          counts := counts - {dates[i]};
        }
      }
      assert dates[..|dates|] == dates;
      forall k | k in a0
        ensures k in dates
      {
        assert k in Text.ToSet(dates);
      }
      forall k
        ensures k in counts <==> k in Recent(a0, limit)
      {
        if k in a0 {
          assert k in dates[..|dates|];
        }
      }
    }

    /** The activity score for day `date`. */
    method Get(date: int) returns (s: Score)
      ensures s == Scored(counts, date)
    {
      var total := 0;
      for offset := 1 to Length - 1
        invariant total == Weighted(counts, date, offset)
      {
        var count := if date - offset in counts then counts[date - offset] else 0;
        total := total + Shl32(count, Length - offset - 2);
      }
      var value1 := total * 2 + (if date - Length + 1 in counts then counts[date - Length + 1] else 0);
      var value2 := total + Shl32(if date in counts then counts[date] else 0, Length - 2);
      if value1 <= value2 {
        s := Exact(value2 as real / Denominator as real);
      } else {
        s := Interpolated(value1, value2);
      }
    }
  }
}
