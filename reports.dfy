/** What the ledger computes from its records: searches, the filter, the summary and the monthly chart. */
module Reports {
  import opened Text
  import opened Records

  /* ------------------------------ Queries ------------------------------ */

  /** Longest query text kept (a 64-byte buffer). */
  const QueryMax: nat := 63
  /** Longest text searched in (a 128-byte buffer). */
  const HayMax: nat := 127

  datatype Field = InCategory | InNote

  /** The searches of the search menu and the expense filter. */
  datatype Query =
    | TextSearch(field: Field, text: string)
    | DateSearch(y: int, m: int, d: int)
    | ExpensesOver(threshold: real)

  function FieldText(t: Transaction, f: Field): string {
    if f == InCategory then t.category else t.note
  }

  /** The query as compared: cut to 63 characters and lower-cased. */
  function Needle(text: string): string {
    LowerStr(Truncate(text, QueryMax))
  }

  /** The searched text as compared: cut to 127 characters and lower-cased. */
  function Haystack(t: Transaction, f: Field): string {
    LowerStr(Truncate(FieldText(t, f), HayMax))
  }

  /** A record matches a query. */
  predicate Matches(t: Transaction, q: Query) {
    match q
    case TextSearch(f, text) => Contains(Haystack(t, f), Needle(text))
    case DateSearch(y, m, d) => t.y == y && t.m == m && t.d == d
    case ExpensesOver(thr) => t.kind == Expense && t.amount > thr
  }

  /** A text search matches exactly when the folded query is a substring of the folded field. */
  lemma TextMatchMeaning(t: Transaction, f: Field, text: string)
    ensures Matches(t, TextSearch(f, text)) <==> Occurs(Needle(text), Haystack(t, f))
  {
    ContainsMeaning(Haystack(t, f), Needle(text));
  }

  /** The case of the query does not matter. */
  lemma SearchIgnoresCase(t: Transaction, f: Field, text: string)
    ensures Matches(t, TextSearch(f, text)) <==> Matches(t, TextSearch(f, LowerStr(text)))
  {
    assert Truncate(LowerStr(text), QueryMax) == LowerStr(Truncate(text, QueryMax));
    LowerStrIdempotent(Truncate(text, QueryMax));
  }

  /** A query longer than 63 characters is compared by its first 63. */
  lemma LongQueryCut(t: Transaction, f: Field, text: string)
    ensures Matches(t, TextSearch(f, text)) <==> Matches(t, TextSearch(f, Truncate(text, QueryMax)))
  {
  }

  /**
   * The indices of the matching records, in store order: each is a matching record, they
   * strictly increase, and no matching record is missed.
   */
  function Hits(s: seq<Transaction>, q: Query): (r: seq<nat>)
    ensures forall k :: 0 <= k < |r| ==> r[k] < |s| && Matches(s[r[k]], q)
    ensures forall k, l :: 0 <= k < l < |r| ==> r[k] < r[l]
    ensures forall i :: 0 <= i < |s| && Matches(s[i], q) ==> i in r
  {
    if s == [] then []
    else
      var last := |s| - 1;
      var init := s[..last];
      var prev := Hits(init, q);
      assert forall i :: 0 <= i < last ==> s[i] == init[i];
      if Matches(s[last], q) then prev + [last] else prev
  }

  /** The matching records themselves, in store order. */
  function Selected(s: seq<Transaction>, q: Query): (r: seq<Transaction>)
    ensures |r| == |Hits(s, q)| && forall k :: 0 <= k < |r| ==> r[k] == s[Hits(s, q)[k]]
    ensures forall t :: t in r <==> t in s && Matches(t, q)
  {
    var h := Hits(s, q);
    var r := seq(|h|, k requires 0 <= k < |h| => s[h[k]]);
    assert forall t :: t in s && Matches(t, q) ==> t in r by {
      forall t | t in s && Matches(t, q) ensures t in r {
        var i :| 0 <= i < |s| && s[i] == t;
        var k :| 0 <= k < |h| && h[k] == i;
        assert r[k] == t;
      }
    }
    r
  }

  /** The empty query matches every record. */
  lemma EmptyQueryMatches(t: Transaction, f: Field)
    ensures Matches(t, TextSearch(f, ""))
  {
    assert Needle("") == "";
    EmptyNeedle(Haystack(t, f));
  }

  /** An empty query matches every record, so the search lists the whole store. */
  lemma {:induction false} EmptyQueryHitsAll(s: seq<Transaction>, f: Field)
    ensures |Hits(s, TextSearch(f, ""))| == |s|
    ensures forall k :: 0 <= k < |s| ==> Hits(s, TextSearch(f, ""))[k] == k
  {
    if s != [] {
      var q, last := TextSearch(f, ""), |s| - 1;
      var prev := Hits(s[..last], q);
      EmptyQueryHitsAll(s[..last], f);
      EmptyQueryMatches(s[last], f);
      assert Hits(s, q) == prev + [last];
      forall k | 0 <= k < |s| ensures (prev + [last])[k] == k {
        if k < last {
          assert (prev + [last])[k] == prev[k];
        }
      }
    }
  }

  /** The filter lists exactly the expenses strictly above the threshold. */
  lemma FilterMeaning(s: seq<Transaction>, thr: real, i: int)
    requires 0 <= i < |s|
    ensures i in Hits(s, ExpensesOver(thr)) <==> s[i].kind == Expense && s[i].amount > thr
  {
  }

  /* ------------------------------ Summary ------------------------------ */

  /** The sum of the income amounts. */
  function IncomeTotal(s: seq<Transaction>): (r: real)
    ensures (forall i :: 0 <= i < |s| ==> s[i].amount >= 0.0) ==> r >= 0.0
  {
    if s == [] then 0.0
    else IncomeTotal(s[..|s| - 1]) + (if s[|s| - 1].kind == Income then s[|s| - 1].amount else 0.0)
  }

  /** The sum of all other amounts, the expenses. */
  function ExpenseTotal(s: seq<Transaction>): (r: real)
    ensures (forall i :: 0 <= i < |s| ==> s[i].amount >= 0.0) ==> r >= 0.0
  {
    if s == [] then 0.0
    else ExpenseTotal(s[..|s| - 1]) + (if s[|s| - 1].kind == Income then 0.0 else s[|s| - 1].amount)
  }

  /** One record's share of each total. */
  function IncomeOf(t: Transaction): real {
    if t.kind == Income then t.amount else 0.0
  }

  function ExpenseOf(t: Transaction): real {
    if t.kind == Income then 0.0 else t.amount
  }

  /** Totals add up over consecutive parts of the store. */
  lemma {:induction false} TotalsConcat(a: seq<Transaction>, b: seq<Transaction>)
    ensures IncomeTotal(a + b) == IncomeTotal(a) + IncomeTotal(b)
    ensures ExpenseTotal(a + b) == ExpenseTotal(a) + ExpenseTotal(b)
    decreases |b|
  {
    if b == [] {
      assert a + b == a;
    } else {
      var b' := b[..|b| - 1];
      assert (a + b)[..|a + b| - 1] == a + b';
      TotalsConcat(a, b');
    }
  }

  /** Appending one income of amount A raises the income, and so the savings, by exactly A. */
  lemma AppendIncomeRaisesSavings(s: seq<Transaction>, t: Transaction)
    requires t.kind == Income
    ensures IncomeTotal(s + [t]) == IncomeTotal(s) + t.amount
    ensures ExpenseTotal(s + [t]) == ExpenseTotal(s)
    ensures IncomeTotal(s + [t]) - ExpenseTotal(s + [t]) == IncomeTotal(s) - ExpenseTotal(s) + t.amount
  {
    assert (s + [t])[..|s|] == s;
  }

  /** A sequence is its part before i, its element at i and its part after i. */
  lemma SplitAround<T>(s: seq<T>, i: int)
    requires 0 <= i < |s|
    ensures s == s[..i] + [s[i]] + s[i + 1..]
  {
  }

  /** One more record adds its share to each total. */
  lemma TotalsSnoc(s: seq<Transaction>, t: Transaction)
    ensures IncomeTotal(s + [t]) == IncomeTotal(s) + IncomeOf(t)
    ensures ExpenseTotal(s + [t]) == ExpenseTotal(s) + ExpenseOf(t)
  {
    assert (s + [t])[..|s|] == s;
  }

  /** Removing the record at i takes exactly its amount off its total. */
  lemma DeleteTotals(s: seq<Transaction>, i: int)
    requires 0 <= i < |s|
    ensures IncomeTotal(s[..i] + s[i + 1..]) == IncomeTotal(s) - IncomeOf(s[i])
    ensures ExpenseTotal(s[..i] + s[i + 1..]) == ExpenseTotal(s) - ExpenseOf(s[i])
  {
    var p, q := s[..i], s[i + 1..];
    var pt := p + [s[i]];
    SplitAround(s, i);
    TotalsConcat(pt, q);
    TotalsConcat(p, q);
    TotalsSnoc(p, s[i]);
  }

  /** Taking out the record at j takes one copy of it out of the multiset. */
  lemma RemoveOne(b: seq<Transaction>, j: int)
    requires 0 <= j < |b|
    ensures multiset(b[..j] + b[j + 1..]) == multiset(b) - multiset{b[j]}
  {
    assert b == b[..j] + [b[j]] + b[j + 1..];
  }

  /** Reordering the store, as sorting does, leaves both totals unchanged. */
  lemma {:induction false} TotalsPermutation(a: seq<Transaction>, b: seq<Transaction>)
    requires multiset(a) == multiset(b)
    ensures IncomeTotal(a) == IncomeTotal(b) && ExpenseTotal(a) == ExpenseTotal(b)
    decreases |a|
  {
    if a != [] {
      var n := |a| - 1;
      assert a[n] in multiset(b);
      var j :| 0 <= j < |b| && b[j] == a[n];
      RemoveOne(a, n);
      RemoveOne(b, j);
      assert a[..n] + a[n + 1..] == a[..n];
      TotalsPermutation(a[..n], b[..j] + b[j + 1..]);
      DeleteTotals(b, j);
      DeleteTotals(a, n);
    } else {
      assert b == [];
    }
  }

  /* ------------------------------ Monthly chart ------------------------------ */

  /** Width of the longest bar. */
  const MaxWidth: nat := 50

  /** The C code's bucket test: an expense of the chosen year with a month in 1..12. */
  predicate InBucket(t: Transaction, year: int, m: int) {
    t.kind == Expense && t.y == year && 1 <= t.m <= 12 && t.m == m
  }

  /** Bucket m: the sum of the chosen year's expenses in month m. */
  function MonthSum(s: seq<Transaction>, year: int, m: int): (r: real)
    ensures (forall i :: 0 <= i < |s| ==> s[i].amount >= 0.0) ==> r >= 0.0
  {
    if s == [] then 0.0
    else
      assert forall i :: 0 <= i < |s| - 1 ==> s[..|s| - 1][i] == s[i];
      MonthSum(s[..|s| - 1], year, m) + (if InBucket(s[|s| - 1], year, m) then s[|s| - 1].amount else 0.0)
  }

  /** The twelve buckets, January first. */
  function Buckets(s: seq<Transaction>, year: int): (b: seq<real>)
    ensures |b| == 12 && forall k :: 0 <= k < 12 ==> b[k] == MonthSum(s, year, k + 1)
  {
    seq(12, k requires 0 <= k < 12 => MonthSum(s, year, k + 1))
  }

  /** The largest bucket, starting from 0 as the C loop does. */
  function MaxBucket(b: seq<real>): (r: real)
    ensures r >= 0.0
    ensures forall k :: 0 <= k < |b| ==> b[k] <= r
    ensures r == 0.0 || r in b
  {
    if b == [] then 0.0
    else
      var prev := MaxBucket(b[..|b| - 1]);
      assert forall k :: 0 <= k < |b| - 1 ==> b[k] == b[..|b| - 1][k];
      assert prev in b[..|b| - 1] ==> prev in b;
      if b[|b| - 1] > prev then b[|b| - 1] else prev
  }

  /** The sum of the buckets. */
  function SumOf(b: seq<real>): real {
    if b == [] then 0.0 else SumOf(b[..|b| - 1]) + b[|b| - 1]
  }

  /** C's cast of a `double` to `int`: truncation toward zero. */
  function TruncToZero(x: real): (i: int)
    ensures x >= 0.0 ==> 0 <= i && i as real <= x < i as real + 1.0
    ensures x < 0.0 ==> i <= 0 && i as real - 1.0 < x <= i as real
  {
    if x >= 0.0 then x.Floor else -((-x).Floor)
  }

  /**
   * The bar for one month, `(int)(sum / maxv * 50 + 0.5)` clamped at 0: never negative, at most
   * 50 for a bucket no larger than the maximum, and exactly 50 for the maximum itself.
   */
  function BarLength(sum: real, maxv: real): (r: int)
    requires maxv > 0.0
    ensures r >= 0
    ensures 0.0 <= sum <= maxv ==> r <= MaxWidth
    ensures sum == maxv ==> r == MaxWidth
  {
    var ratio := sum / maxv;
    assert 0.0 <= sum <= maxv ==> ratio <= 1.0 by {
      if 0.0 <= sum <= maxv && ratio > 1.0 {
        assert false;
      }
    }
    assert sum == maxv ==> ratio == 1.0;
    var bar := TruncToZero(ratio * 50.0 + 0.5);
    if bar < 0 then 0 else bar
  }

  /** The bar of every bucket. */
  function BarLengths(b: seq<real>, maxv: real): (r: seq<int>)
    requires maxv > 0.0
    ensures |r| == |b| && forall k :: 0 <= k < |b| ==> r[k] == BarLength(b[k], maxv)
  {
    seq(|b|, k requires 0 <= k < |b| => BarLength(b[k], maxv))
  }

  /** With a positive maximum bucket, every bar fits in 0..50 and the largest month's bar is exactly 50. */
  lemma BarsScaled(b: seq<real>)
    requires forall k :: 0 <= k < |b| ==> b[k] >= 0.0
    requires MaxBucket(b) > 0.0
    ensures forall k :: 0 <= k < |b| ==> 0 <= BarLengths(b, MaxBucket(b))[k] <= MaxWidth
    ensures exists k :: 0 <= k < |b| && BarLengths(b, MaxBucket(b))[k] == MaxWidth
  {
    var maxv := MaxBucket(b);
    var k :| 0 <= k < |b| && b[k] == maxv;
    assert BarLengths(b, maxv)[k] == MaxWidth;
  }

  /** What the chart operation reports. */
  datatype Chart =
    | NoData
    | NoExpenses
    | Bars(sums: seq<real>, maxv: real, total: real, bars: seq<int>)

  /** The sum of the chosen year's expenses. */
  function YearExpense(s: seq<Transaction>, year: int): real {
    if s == [] then 0.0
    else
      var t := s[|s| - 1];
      YearExpense(s[..|s| - 1], year) + (if t.kind == Expense && t.y == year then t.amount else 0.0)
  }

  /** Adding delta to one bucket adds delta to the sum. */
  lemma {:induction false} SumOfBump(a: seq<real>, b: seq<real>, j: int, delta: real)
    requires |a| == |b| && 0 <= j < |a|
    requires forall k :: 0 <= k < |a| && k != j ==> b[k] == a[k]
    requires b[j] == a[j] + delta
    ensures SumOf(b) == SumOf(a) + delta
  {
    var n := |a| - 1;
    if j == n {
      assert a[..n] == b[..n];
    } else {
      SumOfBump(a[..n], b[..n], j, delta);
    }
  }

  lemma {:induction false} SumOfZeros(b: seq<real>)
    requires forall k :: 0 <= k < |b| ==> b[k] == 0.0
    ensures SumOf(b) == 0.0
  {
    if b != [] {
      SumOfZeros(b[..|b| - 1]);
    }
  }

  /** On a store of valid dates, the chart's total is the sum of that year's expenses. */
  lemma {:induction false} MonthlyTotalIsYearExpense(s: seq<Transaction>, year: int)
    requires forall i :: 0 <= i < |s| ==> 1 <= s[i].m <= 12
    ensures SumOf(Buckets(s, year)) == YearExpense(s, year)
  {
    if s == [] {
      SumOfZeros(Buckets(s, year));
    } else {
      var p, t := s[..|s| - 1], s[|s| - 1];
      assert forall i :: 0 <= i < |p| ==> p[i] == s[i];
      MonthlyTotalIsYearExpense(p, year);
      var a, b := Buckets(p, year), Buckets(s, year);
      if t.kind == Expense && t.y == year {
        SumOfBump(a, b, t.m - 1, t.amount);
      } else {
        assert a == b;
      }
    }
  }
}
