/**
 * The store of the finance tracker: a fixed array of 2000 records of which the first `count`
 * are in use, and the operations of the menu that read or change it.
 */
module Ledger {
  import opened Options
  import opened Dates
  import opened Text
  import opened Records
  import opened Codec
  import opened Reports

  /** How entering a transaction ends. */
  datatype AddResult =
    | Added(total: nat)
    | StorageFull
    | InvalidDate
    | NotPositive

  class Store {
    /** The record array (`txs`). */
    const txs: array<Transaction>
    /** The number of records in use (`txCount`). */
    var count: nat

    /** The array has the capacity, the count fits, and every record in use is storable. */
    ghost predicate Valid()
      reads this, txs
    {
      && txs.Length == MaxTransactions
      && count <= txs.Length
      && forall k :: 0 <= k < count ==> Storable(txs[k])
    }

    /** The records in use, in store order. */
    function Contents(): seq<Transaction>
      reads this, txs
      requires count <= txs.Length
    {
      txs[..count]
    }

    /** The store at program start, before the data file is read. */
    constructor()
      ensures Valid() && Contents() == [] && fresh(txs)
    {
      txs := new Transaction[MaxTransactions](_ => Transaction(1900, 1, 1, Income, "Salary", 0.0, ""));
      count := 0;
    }

    /**
     * `add_transaction`: refuses when the store is full, then when the date is invalid, then when
     * the amount is not positive; otherwise appends the record MakeRecord builds.
     */
    method Append(y: int, m: int, d: int, kind: TxType, category: string, amount: real, note: string)
      returns (r: AddResult)
      requires Valid()
      requires NoNewline(category) && NoNewline(note)
      modifies this, txs
      ensures Valid()
      ensures old(count) >= MaxTransactions ==> r == StorageFull
      ensures old(count) < MaxTransactions && !ValidDate(y, m, d) ==> r == InvalidDate
      ensures old(count) < MaxTransactions && ValidDate(y, m, d) && amount <= 0.0 ==> r == NotPositive
      ensures !r.Added? ==> count == old(count) && Contents() == old(Contents())
      ensures r.Added? <==> old(count) < MaxTransactions && ValidDate(y, m, d) && amount > 0.0
      ensures r.Added? ==> r.total == count == old(count) + 1
      ensures r.Added? ==> Contents() == old(Contents()) + [MakeRecord(y, m, d, kind, category, amount, note)]
    {
      if count >= MaxTransactions {
        return StorageFull;
      }
      if !ValidDate(y, m, d) {
        return InvalidDate;
      }
      var cat := if category == [] then DefaultCategory(kind) else category;
      if amount <= 0.0 {
        return NotPositive;
      }
      var noteBuf := BufferOf(note);
      ReplacePipesInPlace(noteBuf);
      var catBuf := BufferOf(cat);
      ReplacePipesInPlace(catBuf);
      var t := Transaction(y, m, d, kind, Truncate(catBuf[..], CategoryMax), amount, Truncate(noteBuf[..], NoteMax));
      assert t == MakeRecord(y, m, d, kind, category, amount, note);
      txs[count] := t;
      count := count + 1;
      assert Contents() == old(Contents()) + [t];
      r := Added(count);
    }

    /**
     * `delete_by_index`: with an index of a record in use, shifts the later records down by one
     * and drops the last; on an empty store nothing happens.
     */
    method DeleteAt(idx: int) returns (ok: bool)
      requires Valid()
      modifies this, txs
      ensures Valid()
      ensures ok <==> 0 <= idx < old(count)
      ensures !ok ==> count == old(count) && Contents() == old(Contents())
      ensures ok ==> count == old(count) - 1
      ensures ok ==> Contents() == old(Contents())[..idx] + old(Contents())[idx + 1..]
      ensures ok ==> forall i :: 0 <= i < idx ==> txs[i] == old(txs[i])
      ensures ok ==> forall i :: idx <= i < count ==> txs[i] == old(txs[i + 1])
    {
      if !(0 <= idx < count) {
        return false;
      }
      ghost var before := Contents();
      var i := idx;
      while i < count - 1
        invariant txs.Length == MaxTransactions && count == old(count)
        invariant idx <= i <= count - 1
        invariant forall k :: 0 <= k < idx ==> txs[k] == old(txs[k])
        invariant forall k :: idx <= k < i ==> txs[k] == old(txs[k + 1])
        invariant forall k :: i <= k < count ==> txs[k] == old(txs[k])
      {
        txs[i] := txs[i + 1];
        i := i + 1;
      }
      count := count - 1;
      ShiftedDown(before, Contents(), idx);
      ok := true;
    }

    /** Exchanges two neighbouring records in use. */
    method SwapDown(j: int)
      requires Valid() && 0 < j < count
      modifies txs
      ensures Valid()
      ensures txs[..] == old(txs[..])[j - 1 := old(txs[j])][j := old(txs[j - 1])]
      ensures multiset(Contents()) == multiset(old(Contents()))
    {
      ghost var all := txs[..];
      txs[j - 1], txs[j] := txs[j], txs[j - 1];
      assert txs[..] == all[j - 1 := all[j]][j := all[j - 1]];
      SwapPermutes(all, count, j - 1, j);
      assert Contents() == txs[..][..count];
    }

    /**
     * `sort_menu`: reorders the records in use so that each may stand before every later one
     * under the chosen comparator; the records are the same, only their order changes.
     */
    method Sort(key: SortKey)
      requires Valid()
      modifies txs
      ensures Valid() && count == old(count)
      ensures Ordered(key, Contents())
      ensures multiset(Contents()) == multiset(old(Contents()))
    {
      var i := 0;
      while i < count
        invariant Valid()
        invariant 0 <= i <= count
        invariant SortedPrefix(key, txs[..], i)
        invariant multiset(Contents()) == multiset(old(Contents()))
      {
        InsertLast(key, i);
        i := i + 1;
      }
      SortedPrefixOrdered(key, txs[..], count);
      assert txs[..][..count] == Contents();
    }

    /** One step of the insertion sort: moves record i down until the first i + 1 records are in order. */
    method InsertLast(key: SortKey, i: int)
      requires Valid() && 0 <= i < count && SortedPrefix(key, txs[..], i)
      modifies txs
      ensures Valid() && SortedPrefix(key, txs[..], i + 1)
      ensures multiset(Contents()) == multiset(old(Contents()))
    {
      var j := i;
      while j > 0 && !InOrder(key, txs[j - 1], txs[j])
        invariant Valid()
        invariant 0 <= j <= i
        invariant OrderedExcept(key, txs[..], j, i) && BelowAll(key, txs[..], j, i)
        invariant multiset(Contents()) == multiset(old(Contents()))
      {
        ghost var pre := txs[..];
        SwapDown(j);
        InsertStep(key, pre, txs[..], j, i);
        j := j - 1;
      }
      InsertDone(key, txs[..], j, i);
    }

    /** The indices of the records in use that match the query, in store order. */
    method Find(q: Query) returns (hits: seq<nat>)
      requires Valid()
      ensures hits == Hits(Contents(), q)
    {
      var needle := "";
      if q.TextSearch? {
        needle := LoweredCopy(Truncate(q.text, QueryMax));
      }
      hits := [];
      for i := 0 to count
        invariant hits == Hits(txs[..i], q)
      {
        var t := txs[i];
        var hit: bool;
        match q {
          case TextSearch(f, _) =>
            var hay := LoweredCopy(Truncate(FieldText(t, f), HayMax));
            hit := Contains(hay, needle);
          case DateSearch(y, m, d) =>
            hit := t.y == y && t.m == m && t.d == d;
          case ExpensesOver(thr) =>
            hit := t.kind == Expense && t.amount > thr;
        }
        assert txs[..i + 1][..i] == txs[..i];
        if hit {
          hits := hits + [i];
        }
      }
      assert txs[..count] == Contents();
    }

    /** `search_menu` by category or note: the records whose folded text holds the folded query. */
    method SearchText(f: Field, text: string) returns (hits: seq<nat>)
      requires Valid()
      ensures hits == Hits(Contents(), TextSearch(f, text))
      ensures forall i :: 0 <= i < count ==> (i in hits <==> Occurs(Needle(text), Haystack(txs[i], f)))
    {
      hits := Find(TextSearch(f, text));
      forall i | 0 <= i < count
        ensures i in hits <==> Occurs(Needle(text), Haystack(txs[i], f))
      {
        TextMatchMeaning(txs[i], f, text);
      }
    }

    /**
     * `search_menu` by date: on an empty store there is nothing to list; otherwise an invalid date
     * is refused, and a valid one lists the records of exactly that day.
     */
    method SearchDate(y: int, m: int, d: int) returns (r: Option<seq<nat>>)
      requires Valid()
      ensures count == 0 ==> r == Some([])
      ensures count > 0 && !ValidDate(y, m, d) ==> r == None
      ensures count > 0 && ValidDate(y, m, d) ==> r == Some(Hits(Contents(), DateSearch(y, m, d)))
    {
      if count == 0 {
        return Some([]);
      }
      if !ValidDate(y, m, d) {
        return None;
      }
      var hits := Find(DateSearch(y, m, d));
      r := Some(hits);
    }

    /** `filter_expenses_over`: the expenses strictly above the threshold. */
    method FilterExpensesOver(thr: real) returns (hits: seq<nat>)
      requires Valid()
      ensures hits == Hits(Contents(), ExpensesOver(thr))
      ensures forall i :: 0 <= i < count ==> (i in hits <==> txs[i].kind == Expense && txs[i].amount > thr)
    {
      hits := Find(ExpensesOver(thr));
    }

    /** `show_summary`: the income, the expense and their difference over the whole store. */
    method Summary() returns (income: real, expense: real, savings: real)
      requires Valid()
      ensures income == IncomeTotal(Contents())
      ensures expense == ExpenseTotal(Contents())
      ensures savings == income - expense
    {
      income, expense := 0.0, 0.0;
      for i := 0 to count
        invariant income == IncomeTotal(txs[..i])
        invariant expense == ExpenseTotal(txs[..i])
      {
        assert txs[..i + 1][..i] == txs[..i];
        if txs[i].kind == Income {
          income := income + txs[i].amount;
        } else {
          expense := expense + txs[i].amount;
        }
      }
      assert txs[..count] == Contents();
      savings := income - expense;
    }

    /** The first loop of `monthly_spending_chart`: `sums[m]` is the year's expense in month m. */
    method FillBuckets(year: int) returns (sums: array<real>)
      requires Valid()
      ensures fresh(sums) && sums.Length == 13
      ensures sums[1..] == Buckets(Contents(), year)
    {
      sums := new real[13](_ => 0.0);
      for i := 0 to count
        invariant forall k :: 1 <= k <= 12 ==> sums[k] == MonthSum(txs[..i], year, k)
      {
        assert txs[..i + 1][..i] == txs[..i];
        var t := txs[i];
        if t.kind == Expense && t.y == year {
          if 1 <= t.m <= 12 {
            sums[t.m] := sums[t.m] + t.amount;
          }
        }
      }
      assert txs[..count] == Contents();
    }

    /**
     * `monthly_spending_chart`: nothing on an empty store; otherwise the twelve month buckets of
     * the year's expenses, and either the report that they are all zero or the bars scaled to the
     * largest bucket with the total.
     */
    method MonthlyChart(year: int) returns (c: Chart)
      requires Valid()
      ensures count == 0 ==> c == NoData
      ensures count > 0 && MaxBucket(Buckets(Contents(), year)) == 0.0 ==> c == NoExpenses
      ensures count > 0 && MaxBucket(Buckets(Contents(), year)) != 0.0 ==>
                var b := Buckets(Contents(), year);
                c == Bars(b, MaxBucket(b), SumOf(b), BarLengths(b, MaxBucket(b)))
      ensures c.Bars? ==> |c.bars| == 12 && forall k :: 0 <= k < 12 ==> 0 <= c.bars[k] <= MaxWidth
    {
      if count == 0 {
        return NoData;
      }
      var sums := FillBuckets(year);
      ghost var b := Buckets(Contents(), year);
      var maxv := LargestBucket(sums);
      if maxv == 0.0 {
        return NoExpenses;
      }
      var bars := ScaleBars(sums, maxv);
      var total := TotalOf(sums);
      BarsScaled(b);
      c := Bars(sums[1..], maxv, total, bars);
    }

    /** `save_to_file`: the text written, one line per record in store order. */
    method Save() returns (text: string)
      requires Valid()
      ensures text == Serialize(Contents())
    {
      text := "";
      for i := 0 to count
        invariant text == Serialize(txs[..i])
      {
        assert txs[..i + 1] == txs[..i] + [txs[i]];
        SerializeSnoc(txs[..i], txs[i]);
        text := text + EncodeLine(txs[i]) + "\n";
      }
      assert txs[..count] == Contents();
    }

    /**
     * One pass of the read loop of `load_from_file`: a parsed record is stored at position n
     * while the store has room; otherwise nothing changes.
     */
    method Keep(r: Option<Transaction>, n: nat, ghost before: seq<Transaction>) returns (n': nat)
      requires txs.Length == MaxTransactions
      requires n == Min(|before|, MaxTransactions) && txs[..n] == before[..n]
      modifies txs
      ensures n' == Min(|before + Kept(r)|, MaxTransactions)
      ensures txs[..n'] == (before + Kept(r))[..n']
    {
      n' := n;
      if r.Some? && n < MaxTransactions {
        txs[n] := r.value;
        assert txs[..n + 1] == before + [r.value];
        n' := n + 1;
      } else if r.Some? {
        assert (before + [r.value])[..n] == before[..n];
      } else {
        assert before + [] == before;
      }
    }

    /**
     * The read loop of `load_from_file`: each line that yields a record is written over the array
     * from the front, until the capacity is reached; later records are dropped.
     */
    method ReadRecords(lines: seq<string>) returns (n: nat)
      requires txs.Length == MaxTransactions
      modifies txs
      ensures n == Min(|DecodeLines(lines)|, MaxTransactions)
      ensures txs[..n] == DecodeLines(lines)[..n]
    {
      n := 0;
      for i := 0 to |lines|
        invariant n == Min(|DecodeLines(lines[..i])|, MaxTransactions)
        invariant txs[..n] == DecodeLines(lines[..i])[..n]
      {
        DecodeLinesStep(lines, i);
        var r := DecodeLine(lines[i]);
        n := Keep(r, n, DecodeLines(lines[..i]));
      }
      assert lines[..|lines|] == lines;
    }

    /**
     * `load_from_file`: when the file cannot be opened (None) the store is left alone; otherwise
     * it holds exactly the records Loaded keeps from the file's text.
     */
    method Load(file: Option<string>) returns (ok: bool)
      requires Valid()
      modifies this, txs
      ensures Valid()
      ensures ok <==> file.Some?
      ensures !ok ==> count == old(count) && Contents() == old(Contents())
      ensures ok ==> Contents() == Loaded(file.value)
    {
      if file.None? {
        return false;
      }
      var n := ReadRecords(SplitLines(file.value));
      assert txs[..n] == Loaded(file.value);
      count := n;
      assert forall k :: 0 <= k < count ==> txs[k] == Loaded(file.value)[k];
      ok := true;
    }
  }

  /** The second loop of `monthly_spending_chart`: the largest of buckets 1..12, starting from 0. */
  method LargestBucket(sums: array<real>) returns (maxv: real)
    requires sums.Length == 13
    ensures maxv == MaxBucket(sums[1..])
  {
    maxv := 0.0;
    for m := 1 to 13
      invariant maxv == MaxBucket(sums[1..m])
    {
      assert sums[1..m + 1][..m - 1] == sums[1..m];
      if sums[m] > maxv {
        maxv := sums[m];
      }
    }
    assert sums[1..13] == sums[1..];
  }

  /** The bar loop of `monthly_spending_chart`: each bucket scaled to the largest. */
  method ScaleBars(sums: array<real>, maxv: real) returns (bars: seq<int>)
    requires sums.Length == 13 && maxv > 0.0
    ensures bars == BarLengths(sums[1..], maxv)
  {
    bars := [];
    for m := 1 to 13
      invariant bars == BarLengths(sums[1..m], maxv)
    {
      var bar := TruncToZero(sums[m] / maxv * (MaxWidth as real) + 0.5);
      if bar < 0 {
        bar := 0;
      }
      bars := bars + [bar];
    }
    assert sums[1..13] == sums[1..];
  }

  /** The total loop of `monthly_spending_chart`. */
  method TotalOf(sums: array<real>) returns (total: real)
    requires sums.Length == 13
    ensures total == SumOf(sums[1..])
  {
    total := 0.0;
    for m := 1 to 13
      invariant total == SumOf(sums[1..m])
    {
      assert sums[1..m + 1][..m - 1] == sums[1..m];
      total := total + sums[m];
    }
    assert sums[1..13] == sums[1..];
  }

  function Min(a: int, b: int): int {
    if a <= b then a else b
  }

  /** A sequence that agrees with a before idx and with a shifted by one from idx is a without a[idx]. */
  lemma ShiftedDown(a: seq<Transaction>, b: seq<Transaction>, idx: int)
    requires 0 <= idx < |a| && |b| == |a| - 1
    requires forall k :: 0 <= k < idx ==> b[k] == a[k]
    requires forall k :: idx <= k < |b| ==> b[k] == a[k + 1]
    ensures b == a[..idx] + a[idx + 1..]
  {
  }

  /* ---------------------- Insertion-sort invariants ---------------------- */

  /** The first n entries stand in order. */
  ghost predicate SortedPrefix(key: SortKey, s: seq<Transaction>, n: int)
    requires 0 <= n <= |s|
  {
    forall k, l :: 0 <= k < l < n ==> InOrder(key, s[k], s[l])
  }

  /** Entries 0..i stand in order, leaving out entry j, the one being moved down. */
  ghost predicate OrderedExcept(key: SortKey, s: seq<Transaction>, j: int, i: int)
    requires 0 <= j <= i < |s|
  {
    forall k, l :: 0 <= k < l <= i && k != j && l != j ==> InOrder(key, s[k], s[l])
  }

  /** Entry j may stand before every entry after it up to i. */
  ghost predicate BelowAll(key: SortKey, s: seq<Transaction>, j: int, i: int)
    requires 0 <= j <= i < |s|
  {
    forall l :: j < l <= i ==> InOrder(key, s[j], s[l])
  }

  /** Swapping the moved entry with an earlier one that should stand after it keeps both invariants one place down. */
  lemma InsertStep(key: SortKey, pre: seq<Transaction>, post: seq<Transaction>, j: int, i: int)
    requires 0 < j <= i < |pre| == |post|
    requires OrderedExcept(key, pre, j, i) && BelowAll(key, pre, j, i)
    requires !InOrder(key, pre[j - 1], pre[j])
    requires post == pre[j - 1 := pre[j]][j := pre[j - 1]]
    ensures OrderedExcept(key, post, j - 1, i) && BelowAll(key, post, j - 1, i)
  {
    InOrderTotalPreorder(key, pre[j - 1], pre[j], pre[j]);
    forall l | j - 1 < l <= i ensures InOrder(key, post[j - 1], post[l]) {
      if l > j {
        assert post[l] == pre[l];
      }
    }
    forall k, l | 0 <= k < l <= i && k != j - 1 && l != j - 1 ensures InOrder(key, post[k], post[l]) {
      assert post[k] == if k == j then pre[j - 1] else pre[k];
      assert post[l] == if l == j then pre[j - 1] else pre[l];
    }
  }

  /** When the moved entry has reached its place, the first i + 1 entries are in order. */
  lemma InsertDone(key: SortKey, s: seq<Transaction>, j: int, i: int)
    requires 0 <= j <= i < |s|
    requires OrderedExcept(key, s, j, i) && BelowAll(key, s, j, i)
    requires j == 0 || InOrder(key, s[j - 1], s[j])
    ensures SortedPrefix(key, s, i + 1)
  {
    forall k, l | 0 <= k < l <= i ensures InOrder(key, s[k], s[l]) {
      if l == j && k < j - 1 {
        InOrderTotalPreorder(key, s[k], s[j - 1], s[j]);
      }
    }
  }

  lemma SortedPrefixOrdered(key: SortKey, s: seq<Transaction>, n: int)
    requires 0 <= n <= |s| && SortedPrefix(key, s, n)
    ensures Ordered(key, s[..n])
  {
  }

  /** Exchanging two entries of a sequence within its first n keeps the multiset of those n. */
  lemma SwapPermutes(s: seq<Transaction>, n: int, i: int, j: int)
    requires 0 <= i < j < n <= |s|
    ensures multiset(s[i := s[j]][j := s[i]][..n]) == multiset(s[..n])
  {
    var p := s[..n];
    assert s[i := s[j]][j := s[i]][..n] == p[i := p[j]][j := p[i]];
  }
}
