/** The transaction record, the limits of the store, the record built on entry, and the two sort orders. */
module Records {
  import opened Dates
  import opened Text

  /** Capacity of the store (`MAX_TRANSACTIONS`). */
  const MaxTransactions: nat := 2000
  /** Longest category kept: the 64-byte buffer less its terminator. */
  const CategoryMax: nat := 63
  /** Longest note kept: the 128-byte buffer less its terminator. */
  const NoteMax: nat := 127

  datatype TxType = Income | Expense

  /** One ledger entry; the amount is exact, where the source holds a `double`. */
  datatype Transaction = Transaction(
    y: int, m: int, d: int,
    kind: TxType,
    category: string,
    amount: real,
    note: string)

  /** A line of text as `read_line` delivers it: no newline inside. */
  predicate NoNewline(s: string) {
    '\n' !in s
  }

  /**
   * What every record in the store satisfies, whether it was entered or loaded: a valid date,
   * a non-negative amount, a non-empty category of at most 63 characters without `|`, and a
   * note of at most 127 characters; neither text holds a newline.
   */
  predicate Storable(t: Transaction) {
    && ValidDate(t.y, t.m, t.d)
    && t.amount >= 0.0
    && 1 <= |t.category| <= CategoryMax
    && '|' !in t.category
    && NoNewline(t.category)
    && |t.note| <= NoteMax
    && NoNewline(t.note)
  }

  /** The category used when none is entered. */
  function DefaultCategory(kind: TxType): (r: string)
    ensures r != [] && '|' !in r && NoNewline(r)
  {
    if kind == Income then "Salary" else "Misc"
  }

  /**
   * The record that entering a transaction stores: an empty category becomes the default for
   * its type, every `|` in category and note becomes `/`, and both texts are cut to fit.
   */
  function MakeRecord(y: int, m: int, d: int, kind: TxType, category: string, amount: real, note: string): (t: Transaction)
    requires NoNewline(category) && NoNewline(note)
    ensures t.y == y && t.m == m && t.d == d && t.kind == kind && t.amount == amount
    ensures category == [] ==> t.category == DefaultCategory(kind)
    ensures category != [] ==> |t.category| == if |category| <= CategoryMax then |category| else CategoryMax
    ensures category != [] ==> forall i :: 0 <= i < |t.category| ==> t.category[i] == Unpiped(category[i])
    ensures |t.note| == if |note| <= NoteMax then |note| else NoteMax
    ensures forall i :: 0 <= i < |t.note| ==> t.note[i] == Unpiped(note[i])
    ensures t.category != [] && '|' !in t.category && '|' !in t.note
    ensures ValidDate(y, m, d) && amount >= 0.0 ==> Storable(t)
  {
    var cat := if category == [] then DefaultCategory(kind) else category;
    Transaction(y, m, d, kind, Truncate(Sanitize(cat), CategoryMax), amount, Truncate(Sanitize(note), NoteMax))
  }

  /** Text without `|` and short enough is stored exactly as entered. */
  lemma MakeRecordKeepsCleanText(y: int, m: int, d: int, kind: TxType, category: string, amount: real, note: string)
    requires NoNewline(category) && NoNewline(note)
    requires 1 <= |category| <= CategoryMax && '|' !in category
    requires |note| <= NoteMax && '|' !in note
    ensures MakeRecord(y, m, d, kind, category, amount, note).category == category
    ensures MakeRecord(y, m, d, kind, category, amount, note).note == note
  {
    var t := MakeRecord(y, m, d, kind, category, amount, note);
    assert t.category == category by {
      forall i | 0 <= i < |category| ensures t.category[i] == category[i] {
        assert category[i] != '|';
      }
    }
    assert t.note == note by {
      forall i | 0 <= i < |note| ensures t.note[i] == note[i] {
        assert note[i] != '|';
      }
    }
  }

  /* ----------------------------- Ordering ----------------------------- */

  /** `cmp_date`: three-way comparison of (year, month, day). */
  function CmpDate(a: Transaction, b: Transaction): (r: int)
    ensures r == -1 || r == 0 || r == 1
    ensures r == 0 <==> (a.y, a.m, a.d) == (b.y, b.m, b.d)
    ensures r < 0 <==> a.y < b.y || (a.y == b.y && (a.m < b.m || (a.m == b.m && a.d < b.d)))
  {
    if a.y != b.y then (if a.y < b.y then -1 else 1)
    else if a.m != b.m then (if a.m < b.m then -1 else 1)
    else if a.d != b.d then (if a.d < b.d then -1 else 1)
    else 0
  }

  /** `cmp_amount_desc`: larger amounts first. */
  function CmpAmountDesc(a: Transaction, b: Transaction): (r: int)
    ensures r == -1 || r == 0 || r == 1
    ensures r < 0 <==> a.amount > b.amount
    ensures r == 0 <==> a.amount == b.amount
  {
    if a.amount < b.amount then 1
    else if a.amount > b.amount then -1
    else 0
  }

  datatype SortKey = ByDate | ByAmountDesc

  function Compare(key: SortKey, a: Transaction, b: Transaction): int {
    match key
    case ByDate => CmpDate(a, b)
    case ByAmountDesc => CmpAmountDesc(a, b)
  }

  /** a may stand before b: the comparator does not put b first. */
  predicate InOrder(key: SortKey, a: Transaction, b: Transaction) {
    Compare(key, a, b) <= 0
  }

  /** Every earlier record may stand before every later one. */
  predicate Ordered(key: SortKey, s: seq<Transaction>) {
    forall i, j :: 0 <= i < j < |s| ==> InOrder(key, s[i], s[j])
  }

  /** Both comparators are antisymmetric: swapping the arguments negates the result. */
  lemma CompareAntisymmetric(key: SortKey, a: Transaction, b: Transaction)
    ensures Compare(key, a, b) == -Compare(key, b, a)
  {
  }

  /** Both comparators induce a total preorder: any two records are comparable, and order is transitive. */
  lemma InOrderTotalPreorder(key: SortKey, a: Transaction, b: Transaction, c: Transaction)
    ensures InOrder(key, a, b) || InOrder(key, b, a)
    ensures InOrder(key, a, b) && InOrder(key, b, c) ==> InOrder(key, a, c)
  {
  }

  /** A date as the number yyyymmdd. */
  function DateNumber(t: Transaction): int {
    t.y * 10000 + t.m * 100 + t.d
  }

  /**
   * What an ordered store means for each key, stated without the comparators: by date, the
   * yyyymmdd numbers of valid dates never decrease; by amount, amounts never increase.
   */
  lemma OrderedMeaning(key: SortKey, s: seq<Transaction>, i: int, j: int)
    requires Ordered(key, s) && 0 <= i < j < |s|
    requires ValidDate(s[i].y, s[i].m, s[i].d) && ValidDate(s[j].y, s[j].m, s[j].d)
    ensures key == ByDate ==> DateNumber(s[i]) <= DateNumber(s[j])
    ensures key == ByAmountDesc ==> s[i].amount >= s[j].amount
  {
    assert InOrder(key, s[i], s[j]);
    ValidDateIff(s[i].y, s[i].m, s[i].d);
    ValidDateIff(s[j].y, s[j].m, s[j].d);
  }
}
