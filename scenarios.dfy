/** Worked examples of the ledger's rules on concrete records and lines. */
module Scenarios {
  import opened Options
  import opened Dates
  import opened Text
  import opened Records
  import opened Codec
  import opened Reports

  const Food := Transaction(2025, 1, 15, Expense, "Food", 50.0, "")
  const Rent := Transaction(2025, 2, 1, Expense, "Rent", 950.0, "")
  const Salary := Transaction(2025, 1, 20, Income, "Salary", 2000.0, "")

  /** The three records are what entering January food, February rent and January salary stores. */
  lemma EnteredAsGiven()
    ensures MakeRecord(2025, 1, 15, Expense, "Food", 50.0, "") == Food
    ensures MakeRecord(2025, 2, 1, Expense, "Rent", 950.0, "") == Rent
    ensures MakeRecord(2025, 1, 20, Income, "Salary", 2000.0, "") == Salary
  {
    MakeRecordKeepsCleanText(2025, 1, 15, Expense, "Food", 50.0, "");
    MakeRecordKeepsCleanText(2025, 2, 1, Expense, "Rent", 950.0, "");
    MakeRecordKeepsCleanText(2025, 1, 20, Income, "Salary", 2000.0, "");
  }

  /** Month k of 2025 holds 50 in January, 950 in February and nothing otherwise. */
  lemma MonthSumsOfScenario(k: int)
    ensures MonthSum([Food, Rent, Salary], 2025, k) == if k == 1 then 50.0 else if k == 2 then 950.0 else 0.0
  {
    var s := [Food, Rent, Salary];
    assert s[..2] == [Food, Rent] && s[..2][..1] == [Food] && [Food][..0] == [];
    assert MonthSum([Food], 2025, k) == if k == 1 then 50.0 else 0.0;
    assert MonthSum([Food, Rent], 2025, k) == MonthSum([Food], 2025, k) + if k == 2 then 950.0 else 0.0;
  }

  /** The 2025 buckets of those entries: 50 in January, 950 in February, the maximum 950 and the total 1000. */
  lemma MonthlyScenario()
    ensures Buckets([Food, Rent, Salary], 2025) == [50.0, 950.0, 0.0, 0.0, 0.0, 0.0, 0.0, 0.0, 0.0, 0.0, 0.0, 0.0]
    ensures MaxBucket(Buckets([Food, Rent, Salary], 2025)) == 950.0
    ensures SumOf(Buckets([Food, Rent, Salary], 2025)) == 1000.0
    ensures BarLengths(Buckets([Food, Rent, Salary], 2025), 950.0) == [3, 50, 0, 0, 0, 0, 0, 0, 0, 0, 0, 0]
  {
    var b := Buckets([Food, Rent, Salary], 2025);
    var zeros := seq(12, _ => 0.0);
    var expected := zeros[0 := 50.0][1 := 950.0];
    forall k | 0 <= k < 12 ensures b[k] == expected[k] {
      MonthSumsOfScenario(k + 1);
    }
    assert b == expected;
    assert expected == [50.0, 950.0, 0.0, 0.0, 0.0, 0.0, 0.0, 0.0, 0.0, 0.0, 0.0, 0.0];
    SumOfZeros(zeros);
    SumOfBump(zeros, zeros[0 := 50.0], 0, 50.0);
    SumOfBump(zeros[0 := 50.0], expected, 1, 950.0);
    assert b[1] == 950.0;
    var bars := BarLengths(b, 950.0);
    assert BarLength(50.0, 950.0) == 3;
    assert BarLength(0.0, 950.0) == 0;
    assert bars == [3, 50, 0, 0, 0, 0, 0, 0, 0, 0, 0, 0];
  }

  /** "foo" is found in the folded category "food". */
  lemma FoodMatches()
    ensures Matches(Food, TextSearch(InCategory, "foo"))
  {
    assert Needle("foo") == "foo";
    assert Haystack(Food, InCategory) == "food" by {
      assert Truncate("Food", HayMax) == "Food";
    }
    assert "food"[..3] == "foo";
  }

  /** "foo" is not found in the folded category "rent". */
  lemma RentMisses()
    ensures !Matches(Rent, TextSearch(InCategory, "foo"))
  {
    assert Needle("foo") == "foo";
    assert Haystack(Rent, InCategory) == "rent" by {
      assert Truncate("Rent", HayMax) == "Rent";
    }
    assert "rent"[..3][0] != 'f' && "rent"[1..] == "ent";
    assert "ent"[..3][0] != 'f' && "ent"[1..] == "nt";
  }

  /** "foo" is not found in the folded category "salary". */
  lemma SalaryMisses()
    ensures !Matches(Salary, TextSearch(InCategory, "foo"))
  {
    assert Needle("foo") == "foo";
    assert Haystack(Salary, InCategory) == "salary" by {
      assert Truncate("Salary", HayMax) == "Salary";
    }
    assert "salary"[..3][0] != 'f' && "salary"[1..] == "alary";
    assert "alary"[..3][0] != 'f' && "alary"[1..] == "lary";
    assert "lary"[..3][0] != 'f' && "lary"[1..] == "ary";
    assert "ary"[..3][0] != 'f' && "ary"[1..] == "ry";
  }

  /** "foo" matches the category "Food" and neither "Rent" nor "Salary". */
  lemma FooMatchesFoodOnly()
    ensures Matches(Food, TextSearch(InCategory, "foo"))
    ensures !Matches(Rent, TextSearch(InCategory, "foo"))
    ensures !Matches(Salary, TextSearch(InCategory, "foo"))
  {
    FoodMatches();
    RentMisses();
    SalaryMisses();
  }

  /** A category search for "foo" finds the record whose category is "Food", and no other. */
  lemma SearchScenario()
    ensures Hits([Food, Rent, Salary], TextSearch(InCategory, "foo")) == [0]
  {
    var s, q := [Food, Rent, Salary], TextSearch(InCategory, "foo");
    assert s[..2] == [Food, Rent] && s[..2][..1] == [Food] && [Food][..0] == [];
    FooMatchesFoodOnly();
    assert Hits([], q) == [];
    assert Hits([Food], q) == [0];
    assert Hits([Food, Rent], q) == [0];
  }

  /* ------------------------------ Loading ------------------------------ */

  const Lunch := Transaction(2025, 1, 15, Expense, "Food", 50.0, "lunch")

  lemma YearText()
    ensures FormatInt(2025) == "2025"
  {
    assert IntStr(2) == "2";
    assert IntStr(20) == IntStr(2) + "0";
    assert IntStr(202) == IntStr(20) + "2";
    assert IntStr(2025) == IntStr(202) + "5";
  }

  lemma AmountText()
    ensures FormatAmount(50.0) == "50.00"
  {
    assert HalfUpCents(50.0) == 5000;
    assert IntStr(50) == IntStr(5) + "0";
  }

  /** The line saved for the lunch record, field by field. */
  lemma LunchFields()
    ensures EncodeLine(Lunch) == "2025" + "|" + ("1" + "|" + ("15" + "|" + ("1" + "|" + ("Food" + "|" + ("50.00" + "|" + "lunch")))))
  {
    YearText();
    AmountText();
    assert FormatInt(15) == "15" by {
      assert IntStr(15) == IntStr(1) + "5";
    }
    assert FormatInt(1) == "1";
  }

  /** A line that does not start with a number yields nothing. */
  lemma GarbageDropped()
    ensures DecodeLine("abc|garbage") == None
  {
    assert DigitRun("abc|garbage") == 0;
  }

  lemma LunchStorable()
    ensures Storable(Lunch)
  {
    assert ValidDate(2025, 1, 15);
  }

  /** The lunch line reads back as the lunch record. */
  lemma LunchDecoded()
    ensures DecodeLine(EncodeLine(Lunch)) == Some(Lunch)
  {
    LunchStorable();
    LineRoundTrip(Lunch);
    RoundCentsExact(50.0);
  }

  /** The malformed line is one line of its own. */
  lemma GarbageSplit()
    ensures SplitLines("abc|garbage") == ["abc|garbage"]
  {
    assert NoNewline("abc|garbage");
  }

  /** The text splits into the lunch line and the malformed line. */
  lemma TwoLines()
    ensures SplitLines(EncodeLine(Lunch) + "\n" + "abc|garbage") == [EncodeLine(Lunch), "abc|garbage"]
  {
    LunchStorable();
    EncodeLineNoNewline(Lunch);
    SplitLinesCons(EncodeLine(Lunch), "abc|garbage");
    GarbageSplit();
  }

  /** Loading a good line and a malformed one keeps the good record only; the bad line is not fatal. */
  lemma LoadScenario()
    ensures Loaded(EncodeLine(Lunch) + "\n" + "abc|garbage") == [Lunch]
  {
    TwoLines();
    LunchDecoded();
    GarbageDropped();
    var lines := [EncodeLine(Lunch), "abc|garbage"];
    assert lines[..1] == [EncodeLine(Lunch)] && lines[..1][..0] == [];
    assert DecodeLines(lines) == [Lunch];
  }

  const Gift := Transaction(2025, 3, 1, Income, "Gift", 0.0, "")

  lemma GiftStorable()
    ensures Storable(Gift)
  {
    assert ValidDate(2025, 3, 1);
  }

  /** Zero is saved as `0.00`. */
  lemma ZeroText()
    ensures FormatAmount(0.0) == "0.00"
  {
    assert HalfUpCents(0.0) == 0;
  }

  /** A record of amount zero, which entering refuses, loads back from its saved line. */
  lemma ZeroAmountLoads()
    ensures DecodeLine(EncodeLine(Gift)) == Some(Gift)
  {
    GiftStorable();
    LineRoundTrip(Gift);
    RoundCentsExact(0.0);
  }
}
