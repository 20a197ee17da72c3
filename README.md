# Personal finance tracker: the transaction store, in Dafny

This project models the core of a single-file personal finance tracker. The tracker keeps up to
2000 income and expense records in a fixed array with a record count. It lets the user add,
delete, sort, search and filter them, summarise them, chart one year's monthly expenses, and
save and load them as a `|`-separated text file.

The model has eight modules:

- `Options`: the optional value that parsing and loading return, usable with `:-`.
- `Dates`: the calendar check `valid_date`, Gregorian leap years included.
- `Text`: the text helpers:
  - `to_lower_str`, as an in-place buffer loop;
  - the in-place loop that replaces `|` by `/`;
  - truncation the way `strncpy` into a fixed buffer does it;
  - `strstr` as a search over start positions.
- `Records`: the record, the store's limits (2000 records, 63-character categories,
  127-character notes), the record that entering a transaction builds, and the two comparators.
- `Codec`: the saved line `y|m|d|type|category|amount|note`, and the loader.
  - `printf`'s `%d` and `%.2f` are modelled.
  - The loader models the `sscanf` grammar `%d|%d|%d|%d|%63[^|]|%lf|%127[^\n]`.
  - A line is kept only when at least six conversions match, the date is valid and the amount is at least 0.
  - At most 2000 records are kept, in file order.
- `Reports`: the matching rules of the searches and the filter, the summary totals, and the monthly buckets with their maximum, total and bar lengths.
- `Ledger`: the store itself.
  - A class `Store` holds the array `txs` and the field `count`.
  - Its methods are the menu operations, each with the source's loop.
  - Each method is proved against the functions of the modules above.
- `Scenarios`: worked examples on concrete records:
  - the monthly totals of three entries;
  - a case-insensitive search;
  - a load that drops a malformed line;
  - a zero amount that entering refuses but loading accepts.

Amounts are exact `real`s where the program uses `double`. Saving prints an amount rounded to
cents (halves away from zero). So the save/load round trip gives every record back with its
amount rounded to two decimals. It is the identity on amounts that are already whole cents
(`Codec.SaveLoadIdentity`).

Four behaviours of the code are worth stating, because a reader might expect otherwise:

- Sorting calls the C library's `qsort`, which promises no stability. So no stability is claimed: `Ledger.Store.Sort` is ordered and the same multiset, nothing more.
- Saving prints amounts with `%.2f`. So an amount entered with more than two decimals comes back rounded, and the save/load round trip is the identity only on whole-cent amounts.
- The date search reports an empty store before it reads or checks the date (`Ledger.Store.SearchDate`).
- Entering a record replaces every `|` by `/`, but loading reads the note with `%127[^\n]`, which accepts `|`. So a loaded note can hold the field delimiter, and `Records.Storable` allows it there. A category never holds one, because its scanset stops at `|`.

## Model

| member | source | states |
|---|---|---|
| Dates.IsLeap | financetracker.c:76 | a definition: the leap-year rule, divisible by 4 and not by 100, or by 400; its meaning for dates is `Dates.LeapDay` |
| Dates.DaysInMonth | financetracker.c:75-77 | a definition: the month-length table, February 29 days in a leap year; `Dates.ValidDateIff` states it month by month |
| Dates.ValidDate | financetracker.c:72-80 | the calendar check: year 1900..3000, month 1..12, day from 1 to the length of the month, February 29 in leap years |
| Dates.ValidDateIff | financetracker.c:72-80 | a date is valid exactly when the year is in 1900..3000, the month in 1..12, and the day is 1..28, or 29 outside a non-leap February, or 30 outside February, or 31 in a 31-day month |
| Dates.LeapDay | financetracker.c:76-77 | February 29 is valid exactly in the leap years (divisible by 4 and not by 100, or by 400) of the supported range |
| Dates.LeapExamples | financetracker.c:72-80 | 1900 and 2100 have no February 29, 2000 and 2024 do; April 31 and years outside 1900..3000 are refused |
| Text.Lower | financetracker.c:166 | `tolower` changes exactly the ASCII capitals, each to its small letter, and leaves no capital |
| Text.LowerStr | financetracker.c:165-167 | case folding keeps the length and folds every character |
| Text.LowerStrIdempotent | financetracker.c:165-167 | folding twice is folding once |
| Text.ToLowerInPlace | financetracker.c:165-167 | the in-place loop leaves the buffer equal to the folded original |
| Text.Unpiped | financetracker.c:110-111 | one character after replacement is never `\|`, and any other character is kept |
| Text.Sanitize | financetracker.c:110-111 | replacing pipes keeps the length, leaves no `\|`, and changes only `\|` characters (to `/`) |
| Text.ReplacePipesInPlace | financetracker.c:110-111 | the in-place loop leaves the buffer equal to the sanitised original |
| Text.SanitizeKeepsOthers | financetracker.c:110-111 | sanitising introduces no character other than `/` |
| Text.Truncate | financetracker.c:114-115 | the kept text is a prefix of at most n characters, all of the text when it fits and exactly n otherwise |
| Text.LoweredCopy | financetracker.c:177 | the folded copy of a query or field is its lower-case form |
| Reports.FieldText | financetracker.c:182-186 | a definition: the searched field, the category or the note |
| Reports.Needle | financetracker.c:177 | a definition: the query cut to 63 characters and lower-cased; `Reports.LongQueryCut` and `Reports.SearchIgnoresCase` state its effect |
| Reports.Haystack | financetracker.c:182-188 | a definition: the searched field cut to 127 characters and lower-cased; `Reports.TextMatchMeaning` states how it is compared |
| Text.Contains | financetracker.c:189 | the `strstr` test: the needle matches at the start of the haystack or, while it fits, further on |
| Text.ContainsMeaning | financetracker.c:189 | the substring test holds exactly when the needle occurs at some position of the haystack |
| Text.EmptyNeedle | financetracker.c:189 | the substring test finds the empty needle in every haystack |
| Records.DefaultCategory | financetracker.c:102 | the default category is non-empty, pipe-free and one line |
| Records.MakeRecord | financetracker.c:100-115 | the entered record keeps date, type and amount; an empty category becomes "Salary" or "Misc" by type; both texts have every `\|` replaced by `/` and are cut to 63 and 127 characters; with a valid date and a non-negative amount the record is storable |
| Records.MakeRecordKeepsCleanText | financetracker.c:108-115 | a short pipe-free category and note are stored exactly as entered |
| Records.CmpDate | financetracker.c:139-145 | the date comparator returns -1, 0 or 1: 0 exactly for equal dates, negative exactly when the first date is lexicographically earlier |
| Records.CmpAmountDesc | financetracker.c:147-152 | the amount comparator returns -1, 0 or 1: negative exactly when the first amount is larger, 0 exactly when equal |
| Records.Compare | financetracker.c:154-159 | the comparator the sort menu chooses: by date, or by amount descending |
| Records.CompareAntisymmetric | financetracker.c:139-152 | swapping the arguments of either comparator negates its result |
| Records.InOrderTotalPreorder | financetracker.c:139-152 | either comparator makes any two records comparable, and its order is transitive |
| Records.OrderedMeaning | financetracker.c:154-159 | in a store ordered by date the yyyymmdd numbers never decrease; ordered by amount the amounts never increase |
| Codec.IntStr | financetracker.c:233 | a printed number is a non-empty run of digits |
| Codec.IntStrValue | financetracker.c:233 | reading the digits of a printed number gives the number |
| Codec.DigitsValue | financetracker.c:255-256 | a definition: the decimal value of a run of digits, most significant first; `Codec.IntStrValue` proves it inverts printing |
| Codec.DigitRun | financetracker.c:255-256 | a `%d` conversion reads exactly the leading digits |
| Codec.DigitRunOf | financetracker.c:255-256 | digits followed by a non-digit are read up to the non-digit |
| Codec.FormatInt | financetracker.c:233 | `%d` output is non-empty and holds neither `\|` nor a newline |
| Codec.ScanNat | financetracker.c:255-256 | the digits of a `%d` conversion: at least one, and what is left is a strictly shorter suffix |
| Codec.ScanNatOf | financetracker.c:255-256 | a run of digits followed by a non-digit is read as its decimal value, leaving the rest |
| Codec.ScanSignedOf | financetracker.c:255-256 | a digit run with or without a leading `-` is read as that number, negated after `-` |
| Codec.ScanInt | financetracker.c:255-256 | a `%d` conversion consumes a prefix and leaves the rest of the line |
| Codec.ScanFormatInt | financetracker.c:255-256 | an integer printed with `%d` and followed by a non-digit is read back exactly |
| Codec.HalfUpCents | financetracker.c:233-235 | the cents printed for a non-negative amount are within half a cent of it |
| Codec.RoundCents | financetracker.c:233-235 | the printed value of a non-negative amount is non-negative and within half a cent |
| Codec.RoundCentsExact | financetracker.c:233-235 | an amount of whole cents prints as itself |
| Codec.CentsStr | financetracker.c:233-235 | a definition: a count of cents as its units, a point and two digits; `Codec.ScanCentsValue` proves it reads back |
| Codec.FormatAmount | financetracker.c:233-235 | `%.2f` output holds neither `\|` nor a newline |
| Codec.ScanReal | financetracker.c:255-257 | a `%lf` conversion: an optional sign, then the unsigned part |
| Codec.ScanUnsigned | financetracker.c:255-257 | the unsigned `%lf` forms: digits with an optional point and decimals, at least one digit in all |
| Codec.Fraction | financetracker.c:255-257 | the digits after the point stand for a value from 0 to 1 |
| Codec.ScanDecimalOf | financetracker.c:255-257 | `%lf` reads digits, a point and digits as the whole part plus the fraction, leaving the rest |
| Codec.TwoDecimals | financetracker.c:233-257 | two digits after the point stand for that many hundredths |
| Codec.ScanCentsStr | financetracker.c:255-257 | `units.ab` followed by a non-digit reads back as units plus (10a+b) hundredths |
| Codec.ScanCentsValue | financetracker.c:255-257 | `%lf` reads printed cents back as that many hundredths |
| Codec.ScanFormatAmount | financetracker.c:255-257 | a non-negative amount printed with `%.2f` reads back as its rounded value |
| Codec.ScanSet | financetracker.c:256 | a scanset conversion reads 1 to width characters free of the stop character, and the read text followed by the rest is the input |
| Codec.SetRun | financetracker.c:256 | a scanset reads at most the width, never the stop character, and stops only at the stop character, the width or the end |
| Codec.SetRunOf | financetracker.c:256 | a short text free of the stop character is read entirely |
| Codec.Lit | financetracker.c:256 | a literal `\|` of the format consumes exactly one character |
| Codec.NoteField | financetracker.c:256-263 | the optional note field is at most 127 characters and holds no newline |
| Codec.ScanField | financetracker.c:255-256 | a number with its `\|` consumes a non-empty prefix, leaving a newline-free rest when the input is newline-free |
| Codec.ScanHead | financetracker.c:255-256 | the four leading numbers of a newline-free line leave newline-free text after them |
| Codec.ParseLine | financetracker.c:255-263 | a parsed category is 1 to 63 characters without `\|`, one line when the line is; the note is at most 127 characters without newline |
| Codec.ScanSetFits | financetracker.c:256 | a scanset reads a non-empty text within its width, free of the stop character and of newlines when its input is |
| Codec.DecodeLine | financetracker.c:255-266 | a line is kept exactly when it parses with a valid date and a non-negative amount, and then as parsed; the record is storable when the line has no newline |
| Codec.RoundedAll | financetracker.c:233-235 | rounding a store rounds each record's amount and keeps the order |
| Codec.ScanFieldOf | financetracker.c:255-256 | a number printed as `%d\|` is read back by one field conversion |
| Codec.ScanHeadOf | financetracker.c:255-256 | any four integers printed as `%d\|` each are read back |
| Codec.NoteFieldOf | financetracker.c:256-263 | a stored note after its `\|` is read back whole, the empty note included |
| Codec.ScanCategoryOf | financetracker.c:256 | a stored category followed by `\|` is read whole |
| Codec.ScanAmountOf | financetracker.c:255-257 | the printed amount before the note reads back rounded |
| Codec.TypeCode | financetracker.c:233-234 | a definition: the type printed as 0 for an income and 1 for an expense; `Codec.ParseEncodedLine` proves it reads back as the same type |
| Codec.EncodeLine | financetracker.c:233-235 | the saved line: year, month, day, type code (0 income, 1 expense), category, amount with two decimals and note, joined by `\|` |
| Codec.ParseFields | financetracker.c:255-263 | a line of the saved shape with any type code parses: code 1 gives an expense and every other code an income, the amount rounded, the note what the text after the amount yields |
| Codec.SixFieldLine | financetracker.c:255-263 | a line that ends after the amount, six conversions, parses with an empty note |
| Codec.ParseEncodedLine | financetracker.c:233-263 | the line of a record with a clean category and note parses to the record, amount rounded |
| Codec.LineRoundTrip | financetracker.c:233-265 | every storable record survives saving and loading its line, amount rounded to two decimals |
| Codec.LineLen | financetracker.c:246 | the first line ends at the first newline or at the end |
| Codec.SplitLines | financetracker.c:246 | no line read holds a newline |
| Codec.LineLenOf | financetracker.c:246 | a line followed by a newline is read up to the newline |
| Codec.SplitLinesCons | financetracker.c:246 | a text that starts with a line and a newline splits into that line and the lines of the rest |
| Codec.Lines | financetracker.c:232-236 | the saved lines are one per record, in store order |
| Codec.JoinLinesSnoc | financetracker.c:232-236 | writing one more line appends it and its newline to the text |
| Codec.JoinLines | financetracker.c:232-236 | a definition: each line followed by a newline, in order; `Codec.JoinLinesSplits` proves splitting inverts it |
| Codec.Serialize | financetracker.c:229-239 | the saved file: each record's line followed by a newline, in store order |
| Codec.SerializeSnoc | financetracker.c:232-236 | saving one more record appends its line and a newline |
| Codec.DecodeLines | financetracker.c:246-267 | loading keeps at most one record per line, all storable when the lines have no newline |
| Codec.Kept | financetracker.c:264-266 | a definition: a parse result contributes its record or nothing; `Codec.DecodeLinesStep` states its use |
| Codec.DecodeLinesStep | financetracker.c:246-267 | one more line adds its record, if any, after the ones before |
| Codec.Decode | financetracker.c:246-267 | every record read from a file is storable |
| Codec.Loaded | financetracker.c:241-271 | loading keeps storable records, a prefix of the file's records: all of them when they fit, exactly the first 2000 otherwise |
| Codec.DecodeLinesAppend | financetracker.c:246-267 | loading is line by line: two runs of lines give the records of each, in order |
| Codec.JoinLinesSplits | financetracker.c:232-246 | lines without newlines, each written with a newline, are read back as exactly those lines |
| Codec.SerializeSplits | financetracker.c:229-246 | the saved text splits back into exactly the saved lines |
| Codec.EncodeLineNoNewline | financetracker.c:233-235 | the line of a storable record holds no newline |
| Codec.LinesRoundTrip | financetracker.c:229-267 | loading the lines of storable records gives them back in order, amounts rounded |
| Codec.SaveLoadRoundTrip | financetracker.c:229-271 | saving at most 2000 storable records and loading the file gives the same records in order, amounts rounded to cents |
| Codec.SaveLoadIdentity | financetracker.c:229-271 | with whole-cent amounts, save then load gives back the store exactly |
| Reports.Matches | financetracker.c:189-215 | the three match rules: the folded query in the folded category or note, the exact date, an expense strictly above the threshold |
| Reports.TextMatchMeaning | financetracker.c:174-189 | a text search matches exactly when the folded, cut query occurs in the folded, cut field |
| Reports.SearchIgnoresCase | financetracker.c:177-188 | the case of the query does not change which records match |
| Reports.LongQueryCut | financetracker.c:175-177 | a query is compared by its first 63 characters |
| Reports.Hits | financetracker.c:169-221 | the listed indices are of matching records, strictly increasing, and no matching record is missed |
| Reports.Selected | financetracker.c:169-221 | the listed records are, in store order, exactly the stored records that match |
| Reports.EmptyQueryMatches | financetracker.c:177-189 | an empty query matches any record in either text field |
| Reports.EmptyQueryHitsAll | financetracker.c:177-189 | an empty query lists every record |
| Reports.FilterMeaning | financetracker.c:214-219 | the filter lists a record exactly when it is an expense strictly above the threshold |
| Reports.IncomeTotal | financetracker.c:313-316 | the income total is never negative when no amount is |
| Reports.ExpenseTotal | financetracker.c:313-316 | the expense total, of all non-income records, is never negative when no amount is |
| Reports.TotalsConcat | financetracker.c:311-316 | income and expense totals add up over consecutive parts of the store |
| Reports.AppendIncomeRaisesSavings | financetracker.c:311-318 | one more income of amount A raises income and savings by exactly A and leaves the expense |
| Reports.TotalsSnoc | financetracker.c:311-316 | one more record adds its amount to its own total and nothing to the other |
| Reports.DeleteTotals | financetracker.c:311-329 | deleting a record takes exactly its amount off its own total |
| Reports.TotalsPermutation | financetracker.c:311-316 | reordering the store, as sorting does, leaves both totals unchanged |
| Reports.InBucket | financetracker.c:281-282 | a definition: a record counts for month m when it is an expense of the chosen year with month m in 1..12; `Reports.MonthlyTotalIsYearExpense` sums it |
| Reports.MonthSum | financetracker.c:279-284 | a month's bucket is non-negative when all amounts are |
| Reports.Buckets | financetracker.c:279-284 | there are 12 buckets, bucket k holding month k+1 |
| Reports.MaxBucket | financetracker.c:286-287 | the maximum starts at 0, bounds every bucket and is 0 or one of them |
| Reports.TruncToZero | financetracker.c:298 | the `(int)` cast truncates toward zero: the largest integer not above a non-negative value, the smallest not below a negative one |
| Reports.BarLength | financetracker.c:297-299 | a bar is never negative, at most 50 for a bucket up to the maximum, and exactly 50 for the maximum |
| Reports.BarLengths | financetracker.c:297-303 | there is one bar per bucket, each scaled to the maximum |
| Reports.BarsScaled | financetracker.c:286-303 | with a positive maximum every bar is in 0..50 and some month's bar is exactly 50 |
| Reports.SumOf | financetracker.c:305 | a definition: the sum of the buckets, first to last; `Reports.SumOfBump` and `Ledger.TotalOf` state its use |
| Reports.MonthlyTotalIsYearExpense | financetracker.c:279-305 | the chart's total is the sum of the chosen year's expenses |
| Ledger.Store.constructor | financetracker.c:33-34 | the store starts empty, with an array of capacity 2000 |
| Ledger.Store.Append | financetracker.c:84-117 | refuses, leaving the store alone, first when full, then on an invalid date, then on an amount not above 0; otherwise appends the built record, keeps every earlier record and raises the count by one |
| Ledger.Store.DeleteAt | financetracker.c:323-329 | at an index in use, the count drops by one, earlier records stay and record i becomes old record i+1; otherwise nothing changes |
| Ledger.Store.SwapDown | financetracker.c:158-159 | exchanging two neighbouring records keeps everything else and the multiset |
| Ledger.Store.InsertLast | financetracker.c:158-159 | one insertion step extends the ordered prefix by one record and keeps the multiset |
| Ledger.InsertStep | financetracker.c:154-159 | moving a record below an earlier one that should follow it keeps the rest of the prefix ordered and the moved record below everything after it |
| Ledger.InsertDone | financetracker.c:154-159 | once the moved record is in place, the prefix through the new record is ordered |
| Ledger.SortedPrefixOrdered | financetracker.c:154-159 | a prefix whose pairs are all in order is ordered in the comparator's sense |
| Ledger.SwapPermutes | financetracker.c:158-159 | exchanging two records within the store keeps the multiset of the records in use |
| Ledger.Store.Sort | financetracker.c:154-161 | after sorting, the records in use are ordered by the chosen comparator, the same multiset as before, and the count is unchanged |
| Ledger.Store.Find | financetracker.c:169-221 | a search loop lists exactly Hits of the store, leaving the store alone |
| Ledger.Store.SearchText | financetracker.c:174-191 | the category or note search lists exactly the records whose folded text holds the folded query |
| Ledger.Store.SearchDate | financetracker.c:169-206 | an empty store lists nothing; otherwise an invalid date is refused and a valid one lists exactly the records of that day |
| Ledger.Store.FilterExpensesOver | financetracker.c:209-221 | the filter lists exactly the expenses strictly above the threshold, in store order |
| Ledger.Store.Summary | financetracker.c:311-319 | income is the sum of incomes, expense the sum of all others, savings their difference |
| Ledger.Store.FillBuckets | financetracker.c:279-284 | the accumulation loop leaves month m's bucket equal to that month's expenses of the year |
| Ledger.LargestBucket | financetracker.c:286-287 | the maximum loop computes the maximum bucket |
| Ledger.ScaleBars | financetracker.c:297-303 | the bar loop computes every month's bar |
| Ledger.TotalOf | financetracker.c:305 | the total loop computes the sum of the buckets |
| Ledger.Store.MonthlyChart | financetracker.c:276-307 | no data on an empty store; no chart when every bucket is 0; otherwise the buckets, the maximum, the total and 12 bars each in 0..50 |
| Ledger.Store.Save | financetracker.c:229-239 | the written text is the saved lines of the records in store order |
| Ledger.Store.Keep | financetracker.c:264-266 | a parsed record is stored at position n while there is room |
| Ledger.Store.ReadRecords | financetracker.c:246-268 | the read loop writes the file's first records, up to 2000, over the front of the array |
| Ledger.Store.Load | financetracker.c:241-272 | an unopenable file leaves the store alone; otherwise the store holds exactly the records Loaded keeps, replacing the old ones |
| Scenarios.EnteredAsGiven | financetracker.c:100-115 | entering the three sample transactions stores them unchanged |
| Scenarios.MonthSumsOfScenario | financetracker.c:279-284 | the sample's 2025 expenses are 50 in January and 950 in February |
| Scenarios.MonthlyScenario | financetracker.c:279-305 | the sample's buckets are [50, 950, 0, …], the maximum is 950, the total 1000, the bars 3 and 50 |
| Scenarios.FoodMatches | financetracker.c:174-189 | "foo" occurs in the folded category "food" |
| Scenarios.RentMisses | financetracker.c:174-189 | "foo" does not occur in "rent" |
| Scenarios.SalaryMisses | financetracker.c:174-189 | "foo" does not occur in "salary" |
| Scenarios.FooMatchesFoodOnly | financetracker.c:174-189 | "foo" matches the category "Food" and not "Rent" or "Salary" |
| Scenarios.SearchScenario | financetracker.c:174-189 | searching the sample's categories for "foo" lists only the food record |
| Scenarios.YearText | financetracker.c:233 | 2025 prints as "2025" |
| Scenarios.AmountText | financetracker.c:233 | 50 prints as "50.00" |
| Scenarios.LunchFields | financetracker.c:233-235 | the lunch record is saved as 2025, 1, 15, 1, Food, 50.00, lunch joined by `\|` |
| Scenarios.GarbageDropped | financetracker.c:255-259 | the line "abc\|garbage" yields no record |
| Scenarios.LunchStorable | financetracker.c:84-117 | the lunch record is one the store can hold |
| Scenarios.LunchDecoded | financetracker.c:255-265 | the lunch line loads back as the lunch record |
| Scenarios.GarbageSplit | financetracker.c:246 | a text without newline is one line |
| Scenarios.TwoLines | financetracker.c:246 | the two-line sample file splits into its two lines |
| Scenarios.LoadScenario | financetracker.c:241-270 | loading the lunch line and a malformed line keeps exactly the lunch record |
| Scenarios.ZeroText | financetracker.c:233 | 0 prints as "0.00" |
| Scenarios.GiftStorable | financetracker.c:259-266 | the zero-amount gift record satisfies what loading demands |
| Scenarios.ZeroAmountLoads | financetracker.c:264 | a record of amount 0, which entering refuses, loads back from its line |

## Left out

- The menu loop and `main` (financetracker.c:333-377). The startup load is `Ledger.Store.Load` on a fresh store.
- Console input: `read_line`, `read_int` and `read_double` with their retry loops. What they deliver becomes method parameters.
  - Categories and notes have no newline; `Ledger.Store.Append` requires this.
  - The prompt-side range checks are not preconditions, because the model checks the date and the amount itself.
  - Input beyond a 64-byte buffer, left in the stream for the next prompt, is not modelled.
- Output: `print_header`, `print_transaction`, `list_all`, the messages, the chart's `#` characters and month names. The model returns what is printed: indices, totals, buckets and bar lengths.
- File handling: `fopen`, `fgets`, `fclose`, `perror`.
  - A file that cannot be opened for loading is `None`.
  - `Ledger.Store.Save` returns the text. A failed open or write on save is not modelled; the store is unchanged either way.
  - `fgets` splitting lines longer than 511 bytes is not modelled: a file is split only at newlines.
- The full `printf`/`sscanf` semantics. Only the restricted grammar is modelled: optional sign and digits for `%d`, decimal digits with an optional point for `%lf`, literal `|`, and the two scansets. These are not modelled:
  - leading-whitespace skipping;
  - exponents, `inf`, `nan` and hexadecimal floats;
  - integer overflow.
- Texts are sequences of characters, while the program's limits count bytes: `strncpy` into 64- and 128-byte buffers, the scansets `%63[^|]` and `%127[^\n]`, and `tolower` byte by byte. For non-ASCII text the program keeps fewer characters than the model and may cut a multi-byte character in two; text encodings are not modelled. NUL bytes inside texts are not modelled either.
- Floating point. Amounts, sums and the bar formula are exact reals.
  - `%.2f` rounds the exact value half away from zero, where glibc rounds the binary value to nearest-even on ties.
- `Ledger.Store.Sort` uses an insertion sort in place of `qsort`. Its contract is what `qsort` guarantees: ordered and a permutation.
  - It claims no stability, because `qsort` gives none.
  - For the same reason, sorting twice is not claimed to give the same order: with equal keys, `qsort` may reorder ties.
- `Codec.ScanFormatAmount`: does not cover negative amounts, because no stored record has one (the loader drops them).
- `Codec.SaveLoadRoundTrip`: gives amounts back rounded to cents and not unchanged, because the program prints `%.2f`. The identity holds for whole-cent amounts (`Codec.SaveLoadIdentity`).
- `Ledger.Store.DeleteAt`: also returns `false` for an index outside the store. The program cannot receive such an index, because `read_int` asks again.
- `Text.Contains`: models the library `strstr` as a recursive function, not as a loop.
