/**
 * The saved-file format: one line `y|m|d|type|category|amount|note` per record, the amount with
 * two decimals; and the lenient loader that keeps each line that parses and is valid.
 */
module Codec {
  import opened Options
  import opened Dates
  import opened Records

  /* ------------------------------ Digits ------------------------------ */

  predicate IsDigit(c: char) {
    '0' <= c <= '9'
  }

  predicate AllDigits(s: string) {
    forall i :: 0 <= i < |s| ==> IsDigit(s[i])
  }

  function DigitChar(n: nat): (c: char)
    requires n < 10
    ensures IsDigit(c)
  {
    ('0' as int + n) as char
  }

  function DigitValue(c: char): nat
    requires IsDigit(c)
  {
    c as int - '0' as int
  }

  /** The decimal numeral of n, most significant digit first, without leading zeros. */
  function IntStr(n: nat): (s: string)
    ensures s != [] && AllDigits(s)
  {
    if n < 10 then [DigitChar(n)] else IntStr(n / 10) + [DigitChar(n % 10)]
  }

  /** The number a string of digits denotes. */
  function DigitsValue(s: string): nat
    requires AllDigits(s)
  {
    if s == [] then 0 else DigitsValue(s[..|s| - 1]) * 10 + DigitValue(s[|s| - 1])
  }

  /** Reading back a numeral gives the number written. */
  lemma {:induction false} IntStrValue(n: nat)
    ensures DigitsValue(IntStr(n)) == n
  {
    if n >= 10 {
      var s := IntStr(n);
      assert s[..|s| - 1] == IntStr(n / 10);
      IntStrValue(n / 10);
    }
  }

  /** The number of leading digits of s: how far a `%d` conversion reads. */
  function DigitRun(s: string): (k: nat)
    ensures k <= |s| && AllDigits(s[..k])
    ensures k < |s| ==> !IsDigit(s[k])
  {
    if s == [] || !IsDigit(s[0]) then 0
    else
      var k := 1 + DigitRun(s[1..]);
      assert forall i :: 1 <= i < k ==> s[..k][i] == s[1..][..k - 1][i - 1];
      k
  }

  /** A run of digits followed by a non-digit is read exactly. */
  lemma {:induction false} DigitRunOf(ds: string, rest: string)
    requires AllDigits(ds)
    requires rest == [] || !IsDigit(rest[0])
    ensures DigitRun(ds + rest) == |ds|
  {
    if ds != [] {
      assert (ds + rest)[1..] == ds[1..] + rest;
      DigitRunOf(ds[1..], rest);
    }
  }

  /** A run of digits followed by a non-digit: the run is read, and the rest is left. */
  lemma DigitsThen(ds: string, rest: string)
    requires AllDigits(ds)
    requires rest == [] || !IsDigit(rest[0])
    ensures DigitRun(ds + rest) == |ds|
    ensures (ds + rest)[..|ds|] == ds && (ds + rest)[|ds|..] == rest
  {
    DigitRunOf(ds, rest);
    assert (ds + rest)[..|ds|] == ds;
    assert (ds + rest)[|ds|..] == rest;
  }

  /** A text scanned so far: the value converted and the text after it. */
  datatype Scan<T> = Scan(value: T, rest: string)

  /** An optional leading sign. */
  function SplitSign(s: string): (int, string) {
    if s != [] && s[0] == '-' then (-1, s[1..])
    else if s != [] && s[0] == '+' then (1, s[1..])
    else (1, s)
  }

  /* ------------------------------ %d ------------------------------ */

  /** `%d` as printed by `fprintf`. */
  function FormatInt(i: int): (s: string)
    ensures s != [] && '\n' !in s && '|' !in s
  {
    if i < 0 then "-" + IntStr(-i) else IntStr(i)
  }

  /** `%d` as read by `sscanf`: an optional sign and at least one digit. */
  function ScanInt(s: string): (r: Option<Scan<int>>)
    ensures r.Some? ==> |r.value.rest| <= |s| && r.value.rest == s[|s| - |r.value.rest|..]
  {
    var (sign, body) := SplitSign(s);
    var u :- ScanNat(body);
    var v: int := u.value;
    Some(Scan(if sign < 0 then -v else v, u.rest))
  }

  /** The unsigned part of a `%d` conversion: the leading digits. */
  function ScanNat(body: string): (r: Option<Scan<nat>>)
    ensures r.Some? ==> |r.value.rest| < |body| && r.value.rest == body[|body| - |r.value.rest|..]
  {
    var k := DigitRun(body);
    if k == 0 then None else Some(Scan(DigitsValue(body[..k]), body[k..]))
  }

  lemma ScanNatParts(body: string, ds: string, rest: string)
    requires ds != [] && AllDigits(ds)
    requires DigitRun(body) == |ds| && body[..|ds|] == ds && body[|ds|..] == rest
    ensures ScanNat(body) == Some(Scan(DigitsValue(ds), rest))
  {
  }

  /** A run of digits followed by a non-digit is read as the number it denotes. */
  lemma ScanNatOf(ds: string, rest: string)
    requires ds != [] && AllDigits(ds)
    requires rest == [] || !IsDigit(rest[0])
    ensures ScanNat(ds + rest) == Some(Scan(DigitsValue(ds), rest))
  {
    DigitsThen(ds, rest);
    ScanNatParts(ds + rest, ds, rest);
  }

  /** A sign in front of digits negates or keeps what the digits are read as. */
  lemma ScanSignOf(neg: bool, body: string, v: nat, rest: string)
    requires body != [] && IsDigit(body[0])
    requires ScanNat(body) == Some(Scan(v, rest))
    ensures ScanInt((if neg then "-" else "") + body) == Some(Scan(if neg then -(v as int) else v as int, rest))
  {
    if neg {
      assert ("-" + body)[1..] == body;
    } else {
      assert "" + body == body;
    }
  }

  /** A numeral with an optional minus sign, followed by a non-digit, is read as the signed number. */
  lemma ScanSignedOf(neg: bool, ds: string, rest: string)
    requires ds != [] && AllDigits(ds)
    requires rest == [] || !IsDigit(rest[0])
    ensures ScanInt((if neg then "-" else "") + (ds + rest))
         == Some(Scan(if neg then -(DigitsValue(ds) as int) else DigitsValue(ds) as int, rest))
  {
    ScanNatOf(ds, rest);
    assert (ds + rest)[0] == ds[0];
    ScanSignOf(neg, ds + rest, DigitsValue(ds), rest);
  }

  /** An integer written with `%d` and followed by a non-digit is read back. */
  lemma ScanFormatInt(i: int, rest: string)
    requires rest == [] || !IsDigit(rest[0])
    ensures ScanInt(FormatInt(i) + rest) == Some(Scan(i, rest))
  {
    var n: nat := if i < 0 then -i else i;
    assert FormatInt(i) + rest == (if i < 0 then "-" else "") + (IntStr(n) + rest);
    ScanSignedOf(i < 0, IntStr(n), rest);
    IntStrValue(n);
  }

  /* ------------------------------ %.2f and %lf ------------------------------ */

  /** A non-negative amount in whole cents, halves rounded up. */
  function HalfUpCents(x: real): (c: nat)
    requires x >= 0.0
    ensures x - 0.005 < c as real / 100.0 <= x + 0.005
  {
    (x * 100.0 + 0.5).Floor
  }

  /** The value `%.2f` prints, as a number. */
  function RoundCents(x: real): (r: real)
    ensures x >= 0.0 ==> r >= 0.0 && x - 0.005 < r <= x + 0.005
  {
    if x < 0.0 then -(HalfUpCents(-x) as real / 100.0) else HalfUpCents(x) as real / 100.0
  }

  /** The amount is a whole number of cents. */
  predicate WholeCents(x: real) {
    (x * 100.0).Floor as real == x * 100.0
  }

  /** An amount in whole cents is printed exactly. */
  lemma RoundCentsExact(x: real)
    requires x >= 0.0 && WholeCents(x)
    ensures RoundCents(x) == x
  {
    var n := (x * 100.0).Floor;
    assert x * 100.0 + 0.5 == n as real + 0.5;
    assert (x * 100.0 + 0.5).Floor == n;
  }

  /** A count of cents as `units.cc`. */
  function CentsStr(c: nat): string {
    IntStr(c / 100) + "." + [DigitChar(c % 100 / 10), DigitChar(c % 10)]
  }

  /** `%.2f`: the amount rounded to cents, with a sign when negative. */
  function FormatAmount(x: real): (s: string)
    ensures '\n' !in s && '|' !in s
  {
    if x < 0.0 then "-" + CentsStr(HalfUpCents(-x)) else CentsStr(HalfUpCents(x))
  }

  /** Digits after a decimal point as the fraction they denote: 0.d1d2d3... */
  function Fraction(fs: string): (r: real)
    requires AllDigits(fs)
    ensures 0.0 <= r <= 1.0
  {
    if fs == [] then 0.0 else (DigitValue(fs[0]) as real + Fraction(fs[1..])) / 10.0
  }

  /**
   * `%lf` as read by `sscanf`, on the decimal forms only: an optional sign, digits, and an
   * optional point with more digits; at least one digit in all.
   */
  function ScanReal(s: string): Option<Scan<real>> {
    var (sign, body) := SplitSign(s);
    var u :- ScanUnsigned(body);
    Some(Scan(if sign < 0 then -u.value else u.value, u.rest))
  }

  /** The unsigned part of a `%lf` conversion. */
  function ScanUnsigned(body: string): Option<Scan<real>> {
    var k := DigitRun(body);
    var whole := DigitsValue(body[..k]) as real;
    if k < |body| && body[k] == '.' then
      var frac := body[k + 1..];
      var f := DigitRun(frac);
      if k + f == 0 then None
      else Some(Scan(whole + Fraction(frac[..f]), frac[f..]))
    else if k == 0 then None
    else Some(Scan(whole, body[k..]))
  }

  /** After the digits of an unsigned `%lf`, a point and a run of decimals. */
  lemma ScanPointOf(body: string, ds: string, fs: string, rest: string)
    requires ds != [] && AllDigits(ds) && AllDigits(fs)
    requires DigitRun(body) == |ds| < |body| && body[..|ds|] == ds && body[|ds|] == '.'
    requires body[|ds| + 1..] == fs + rest
    requires rest == [] || !IsDigit(rest[0])
    ensures ScanUnsigned(body) == Some(Scan(DigitsValue(ds) as real + Fraction(fs), rest))
  {
    DigitsThen(fs, rest);
  }

  /** A numeral, a point and more digits, followed by a non-digit, are read as a decimal. */
  lemma ScanDecimalOf(ds: string, fs: string, rest: string)
    requires ds != [] && AllDigits(ds) && AllDigits(fs)
    requires rest == [] || !IsDigit(rest[0])
    ensures ScanUnsigned(ds + ("." + (fs + rest))) == Some(Scan(DigitsValue(ds) as real + Fraction(fs), rest))
  {
    var tail := "." + (fs + rest);
    var body := ds + tail;
    DigitsThen(ds, tail);
    assert body[|ds|] == '.';
    assert body[|ds| + 1..] == fs + rest;
    ScanPointOf(body, ds, fs, rest);
  }

  /** The decimals a and b after a point denote 10a + b hundredths. */
  lemma TwoDecimals(a: nat, b: nat)
    requires a < 10 && b < 10
    ensures Fraction([DigitChar(a), DigitChar(b)]) == (10 * a + b) as real / 100.0
  {
    var fs := [DigitChar(a), DigitChar(b)];
    assert fs[1..] == [DigitChar(b)];
    assert [DigitChar(b)][1..] == [];
    assert Fraction([DigitChar(b)]) == b as real / 10.0;
    assert Fraction(fs) == (a as real + b as real / 10.0) / 10.0;
  }

  /** `units.ab` followed by a non-digit reads back as units plus ab hundredths. */
  lemma ScanCentsStr(units: nat, a: nat, b: nat, rest: string)
    requires a < 10 && b < 10
    requires rest == [] || !IsDigit(rest[0])
    ensures ScanReal(IntStr(units) + "." + [DigitChar(a), DigitChar(b)] + rest)
         == Some(Scan(units as real + (10 * a + b) as real / 100.0, rest))
  {
    var fs := [DigitChar(a), DigitChar(b)];
    var body := IntStr(units) + ("." + (fs + rest));
    assert IntStr(units) + "." + fs + rest == body;
    assert body[0] == IntStr(units)[0];
    assert SplitSign(body) == (1, body);
    ScanDecimalOf(IntStr(units), fs, rest);
    IntStrValue(units);
    TwoDecimals(a, b);
  }

  /** A count of cents is its whole units plus its two decimals as hundredths. */
  lemma CentsSplit(c: nat)
    ensures c as real / 100.0 == (c / 100) as real + (10 * (c % 100 / 10) + c % 10) as real / 100.0
  {
    var u, f := c / 100, c % 100;
    assert c == 100 * u + f;
    assert f == 10 * (f / 10) + c % 10;
    assert c as real == 100.0 * u as real + f as real;
  }

  /** Unsigned `units.cc` followed by a non-digit reads back as c hundredths. */
  lemma ScanCentsValue(c: nat, rest: string)
    requires rest == [] || !IsDigit(rest[0])
    ensures ScanReal(CentsStr(c) + rest) == Some(Scan(c as real / 100.0, rest))
  {
    CentsSplit(c);
    ScanCentsStr(c / 100, c % 100 / 10, c % 10, rest);
  }

  /** A non-negative amount printed with `%.2f` and followed by a non-digit reads back as its rounded value. */
  lemma ScanFormatAmount(x: real, rest: string)
    requires x >= 0.0
    requires rest == [] || !IsDigit(rest[0])
    ensures ScanReal(FormatAmount(x) + rest) == Some(Scan(RoundCents(x), rest))
  {
    var c := HalfUpCents(x);
    assert FormatAmount(x) == CentsStr(c);
    assert RoundCents(x) == c as real / 100.0;
    ScanCentsValue(c, rest);
  }

  /* ------------------------------ Scansets ------------------------------ */

  /** How far `%<width>[^<stop>]` reads: at most width characters, none of them stop. */
  function SetRun(s: string, width: nat, stop: char): (k: nat)
    ensures k <= |s| && k <= width && stop !in s[..k]
    ensures k < |s| && k < width ==> s[k] == stop
  {
    if s == [] || width == 0 || s[0] == stop then 0
    else
      var k := 1 + SetRun(s[1..], width - 1, stop);
      assert s[..k] == [s[0]] + s[1..][..k - 1];
      k
  }

  /** A scanset conversion: fails when it reads nothing. */
  function ScanSet(s: string, width: nat, stop: char): (r: Option<Scan<string>>)
    ensures r.Some? ==> 1 <= |r.value.value| <= width && stop !in r.value.value
    ensures r.Some? ==> r.value.value + r.value.rest == s
  {
    var k := SetRun(s, width, stop);
    if k == 0 then None else Some(Scan(s[..k], s[k..]))
  }

  /** A text short enough and free of the stop character is read entirely. */
  lemma {:induction false} SetRunOf(x: string, rest: string, width: nat, stop: char)
    requires |x| <= width && stop !in x
    requires rest == [] || rest[0] == stop || |x| == width
    ensures SetRun(x + rest, width, stop) == |x|
  {
    if x != [] {
      assert (x + rest)[1..] == x[1..] + rest;
      SetRunOf(x[1..], rest, width - 1, stop);
    }
  }

  /** A literal character of the format. */
  function Lit(s: string, c: char): (r: Option<string>)
    ensures r.Some? ==> |s| >= 1 && r.value == s[1..]
  {
    if s != [] && s[0] == c then Some(s[1..]) else None
  }

  /* ------------------------------ Lines ------------------------------ */

  function TypeCode(kind: TxType): int {
    if kind == Income then 0 else 1
  }

  /** One saved line, without its newline: seven fields joined by `|`. */
  function EncodeLine(t: Transaction): string {
    FormatInt(t.y) + "|" + (FormatInt(t.m) + "|" + (FormatInt(t.d) + "|" + (FormatInt(TypeCode(t.kind)) + "|" +
      (t.category + "|" + (FormatAmount(t.amount) + "|" + t.note)))))
  }

  /** The optional seventh field `%127[^\n]`: empty when the `|` or any text after it is missing. */
  function NoteField(rest: string): (note: string)
    ensures |note| <= NoteMax && '\n' !in note
  {
    if rest != [] && rest[0] == '|' then
      match ScanSet(rest[1..], NoteMax, '\n')
      case Some(n) => n.value
      case None => ""
    else ""
  }

  /** A `%d` conversion and the `|` after it. */
  function ScanField(s: string): (r: Option<Scan<int>>)
    ensures r.Some? ==> |r.value.rest| < |s| && r.value.rest == s[|s| - |r.value.rest|..]
    ensures r.Some? && NoNewline(s) ==> NoNewline(r.value.rest)
  {
    var n :- ScanInt(s);
    var rest :- Lit(n.rest, '|');
    assert NoNewline(s) ==> NoNewline(rest) by {
      if NoNewline(s) { NoNewlineSuffix(s, |s| - |rest|); }
    }
    Some(Scan(n.value, rest))
  }

  /** The four leading numbers `y|m|d|type|`, and the text after them. */
  datatype Head = Head(y: int, m: int, d: int, typeCode: int, rest: string)

  function ScanHead(line: string): (r: Option<Head>)
    ensures r.Some? && NoNewline(line) ==> NoNewline(r.value.rest)
  {
    var y :- ScanField(line);
    var m :- ScanField(y.rest);
    var d :- ScanField(m.rest);
    var ty :- ScanField(d.rest);
    Some(Head(y.value, m.value, d.value, ty.value, ty.rest))
  }

  /**
   * The `sscanf` of a line with at least six conversions: the record it yields, before validation.
   * Type 1 is an expense and any other number an income.
   */
  function ParseLine(line: string): (r: Option<Transaction>)
    ensures r.Some? ==> 1 <= |r.value.category| <= CategoryMax && '|' !in r.value.category
    ensures r.Some? ==> |r.value.note| <= NoteMax && NoNewline(r.value.note)
    ensures r.Some? && NoNewline(line) ==> NoNewline(r.value.category)
  {
    var h :- ScanHead(line);
    var cat :- ScanSet(h.rest, CategoryMax, '|');
    var r5 :- Lit(cat.rest, '|');
    var amount :- ScanReal(r5);
    assert NoNewline(line) ==> NoNewline(cat.value) by {
      if NoNewline(line) {
        ScanSetFits(h.rest, CategoryMax, '|');
      }
    }
    Some(Transaction(h.y, h.m, h.d, if h.typeCode == 1 then Expense else Income,
                     cat.value, amount.value, NoteField(amount.rest)))
  }

  /** The record a line contributes on loading: parsed, with a valid date and a non-negative amount. */
  function DecodeLine(line: string): (r: Option<Transaction>)
    ensures r.Some? ==> r.value.amount >= 0.0 && ValidDate(r.value.y, r.value.m, r.value.d)
    ensures NoNewline(line) && r.Some? ==> Storable(r.value)
    ensures r.Some? <==> ParseLine(line).Some? && ValidDate(ParseLine(line).value.y, ParseLine(line).value.m, ParseLine(line).value.d)
                         && ParseLine(line).value.amount >= 0.0
    ensures r.Some? ==> r == ParseLine(line)
  {
    match ParseLine(line)
    case None => None
    case Some(t) =>
      if ValidDate(t.y, t.m, t.d) && t.amount >= 0.0 then Some(t) else None
  }

  /** A text without newline has none in any suffix. */
  lemma NoNewlineSuffix(s: string, k: nat)
    requires NoNewline(s) && k <= |s|
    ensures NoNewline(s[k..])
  {
    assert forall i :: 0 <= i < |s| - k ==> s[k..][i] == s[k + i];
  }

  /** What a scanset conversion reads is non-empty, within its width, free of the stop character, and free of newlines when its input is. */
  lemma ScanSetFits(s: string, width: nat, stop: char)
    requires NoNewline(s) && ScanSet(s, width, stop).Some?
    ensures var v := ScanSet(s, width, stop).value.value;
      1 <= |v| <= width && stop !in v && NoNewline(v)
  {
    var k := SetRun(s, width, stop);
    assert forall i :: 0 <= i < k ==> s[..k][i] == s[i];
  }

  /** An amount rounded to cents, as saving and loading a record leaves it. */
  function Rounded(t: Transaction): Transaction {
    t.(amount := RoundCents(t.amount))
  }

  /** Every record of a store with its amount rounded to cents. */
  function RoundedAll(s: seq<Transaction>): (r: seq<Transaction>)
    ensures |r| == |s| && forall i :: 0 <= i < |s| ==> r[i] == Rounded(s[i])
  {
    if s == [] then [] else [Rounded(s[0])] + RoundedAll(s[1..])
  }

  /** A number written as `%d|` is read back by one field conversion. */
  lemma ScanFieldOf(i: int, rest: string)
    ensures ScanField(FormatInt(i) + "|" + rest) == Some(Scan(i, rest))
  {
    assert FormatInt(i) + "|" + rest == FormatInt(i) + ("|" + rest);
    ScanFormatInt(i, "|" + rest);
    assert ("|" + rest)[1..] == rest;
  }

  /** Four numbers written as `%d|` each are read back by the head of the line. */
  lemma ScanHeadOf(y: int, m: int, d: int, k: int, rest: string)
    ensures ScanHead(FormatInt(y) + "|" + (FormatInt(m) + "|" + (FormatInt(d) + "|" + (FormatInt(k) + "|" + rest))))
         == Some(Head(y, m, d, k, rest))
  {
    var typeTail := FormatInt(k) + "|" + rest;
    var dayTail := FormatInt(d) + "|" + typeTail;
    var monthTail := FormatInt(m) + "|" + dayTail;
    ScanFieldOf(y, monthTail);
    ScanFieldOf(m, dayTail);
    ScanFieldOf(d, typeTail);
    ScanFieldOf(k, rest);
  }

  /** The note field written after the last `|` is read back whole, empty or not. */
  lemma NoteFieldOf(note: string)
    requires |note| <= NoteMax && NoNewline(note)
    ensures NoteField("|" + note) == note
  {
    assert ("|" + note)[1..] == note;
    if note != [] {
      SetRunOf(note, [], NoteMax, '\n');
      assert note + [] == note;
    }
  }

  /** A category of 1 to 63 characters without `|`, followed by `|`, is read whole. */
  lemma ScanCategoryOf(category: string, rest: string)
    requires 1 <= |category| <= CategoryMax && '|' !in category
    ensures ScanSet(category + "|" + rest, CategoryMax, '|') == Some(Scan(category, "|" + rest))
  {
    var s := category + "|" + rest;
    assert s == category + ("|" + rest);
    SetRunOf(category, "|" + rest, CategoryMax, '|');
    assert s[..|category|] == category && s[|category|..] == "|" + rest;
  }

  /** The amount written before the note is read back rounded. */
  lemma ScanAmountOf(x: real, note: string)
    requires x >= 0.0
    ensures ScanReal(FormatAmount(x) + "|" + note) == Some(Scan(RoundCents(x), "|" + note))
  {
    assert FormatAmount(x) + "|" + note == FormatAmount(x) + ("|" + note);
    ScanFormatAmount(x, "|" + note);
  }

  /** The line of a record with a clean category and note parses back to the record, amount rounded. */
  lemma ParseEncodedLine(t: Transaction)
    requires t.amount >= 0.0
    requires 1 <= |t.category| <= CategoryMax && '|' !in t.category
    requires |t.note| <= NoteMax && NoNewline(t.note)
    ensures ParseLine(EncodeLine(t)) == Some(Rounded(t))
  {
    var amountTail := FormatAmount(t.amount) + "|" + t.note;
    var t4 := t.category + "|" + amountTail;
    ScanHeadOf(t.y, t.m, t.d, TypeCode(t.kind), t4);
    assert ScanHead(EncodeLine(t)) == Some(Head(t.y, t.m, t.d, TypeCode(t.kind), t4));
    ScanCategoryOf(t.category, amountTail);
    assert Lit("|" + amountTail, '|') == Some(amountTail);
    ScanAmountOf(t.amount, t.note);
    NoteFieldOf(t.note);
    assert (if TypeCode(t.kind) == 1 then Expense else Income) == t.kind;
  }

  /**
   * Any line of the saved shape parses, whatever its type code and whatever follows the amount:
   * type 1 is an expense and every other code an income, and the note is what the optional
   * seventh field reads from the text after the amount.
   */
  lemma ParseFields(y: int, m: int, d: int, k: int, cat: string, a: real, tail: string)
    requires a >= 0.0 && 1 <= |cat| <= CategoryMax && '|' !in cat
    requires tail == [] || !IsDigit(tail[0])
    ensures ParseLine(FormatInt(y) + "|" + (FormatInt(m) + "|" + (FormatInt(d) + "|" + (FormatInt(k) + "|" +
                      (cat + "|" + (FormatAmount(a) + tail))))))
         == Some(Transaction(y, m, d, if k == 1 then Expense else Income, cat, RoundCents(a), NoteField(tail)))
  {
    var amountTail := FormatAmount(a) + tail;
    var t4 := cat + "|" + amountTail;
    ScanHeadOf(y, m, d, k, t4);
    ScanCategoryOf(cat, amountTail);
    assert Lit("|" + amountTail, '|') == Some(amountTail);
    ScanFormatAmount(a, tail);
  }

  /** A line that stops after the amount, with six conversions, parses with an empty note. */
  lemma SixFieldLine(y: int, m: int, d: int, k: int, cat: string, a: real)
    requires a >= 0.0 && 1 <= |cat| <= CategoryMax && '|' !in cat
    ensures ParseLine(FormatInt(y) + "|" + (FormatInt(m) + "|" + (FormatInt(d) + "|" + (FormatInt(k) + "|" +
                      (cat + "|" + FormatAmount(a))))))
         == Some(Transaction(y, m, d, if k == 1 then Expense else Income, cat, RoundCents(a), ""))
  {
    ParseFields(y, m, d, k, cat, a, []);
    assert FormatAmount(a) + [] == FormatAmount(a);
  }

  /** A stored record survives writing and reading its line, with the amount rounded to two decimals. */
  lemma LineRoundTrip(t: Transaction)
    requires Storable(t)
    ensures DecodeLine(EncodeLine(t)) == Some(Rounded(t))
  {
    ParseEncodedLine(t);
  }

  /* ------------------------------ Files ------------------------------ */

  /** The length of the first line of s: up to the first newline or the end. */
  function LineLen(s: string): (k: nat)
    ensures k <= |s| && NoNewline(s[..k])
    ensures k < |s| ==> s[k] == '\n'
  {
    if s == [] || s[0] == '\n' then 0
    else
      var k := 1 + LineLen(s[1..]);
      assert s[..k] == [s[0]] + s[1..][..k - 1];
      k
  }

  /** The lines `fgets` delivers from a file, each without its newline; a last line may lack one. */
  function SplitLines(text: string): (r: seq<string>)
    ensures forall i :: 0 <= i < |r| ==> NoNewline(r[i])
    decreases |text|
  {
    if text == [] then []
    else
      var k := LineLen(text);
      if k == |text| then [text] else [text[..k]] + SplitLines(text[k + 1..])
  }

  lemma {:induction false} LineLenOf(line: string, rest: string)
    requires NoNewline(line)
    ensures LineLen(line + "\n" + rest) == |line|
  {
    if line != [] {
      assert (line + "\n" + rest)[1..] == line[1..] + "\n" + rest;
      LineLenOf(line[1..], rest);
    }
  }

  /** A line ended by a newline is split off the front of the file. */
  lemma SplitLinesCons(line: string, rest: string)
    requires NoNewline(line)
    ensures SplitLines(line + "\n" + rest) == [line] + SplitLines(rest)
  {
    var text := line + "\n" + rest;
    LineLenOf(line, rest);
    assert text[..|line|] == line;
    assert text[|line| + 1..] == rest;
  }

  /** f applied to every element, in order. */
  function MapSeq<T, U>(f: T -> U, s: seq<T>): (r: seq<U>)
    ensures |r| == |s| && forall i :: 0 <= i < |s| ==> r[i] == f(s[i])
  {
    if s == [] then [] else [f(s[0])] + MapSeq(f, s[1..])
  }

  lemma {:induction false} MapSeqSnoc<T, U>(f: T -> U, s: seq<T>, t: T)
    ensures MapSeq(f, s + [t]) == MapSeq(f, s) + [f(t)]
  {
    if s == [] {
      assert [t][1..] == [];
    } else {
      assert (s + [t])[1..] == s[1..] + [t];
      MapSeqSnoc(f, s[1..], t);
    }
  }

  /** The line of every record, in order. */
  function Lines(s: seq<Transaction>): (r: seq<string>)
    ensures |r| == |s| && forall i :: 0 <= i < |s| ==> r[i] == EncodeLine(s[i])
  {
    MapSeq(EncodeLine, s)
  }

  /** Lines written one after the other, each ended by a newline. */
  function JoinLines(ls: seq<string>): string {
    if ls == [] then "" else ls[0] + "\n" + JoinLines(ls[1..])
  }

  /** What `save_to_file` writes: every record's line, each ended by a newline. */
  function Serialize(s: seq<Transaction>): string {
    JoinLines(Lines(s))
  }

  lemma {:induction false} JoinLinesSnoc(ls: seq<string>, l: string)
    ensures JoinLines(ls + [l]) == JoinLines(ls) + l + "\n"
  {
    if ls == [] {
      assert [l][1..] == [];
    } else {
      assert (ls + [l])[1..] == ls[1..] + [l];
      JoinLinesSnoc(ls[1..], l);
    }
  }

  /** Writing one more record appends its line to the file. */
  lemma SerializeSnoc(s: seq<Transaction>, t: Transaction)
    ensures Serialize(s + [t]) == Serialize(s) + EncodeLine(t) + "\n"
  {
    MapSeqSnoc(EncodeLine, s, t);
    JoinLinesSnoc(Lines(s), EncodeLine(t));
  }

  /** The records the loader keeps from a sequence of lines, in order. */
  function DecodeLines(lines: seq<string>): (r: seq<Transaction>)
    ensures |r| <= |lines|
    ensures (forall i :: 0 <= i < |lines| ==> NoNewline(lines[i])) ==> forall i :: 0 <= i < |r| ==> Storable(r[i])
  {
    if lines == [] then []
    else
      var prev := DecodeLines(lines[..|lines| - 1]);
      match DecodeLine(lines[|lines| - 1])
      case Some(t) => prev + [t]
      case None => prev
  }

  /** The records a parse result contributes: its record, or none. */
  function Kept(r: Option<Transaction>): seq<Transaction> {
    if r.Some? then [r.value] else []
  }

  /** The records of one more line: the ones before, then the line's record if it yields one. */
  lemma DecodeLinesStep(lines: seq<string>, i: int)
    requires 0 <= i < |lines|
    ensures DecodeLines(lines[..i + 1]) == DecodeLines(lines[..i]) + Kept(DecodeLine(lines[i]))
  {
    assert lines[..i + 1][..i] == lines[..i];
  }

  /** The records a file yields, before the capacity cap. */
  function Decode(text: string): (r: seq<Transaction>)
    ensures forall i :: 0 <= i < |r| ==> Storable(r[i])
  {
    DecodeLines(SplitLines(text))
  }

  /** What `load_from_file` leaves in the store: the first records of the file, at most the capacity. */
  function Loaded(text: string): (r: seq<Transaction>)
    ensures |r| <= MaxTransactions
    ensures forall i :: 0 <= i < |r| ==> Storable(r[i])
    ensures r <= Decode(text)
    ensures |Decode(text)| <= MaxTransactions ==> r == Decode(text)
    ensures |r| == if |Decode(text)| <= MaxTransactions then |Decode(text)| else MaxTransactions
  {
    var all := Decode(text);
    if |all| <= MaxTransactions then all else all[..MaxTransactions]
  }

  /** Loading is line by line: the records of two runs of lines are the records of each. */
  lemma {:induction false} DecodeLinesAppend(a: seq<string>, b: seq<string>)
    ensures DecodeLines(a + b) == DecodeLines(a) + DecodeLines(b)
    decreases |b|
  {
    if b == [] {
      assert a + b == a;
    } else {
      var b' := b[..|b| - 1];
      assert (a + b)[..|a + b| - 1] == a + b';
      assert (a + b)[|a + b| - 1] == b[|b| - 1];
      DecodeLinesAppend(a, b');
    }
  }

  /** Lines without newlines, written one after the other, split back into the same lines. */
  lemma {:induction false} JoinLinesSplits(ls: seq<string>)
    requires forall i :: 0 <= i < |ls| ==> NoNewline(ls[i])
    ensures SplitLines(JoinLines(ls)) == ls
  {
    if ls != [] {
      SplitLinesCons(ls[0], JoinLines(ls[1..]));
      JoinLinesSplits(ls[1..]);
    }
  }

  /** The file written for a store splits into the records' lines. */
  lemma SerializeSplits(s: seq<Transaction>)
    requires forall i :: 0 <= i < |s| ==> Storable(s[i])
    ensures SplitLines(Serialize(s)) == Lines(s)
  {
    var ls := Lines(s);
    forall i | 0 <= i < |ls| ensures NoNewline(ls[i]) {
      EncodeLineNoNewline(s[i]);
    }
    JoinLinesSplits(ls);
  }

  lemma EncodeLineNoNewline(t: Transaction)
    requires Storable(t)
    ensures NoNewline(EncodeLine(t))
  {
  }

  /** Loading the lines of stored records gives back the records, amounts rounded to cents. */
  lemma {:induction false} LinesRoundTrip(s: seq<Transaction>)
    requires forall i :: 0 <= i < |s| ==> Storable(s[i])
    ensures DecodeLines(Lines(s)) == RoundedAll(s)
  {
    if s != [] {
      var first, others := EncodeLine(s[0]), Lines(s[1..]);
      LineRoundTrip(s[0]);
      assert Lines(s) == [first] + others;
      DecodeLinesAppend([first], others);
      assert [first][..0] == [];
      assert DecodeLines([first]) == [Rounded(s[0])];
      LinesRoundTrip(s[1..]);
      assert RoundedAll(s) == [Rounded(s[0])] + RoundedAll(s[1..]);
    }
  }

  /**
   * The round trip of saving and loading: every record comes back in order, with its amount
   * rounded to cents and everything else unchanged.
   */
  lemma SaveLoadRoundTrip(s: seq<Transaction>)
    requires |s| <= MaxTransactions
    requires forall i :: 0 <= i < |s| ==> Storable(s[i])
    ensures Loaded(Serialize(s)) == RoundedAll(s)
  {
    SerializeSplits(s);
    LinesRoundTrip(s);
  }

  /** Records whose amounts are whole cents come back exactly. */
  lemma SaveLoadIdentity(s: seq<Transaction>)
    requires |s| <= MaxTransactions
    requires forall i :: 0 <= i < |s| ==> Storable(s[i])
    requires forall i :: 0 <= i < |s| ==> WholeCents(s[i].amount)
    ensures Loaded(Serialize(s)) == s
  {
    SaveLoadRoundTrip(s);
    var r := RoundedAll(s);
    forall i | 0 <= i < |s| ensures r[i] == s[i] {
      RoundCentsExact(s[i].amount);
      assert r[i] == s[i].(amount := s[i].amount);
    }
    assert r == s;
  }
}
