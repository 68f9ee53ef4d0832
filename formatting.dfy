/** The text utilities of money.js: `formatCurrency`, the day buckets of `formatDate`
    and the hour buckets of `updateGreeting`. */
module Formatting {

  /** `currencySymbols`: the symbol shown for each currency code. */
  const CurrencySymbols: map<string, string> := map[
    "USD" := "$", "EUR" := "\U{20AC}", "GBP" := "\U{A3}", "INR" := "\U{20B9}",
    "JPY" := "\U{A5}", "CNY" := "\U{A5}", "AUD" := "$", "CAD" := "$"]

  /** `currencySymbols[code] || '$'`. */
  function Symbol(code: string): (r: string)
    ensures code in CurrencySymbols ==> r == CurrencySymbols[code]
    ensures code !in CurrencySymbols ==> r == "$"
    ensures |r| == 1 && r[0] != '-' && !IsDigit(r[0]) && r[0] != ',' && r[0] != '.'
  {
    if code in CurrencySymbols then CurrencySymbols[code] else "$"
  }

  predicate IsDigit(c: char)
  {
    48 <= c as int <= 57
  }

  function DigitChar(d: nat): (c: char)
    requires d < 10
    ensures IsDigit(c)
  {
    (48 + d) as char
  }

  function Abs(x: real): (r: real)
    ensures r >= 0.0 && (r == x || r == -x)
  {
    if x < 0.0 then -x else x
  }

  /** `Math.abs(x).toFixed(2)` as a whole number of hundredths: the nearest one, the larger on a tie. */
  function Cents(x: real): (n: nat)
    ensures (n as real) - 0.5 <= Abs(x) * 100.0 < (n as real) + 0.5
  {
    (Abs(x) * 100.0 + 0.5).Floor
  }

  /** The decimal digits of `n`, without leading zeros. */
  function DecimalDigits(n: nat): (r: string)
    ensures r != [] && AllDigits(r)
    ensures |r| > 1 ==> r[0] != '0'
  {
    if n < 10 then [DigitChar(n)] else DecimalDigits(n / 10) + [DigitChar(n % 10)]
  }

  predicate AllDigits(d: string)
  {
    forall i :: 0 <= i < |d| ==> IsDigit(d[i])
  }

  /** The number a string of decimal digits denotes. */
  function DigitsValue(d: string): nat
    requires AllDigits(d)
  {
    if d == [] then 0
    else
      assert IsDigit(d[|d| - 1]);
      DigitsValue(d[..|d| - 1]) * 10 + (d[|d| - 1] as int - 48)
  }

  /** Reading the digits back gives the number. */
  lemma {:induction false} DigitsRoundTrip(n: nat)
    ensures DigitsValue(DecimalDigits(n)) == n
  {
    if n >= 10 {
      DigitsRoundTrip(n / 10);
      var d := DecimalDigits(n);
      assert d[..|d| - 1] == DecimalDigits(n / 10);
    }
  }

  /** `x.toFixed(2)` of the non-negative `n / 100`: the integer digits, a point, two digits. */
  function Fixed2(n: nat): string
  {
    DecimalDigits(n / 100) + ['.'] + Hundredths(n)
  }

  /** The two digits after the point. */
  function Hundredths(n: nat): (f: string)
    ensures |f| == 2 && IsDigit(f[0]) && IsDigit(f[1])
  {
    [DigitChar(n % 100 / 10), DigitChar(n % 10)]
  }

  /** The lookahead `(?=(\d{3})+\.)`: one or more groups of three digits, then a point. */
  predicate GroupsThenPoint(s: string)
  {
    |s| >= 4 && IsDigit(s[0]) && IsDigit(s[1]) && IsDigit(s[2]) && (s[3] == '.' || GroupsThenPoint(s[3..]))
  }

  /** `s.replace(/\d(?=(\d{3})+\.)/g, '$&,')`: a comma after each digit the lookahead accepts. */
  function InsertCommas(s: string): string
  {
    if s == [] then []
    else [s[0]] + (if IsDigit(s[0]) && GroupsThenPoint(s[1..]) then [','] else []) + InsertCommas(s[1..])
  }

  /** `formatCurrency`: the symbol, then the absolute value to two decimals with thousands separators. */
  function FormatCurrency(amount: real, code: string): string
  {
    Symbol(code) + InsertCommas(Fixed2(Cents(amount)))
  }

  /** Thousands separators on an integer part: a comma after each digit that has a positive
      multiple of three digits after it. Only digits and commas come out. */
  function Group(d: string): string
  {
    if d == [] then [] else [d[0]] + Separator(d) + Group(d[1..])
  }

  /** The comma after the first digit of `d`, when a positive multiple of three digits follow it. */
  function Separator(d: string): string
  {
    if |d| > 1 && (|d| - 1) % 3 == 0 then [','] else []
  }

  /** Only digits and commas come out of Group. */
  lemma {:induction false} GroupChars(d: string)
    requires AllDigits(d)
    ensures forall i :: 0 <= i < |Group(d)| ==> IsDigit(Group(d)[i]) || Group(d)[i] == ','
  {
    if d != [] {
      GroupChars(d[1..]);
      var c := Separator(d);
      var g := Group(d);
      assert g == [d[0]] + c + Group(d[1..]);
      forall i | 0 <= i < |g| ensures IsDigit(g[i]) || g[i] == ',' {
        if i > |c| {
          assert g[i] == Group(d[1..])[i - 1 - |c|];
        }
      }
    }
  }

  /** Digits followed by a point pass the lookahead exactly when their number is a positive multiple of three. */
  lemma {:induction false} GroupsThenPointDigits(d: string, tail: string)
    requires AllDigits(d)
    ensures GroupsThenPoint(d + "." + tail) <==> |d| > 0 && |d| % 3 == 0
  {
    var s := d + "." + tail;
    if |d| >= 3 {
      assert s[3..] == d[3..] + "." + tail;
      GroupsThenPointDigits(d[3..], tail);
    } else {
      assert s[|d|] == '.';
    }
  }

  /** No lookahead succeeds inside two digits after the point. */
  lemma NoCommasInFraction(f: string)
    requires |f| == 2
    ensures InsertCommas(['.'] + f) == ['.'] + f
  {
    var s := ['.'] + f;
    assert s[1..] == f;
    assert !IsDigit('.');
    assert !GroupsThenPoint(f[1..]);
    assert InsertCommas(f[1..][1..]) == [];
    assert InsertCommas(f[1..]) == f[1..];
    assert !GroupsThenPoint(f);
    assert InsertCommas(f) == [f[0]] + InsertCommas(f[1..]);
  }

  /** On `digits.ff` the regex inserts exactly the thousands separators of the integer part. */
  lemma {:induction false} InsertCommasOfFixed(d: string, f: string)
    requires AllDigits(d)
    requires |f| == 2
    ensures InsertCommas(d + ['.'] + f) == Group(d) + ['.'] + f
  {
    var s := d + ['.'] + f;
    if d == [] {
      assert s == ['.'] + f;
      NoCommasInFraction(f);
    } else {
      assert s[0] == d[0];
      assert s[1..] == d[1..] + ['.'] + f;
      GroupsThenPointDigits(d[1..], f);
      InsertCommasOfFixed(d[1..], f);
      var c := Separator(d);
      assert InsertCommas(s) == [d[0]] + c + InsertCommas(s[1..]);
      assert Group(d) == [d[0]] + c + Group(d[1..]);
    }
  }

  /** Drops every comma. */
  function StripCommas(s: string): string
  {
    if s == [] then [] else (if s[0] == ',' then [] else [s[0]]) + StripCommas(s[1..])
  }

  /** Removing the separators gives the digits back. */
  lemma {:induction false} StripGroup(d: string)
    requires AllDigits(d)
    ensures StripCommas(Group(d)) == d
  {
    if d != [] {
      StripGroup(d[1..]);
      var c := Separator(d);
      StripConcat([d[0]] + c, Group(d[1..]));
      StripConcat([d[0]], c);
      assert StripCommas([d[0]]) == [d[0]];
      assert StripCommas(c) == [];
    }
  }

  lemma {:induction false} StripConcat(a: string, b: string)
    ensures StripCommas(a + b) == StripCommas(a) + StripCommas(b)
  {
    if a != [] {
      assert (a + b)[0] == a[0];
      assert (a + b)[1..] == a[1..] + b;
      StripConcat(a[1..], b);
      var c: string := if a[0] == ',' then [] else [a[0]];
      assert StripCommas(a + b) == c + StripCommas(a[1..] + b);
      assert StripCommas(a) == c + StripCommas(a[1..]);
    } else {
      assert a + b == b;
    }
  }

  /** Group splits off the last three digits behind a comma. */
  lemma {:induction false} GroupSplit(a: string, b: string)
    requires a != [] && b != [] && |b| % 3 == 0
    ensures Group(a + b) == Group(a) + [','] + Group(b)
  {
    var s := a + b;
    assert s[0] == a[0] && s[1..] == a[1..] + b;
    SeparatorSplit(a, b);
    if |a| > 1 {
      GroupSplit(a[1..], b);
      var head := [a[0]] + Separator(a);
      assert Group(s) == head + (Group(a[1..]) + [','] + Group(b));
      assert Group(a) == head + Group(a[1..]);
      Regroup(head, Group(a[1..]), Group(b));
    } else {
      assert a == [a[0]];
    }
  }

  lemma Regroup(x: string, y: string, z: string)
    ensures x + (y + [','] + z) == (x + y) + [','] + z
  {
  }

  /** The comma after the first digit of `a + b`, with `|b|` a positive multiple of three: the
      comma `a` alone would get when `a` has more digits, otherwise a comma right before `b`. */
  lemma SeparatorSplit(a: string, b: string)
    requires a != [] && b != [] && |b| % 3 == 0
    ensures Separator(a + b) == if |a| > 1 then Separator(a) else [',']
  {
    ModThree(|a| - 1, |b|);
  }

  lemma ModThree(x: int, y: int)
    requires y % 3 == 0
    ensures (x + y) % 3 == x % 3
  {
    assert y == 3 * (y / 3);
  }

  lemma {:induction false} GroupShort(d: string)
    requires |d| <= 3
    ensures Group(d) == d
  {
    if d != [] {
      GroupShort(d[1..]);
    }
  }

  /** A comma before every group of three digits, counted from the point: the leading group has
      one to three digits and every other group exactly three. */
  lemma GroupOfThrees(d: string)
    ensures |d| <= 3 ==> Group(d) == d
    ensures |d| > 3 ==> Group(d) == Group(d[..|d| - 3]) + [','] + d[|d| - 3..]
  {
    if |d| <= 3 {
      GroupShort(d);
    } else {
      assert d == d[..|d| - 3] + d[|d| - 3..];
      GroupSplit(d[..|d| - 3], d[|d| - 3..]);
      GroupShort(d[|d| - 3..]);
    }
  }

  /** `formatCurrency` is the symbol, the grouped integer digits, a point and the two hundredths. */
  lemma FormatCurrencyParts(amount: real, code: string)
    ensures FormatCurrency(amount, code)
            == Symbol(code) + Group(DecimalDigits(Cents(amount) / 100)) + ['.'] + Hundredths(Cents(amount))
  {
    var n := Cents(amount);
    InsertCommasOfFixed(DecimalDigits(n / 100), Hundredths(n));
  }

  /** The shape of `formatCurrency`'s output: it starts with the symbol, has no minus sign, ends
      with a point and exactly two digits, and between them has only digits and the commas of Group. */
  lemma FormatCurrencyShape(amount: real, code: string)
    ensures var r := FormatCurrency(amount, code);
            var sym := Symbol(code);
            && |r| >= |sym| + 4
            && r[..|sym|] == sym
            && '-' !in r
            && r[|r| - 3] == '.' && IsDigit(r[|r| - 2]) && IsDigit(r[|r| - 1])
            && r[|sym|..|r| - 3] == Group(DecimalDigits(Cents(amount) / 100))
            && forall i :: |sym| <= i < |r| - 3 ==> IsDigit(r[i]) || r[i] == ','
  {
    var n := Cents(amount);
    var d := DecimalDigits(n / 100);
    FormatCurrencyParts(amount, code);
    GroupChars(d);
    assert Group(d)[0] == d[0];
    Assembled(Symbol(code), Group(d), Hundredths(n));
  }

  /** A one-character symbol other than '-', digits and commas, a point and two digits, put together. */
  lemma Assembled(sym: string, g: string, f: string)
    requires |sym| == 1 && sym[0] != '-'
    requires |g| >= 1 && forall i :: 0 <= i < |g| ==> IsDigit(g[i]) || g[i] == ','
    requires |f| == 2 && IsDigit(f[0]) && IsDigit(f[1])
    ensures var r := sym + g + ['.'] + f;
            && |r| >= |sym| + 4
            && r[..|sym|] == sym
            && '-' !in r
            && r[|r| - 3] == '.' && IsDigit(r[|r| - 2]) && IsDigit(r[|r| - 1])
            && r[|sym|..|r| - 3] == g
            && forall i :: |sym| <= i < |r| - 3 ==> IsDigit(r[i]) || r[i] == ','
  {
    var r := sym + g + ['.'] + f;
    assert r[|sym|..|r| - 3] == g;
    forall i | 0 <= i < |r| ensures r[i] != '-' {
      if i < |sym| {
        assert r[i] == sym[i];
      } else if i < |sym| + |g| {
        assert r[i] == g[i - |sym|];
      }
    }
  }

  /** The two hundredths read back as `n % 100`. */
  lemma HundredthsValue(n: nat)
    ensures DigitsValue(Hundredths(n)) == n % 100
  {
    var f := Hundredths(n);
    assert f[0] as int - 48 == n % 100 / 10;
    assert f[1] as int - 48 == n % 10;
    assert f[..1][..0] == [];
    assert DigitsValue(f[..1]) == f[0] as int - 48;
    assert DigitsValue(f) == DigitsValue(f[..1]) * 10 + (f[1] as int - 48);
  }

  /** Reading the output back, commas dropped, gives the amount rounded to hundredths. */
  lemma FormatCurrencyReadsBack(amount: real, code: string)
    ensures var r := FormatCurrency(amount, code);
            var sym := Symbol(code);
            && |r| >= |sym| + 4
            && AllDigits(StripCommas(r[|sym|..|r| - 3]))
            && AllDigits(r[|r| - 2..])
            && DigitsValue(StripCommas(r[|sym|..|r| - 3])) * 100 + DigitsValue(r[|r| - 2..]) == Cents(amount)
  {
    var n := Cents(amount);
    var d := DecimalDigits(n / 100);
    var sym := Symbol(code);
    FormatCurrencyParts(amount, code);
    var r := FormatCurrency(amount, code);
    assert r == sym + Group(d) + ['.'] + Hundredths(n);
    assert r[|sym|..|r| - 3] == Group(d);
    assert r[|r| - 2..] == Hundredths(n);
    StripGroup(d);
    DigitsRoundTrip(n / 100);
    HundredthsValue(n);
  }

  /** `1000 * 60 * 60 * 24`: a day in milliseconds. */
  const DayMs := 86400000

  /** What `formatDate` shows: the text for the three relative buckets, or the absolute date. */
  datatype DateLabel = Today | Yesterday | DaysAgo(days: nat) | OnDate(date: int)

  /** `formatDate`: whole days between the record and now, either way round. */
  function RelativeDate(date: int, now: int): (r: DateLabel)
    ensures r == Today <==> -DayMs < now - date < DayMs
    ensures r == Yesterday <==> DayMs <= now - date < 2 * DayMs || -2 * DayMs < now - date <= -DayMs
    ensures r.DaysAgo? <==> 2 * DayMs <= now - date < 7 * DayMs || -7 * DayMs < now - date <= -2 * DayMs
    ensures r.DaysAgo? ==> 2 <= r.days < 7
    ensures r.DaysAgo? ==> r.days * DayMs <= (if now >= date then now - date else date - now) < (r.days + 1) * DayMs
    ensures r.OnDate? <==> now - date >= 7 * DayMs || now - date <= -7 * DayMs
    ensures r.OnDate? ==> r.date == date
  {
    var diff := if now - date < 0 then date - now else now - date;
    var days := diff / DayMs;
    if days == 0 then Today
    else if days == 1 then Yesterday
    else if days < 7 then DaysAgo(days)
    else OnDate(date)
  }

  /** The four greetings of `updateGreeting`. */
  datatype DayPart = Morning | Afternoon | Evening | Night

  /** The hour buckets: before 12, before 17, before 21, and the rest. */
  function PartOfDay(hour: int): (r: DayPart)
    ensures r == Morning <==> hour < 12
    ensures r == Afternoon <==> 12 <= hour < 17
    ensures r == Evening <==> 17 <= hour < 21
    ensures r == Night <==> hour >= 21
  {
    if hour < 12 then Morning else if hour < 17 then Afternoon else if hour < 21 then Evening else Night
  }

  function Salutation(p: DayPart): string
  {
    match p
    case Morning => "Good Morning"
    case Afternoon => "Good Afternoon"
    case Evening => "Good Evening"
    case Night => "Good Night"
  }

  /** The greeting line: the salutation, followed by ", name!" when a profile name is set. */
  function Greeting(hour: int, name: string): (r: string)
    ensures |Salutation(PartOfDay(hour))| <= |r| && r[..|Salutation(PartOfDay(hour))|] == Salutation(PartOfDay(hour))
    ensures name == [] <==> r == Salutation(PartOfDay(hour))
    ensures name != [] ==> r[|r| - 1] == '!' && |r| == |Salutation(PartOfDay(hour))| + |name| + 3
    ensures name != [] ==> r[|Salutation(PartOfDay(hour))|..] == ", " + name + "!"
  {
    var greeting := Salutation(PartOfDay(hour));
    if name != [] then greeting + ", " + name + "!" else greeting
  }
}
