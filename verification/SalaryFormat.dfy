/** Salaries as text: thousands grouped by spaces, and the three shapes of a salary line. */
module SalaryFormat {

  function Digit(d: nat): char
    requires d < 10
  {
    "0123456789"[d]
  }

  /** The numeral of a natural number, as the plain decimal verb prints it. */
  function Numeral(n: nat): string {
    if n < 10 then [Digit(n)] else Numeral(n / 10) + [Digit(n % 10)]
  }

  function Decimal(n: int): string {
    if n < 0 then "-" + Numeral(-n) else Numeral(n)
  }

  /** Three digits, padded with zeros. */
  function Padded(n: nat): string
    requires n < 1000
  {
    [Digit(n / 100), Digit(n / 10 % 10), Digit(n % 10)]
  }

  function FormatNumber(num: int): string
    decreases if num < 0 then 0 else num
  {
    if num >= 1000 then FormatNumber(num / 1000) + " " + Padded(num % 1000)
    else Decimal(num)
  }

  function FormatSalary(from: int, to: int, currency: string): string {
    if from > 0 && to > 0 then FormatNumber(from) + " - " + FormatNumber(to) + " " + currency
    else if from > 0 then "от " + FormatNumber(from) + " " + currency
    else "до " + FormatNumber(to) + " " + currency
  }

  // ---------------------------------------------------------------- reading a number back

  predicate IsDigit(c: char) { '0' <= c <= '9' }

  predicate AllDigits(s: string) { forall c <- s :: IsDigit(c) }

  function DigitValue(c: char): nat
    requires IsDigit(c)
  {
    (c - '0') as nat
  }

  function ParseNumeral(s: string): nat
    requires AllDigits(s)
  {
    if s == "" then 0 else ParseNumeral(s[..|s| - 1]) * 10 + DigitValue(s[|s| - 1])
  }

  function ParseInt(s: string): int
    requires IsNumeral(s)
  {
    if s != "" && s[0] == '-' then -(ParseNumeral(s[1..]) as int) else ParseNumeral(s)
  }

  function StripSpaces(s: string): string {
    if s == "" then ""
    else StripSpaces(s[..|s| - 1]) + (if s[|s| - 1] == ' ' then "" else [s[|s| - 1]])
  }

  lemma {:induction false} NumeralReadsBack(n: nat)
    ensures AllDigits(Numeral(n)) && Numeral(n) != "" && ParseNumeral(Numeral(n)) == n
    ensures n > 0 ==> Numeral(n)[0] != '0'
    ensures n < 1000 ==> |Numeral(n)| <= 3
    ensures n < 100 ==> |Numeral(n)| <= 2
  {
    if n >= 10 {
      NumeralReadsBack(n / 10);
      var s := Numeral(n);
      assert s[..|s| - 1] == Numeral(n / 10);
    } else {
      assert Numeral(n)[..0] == "";
    }
  }

  lemma {:induction false} StripNothing(s: string)
    requires ' ' !in s
    ensures StripSpaces(s) == s
  {
    if s != "" {
      StripNothing(s[..|s| - 1]);
      assert s == s[..|s| - 1] + [s[|s| - 1]];
    }
  }

  lemma {:induction false} StripConcat(a: string, b: string)
    ensures StripSpaces(a + b) == StripSpaces(a) + StripSpaces(b)
  {
    if b == "" {
      assert a + b == a;
    } else {
      StripConcat(a, b[..|b| - 1]);
      assert (a + b)[..|a + b| - 1] == a + b[..|b| - 1];
    }
  }

  lemma OneMoreDigit(q: nat, d: nat)
    requires q > 0 && d < 10
    ensures Numeral(10 * q + d) == Numeral(q) + [Digit(d)]
  {
    var n := 10 * q + d;
    assert n / 10 == q && n % 10 == d;
  }

  lemma ThreeDigits(r: nat)
    requires r < 1000
    ensures r == 10 * (10 * (r / 100) + r / 10 % 10) + r % 10
  {
    assert r / 10 == 10 * (r / 100) + r / 10 % 10;
  }

  lemma ThreeMoreDigits(q: nat, a: nat, b: nat, c: nat)
    requires q > 0 && a < 10 && b < 10 && c < 10
    ensures Numeral(1000 * q + 100 * a + 10 * b + c) == Numeral(q) + [Digit(a), Digit(b), Digit(c)]
  {
    OneMoreDigit(q, a);
    var m := 10 * q + a;
    OneMoreDigit(m, b);
    var n := 10 * m + b;
    OneMoreDigit(n, c);
  }

  /** Three more digits are a thousand times more. */
  lemma NumeralOfThousands(q: nat, r: nat)
    requires q > 0 && r < 1000
    ensures Numeral(1000 * q + r) == Numeral(q) + Padded(r)
  {
    ThreeDigits(r);
    ThreeMoreDigits(q, r / 100, r / 10 % 10, r % 10);
  }

  lemma PaddedDigits(n: nat)
    requires n < 1000
    ensures AllDigits(Padded(n)) && ' ' !in Padded(n) && |Padded(n)| == 3
  {
  }

  lemma StripTrailingSpace(a: string)
    ensures StripSpaces(a + " ") == StripSpaces(a)
  {
    var s := a + " ";
    assert s[..|s| - 1] == a && s[|s| - 1] == ' ';
    assert StripSpaces(a) + "" == StripSpaces(a);
  }

  lemma StripGroup(a: string, b: string)
    requires ' ' !in b
    ensures StripSpaces(a + " " + b) == StripSpaces(a) + b
  {
    StripConcat(a + " ", b);
    StripNothing(b);
    StripTrailingSpace(a);
  }

  /** Without its spaces the text is the plain decimal numeral, for every integer. */
  lemma {:induction false} StrippedIsDecimal(n: int)
    ensures StripSpaces(FormatNumber(n)) == Decimal(n)
    decreases if n < 0 then 0 else n
  {
    if n >= 1000 {
      var q, r := n / 1000, n % 1000;
      StrippedIsDecimal(q);
      PaddedDigits(r);
      StripGroup(FormatNumber(q), Padded(r));
      NumeralOfThousands(q, r);
    } else {
      NumeralReadsBack(if n < 0 then -n else n);
      StripNothing(Decimal(n));
    }
  }

  predicate IsNumeral(s: string) {
    AllDigits(if s != "" && s[0] == '-' then s[1..] else s)
  }

  lemma DecimalReadsBack(n: int)
    ensures IsNumeral(Decimal(n)) && ParseInt(Decimal(n)) == n
  {
    if n < 0 {
      NumeralReadsBack(-n);
      assert Decimal(n)[1..] == Numeral(-n);
    } else {
      NumeralReadsBack(n);
      assert Numeral(n)[0] in Numeral(n);
    }
  }

  /** Stripping and parsing returns the number that was printed. */
  lemma FormatReadsBack(n: int)
    ensures IsNumeral(StripSpaces(FormatNumber(n))) && ParseInt(StripSpaces(FormatNumber(n))) == n
  {
    StrippedIsDecimal(n);
    DecimalReadsBack(n);
  }

  /** Different numbers print differently. */
  lemma FormatInjective(a: int, b: int)
    requires FormatNumber(a) == FormatNumber(b)
    ensures a == b
  {
    FormatReadsBack(a);
    FormatReadsBack(b);
  }

  // ---------------------------------------------------------------- the groups

  /** The parts between the spaces. */
  function Split(s: string): (parts: seq<string>)
    ensures |parts| > 0
  {
    if s == "" then [""]
    else
      var parts := Split(s[..|s| - 1]);
      if s[|s| - 1] == ' ' then parts + [""]
      else parts[|parts| - 1 := parts[|parts| - 1] + [s[|s| - 1]]]
  }

  lemma {:induction false} SplitLast(a: string, b: string)
    requires ' ' !in b
    ensures Split(a + " " + b) == Split(a) + [b]
  {
    var s := a + " " + b;
    if b == "" {
      assert s[..|s| - 1] == a;
    } else {
      var b' := b[..|b| - 1];
      SplitLast(a, b');
      assert s[..|s| - 1] == a + " " + b';
      assert b == b' + [b[|b| - 1]];
    }
  }

  lemma {:induction false} SplitWhole(s: string)
    requires ' ' !in s
    ensures Split(s) == [s]
  {
    if s != "" {
      SplitWhole(s[..|s| - 1]);
      assert s == s[..|s| - 1] + [s[|s| - 1]];
    }
  }

  ghost predicate Grouped(parts: seq<string>) {
    && |parts| > 0 && 1 <= |parts[0]| <= 3 && parts[0][0] != '0'
    && (forall i :: 0 <= i < |parts| ==> AllDigits(parts[i]))
    && (forall i :: 1 <= i < |parts| ==> |parts[i]| == 3)
  }

  lemma OneMoreGroup(parts: seq<string>, g: string)
    requires Grouped(parts) && AllDigits(g) && |g| == 3
    ensures Grouped(parts + [g])
  {
  }

  lemma FirstGroup(n: nat)
    requires 0 < n < 1000
    ensures Split(FormatNumber(n)) == [Numeral(n)] && Grouped([Numeral(n)])
  {
    NumeralReadsBack(n);
    SplitWhole(Numeral(n));
  }

  lemma NextGroup(n: nat)
    requires n >= 1000
    ensures Split(FormatNumber(n)) == Split(FormatNumber(n / 1000)) + [Padded(n % 1000)]
  {
    PaddedDigits(n % 1000);
    SplitLast(FormatNumber(n / 1000), Padded(n % 1000));
  }

  /** A positive number is printed in groups: the first has one to three digits and no
      leading zero, every later one exactly three; from 1000 on there are at least two. */
  lemma {:induction false} GroupsOfThree(n: nat)
    requires n > 0
    ensures Grouped(Split(FormatNumber(n)))
    ensures n >= 1000 <==> |Split(FormatNumber(n))| >= 2
  {
    if n >= 1000 {
      GroupsOfThree(n / 1000);
      NextGroup(n);
      PaddedDigits(n % 1000);
      OneMoreGroup(Split(FormatNumber(n / 1000)), Padded(n % 1000));
    } else {
      FirstGroup(n);
    }
  }

  // ---------------------------------------------------------------- salary lines

  /** What a salary line lets its reader know. */
  datatype Known = Range(from: int, to: int) | From(from: int) | UpTo(to: int)

  function Visible(from: int, to: int): Known {
    if from > 0 && to > 0 then Range(from, to) else if from > 0 then From(from) else UpTo(to)
  }

  /** The line without the currency. */
  function Amount(from: int, to: int): string {
    match Visible(from, to)
    case Range(f, t) => FormatNumber(f) + " - " + FormatNumber(t)
    case From(f) => "от " + FormatNumber(f)
    case UpTo(t) => "до " + FormatNumber(t)
  }

  lemma {:induction false} PositiveText(n: nat)
    requires n > 0
    ensures FormatNumber(n) != "" && IsDigit(FormatNumber(n)[0])
    ensures forall c <- FormatNumber(n) :: IsDigit(c) || c == ' '
  {
    if n >= 1000 {
      PositiveText(n / 1000);
      PaddedDigits(n % 1000);
    } else {
      NumeralReadsBack(n);
    }
  }

  lemma RangeInjective(f1: int, t1: int, f2: int, t2: int)
    requires f1 > 0 && t1 > 0 && f2 > 0 && t2 > 0 && Amount(f1, t1) == Amount(f2, t2)
    ensures f1 == f2 && t1 == t2
  {
    PositiveText(f1);
    PositiveText(f2);
    var s, a, b := Amount(f1, t1), FormatNumber(f1), FormatNumber(f2);
    assert forall i :: 0 <= i < |a| ==> s[i] == a[i] && a[i] in a;
    assert forall i :: 0 <= i < |b| ==> s[i] == b[i] && b[i] in b;
    assert s[|a| + 1] == '-' && s[|b| + 1] == '-' && s[|a|] == ' ' && s[|b|] == ' ';
    assert |a| == |b|;
    assert a == s[..|a|] && b == s[..|b|];
    assert FormatNumber(t1) == s[|a| + 3..] && FormatNumber(t2) == s[|b| + 3..];
    FormatInjective(f1, f2);
    FormatInjective(t1, t2);
  }

  lemma LineIsAmount(from: int, to: int, currency: string)
    ensures FormatSalary(from, to, currency) == Amount(from, to) + (" " + currency)
  {
  }

  lemma SameSuffix(a: string, b: string, c: string)
    requires a + c == b + c
    ensures a == b
  {
    assert a == (a + c)[..|a + c| - |c|];
  }

  /** Two salaries in the same currency read the same if and only if they agree in what
      `Visible` keeps: a missing bound is dropped, nothing else. */
  lemma SalaryLineTells(f1: int, t1: int, f2: int, t2: int, currency: string)
    ensures FormatSalary(f1, t1, currency) == FormatSalary(f2, t2, currency)
            <==> Visible(f1, t1) == Visible(f2, t2)
  {
    LineIsAmount(f1, t1, currency);
    LineIsAmount(f2, t2, currency);
    if FormatSalary(f1, t1, currency) == FormatSalary(f2, t2, currency) {
      SameSuffix(Amount(f1, t1), Amount(f2, t2), " " + currency);
      AmountTells(f1, t1, f2, t2);
    }
  }

  lemma AmountTells(f1: int, t1: int, f2: int, t2: int)
    requires Amount(f1, t1) == Amount(f2, t2)
    ensures Visible(f1, t1) == Visible(f2, t2)
  {
    var s := Amount(f1, t1);
    if f1 > 0 && t1 > 0 { PositiveText(f1); }
    if f2 > 0 && t2 > 0 { PositiveText(f2); }
    assert IsDigit(s[0]) <==> Visible(f1, t1).Range?;
    assert IsDigit(s[0]) <==> Visible(f2, t2).Range?;
    if IsDigit(s[0]) {
      RangeInjective(f1, t1, f2, t2);
    } else {
      assert s[0] == 'о' <==> Visible(f1, t1).From?;
      assert s[0] == 'о' <==> Visible(f2, t2).From?;
      var n1 := if f1 > 0 then f1 else t1;
      var n2 := if f2 > 0 then f2 else t2;
      assert FormatNumber(n1) == s[3..] && FormatNumber(n2) == s[3..];
      FormatInjective(n1, n2);
    }
  }

  // ---------------------------------------------------------------- the line as a reader sees it

  /** Text that groups the digits of n, a positive number, in threes. */
  ghost predicate Reads(text: string, n: int) {
    n > 0 && StripSpaces(text) == Numeral(n) && Grouped(Split(text))
  }

  /** Positive bounds are shown grouped, the lower one first, with the words for a missing
      bound and the currency at the end; without a positive lower bound the upper one is shown
      as it is, even if it is not positive. */
  lemma LineReads(from: int, to: int, currency: string) returns (low: string, high: string)
    ensures from > 0 ==> Reads(low, from)
    ensures to > 0 ==> Reads(high, to)
    ensures to <= 0 ==> high == (if to < 0 then "-" + Numeral(-to) else "0")
    ensures FormatSalary(from, to, currency)
            == if from > 0 && to > 0 then low + " - " + high + " " + currency
               else if from > 0 then "от " + low + " " + currency
               else "до " + high + " " + currency
  {
    low, high := FormatNumber(from), FormatNumber(to);
    if from > 0 { ReadsNumber(from); }
    if to > 0 { ReadsNumber(to); }
  }

  lemma ReadsNumber(n: nat)
    requires n > 0
    ensures Reads(FormatNumber(n), n)
  {
    StrippedIsDecimal(n);
    GroupsOfThree(n);
  }
}
