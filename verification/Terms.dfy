/** The biennium calendar: a proleptic Gregorian day count, the two-year terms laid
    over it, and the `YYYY-YY` labels that print them. */
module Terms {
  import opened Ordering

  // ----- Days and years

  predicate Leap(y: int) { y % 4 == 0 && (y % 100 != 0 || y % 400 == 0) }

  function YearDays(y: int): int { if Leap(y) then 366 else 365 }

  /** The ordinal of January 1 of year `y`, counting from day 1 = 0001-01-01. */
  function Jan1(y: int): int
    decreases y
  {
    if y <= 1 then 1 else Jan1(y - 1) + YearDays(y - 1)
  }

  function Dec31(y: int): int { Jan1(y + 1) - 1 }

  const LAST_YEAR := 9998

  /** A calendar day by ordinal, to 9998-12-31. The calendar's last year, 9999, is kept
      out: the biennium opening in it has no end date. */
  type Date = d: int | 1 <= d <= 3651694 witness 1

  /** The sentinel an open end compares as: 9999-12-31, after every `Date`. */
  const OPEN: int := 3652059

  lemma {:induction false} Jan1Monotone(y: int, z: int)
    requires 1 <= y <= z
    ensures Jan1(y) + 365 * (z - y) <= Jan1(z)
    decreases z - y
  {
    if y < z { Jan1Monotone(y + 1, z); }
  }

  /** Dividing by `k` steps up just at the multiples of `k`. */
  lemma DivStep(y: int, k: int)
    requires k == 4 || k == 100 || k == 400
    ensures y / k == (y - 1) / k + if y % k == 0 then 1 else 0
  {
  }

  lemma LeapSteps(y: int)
    ensures YearDays(y) == 365 + (y / 4 - (y - 1) / 4) - (y / 100 - (y - 1) / 100) + (y / 400 - (y - 1) / 400)
  {
    DivStep(y, 4); DivStep(y, 100); DivStep(y, 400);
    MultiplesNest(y);
  }

  lemma MultiplesNest(y: int)
    ensures y % 400 == 0 ==> y % 100 == 0
    ensures y % 100 == 0 ==> y % 4 == 0
  {
    if y % 400 == 0 { Hundreds(y); }
    if y % 100 == 0 { Fours(y); }
  }

  lemma Hundreds(y: int)
    requires y % 400 == 0
    ensures y % 100 == 0
  {
    var q, r, m := y / 400, y / 100, y % 100;
    assert y == 400 * q && y == 100 * r + m;
    assert m == 100 * (4 * q - r);
  }

  lemma Fours(y: int)
    requires y % 100 == 0
    ensures y % 4 == 0
  {
    var q, r, m := y / 100, y / 4, y % 4;
    assert y == 100 * q && y == 4 * r + m;
    assert m == 4 * (25 * q - r);
  }

  /** The recursive day count is the closed Gregorian one. */
  lemma {:induction false} Jan1Closed(y: int)
    requires y >= 1
    ensures Jan1(y) == 365 * (y - 1) + (y - 1) / 4 - (y - 1) / 100 + (y - 1) / 400 + 1
  {
    if y > 1 {
      Jan1Closed(y - 1);
      LeapSteps(y - 1);
    }
  }

  /** The bounds of `Date` and `OPEN` are the days they are named for. */
  lemma {:induction false} DateLimits(y: int)
    requires y >= LAST_YEAR + 1
    ensures y == LAST_YEAR + 1 ==> Jan1(y) == 3651695 && Jan1(y + 1) - 1 == OPEN
    ensures Jan1(y) >= 3651695
  {
    if y == LAST_YEAR + 1 { Jan1Closed(y); Jan1Closed(y + 1); } else { DateLimits(y - 1); }
  }

  function YearAtMost(d: Date, y: nat): (r: nat)
    requires 1 <= y
    ensures 1 <= r <= y && Jan1(r) <= d && (r < y ==> d < Jan1(r + 1))
    decreases y
  {
    if Jan1(y) <= d then y else YearAtMost(d, y - 1)
  }

  function YearOf(d: Date): (y: nat)
    ensures 1 <= y <= LAST_YEAR
    ensures Jan1(y) <= d < Jan1(y + 1)
  {
    var y := YearAtMost(d, d / 365 + 1);
    Jan1Monotone(1, d / 365 + 2);
    assert y <= LAST_YEAR by {
      if y > LAST_YEAR { DateLimits(y); }
    }
    y
  }

  lemma Jan1Bounds(y: int)
    requires 1 <= y <= LAST_YEAR + 1
    ensures 1 <= Jan1(y) <= 3651695
    ensures y <= LAST_YEAR ==> Jan1(y) < 3651695
    ensures y > 1 ==> Jan1(y) > 1
  {
    var last := LAST_YEAR + 1;
    DateLimits(last);
    Jan1Monotone(1, y); Jan1Monotone(y, last);
  }

  /** A day falls in exactly one calendar year. */
  lemma YearUnique(d: Date, y: int)
    requires y >= 1
    ensures Jan1(y) <= d < Jan1(y + 1) <==> y == YearOf(d)
  {
    if y < YearOf(d) { Jan1Monotone(y + 1, YearOf(d)); }
    if YearOf(d) < y { Jan1Monotone(YearOf(d) + 1, y); }
  }

  // ----- Bienniums, by odd start year

  type Biennium = y: int | y % 2 == 1 && 1 <= y < LAST_YEAR witness 1

  /** `biennium_for_date`: an even year rolls back to the odd one before it. */
  function BienniumOf(d: Date): Biennium {
    OddYear(YearOf(d))
  }

  function OddYear(y: nat): (b: Biennium)
    requires 1 <= y <= LAST_YEAR
    ensures b <= y <= b + 1
  {
    if y % 2 == 1 then y else y - 1
  }

  lemma OddYearUnique(y: nat, b: Biennium)
    requires 1 <= y <= LAST_YEAR
    ensures b <= y <= b + 1 <==> OddYear(y) == b
  {
  }

  function BienniumStart(b: Biennium): Date {
    Jan1Bounds(b);
    Jan1(b)
  }

  function BienniumEnd(b: Biennium): Date {
    Jan1Bounds(b + 2);
    Dec31(b + 1)
  }

  /** `_in_biennium`: the day's year is one of the biennium's two. */
  predicate InBiennium(d: Date, b: Biennium) {
    b <= YearOf(d) <= b + 1
  }

  lemma YearInWindow(d: Date, y: int, b: Biennium)
    requires 1 <= y <= LAST_YEAR && Jan1(y) <= d < Jan1(y + 1)
    ensures b <= y <= b + 1 <==> Jan1(b) <= d < Jan1(b + 2)
  {
    hide Jan1;
    if y < b { Jan1Monotone(y + 1, b); }
    if y > b + 1 { Jan1Monotone(b + 2, y); }
    if b <= y <= b + 1 { Jan1Monotone(b, y); Jan1Monotone(y + 1, b + 2); }
  }

  /** Every day lies in exactly one biennium window, and being in a biennium's two
      years, being labelled with it, and lying in its window are one condition. */
  lemma BienniumWindow(d: Date, b: Biennium)
    ensures BienniumOf(d) == b <==> BienniumStart(b) <= d <= BienniumEnd(b)
    ensures BienniumOf(d) == b <==> InBiennium(d, b)
  {
    var y := YearOf(d);
    OddYearUnique(y, b);
    YearInWindow(d, y, b);
    hide YearOf, Jan1, OddYear;
  }

  /** Bienniums keep the order of the days in them. */
  lemma BienniumMonotone(c: Date, d: Date)
    requires c <= d
    ensures BienniumOf(c) <= BienniumOf(d)
  {
    if YearOf(d) < YearOf(c) { Jan1Monotone(YearOf(d) + 1, YearOf(c)); }
  }

  /** The bienniums tile the calendar: one ends the day before the next begins. */
  lemma BienniumsAbut(b: Biennium)
    requires b + 2 < LAST_YEAR
    ensures BienniumEnd(b) + 1 == BienniumStart(b + 2)
    ensures BienniumStart(b) < BienniumEnd(b)
  {
    Jan1Monotone(b, b + 2);
  }

  lemma BienniumLength(b: Biennium)
    ensures BienniumStart(b) < BienniumEnd(b)
    ensures BienniumOf(BienniumStart(b)) == b == BienniumOf(BienniumEnd(b))
  {
    Jan1Monotone(b, b + 2);
    BienniumWindow(BienniumStart(b), b);
    BienniumWindow(BienniumEnd(b), b);
  }

  lemma BienniumAtLeast(x: Date, b: Biennium)
    ensures BienniumStart(b) <= x <==> b <= BienniumOf(x)
  {
    BienniumLength(b);
    BienniumWindow(BienniumStart(b), b);
    hide BienniumStart, BienniumEnd, BienniumOf;
    if BienniumStart(b) <= x { BienniumMonotone(BienniumStart(b), x); } else { BienniumMonotone(x, BienniumStart(b)); }
    BienniumWindow(x, b);
  }

  lemma BienniumAtMost(x: Date, b: Biennium)
    ensures x <= BienniumEnd(b) <==> BienniumOf(x) <= b
  {
    BienniumLength(b);
    BienniumWindow(BienniumEnd(b), b);
    BienniumWindow(x, b);
    hide BienniumEnd, BienniumStart, BienniumOf;
    if x <= BienniumEnd(b) { BienniumMonotone(x, BienniumEnd(b)); } else { BienniumMonotone(BienniumEnd(b), x); }
  }

  // ----- Labels

  function Digit(n: nat): char
    requires n < 10
  {
    '0' + n as char
  }

  predicate IsDigit(c: char) { '0' <= c <= '9' }

  function DigitValue(c: char): nat
    requires IsDigit(c)
  {
    (c - '0') as nat
  }

  /** Plain decimal, as `f"{n}"` prints it. */
  function Decimal(n: nat): string {
    if n < 10 then [Digit(n)] else Decimal(n / 10) + [Digit(n % 10)]
  }

  /** `YYYY-YY`: the start year unpadded, the end year's last two digits padded. */
  function Label(b: Biennium): string {
    var suffix := (b + 1) % 100;
    Decimal(b) + "-" + [Digit(suffix / 10), Digit(suffix % 10)]
  }

  predicate AllDigits(s: string) { forall c :: c in s ==> IsDigit(c) }

  function Number(s: string): nat
    requires AllDigits(s)
  {
    if s == "" then 0 else
      var n := |s| - 1;
      assert s[n] in s && forall c :: c in s[..n] ==> c in s;
      10 * Number(s[..n]) + DigitValue(s[n])
  }

  /** `parse_biennium`: `^(\d{4})-(\d{2})$`, whose `$` lets one newline trail, with the
      end year rebuilt from the start year's century. */
  function ParseBiennium(s: string): Option<(int, int)> {
    var body := if |s| == 8 && s[7] == '\n' then s[..7] else s;
    if |body| == 7 && body[4] == '-' && AllDigits(body[..4]) && AllDigits(body[5..]) then
      var start := Number(body[..4]);
      var end := start / 100 * 100 + Number(body[5..]);
      Some((start, if end < start then end + 100 else end))
    else
      None
  }

  /** `biennium_start_year`, on labels whose first field is plain digits. */
  function BienniumStartYear(s: string): Option<int> {
    var field := BeforeDash(s);
    if field != "" && AllDigits(field) then Some(Number(field)) else None
  }

  function BeforeDash(s: string): string {
    if s == "" || s[0] == '-' then "" else [s[0]] + BeforeDash(s[1..])
  }

  lemma {:induction false} NumberDecimal(n: nat)
    ensures AllDigits(Decimal(n)) && Number(Decimal(n)) == n
    ensures |Decimal(n)| >= 1
  {
    var s := Decimal(n);
    if n >= 10 {
      NumberDecimal(n / 10);
      assert s[..|s| - 1] == Decimal(n / 10) && s[|s| - 1] == Digit(n % 10);
    } else {
      assert s[..0] == "" && Number(s[..0]) == 0;
    }
  }

  lemma DecimalWidth(n: nat)
    ensures n < 10 ==> |Decimal(n)| == 1
    ensures 10 <= n < 100 ==> |Decimal(n)| == 2
    ensures 100 <= n < 1000 ==> |Decimal(n)| == 3
    ensures 1000 <= n < 10000 ==> |Decimal(n)| == 4
  {
    if n >= 10 { DecimalWidth(n / 10); }
  }

  lemma {:induction false} BeforeDashOf(digits: string, rest: string)
    requires AllDigits(digits)
    ensures BeforeDash(digits + "-" + rest) == digits
  {
    if digits != "" {
      assert digits[0] in digits;
      assert (digits + "-" + rest)[1..] == digits[1..] + "-" + rest;
      BeforeDashOf(digits[1..], rest);
    } else {
      assert (digits + "-" + rest)[0] == '-';
    }
  }

  /** The printed label reads back as `(b, b + 1)`, century rollovers included, exactly
      for the start years that print with four digits; below them the parser refuses
      what the printer wrote. */
  lemma LabelRoundTrip(b: Biennium)
    ensures ParseBiennium(Label(b)) == if b >= 1000 then Some((b, b + 1)) else None
    ensures BienniumStartYear(Label(b)) == Some(b)
  {
    var suffix := (b + 1) % 100;
    var tail := [Digit(suffix / 10), Digit(suffix % 10)];
    NumberDecimal(b);
    DecimalWidth(b);
    BeforeDashOf(Decimal(b), tail);
    assert Label(b) == Decimal(b) + "-" + tail;
    TwoDigits(suffix);
    if b >= 1000 {
      assert Label(b)[..4] == Decimal(b) && Label(b)[5..] == tail;
      CenturyRollover(b);
    }
  }

  lemma TwoDigits(n: nat)
    requires n < 100
    ensures var t := [Digit(n / 10), Digit(n % 10)]; AllDigits(t) && Number(t) == n
  {
    var t := [Digit(n / 10), Digit(n % 10)];
    assert t[..1] == [Digit(n / 10)] && t[..1][..0] == "";
    assert Number(t[..1]) == n / 10;
  }

  /** Rebuilding the end year from the start year's century gives the next year. */
  lemma CenturyRollover(b: nat)
    ensures var end := b / 100 * 100 + (b + 1) % 100; (if end < b then end + 100 else end) == b + 1
  {
    var c, r := b / 100, b % 100;
    assert b == 100 * c + r;
    if r == 99 { assert b + 1 == 100 * (c + 1); } else { assert (b + 1) % 100 == r + 1; }
  }

  lemma SplitLabel(b: Biennium)
    requires b >= 1000
    ensures |Decimal(b)| == 4 && |Label(b)| == 7
    ensures Label(b)[..4] == Decimal(b)
  {
    DecimalWidth(b);
  }

  /** Comparing equal-length digit strings compares the numbers. */
  lemma {:induction false} TextLeDecimal(s: string, t: string)
    requires |s| == |t| && AllDigits(s) && AllDigits(t)
    ensures TextLe(s, t) <==> Number(s) <= Number(t)
    ensures Number(s) < Pow10(|s|) && Number(t) < Pow10(|t|)
  {
    if s != "" {
      NumberHead(s); NumberHead(t);
      forall c | c in s[1..] ensures c in s {}
      forall c | c in t[1..] ensures c in t {}
      TextLeDecimal(s[1..], t[1..]);
      LeadingDigit(DigitValue(s[0]), DigitValue(t[0]), Pow10(|s| - 1), Number(s[1..]), Number(t[1..]));
    }
  }

  lemma LeadingDigit(x: nat, y: nat, p: nat, m: nat, n: nat)
    requires m < p && n < p && x < 10 && y < 10
    ensures x * p + m <= y * p + n <==> x < y || (x == y && m <= n)
    ensures x * p + m < 10 * p && y * p + n < 10 * p
  {
    assert (x + 1) * p <= 10 * p && (y + 1) * p <= 10 * p;
    if x < y { assert (x + 1) * p <= y * p; }
    if y < x { assert (y + 1) * p <= x * p; }
  }

  function Pow10(n: nat): nat { if n == 0 then 1 else 10 * Pow10(n - 1) }

  lemma TenTimes(d: nat, p: nat, m: nat)
    ensures 10 * (d * p + m) == d * (10 * p) + 10 * m
  {
  }

  lemma {:induction false} NumberHead(s: string)
    requires s != "" && AllDigits(s)
    ensures s[0] in s && AllDigits(s[1..])
    ensures Number(s) == DigitValue(s[0]) * Pow10(|s| - 1) + Number(s[1..])
  {
    assert s[0] in s;
    forall c | c in s[1..] ensures c in s {}
    if |s| == 1 {
      assert s[..0] == "";
    } else {
      var n := |s| - 1;
      forall c | c in s[..n] ensures c in s {}
      NumberHead(s[..n]);
      assert s[..n][1..] == s[1..][..n - 1];
      assert s[1..][n - 1] == s[n];
      TenTimes(DigitValue(s[0]), Pow10(n - 1), Number(s[1..][..n - 1]));
    }
  }

  lemma {:induction false} TextLePrefix(s: string, t: string, u: string, v: string)
    requires |s| == |t| && s != t
    ensures TextLe(s + u, t + v) <==> TextLe(s, t)
  {
    assert s != "";
    assert (s + u)[0] == s[0] && (t + v)[0] == t[0];
    if s[0] == t[0] {
      assert s == [s[0]] + s[1..] && t == [t[0]] + t[1..];
      assert (s + u)[1..] == s[1..] + u && (t + v)[1..] == t[1..] + v;
      TextLePrefix(s[1..], t[1..], u, v);
    }
  }

  /** String order on four-digit labels is chronological order. */
  lemma LabelOrder(a: Biennium, b: Biennium)
    requires a >= 1000 && b >= 1000
    ensures TextLe(Label(a), Label(b)) <==> a <= b
  {
    if a == b {
      TextLeTotal(Label(a), Label(a));
    } else {
      NumberDecimal(a); NumberDecimal(b);
      SplitLabel(a); SplitLabel(b);
      TextLeDecimal(Decimal(a), Decimal(b));
      TextLePrefix(Decimal(a), Decimal(b), Label(a)[4..], Label(b)[4..]);
      assert Label(a) == Decimal(a) + Label(a)[4..];
      assert Label(b) == Decimal(b) + Label(b)[4..];
    }
  }

  function PreviousBiennium(b: Biennium): int { b - 2 }

  /** `bienniums_in_range`: every second year from one start to the other, or the
      source's `ValueError` when they are the wrong way round. */
  function BienniumsInRange(first: Biennium, last: Biennium): Option<seq<Biennium>> {
    if first > last then None else Some(seq((last - first) / 2 + 1, i requires 0 <= i <= (last - first) / 2 => first + 2 * i))
  }

  /** The range is contiguous, covers exactly the bienniums between its ends, and
      `previous_biennium` walks it backwards. */
  lemma RangeIsContiguous(first: Biennium, last: Biennium, b: Biennium)
    requires first <= last
    ensures var r := BienniumsInRange(first, last).value;
            && r[0] == first && r[|r| - 1] == last
            && (forall i :: 0 < i < |r| ==> PreviousBiennium(r[i]) == r[i - 1])
            && (b in r <==> first <= b <= last)
  {
    var r := BienniumsInRange(first, last).value;
    if first <= b <= last {
      assert r[(b - first) / 2] == b;
    }
  }
}
