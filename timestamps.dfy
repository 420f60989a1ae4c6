/** Python `datetime` values with microsecond precision, `datetime.isoformat()`, and
    `datetime.strptime(s, "%Y-%m-%dT%H:%M:%S.%f")` as CPython's `_strptime` performs it. */
module Timestamps {
  import opened Wrappers

  predicate IsLeap(y: int) {
    y % 4 == 0 && (y % 100 != 0 || y % 400 == 0)
  }

  function DaysInMonth(y: int, m: int): int {
    if m == 2 then (if IsLeap(y) then 29 else 28)
    else if m == 4 || m == 6 || m == 9 || m == 11 then 30
    else 31
  }

  /** The seven fields of a naive `datetime`. */
  datatype Moment = Moment(year: int, month: int, day: int,
                           hour: int, minute: int, second: int, microsecond: int)
  {
    /** The ranges the `datetime` constructor enforces (MINYEAR = 1, MAXYEAR = 9999). */
    predicate Valid() {
      && 1 <= year <= 9999 && 1 <= month <= 12 && 1 <= day <= DaysInMonth(year, month)
      && 0 <= hour <= 23 && 0 <= minute <= 59 && 0 <= second <= 59
      && 0 <= microsecond <= 999999
    }
  }

  /** Every `datetime` object satisfies its constructor's range checks. */
  type DateTime = m: Moment | m.Valid() witness Moment(1, 1, 1, 0, 0, 0, 0)

  // ---------------------------------------------------------------------------
  // Decimal digits

  predicate IsDigit(c: char) {
    '0' <= c <= '9'
  }

  predicate AllDigits(s: string) {
    forall i :: 0 <= i < |s| ==> IsDigit(s[i])
  }

  function Pow10(n: nat): (r: nat)
    ensures r >= 1
  {
    if n == 0 then 1 else 10 * Pow10(n - 1)
  }

  /** The number a string of decimal digits denotes, as `int()` reads it. */
  function Value(ds: string): nat
    requires AllDigits(ds)
  {
    if ds == [] then 0 else 10 * Value(ds[..|ds| - 1]) + (ds[|ds| - 1] as int - '0' as int)
  }

  /** `"%0<width>d" % n` for `n < 10^width`. */
  function Pad(n: nat, width: nat): (r: string)
    requires n < Pow10(width)
    ensures |r| == width && AllDigits(r)
  {
    if width == 0 then [] else Pad(n / 10, width - 1) + [('0' as int + n % 10) as char]
  }

  lemma {:induction false} ValueOfPad(n: nat, width: nat)
    requires n < Pow10(width)
    ensures Value(Pad(n, width)) == n
    decreases width
  {
    if width > 0 {
      var p := Pad(n, width);
      assert p[..|p| - 1] == Pad(n / 10, width - 1);
      ValueOfPad(n / 10, width - 1);
    }
  }

  // ---------------------------------------------------------------------------
  // datetime.isoformat()

  /** The `YYYY-MM-DD<sep>HH:MM:SS` part that `isoformat(sep)` always writes. */
  function Stem(t: DateTime, sep: char): string {
    Pad(t.year, 4) + "-" + Pad(t.month, 2) + "-" + Pad(t.day, 2) + [sep]
    + Pad(t.hour, 2) + ":" + Pad(t.minute, 2) + ":" + Pad(t.second, 2)
  }

  /** `t.isoformat(sep)`: the fraction `.ffffff` is written only when the microsecond is not 0. */
  function Render(t: DateTime, sep: char): (s: string)
    ensures |s| == if t.microsecond != 0 then 26 else 19
    ensures Stem(t, sep) <= s
  {
    Stem(t, sep) + (if t.microsecond != 0 then "." + Pad(t.microsecond, 6) else "")
  }

  /** `t.isoformat()`, as `to_dict` writes timestamps. */
  function IsoFormat(t: DateTime): string {
    Render(t, 'T')
  }

  // ---------------------------------------------------------------------------
  // datetime.strptime(s, "%Y-%m-%dT%H:%M:%S.%f")

  /** `a` is what is left of `s` after something was read from its front. */
  predicate IsSuffix(a: string, s: string) {
    |a| <= |s| && a == s[|s| - |a|..]
  }

  lemma SuffixOfSuffix(a: string, b: string, s: string)
    requires IsSuffix(a, b) && IsSuffix(b, s)
    ensures IsSuffix(a, s)
  {
    assert s[|s| - |b|..][|b| - |a|..] == s[|s| - |a|..];
  }

  /** A number read from the front of a string, and what follows it. */
  datatype Scan = Scan(value: int, rest: string)

  /** Length of the leading run of ASCII digits. */
  function DigitRun(s: string): (n: nat)
    ensures n <= |s| && AllDigits(s[..n])
    ensures n < |s| ==> !IsDigit(s[n])
  {
    if s != [] && IsDigit(s[0]) then 1 + DigitRun(s[1..]) else 0
  }

  /** `%Y`, the pattern `\d\d\d\d`: exactly four digits. */
  function Year(s: string): (r: Option<Scan>)
    ensures r.Some? ==> |s| >= 4 && AllDigits(s[..4]) && r.value.rest == s[4..] && 0 <= r.value.value <= 9999
  {
    if |s| >= 4 && AllDigits(s[..4]) then
      ValueBelow(s[..4]);
      Some(Scan(Value(s[..4]), s[4..]))
    else None
  }

  lemma {:induction false} ValueBelow(ds: string)
    requires AllDigits(ds)
    ensures Value(ds) < Pow10(|ds|)
    decreases |ds|
  {
    if ds != [] {
      ValueBelow(ds[..|ds| - 1]);
    }
  }

  /** `%m`, `%H`, `%M`, `%S`: a one- or two-digit number in `lo..hi`, as the alternations
      `1[0-2]|0[1-9]|[1-9]`, `2[0-3]|[0-1]\d|\d`, `[0-5]\d|\d` and `6[0-1]|[0-5]\d|\d` accept
      when the next character of the format is a non-digit separator. */
  function Field(s: string, lo: int, hi: int): (r: Option<Scan>)
    ensures r.Some? ==> lo <= r.value.value <= hi && |r.value.rest| < |s|
    ensures r.Some? ==> IsSuffix(r.value.rest, s)
  {
    var n := DigitRun(s);
    if 1 <= n <= 2 && lo <= Value(s[..n]) <= hi then Some(Scan(Value(s[..n]), s[n..])) else None
  }

  /** `%d`, the pattern `3[01]|[12]\d|0[1-9]|[1-9]| [1-9]`: a day 1..31, or a space and a
      digit 1..9. */
  function Day(s: string): (r: Option<Scan>)
    ensures r.Some? ==> 1 <= r.value.value <= 31
    ensures r.Some? ==> IsSuffix(r.value.rest, s)
  {
    if |s| >= 2 && s[0] == ' ' && '1' <= s[1] <= '9' then Some(Scan(s[1] as int - '0' as int, s[2..]))
    else Field(s, 1, 31)
  }

  /** A literal character of the format. */
  function Literal(s: string, c: char): (r: Option<string>)
    ensures r.Some? <==> s != [] && s[0] == c
    ensures r.Some? ==> r.value == s[1..]
  {
    if s != [] && s[0] == c then Some(s[1..]) else None
  }

  /** The literal `T`: the pattern is compiled with IGNORECASE, so `t` matches too. */
  function DateSeparator(s: string): (r: Option<string>)
    ensures r.Some? <==> s != [] && (s[0] == 'T' || s[0] == 't')
    ensures r.Some? ==> r.value == s[1..]
  {
    if s != [] && (s[0] == 'T' || s[0] == 't') then Some(s[1..]) else None
  }

  /** `%f`, the pattern `[0-9]{1,6}`, which must end the string (otherwise "unconverted data
      remains"); the digits are right-padded with zeros to six places. */
  function Fraction(s: string): (r: Option<int>)
    ensures r.Some? ==> 0 <= r.value <= 999999
    ensures r.Some? ==> 1 <= |s| <= 6 && AllDigits(s)
  {
    var n := DigitRun(s);
    if 1 <= n <= 6 && n == |s| then
      assert s[..n] == s;
      ValueBelow(s);
      FractionBound(Value(s), n);
      Some(Value(s) * Pow10(6 - n))
    else None
  }

  lemma FractionBound(v: nat, n: nat)
    requires 1 <= n <= 6 && v < Pow10(n)
    ensures v * Pow10(6 - n) <= 999999
  {
    assert Pow10(1) == 10 && Pow10(2) == 100 && Pow10(3) == 1000;
    assert Pow10(4) == 10000 && Pow10(5) == 100000 && Pow10(6) == 1000000;
  }

  /** Three numbers read in a row, and the text after them. */
  datatype Triple = Triple(a: int, b: int, c: int, rest: string)

  /** `%Y-%m-%d` matched from the front of the string. */
  function ScanDate(s: string): (r: Option<Triple>)
    ensures r.Some? ==> |s| >= 5 && AllDigits(s[..4]) && s[4] == '-'
    ensures r.Some? ==> IsSuffix(r.value.rest, s)
  {
    var y :- Year(s);
    var s1 :- Literal(y.rest, '-');
    var mo :- Field(s1, 1, 12);
    var s2 :- Literal(mo.rest, '-');
    var d :- Day(s2);
    SuffixOfSuffix(mo.rest, s1, s[5..]);
    SuffixOfSuffix(s2, mo.rest, s[5..]);
    SuffixOfSuffix(d.rest, s2, s[5..]);
    SuffixOfSuffix(d.rest, s[5..], s);
    Some(Triple(y.value, mo.value, d.value, d.rest))
  }

  /** `%H:%M:%S` matched from the front of the string. */
  function ScanTime(s: string): (r: Option<Triple>)
    ensures r.Some? ==> IsSuffix(r.value.rest, s)
  {
    var h :- Field(s, 0, 23);
    var s1 :- Literal(h.rest, ':');
    var mi :- Field(s1, 0, 59);
    var s2 :- Literal(mi.rest, ':');
    var se :- Field(s2, 0, 61);
    SuffixOfSuffix(s1, h.rest, s);
    SuffixOfSuffix(mi.rest, s1, s);
    SuffixOfSuffix(s2, mi.rest, s);
    SuffixOfSuffix(se.rest, s2, s);
    Some(Triple(h.value, mi.value, se.value, se.rest))
  }

  /** The text ends in a '.' followed by `n` digits, 1 to 6 of them: the `.%f` tail. */
  predicate EndsInFraction(s: string, n: int) {
    1 <= n <= 6 && n < |s| && s[|s| - n - 1] == '.' && AllDigits(s[|s| - n..])
  }

  /** After the date, the separator, the time and a '.', the digits `%f` read are the end
      of the whole text. */
  lemma FractionTail(s: string, afterDate: string, s1: string, afterTime: string, digits: string)
    requires IsSuffix(afterDate, s) && afterDate != [] && s1 == afterDate[1..]
    requires IsSuffix(afterTime, s1) && afterTime != [] && afterTime[0] == '.' && digits == afterTime[1..]
    requires 1 <= |digits| <= 6 && AllDigits(digits)
    ensures EndsInFraction(s, |digits|)
  {
    assert IsSuffix(s1, afterDate);
    SuffixOfSuffix(afterTime, s1, afterDate);
    SuffixOfSuffix(afterTime, afterDate, s);
    assert s[|s| - |digits|..] == digits;
  }

  /** `datetime.strptime(s, "%Y-%m-%dT%H:%M:%S.%f")`; None stands for the `ValueError` it
      raises on text that does not match or fields the `datetime` constructor rejects
      (year 0, a day past the end of the month, second 60 or 61). */
  function StrPTime(s: string): (r: Option<DateTime>)
    ensures r.Some? ==> |s| >= 5 && AllDigits(s[..4]) && s[4] == '-'
    ensures r.Some? ==> exists n :: EndsInFraction(s, n)
  {
    var date :- ScanDate(s);
    var s1 :- DateSeparator(date.rest);
    var time :- ScanTime(s1);
    var s2 :- Literal(time.rest, '.');
    var us :- Fraction(s2);
    FractionTail(s, date.rest, s1, time.rest, s2);
    var m := Moment(date.a, date.b, date.c, time.a, time.b, time.c, us);
    if m.Valid() then Some(m) else None
  }

  // ---------------------------------------------------------------------------
  // Round trip

  lemma YearOfPad(n: nat, rest: string)
    requires n < 10000
    ensures Year(Pad(n, 4) + rest) == Some(Scan(n, rest))
  {
    assert Pow10(4) == 10000;
    var s := Pad(n, 4) + rest;
    assert s[..4] == Pad(n, 4);
    assert s[4..] == rest;
    ValueOfPad(n, 4);
  }

  lemma {:induction false} FieldOfPad(n: nat, lo: int, hi: int, rest: string)
    requires n < 100 && lo <= n <= hi
    requires rest == [] || !IsDigit(rest[0])
    ensures Field(Pad(n, 2) + rest, lo, hi) == Some(Scan(n, rest))
  {
    assert Pow10(2) == 100;
    var p := Pad(n, 2);
    var s := p + rest;
    assert s[0] == p[0] && s[1] == p[1];
    assert s[1..][0] == p[1];
    assert DigitRun(s) == 2;
    assert s[..2] == p;
    assert s[2..] == rest;
    ValueOfPad(n, 2);
  }

  lemma DayOfPad(n: nat, rest: string)
    requires 1 <= n <= 31
    requires rest == [] || !IsDigit(rest[0])
    ensures Day(Pad(n, 2) + rest) == Some(Scan(n, rest))
  {
    assert Pow10(2) == 100;
    var p := Pad(n, 2);
    assert IsDigit(p[0]);
    assert (p + rest)[0] == p[0];
    FieldOfPad(n, 1, 31, rest);
  }

  /** A two-digit field followed by a separator that is not a digit. */
  lemma FieldThenLiteral(n: nat, lo: int, hi: int, c: char, tail: string)
    requires n < 100 && lo <= n <= hi && !IsDigit(c)
    ensures Field(Pad(n, 2) + ([c] + tail), lo, hi) == Some(Scan(n, [c] + tail))
    ensures Literal([c] + tail, c) == Some(tail)
  {
    FieldOfPad(n, lo, hi, [c] + tail);
  }

  /** `ScanDate` read off step by step. */
  lemma ScanDateSteps(s: string, p1: string, m1: string, q1: string, m2: string,
                      y: int, mo: int, d: int, rest: string)
    requires Year(s) == Some(Scan(y, p1)) && Literal(p1, '-') == Some(m1)
    requires Field(m1, 1, 12) == Some(Scan(mo, q1)) && Literal(q1, '-') == Some(m2)
    requires Day(m2) == Some(Scan(d, rest))
    ensures ScanDate(s) == Some(Triple(y, mo, d, rest))
  {
  }

  /** `ScanTime` read off step by step. */
  lemma ScanTimeSteps(s: string, p1: string, m1: string, q1: string, m2: string,
                      h: int, mi: int, se: int, rest: string)
    requires Field(s, 0, 23) == Some(Scan(h, p1)) && Literal(p1, ':') == Some(m1)
    requires Field(m1, 0, 59) == Some(Scan(mi, q1)) && Literal(q1, ':') == Some(m2)
    requires Field(m2, 0, 61) == Some(Scan(se, rest))
    ensures ScanTime(s) == Some(Triple(h, mi, se, rest))
  {
  }

  lemma ScanDateOfPads(y: nat, mo: nat, d: nat, rest: string)
    requires y < 10000 && 1 <= mo <= 12 && 1 <= d <= 31
    requires rest == [] || !IsDigit(rest[0])
    ensures ScanDate(Pad(y, 4) + "-" + Pad(mo, 2) + "-" + Pad(d, 2) + rest)
         == Some(Triple(y, mo, d, rest))
  {
    var m2 := Pad(d, 2) + rest;
    var q1 := ['-'] + m2;
    var m1 := Pad(mo, 2) + q1;
    var p1 := ['-'] + m1;
    var s := Pad(y, 4) + "-" + Pad(mo, 2) + "-" + Pad(d, 2) + rest;
    assert s == Pad(y, 4) + p1;
    YearOfPad(y, p1);
    FieldThenLiteral(mo, 1, 12, '-', m2);
    DayOfPad(d, rest);
    ScanDateSteps(s, p1, m1, q1, m2, y, mo, d, rest);
  }

  lemma ScanTimeOfPads(h: nat, mi: nat, se: nat, rest: string)
    requires h <= 23 && mi <= 59 && se <= 61
    requires rest == [] || !IsDigit(rest[0])
    ensures ScanTime(Pad(h, 2) + ":" + Pad(mi, 2) + ":" + Pad(se, 2) + rest)
         == Some(Triple(h, mi, se, rest))
  {
    var m2 := Pad(se, 2) + rest;
    var q1 := [':'] + m2;
    var m1 := Pad(mi, 2) + q1;
    var p1 := [':'] + m1;
    var s := Pad(h, 2) + ":" + Pad(mi, 2) + ":" + Pad(se, 2) + rest;
    assert s == Pad(h, 2) + p1;
    FieldThenLiteral(h, 0, 23, ':', m1);
    FieldThenLiteral(mi, 0, 59, ':', m2);
    FieldOfPad(se, 0, 61, rest);
    ScanTimeSteps(s, p1, m1, q1, m2, h, mi, se, rest);
  }

  /** Reading the fraction text that follows a rendered `YYYY-MM-DDTHH:MM:SS`. */
  lemma StrPTimeOfStem(t: DateTime, rest: string)
    requires rest == [] || !IsDigit(rest[0])
    ensures StrPTime(Stem(t, 'T') + rest)
         == (var f :- Literal(rest, '.');
             var us :- Fraction(f);
             var m := Moment(t.year, t.month, t.day, t.hour, t.minute, t.second, us);
             if m.Valid() then Some(m) else None)
  {
    var time := Pad(t.hour, 2) + ":" + Pad(t.minute, 2) + ":" + Pad(t.second, 2) + rest;
    var date := Pad(t.year, 4) + "-" + Pad(t.month, 2) + "-" + Pad(t.day, 2);
    var s := Stem(t, 'T') + rest;
    assert s == date + ("T" + time);
    ScanDateOfPads(t.year, t.month, t.day, "T" + time);
    assert DateSeparator("T" + time) == Some(time);
    ScanTimeOfPads(t.hour, t.minute, t.second, rest);
    StrPTimeSteps(s, Triple(t.year, t.month, t.day, "T" + time), time,
                  Triple(t.hour, t.minute, t.second, rest));
  }

  /** `StrPTime` read off once the date, the separator and the time have been scanned. */
  lemma StrPTimeSteps(s: string, date: Triple, s1: string, time: Triple)
    requires ScanDate(s) == Some(date) && DateSeparator(date.rest) == Some(s1)
    requires ScanTime(s1) == Some(time)
    ensures StrPTime(s)
         == (var f :- Literal(time.rest, '.');
             var us :- Fraction(f);
             var m := Moment(date.a, date.b, date.c, time.a, time.b, time.c, us);
             if m.Valid() then Some(m) else None)
  {
  }

  /** The fixed parse pattern reads back `isoformat()` exactly when the microsecond is not 0:
      with microsecond 0 the fraction is omitted and `.%f` cannot match. */
  lemma StrPTimeOfIsoFormat(t: DateTime)
    ensures StrPTime(IsoFormat(t)) == if t.microsecond != 0 then Some(t) else None
  {
    if t.microsecond != 0 {
      StrPTimeOfFraction(t);
    } else {
      StrPTimeOfStem(t, "");
      assert IsoFormat(t) == Stem(t, 'T') + "";
    }
  }

  lemma StrPTimeOfFraction(t: DateTime)
    requires t.microsecond != 0
    ensures StrPTime(IsoFormat(t)) == Some(t)
  {
    assert Pow10(6) == 1000000;
    var digits := Pad(t.microsecond, 6);
    var f := "." + digits;
    StrPTimeOfStem(t, f);
    assert IsoFormat(t) == Stem(t, 'T') + f;
    assert f[1..] == digits;
    FractionOfPad(t.microsecond);
  }

  lemma FractionOfPad(us: nat)
    requires us < 1000000
    ensures Fraction(Pad(us, 6)) == Some(us)
  {
    assert Pow10(6) == 1000000;
    var digits := Pad(us, 6);
    assert digits[..6] == digits;
    ValueOfPad(us, 6);
  }


  /** The parse reconstruction evidently needs, not the one models/base_model.py:62 does:
      it also accepts the fraction-less form `isoformat()` writes for microsecond 0 (what
      `datetime.fromisoformat` does for these strings). */
  function StrPTimeEitherForm(s: string): Option<DateTime> {
    if StrPTime(s).Some? then StrPTime(s) else StrPTime(s + ".0")
  }

  /** With the fraction optional, every `isoformat()` string reads back its value. */
  lemma StrPTimeEitherFormOfIsoFormat(t: DateTime)
    ensures StrPTimeEitherForm(IsoFormat(t)) == Some(t)
  {
    StrPTimeOfIsoFormat(t);
    if t.microsecond == 0 {
      StrPTimeOfPaddedZero(t);
    }
  }

  /** `isoformat()` of a whole second, with ".0" appended, reads back the same value. */
  lemma StrPTimeOfPaddedZero(t: DateTime)
    requires t.microsecond == 0
    ensures StrPTime(IsoFormat(t) + ".0") == Some(t)
  {
    StrPTimeOfStem(t, ".0");
    assert IsoFormat(t) + ".0" == Stem(t, 'T') + ".0";
    assert Literal(".0", '.') == Some("0");
    FractionOfZero();
    assert Moment(t.year, t.month, t.day, t.hour, t.minute, t.second, 0) == t;
  }

  lemma FractionOfZero()
    ensures Fraction("0") == Some(0)
  {
    assert DigitRun("0"[1..]) == 0;
    assert DigitRun("0") == 1;
    assert "0"[..0] == [];
    assert Value("0") == 0;
  }
}
