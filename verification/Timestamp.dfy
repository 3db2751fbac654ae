/** The UTC timestamps of the hooks' logs and records. */
module Timestamp {
  import opened Wrappers
  import opened Text
  import opened Calendar

  /** One `{value:0width}` of the format string, and the literal text after it. */
  datatype Part = Part(value: nat, width: nat, after: string)

  function Render(parts: seq<Part>): string {
    if parts == [] then ""
    else Padded(parts[0].value, parts[0].width) + parts[0].after + Render(parts[1..])
  }

  function Parts(date: Date, secondOfDay: nat): seq<Part>
    requires date.year >= 0 && Valid(date)
  {
    [Part(date.year, 4, "-"), Part(date.month, 2, "-"), Part(date.day, 2, "T"),
     Part(secondOfDay / 3600, 2, ":"), Part(secondOfDay % 3600 / 60, 2, ":"), Part(secondOfDay % 60, 2, "Z")]
  }

  /** Text of a Unix time, whole seconds, with the closing `Z`. */
  function UtcText(seconds: nat): string {
    var date := CivilFromDays(seconds / 86_400);
    YearAfterEpoch(seconds / 86_400);
    Render(Parts(date, seconds % 86_400))
  }

  /** The last second that is written with a four-digit year. */
  const LAST_FOUR_DIGIT_SECOND: nat := 253_402_300_799

  lemma YearAfterEpoch(days: nat)
    ensures Valid(CivilFromDays(days)) && CivilFromDays(days).year >= 1970
    ensures days <= LAST_FOUR_DIGIT_SECOND / 86_400 <==> CivilFromDays(days).year <= 9999
  {
    CivilFromDaysCorrect(days);
    YearBounds(CivilFromDays(days), days);
  }

  lemma YearBounds(c: Date, n: int)
    requires Valid(c) && DayNumber(c) == n && n >= 0
    ensures c.year >= 1970 && (n <= 2_932_896 <==> c.year <= 9999)
  {
    var first, last := Date(1970, 1, 1), Date(9999, 12, 31);
    MonthTable(9999);
    assert DayNumber(first) == 0 && DayNumber(last) == 2_932_896;
    if c.year < 1970 {
      DayNumberMonotone(c, first);
    }
    if c.year > 9999 {
      DayNumberMonotone(last, c);
    } else if c != last {
      DayNumberMonotone(c, last);
    }
  }

  predicate Fits(p: Part) {
    1 <= p.width && p.value < Pow10(p.width)
  }

  predicate SameShape(ps: seq<Part>, qs: seq<Part>) {
    |ps| == |qs| && forall i | 0 <= i < |ps| ::
      Fits(ps[i]) && Fits(qs[i]) && ps[i].width == qs[i].width && ps[i].after == qs[i].after
  }

  /** Order of the values, first difference first. */
  predicate ValuesLess(ps: seq<Part>, qs: seq<Part>)
    requires |ps| == |qs|
  {
    ps != [] && (ps[0].value < qs[0].value
                 || (ps[0].value == qs[0].value && ValuesLess(ps[1..], qs[1..])))
  }

  lemma {:induction false} RenderOrder(ps: seq<Part>, qs: seq<Part>)
    requires SameShape(ps, qs) && ValuesLess(ps, qs)
    ensures StrLess(Render(ps), Render(qs))
  {
    var a, b := Padded(ps[0].value, ps[0].width), Padded(qs[0].value, qs[0].width);
    var x, y := ps[0].after + Render(ps[1..]), qs[0].after + Render(qs[1..]);
    assert Render(ps) == a + x && Render(qs) == b + y;
    if ps[0].value < qs[0].value {
      PaddedOrder(ps[0].value, qs[0].value, ps[0].width);
      PaddedWidth(ps[0].value, ps[0].width);
      PaddedWidth(qs[0].value, qs[0].width);
      StrLessHead(a, b, x, y);
    } else {
      RenderOrder(ps[1..], qs[1..]);
      StrLessPrefix(ps[0].after, Render(ps[1..]), Render(qs[1..]));
      StrLessPrefix(a, x, y);
    }
  }

  lemma PartsFit(date: Date, secondOfDay: nat)
    requires Valid(date) && 0 <= date.year <= 9999 && secondOfDay < 86_400
    ensures forall i | 0 <= i < 6 :: Fits(Parts(date, secondOfDay)[i])
  {
    assert Pow10(2) == 100 && Pow10(4) == 10_000;
  }

  /** Fixed columns: `width` digits, then the literal text after them. */
  function ParseColumns(text: string, shape: seq<Part>): (r: Option<seq<nat>>)
    ensures r.Some? ==> |r.value| == |shape|
  {
    if shape == [] then
      if text == "" then Some([]) else None
    else
      var w, sep := shape[0].width, shape[0].after;
      if w + |sep| <= |text| && AllDigits(text[..w]) && text[w..w + |sep|] == sep then
        match ParseColumns(text[w + |sep|..], shape[1..])
        case None => None
        case Some(rest) => Some([Parse(text[..w])] + rest)
      else None
  }

  function Values(parts: seq<Part>): (v: seq<nat>)
    ensures |v| == |parts|
  {
    seq(|parts|, i requires 0 <= i < |parts| => parts[i].value)
  }

  lemma {:induction false} ParseRender(ps: seq<Part>, shape: seq<Part>)
    requires SameShape(ps, shape)
    ensures ParseColumns(Render(ps), shape) == Some(Values(ps))
  {
    if ps != [] {
      var head, sep, rest := Padded(ps[0].value, ps[0].width), ps[0].after, Render(ps[1..]);
      PaddedWidth(ps[0].value, ps[0].width);
      ParsePadded(ps[0].value, ps[0].width);
      ParseRender(ps[1..], shape[1..]);
      var text := head + sep + rest;
      assert text[..|head|] == head && text[|head|..|head| + |sep|] == sep && text[|head| + |sep|..] == rest;
      assert Values(ps) == [ps[0].value] + Values(ps[1..]);
    }
  }

  lemma {:induction false} RenderWidth(ps: seq<Part>)
    requires forall i | 0 <= i < |ps| :: Fits(ps[i]) && |ps[i].after| == 1
    ensures |Render(ps)| == TotalWidth(ps)
  {
    if ps != [] {
      PaddedWidth(ps[0].value, ps[0].width);
      RenderWidth(ps[1..]);
    }
  }

  function TotalWidth(ps: seq<Part>): nat {
    if ps == [] then 0 else ps[0].width + 1 + TotalWidth(ps[1..])
  }

  /** A reader of the text: fixed columns, and the ranges of RFC 3339, section 5.7. */
  function ParseUtc(text: string): Option<int> {
    match ParseColumns(text, Parts(Date(1970, 1, 1), 0))
    case None => None
    case Some(v) =>
      var date := Date(v[0], v[1], v[2]);
      if Valid(date) && v[3] < 24 && v[4] < 60 && v[5] < 60
      then Some(DayNumber(date) * 86_400 + v[3] * 3600 + v[4] * 60 + v[5])
      else None
  }

  lemma TwentyColumns(date: Date, secondOfDay: nat)
    requires Valid(date) && 0 <= date.year <= 9999 && secondOfDay < 86_400
    ensures |Render(Parts(date, secondOfDay))| == 20
  {
    var ps := Parts(date, secondOfDay);
    PartsFit(date, secondOfDay);
    RenderWidth(ps);
    WidthFrom(ps, 0);
    WidthFrom(ps, 2);
    WidthFrom(ps, 4);
    assert ps[0..] == ps;
  }

  lemma WidthFrom(ps: seq<Part>, k: nat)
    requires k + 2 <= |ps|
    ensures TotalWidth(ps[k..]) == ps[k].width + ps[k + 1].width + 2 + TotalWidth(ps[k + 2..])
  {
    assert ps[k..][1..] == ps[k + 1..] && ps[k + 1..][1..] == ps[k + 2..];
  }

  lemma PartValues(date: Date, secondOfDay: nat)
    requires Valid(date) && date.year >= 0 && secondOfDay < 86_400
    ensures var v := Values(Parts(date, secondOfDay));
            && |v| == 6 && Date(v[0], v[1], v[2]) == date && v[4] < 60 && v[5] < 60
            && v[3] * 3600 + v[4] * 60 + v[5] == secondOfDay
  {
    var ps := Parts(date, secondOfDay);
    ValueOf(ps, 0);
    ValueOf(ps, 1);
    ValueOf(ps, 2);
    ValueOf(ps, 3);
    ValueOf(ps, 4);
    ValueOf(ps, 5);
  }

  lemma {:induction false} ValueOf(ps: seq<Part>, i: nat)
    requires i < |ps|
    ensures |Values(ps)| == |ps| && Values(ps)[i] == ps[i].value
  {
    if i > 0 {
      ValueOf(ps[1..], i - 1);
    }
  }

  lemma OneShape(date: Date, secondOfDay: nat)
    requires Valid(date) && 0 <= date.year <= 9999 && secondOfDay < 86_400
    ensures SameShape(Parts(date, secondOfDay), Parts(Date(1970, 1, 1), 0))
  {
    PartsFit(date, secondOfDay);
    PartsFit(Date(1970, 1, 1), 0);
  }

  lemma ReadsBack(date: Date, secondOfDay: nat)
    requires Valid(date) && 0 <= date.year <= 9999 && secondOfDay < 86_400
    ensures ParseUtc(Render(Parts(date, secondOfDay))) == Some(DayNumber(date) * 86_400 + secondOfDay)
  {
    OneShape(date, secondOfDay);
    ParseRender(Parts(date, secondOfDay), Parts(Date(1970, 1, 1), 0));
    PartValues(date, secondOfDay);
    ParsedUtc(Render(Parts(date, secondOfDay)), Values(Parts(date, secondOfDay)));
  }

  lemma ParsedUtc(text: string, v: seq<nat>)
    requires ParseColumns(text, Parts(Date(1970, 1, 1), 0)) == Some(v) && |v| == 6
    requires Valid(Date(v[0], v[1], v[2])) && v[3] * 3600 + v[4] * 60 + v[5] < 86_400 && v[4] < 60 && v[5] < 60
    ensures ParseUtc(text) == Some(DayNumber(Date(v[0], v[1], v[2])) * 86_400 + v[3] * 3600 + v[4] * 60 + v[5])
  {
  }

  /** Below year 10000 the text has 20 columns and reads back as the time it was printed for. */
  lemma UtcTextReadsBack(seconds: nat)
    requires seconds <= LAST_FOUR_DIGIT_SECOND
    ensures |UtcText(seconds)| == 20 && ParseUtc(UtcText(seconds)) == Some(seconds)
  {
    YearAfterEpoch(seconds / 86_400);
    CivilFromDaysCorrect(seconds / 86_400);
    TwentyColumns(CivilFromDays(seconds / 86_400), seconds % 86_400);
    ReadsBack(CivilFromDays(seconds / 86_400), seconds % 86_400);
  }

  lemma {:induction false} FirstDifference(ps: seq<Part>, qs: seq<Part>, k: nat)
    requires |ps| == |qs| && k < |ps| && ps[k].value < qs[k].value
    requires forall i | 0 <= i < k :: ps[i].value == qs[i].value
    ensures ValuesLess(ps, qs)
  {
    if k > 0 {
      FirstDifference(ps[1..], qs[1..], k - 1);
    }
  }

  /** The first part in which a later time differs from an earlier one. */
  lemma LaterPart(a: Date, s: nat, b: Date, t: nat) returns (k: nat)
    requires Valid(a) && Valid(b) && a.year >= 0 && b.year >= 0 && s < 86_400 && t < 86_400
    requires Before(a, b) || (a == b && s < t)
    ensures k < 6 && Parts(a, s)[k].value < Parts(b, t)[k].value
    ensures forall i | 0 <= i < k :: Parts(a, s)[i].value == Parts(b, t)[i].value
  {
    if a == b {
      k := LaterSecond(s, t);
      k := k + 3;
    } else {
      k := if a.year < b.year then 0 else if a.month < b.month then 1 else 2;
    }
  }

  /** The same of hour, minute and second within a day. */
  lemma LaterSecond(s: nat, t: nat) returns (k: nat)
    requires s < t < 86_400
    ensures k < 3
    ensures k == 0 ==> s / 3600 < t / 3600
    ensures k == 1 ==> s / 3600 == t / 3600 && s % 3600 / 60 < t % 3600 / 60
    ensures k == 2 ==> s / 3600 == t / 3600 && s % 3600 / 60 == t % 3600 / 60 && s % 60 < t % 60
  {
    SecondParts(s);
    SecondParts(t);
    k := if s / 3600 < t / 3600 then 0 else if s % 3600 / 60 < t % 3600 / 60 then 1 else 2;
  }

  lemma SecondParts(s: nat)
    ensures s == s / 3600 * 3600 + s % 3600 / 60 * 60 + s % 60 && s % 3600 / 60 < 60
  {
    assert s % 3600 == s % 3600 / 60 * 60 + s % 3600 % 60;
    assert s % 3600 % 60 == s % 60;
  }

  lemma LaterText(a: Date, s: nat, b: Date, t: nat)
    requires Valid(a) && Valid(b) && 0 <= a.year <= 9999 && 0 <= b.year <= 9999 && s < 86_400 && t < 86_400
    requires Before(a, b) || (a == b && s < t)
    ensures StrLess(Render(Parts(a, s)), Render(Parts(b, t)))
  {
    var ps, qs := Parts(a, s), Parts(b, t);
    var k := LaterPart(a, s, b, t);
    FirstDifference(ps, qs, k);
    PartsFit(a, s);
    PartsFit(b, t);
    RenderOrder(ps, qs);
  }

  /** Later days have later dates. */
  lemma LaterDate(m: int, n: int)
    requires m < n
    ensures Before(CivilFromDays(m), CivilFromDays(n))
  {
    CivilFromDaysCorrect(m);
    CivilFromDaysCorrect(n);
    BeforeByNumber(CivilFromDays(m), CivilFromDays(n));
  }

  lemma BeforeByNumber(a: Date, b: Date)
    requires Valid(a) && Valid(b) && DayNumber(a) < DayNumber(b)
    ensures Before(a, b)
  {
    if Before(b, a) {
      DayNumberMonotone(b, a);
    }
  }

  /** Below year 10000, text order is time order. */
  lemma UtcTextOrder(s: nat, t: nat)
    requires s < t <= LAST_FOUR_DIGIT_SECOND
    ensures StrLess(UtcText(s), UtcText(t))
  {
    DayAndSecond(s, t);
    DatesInOrder(s / 86_400, s % 86_400, t / 86_400, t % 86_400);
  }

  lemma DayAndSecond(s: nat, t: nat)
    requires s < t <= LAST_FOUR_DIGIT_SECOND
    ensures s / 86_400 < t / 86_400 || (s / 86_400 == t / 86_400 && s % 86_400 < t % 86_400)
    ensures s / 86_400 <= t / 86_400 <= LAST_FOUR_DIGIT_SECOND / 86_400
  {
  }

  lemma DatesInOrder(m: nat, s: nat, n: nat, t: nat)
    requires s < 86_400 && t < 86_400 && m <= n <= LAST_FOUR_DIGIT_SECOND / 86_400
    requires m < n || (m == n && s < t)
    ensures Valid(CivilFromDays(m)) && CivilFromDays(m).year >= 0
    ensures Valid(CivilFromDays(n)) && CivilFromDays(n).year >= 0
    ensures StrLess(Render(Parts(CivilFromDays(m), s)), Render(Parts(CivilFromDays(n), t)))
  {
    YearAfterEpoch(m);
    YearAfterEpoch(n);
    if m < n {
      LaterDate(m, n);
    }
    LaterText(CivilFromDays(m), s, CivilFromDays(n), t);
  }

  lemma YearTurns()
    ensures CivilFromDays(2_932_896) == Date(9999, 12, 31) && CivilFromDays(2_932_897) == Date(10_000, 1, 1)
  {
    MonthTable(9999);
    assert DayNumber(Date(9999, 12, 31)) == 2_932_896;
    CivilFromDaysInverse(Date(9999, 12, 31));
    CivilFromDaysSuccessor(2_932_896);
  }

  lemma FirstColumn(date: Date, second: nat, c: char)
    requires Valid(date) && date.year >= 0 && Padded(date.year, 4)[0] == c
    ensures Render(Parts(date, second)) != "" && Render(Parts(date, second))[0] == c
  {
  }

  /** The bound is sharp: the first second of year 10000 sorts before the second it follows. */
  lemma UtcTextOrderEnds()
    ensures StrLess(UtcText(LAST_FOUR_DIGIT_SECOND + 1), UtcText(LAST_FOUR_DIGIT_SECOND))
  {
    YearTurns();
    assert Padded(9999, 4)[0] == '9' by {
      assert Padded(9999, 4)[0] == Padded(999, 3)[0] == Padded(99, 2)[0] == Padded(9, 1)[0];
    }
    assert Padded(10_000, 4)[0] == '1' by {
      assert Padded(10_000, 4)[0] == Padded(1000, 3)[0] == Padded(100, 2)[0] == Padded(10, 1)[0] == Padded(1, 0)[0];
    }
    FirstColumn(Date(9999, 12, 31), 86_399, '9');
    FirstColumn(Date(10_000, 1, 1), 0, '1');
    assert LAST_FOUR_DIGIT_SECOND == 2_932_896 * 86_400 + 86_399;
    assert LAST_FOUR_DIGIT_SECOND / 86_400 == 2_932_896 && LAST_FOUR_DIGIT_SECOND % 86_400 == 86_399;
    assert (LAST_FOUR_DIGIT_SECOND + 1) / 86_400 == 2_932_897 && (LAST_FOUR_DIGIT_SECOND + 1) % 86_400 == 0;
  }

  // Column by column.

  /** From column `at` there are these digits, and then the separator. */
  predicate Column(text: string, at: nat, digits: string, separator: char) {
    at + |digits| < |text| && text[at..at + |digits|] == digits && text[at + |digits|] == separator
  }

  function Offset(ps: seq<Part>, k: nat): nat
    requires k <= |ps|
  {
    if k == 0 then 0 else ps[0].width + 1 + Offset(ps[1..], k - 1)
  }

  lemma ColumnBehind(head: string, rest: string, at: nat, digits: string, separator: char)
    requires Column(rest, at, digits, separator)
    ensures Column(head + rest, |head| + at, digits, separator)
  {
    assert (head + rest)[|head| + at..|head| + at + |digits|] == rest[at..at + |digits|];
  }

  lemma ColumnFirst(digits: string, separator: char, rest: string)
    ensures Column(digits + [separator] + rest, 0, digits, separator)
  {
    assert (digits + [separator] + rest)[..|digits|] == digits;
  }

  lemma {:induction false} ColumnAt(ps: seq<Part>, k: nat)
    requires k < |ps| && forall i | 0 <= i < |ps| :: Fits(ps[i]) && |ps[i].after| == 1
    ensures Column(Render(ps), Offset(ps, k), Padded(ps[k].value, ps[k].width), ps[k].after[0])
  {
    var digits, rest := Padded(ps[0].value, ps[0].width), Render(ps[1..]);
    assert ps[0].after == [ps[0].after[0]];
    if k == 0 {
      ColumnFirst(digits, ps[0].after[0], rest);
    } else {
      PaddedWidth(ps[0].value, ps[0].width);
      ColumnAt(ps[1..], k - 1);
      ColumnBehind(digits + ps[0].after, rest, Offset(ps[1..], k - 1), Padded(ps[k].value, ps[k].width),
                   ps[k].after[0]);
    }
  }

  lemma {:induction false} OffsetNext(ps: seq<Part>, k: nat)
    requires k < |ps|
    ensures Offset(ps, k + 1) == Offset(ps, k) + ps[k].width + 1
  {
    if k > 0 {
      OffsetNext(ps[1..], k - 1);
    }
  }

  lemma Offsets(ps: seq<Part>)
    requires |ps| == 6 && ps[0].width == 4 && forall i | 0 < i < 6 :: ps[i].width == 2
    ensures Offset(ps, 0) == 0 && Offset(ps, 1) == 5 && Offset(ps, 2) == 8 && Offset(ps, 3) == 11
    ensures Offset(ps, 4) == 14 && Offset(ps, 5) == 17
  {
    OffsetNext(ps, 0);
    OffsetNext(ps, 1);
    OffsetNext(ps, 2);
    OffsetNext(ps, 3);
    OffsetNext(ps, 4);
  }

  /** The twenty columns: year, month and day with dashes, `T`, hour, minute and second with colons, `Z`. */
  predicate Columns(text: string, date: Date, hour: nat, minute: nat, second: nat)
    requires Valid(date) && date.year >= 0
  {
    && |text| == 20
    && Column(text, 0, Padded(date.year, 4), '-') && Column(text, 5, Padded(date.month, 2), '-')
    && Column(text, 8, Padded(date.day, 2), 'T') && Column(text, 11, Padded(hour, 2), ':')
    && Column(text, 14, Padded(minute, 2), ':') && Column(text, 17, Padded(second, 2), 'Z')
  }

  lemma PartsInColumns(date: Date, s: nat)
    requires Valid(date) && 0 <= date.year <= 9999 && s < 86_400
    ensures Columns(Render(Parts(date, s)), date, s / 3600, s % 3600 / 60, s % 60)
  {
    var ps := Parts(date, s);
    TwentyColumns(date, s);
    PartsFit(date, s);
    Offsets(ps);
    ColumnAt(ps, 0);
    ColumnAt(ps, 1);
    ColumnAt(ps, 2);
    ColumnAt(ps, 3);
    ColumnAt(ps, 4);
    ColumnAt(ps, 5);
  }

  /** Up to year 9999 the text is the date and the time of day, column by column. */
  lemma UtcTextColumns(seconds: nat)
    requires seconds <= LAST_FOUR_DIGIT_SECOND
    ensures var date, rest := CivilFromDays(seconds / 86_400), seconds % 86_400;
            && Valid(date) && date.year >= 0 && DayNumber(date) == seconds / 86_400
            && Columns(UtcText(seconds), date, rest / 3600, rest % 3600 / 60, rest % 60)
  {
    YearAfterEpoch(seconds / 86_400);
    CivilFromDaysCorrect(seconds / 86_400);
    PartsInColumns(CivilFromDays(seconds / 86_400), seconds % 86_400);
  }

  /** The Claude hook's own printer, over its own dates; the seconds since 1970 are never negative. */
  function ClaudeUtcText(seconds: nat): string {
    var date := ClaudeCivilFromDays(seconds / 86_400);
    ClaudeDateAfterEpoch(seconds / 86_400);
    Render(Parts(date, seconds % 86_400))
  }

  lemma ClaudeDateAfterEpoch(days: nat)
    ensures ClaudeCivilFromDays(days) == CivilFromDays(days)
    ensures Valid(ClaudeCivilFromDays(days)) && ClaudeCivilFromDays(days).year >= 1970
  {
    ClaudeAgreesExactly(days);
    YearAfterEpoch(days);
  }

  /** Both hooks print the same text for every time. */
  lemma ClaudeTextIsSame(seconds: nat)
    ensures ClaudeUtcText(seconds) == UtcText(seconds)
  {
    ClaudeDateAfterEpoch(seconds / 86_400);
  }
}
