/**
 * Calendar dates and the parts of Python's `datetime.strptime` and
 * `strftime` the pipeline uses.
 *
 * `strptime` turns its format into a regular expression: `%d` becomes
 * `3[01]|[12]\d|0[1-9]|[1-9]| [1-9]`, `%m` becomes `1[0-2]|0[1-9]|[1-9]` and
 * `%Y` becomes `\d\d\d\d`.  The expression is matched at the start of the
 * text with backtracking, the alternatives tried left to right; the first
 * match wins, and text left after it is an error ("unconverted data
 * remains").  The fields then have to form a real date.  `MatchItems` below
 * is that matcher, restricted to the three formats the pipeline uses.
 */
module Calendar {
  import opened Wrappers
  import opened Text

  datatype Date = Date(year: int, month: int, day: int)

  predicate IsLeapYear(y: int) { y % 4 == 0 && (y % 100 != 0 || y % 400 == 0) }

  function DaysInMonth(y: int, m: int): (n: int)
    requires 1 <= m <= 12
    ensures 28 <= n <= 31
  {
    if m == 2 then (if IsLeapYear(y) then 29 else 28)
    else if m == 4 || m == 6 || m == 9 || m == 11 then 30
    else 31
  }

  /** A date `datetime.date` accepts: years MINYEAR 1 to MAXYEAR 9999, proleptic Gregorian. */
  predicate ValidDate(d: Date)
  {
    1 <= d.year <= 9999 && 1 <= d.month <= 12 && 1 <= d.day <= DaysInMonth(d.year, d.month)
  }

  // ---------------------------------------------------------------- the matcher

  /** One position of a directive's pattern: `\d`, or a bracketed set of characters. */
  datatype CharClass = AnyDigit | Among(chars: string)

  datatype Directive = Day | Month | Year

  datatype FormatItem = Lit(c: char) | Dir(d: Directive)

  /** The alternatives of each directive's pattern, in the order the matcher tries them. */
  function Alternatives(d: Directive): seq<seq<CharClass>>
  {
    match d
    case Day =>
      [[Among("3"), Among("01")], [Among("12"), AnyDigit], [Among("0"), Among("123456789")],
       [Among("123456789")], [Among(" "), Among("123456789")]]
    case Month =>
      [[Among("1"), Among("012")], [Among("0"), Among("123456789")], [Among("123456789")]]
    case Year =>
      [[AnyDigit, AnyDigit, AnyDigit, AnyDigit]]
  }

  predicate ClassHas(k: CharClass, c: char)
  {
    match k
    case AnyDigit => IsDigit(c)
    case Among(cs) => c in cs
  }

  predicate MatchesAt(alt: seq<CharClass>, s: string, i: nat)
  {
    i + |alt| <= |s| && forall j | 0 <= j < |alt| :: ClassHas(alt[j], s[i + j])
  }

  /** The text each directive captured. */
  datatype Groups = Groups(day: string, month: string, year: string)

  function Capture(g: Groups, d: Directive, t: string): Groups
  {
    match d
    case Day => g.(day := t)
    case Month => g.(month := t)
    case Year => g.(year := t)
  }

  /** The first match of `items` at position `i`: where it ends and what it captured. */
  function MatchItems(items: seq<FormatItem>, s: string, i: nat, g: Groups): Option<(nat, Groups)>
    decreases |items|, 1, 0
  {
    if items == [] then Some((i, g))
    else
      match items[0]
      case Lit(c) => if i < |s| && s[i] == c then MatchItems(items[1..], s, i + 1, g) else None
      case Dir(d) => MatchAlternatives(Alternatives(d), d, items[1..], s, i, g)
  }

  /** Backtracking over a directive's alternatives, the rest of the format after each. */
  function MatchAlternatives(alts: seq<seq<CharClass>>, d: Directive, rest: seq<FormatItem>,
                             s: string, i: nat, g: Groups): Option<(nat, Groups)>
    decreases |rest| + 1, 0, |alts|
  {
    if alts == [] then None
    else
      var r := if MatchesAt(alts[0], s, i)
               then MatchItems(rest, s, i + |alts[0]|, Capture(g, d, s[i..i + |alts[0]|]))
               else None;
      if r.Some? then r else MatchAlternatives(alts[1..], d, rest, s, i, g)
  }

  /** `'%d/%m/%Y'` */
  const DayMonthYear: seq<FormatItem> := [Dir(Day), Lit('/'), Dir(Month), Lit('/'), Dir(Year)]
  /** `'%Y-%m-%d'` */
  const YearMonthDay: seq<FormatItem> := [Dir(Year), Lit('-'), Dir(Month), Lit('-'), Dir(Day)]
  /** `'%Y%m%d'` */
  const Compact: seq<FormatItem> := [Dir(Year), Dir(Month), Dir(Day)]

  /** `int(t)` of a captured field, which is digits with perhaps one leading space. */
  function FieldValue(t: string): nat
  {
    NatOf(DigitsOf(t))
  }

  /** `datetime.strptime(s, fmt).date()`, or None where it raises ValueError. */
  function Strptime(s: string, fmt: seq<FormatItem>): (r: Option<Date>)
    ensures r.Some? ==> ValidDate(r.value)
  {
    match MatchItems(fmt, s, 0, Groups([], [], []))
    case None => None
    case Some((end, g)) =>
      if end != |s| then None
      else
        var d := Date(FieldValue(g.year), FieldValue(g.month), FieldValue(g.day));
        if ValidDate(d) then Some(d) else None
  }

  // ---------------------------------------------------------------- strftime

  /** `strftime('%Y-%m-%d')`, the extended form of ISO 8601 calendar dates. */
  function FormatIso(d: Date): (s: string)
    requires ValidDate(d)
    ensures |s| == 10
  {
    Pad4(d.year) + "-" + Pad2(d.month) + "-" + Pad2(d.day)
  }

  /** `strftime('%Y%m%d')`, the basic form of ISO 8601 calendar dates. */
  function FormatCompact(d: Date): (s: string)
    requires ValidDate(d)
    ensures |s| == 8 && AllDigits(s)
  {
    Pad4(d.year) + Pad2(d.month) + Pad2(d.day)
  }

  /** `strftime('%d/%m/%Y')`, the Brazilian day/month/year form. */
  function FormatBr(d: Date): (s: string)
    requires ValidDate(d)
    ensures |s| == 10
  {
    Pad2(d.day) + "/" + Pad2(d.month) + "/" + Pad4(d.year)
  }

  /** `strftime('%Y')`, `'%m'`, `'%d'`: the folder names of a date. */
  function YearDir(d: Date): string requires ValidDate(d) { Pad4(d.year) }
  function MonthDir(d: Date): string requires ValidDate(d) { Pad2(d.month) }
  function DayDir(d: Date): string requires ValidDate(d) { Pad2(d.day) }

  // ---------------------------------------------------------------- parsing what was formatted

  /** A literal of the format consumes the same character of the text. */
  lemma MatchLit(items: seq<FormatItem>, s: string, i: nat, g: Groups)
    requires |items| > 0 && items[0].Lit? && i < |s| && s[i] == items[0].c
    ensures MatchItems(items, s, i, g) == MatchItems(items[1..], s, i + 1, g)
  {
  }

  /** A directive of the format tries its alternatives. */
  lemma MatchDir(items: seq<FormatItem>, s: string, i: nat, g: Groups)
    requires |items| > 0 && items[0].Dir?
    ensures MatchItems(items, s, i, g) == MatchAlternatives(Alternatives(items[0].d), items[0].d, items[1..], s, i, g)
  {
  }

  /** `strptime` once the whole text matched, capturing `g`. */
  lemma StrptimeFrom(s: string, fmt: seq<FormatItem>, g: Groups)
    requires MatchItems(fmt, s, 0, Groups([], [], [])) == Some((|s|, g))
    ensures var d := Date(FieldValue(g.year), FieldValue(g.month), FieldValue(g.day));
            Strptime(s, fmt) == if ValidDate(d) then Some(d) else None
  {
  }

  lemma YearStep(rest: seq<FormatItem>, s: string, i: nat, g: Groups)
    requires i + 4 <= |s| && AllDigits(s[i..i + 4])
    ensures MatchAlternatives(Alternatives(Year), Year, rest, s, i, g)
         == MatchItems(rest, s, i + 4, g.(year := s[i..i + 4]))
  {
    var alt := Alternatives(Year)[0];
    assert MatchesAt(alt, s, i) by {
      forall j | 0 <= j < 4 ensures ClassHas(alt[j], s[i + j]) {
        assert s[i + j] == s[i..i + 4][j];
      }
    }
  }

  lemma MonthStep(rest: seq<FormatItem>, s: string, i: nat, g: Groups, m: nat)
    requires 1 <= m <= 12 && i + 2 <= |s| && s[i..i + 2] == Pad2(m)
    requires MatchItems(rest, s, i + 2, g.(month := Pad2(m))).Some?
    ensures MatchAlternatives(Alternatives(Month), Month, rest, s, i, g)
         == MatchItems(rest, s, i + 2, g.(month := Pad2(m)))
  {
    var alts := Alternatives(Month);
    assert s[i] == Pad2(m)[0] && s[i + 1] == Pad2(m)[1];
    if m >= 10 {
      assert MatchesAt(alts[0], s, i);
    } else {
      assert s[i] == DigitChar(0) == '0';
      assert !ClassHas(alts[0][0], s[i + 0]);
      assert MatchesAt(alts[1], s, i);
      assert alts[1..][0] == alts[1];
    }
  }

  lemma DayStep(rest: seq<FormatItem>, s: string, i: nat, g: Groups, d: nat)
    requires 1 <= d <= 31 && i + 2 <= |s| && s[i..i + 2] == Pad2(d)
    requires MatchItems(rest, s, i + 2, g.(day := Pad2(d))).Some?
    ensures MatchAlternatives(Alternatives(Day), Day, rest, s, i, g)
         == MatchItems(rest, s, i + 2, g.(day := Pad2(d)))
  {
    var alts := Alternatives(Day);
    assert s[i] == Pad2(d)[0] && s[i + 1] == Pad2(d)[1];
    if d >= 30 {
      assert MatchesAt(alts[0], s, i);
    } else if d >= 10 {
      assert s[i] == DigitChar(d / 10);
      assert s[i] == '1' || s[i] == '2';
      assert !ClassHas(alts[0][0], s[i + 0]);
      assert MatchesAt(alts[1], s, i);
      assert alts[1..][0] == alts[1];
    } else {
      assert s[i] == DigitChar(0) == '0';
      assert !ClassHas(alts[0][0], s[i + 0]);
      assert !ClassHas(alts[1][0], s[i + 0]);
      assert MatchesAt(alts[2], s, i);
      assert alts[1..][1..][0] == alts[2];
      assert MatchAlternatives(alts, Day, rest, s, i, g) == MatchAlternatives(alts[1..], Day, rest, s, i, g);
      assert MatchAlternatives(alts[1..], Day, rest, s, i, g) == MatchAlternatives(alts[1..][1..], Day, rest, s, i, g);
    }
  }

  lemma FieldValues(d: Date)
    requires ValidDate(d)
    ensures FieldValue(Pad4(d.year)) == d.year
    ensures FieldValue(Pad2(d.month)) == d.month && FieldValue(Pad2(d.day)) == d.day
  {
    DigitsOfDigits(Pad4(d.year));
    DigitsOfDigits(Pad2(d.month));
    DigitsOfDigits(Pad2(d.day));
    Pad4Value(d.year);
    Pad2Value(d.month);
    Pad2Value(d.day);
  }

  /** `%Y-%m-%d` parses back what `%Y-%m-%d` printed. */
  lemma ParseFormatIso(d: Date)
    requires ValidDate(d)
    ensures Strptime(FormatIso(d), YearMonthDay) == Some(d)
  {
    var s := FormatIso(d);
    assert s[0..4] == Pad4(d.year) && s[4] == '-' && s[5..7] == Pad2(d.month) && s[7] == '-' && s[8..10] == Pad2(d.day);
    IsoItems(YearMonthDay, s, d);
    FieldValues(d);
    StrptimeFrom(s, YearMonthDay, Groups(Pad2(d.day), Pad2(d.month), Pad4(d.year)));
  }

  /** A `-%d` tail over `-dd` at position 7. */
  lemma IsoDayTail(it: seq<FormatItem>, s: string, g: Groups, d: nat)
    requires |it| == 2 && it[0] == Lit('-') && it[1] == Dir(Day)
    requires 1 <= d <= 31 && |s| == 10 && s[7] == '-' && s[8..10] == Pad2(d)
    ensures MatchItems(it, s, 7, g) == Some((10, g.(day := Pad2(d))))
  {
    assert it[1..][1..] == [];
    DayStep(it[1..][1..], s, 8, g, d);
    MatchDir(it[1..], s, 8, g);
    MatchLit(it, s, 7, g);
  }

  /** A `-%m-%d` tail over `-mm-dd` at position 4. */
  lemma IsoMonthTail(it: seq<FormatItem>, s: string, g: Groups, m: nat, d: nat)
    requires |it| == 4 && it[0] == Lit('-') && it[1] == Dir(Month) && it[2] == Lit('-') && it[3] == Dir(Day)
    requires 1 <= m <= 12 && 1 <= d <= 31 && |s| == 10 && s[4] == '-' && s[5..7] == Pad2(m)
    requires s[7] == '-' && s[8..10] == Pad2(d)
    ensures MatchItems(it, s, 4, g) == Some((10, g.(month := Pad2(m)).(day := Pad2(d))))
  {
    IsoDayTail(it[1..][1..], s, g.(month := Pad2(m)), d);
    MonthStep(it[1..][1..], s, 5, g, m);
    MatchDir(it[1..], s, 5, g);
    MatchLit(it, s, 4, g);
  }

  /** A `%Y-%m-%d` format matches the text `FormatIso(d)` is made of. */
  lemma IsoItems(it: seq<FormatItem>, s: string, d: Date)
    requires |it| == 5 && it[0] == Dir(Year) && it[1] == Lit('-') && it[2] == Dir(Month)
    requires it[3] == Lit('-') && it[4] == Dir(Day)
    requires ValidDate(d) && |s| == 10 && s[0..4] == Pad4(d.year) && s[4] == '-'
    requires s[5..7] == Pad2(d.month) && s[7] == '-' && s[8..10] == Pad2(d.day)
    ensures MatchItems(it, s, 0, Groups([], [], [])) == Some((10, Groups(Pad2(d.day), Pad2(d.month), Pad4(d.year))))
  {
    var g0 := Groups([], [], []);
    IsoMonthTail(it[1..], s, g0.(year := Pad4(d.year)), d.month, d.day);
    YearStep(it[1..], s, 0, g0);
    MatchDir(it, s, 0, g0);
  }

  /** `%d/%m/%Y` parses back what `%d/%m/%Y` printed. */
  lemma ParseFormatBr(d: Date)
    requires ValidDate(d)
    ensures Strptime(FormatBr(d), DayMonthYear) == Some(d)
  {
    var s := FormatBr(d);
    var y, m, dd := Pad4(d.year), Pad2(d.month), Pad2(d.day);
    var g0 := Groups([], [], []);
    var g1 := g0.(day := dd);
    var g2 := g1.(month := m);
    var g3 := g2.(year := y);
    assert s[0..2] == dd && s[2] == '/' && s[3..5] == m && s[5] == '/' && s[6..10] == y;
    var items := DayMonthYear;
    assert MatchItems(items[5..], s, 10, g3) == Some((10, g3));
    YearStep(items[5..], s, 6, g2);
    assert MatchItems(items[3..], s, 5, g2) == Some((10, g3));
    MonthStep(items[3..], s, 3, g1, d.month);
    assert MatchItems(items[1..], s, 2, g1) == Some((10, g3));
    DayStep(items[1..], s, 0, g0, d.day);
    assert MatchItems(items, s, 0, g0) == Some((10, g3));
    FieldValues(d);
  }

  /** `%Y%m%d` parses back what `%Y%m%d` printed. */
  lemma ParseFormatCompact(d: Date)
    requires ValidDate(d)
    ensures Strptime(FormatCompact(d), Compact) == Some(d)
  {
    var s := FormatCompact(d);
    var y, m, dd := Pad4(d.year), Pad2(d.month), Pad2(d.day);
    var g0 := Groups([], [], []);
    var g1 := g0.(year := y);
    var g2 := g1.(month := m);
    var g3 := g2.(day := dd);
    assert s[0..4] == y && s[4..6] == m && s[6..8] == dd;
    var items := Compact;
    assert MatchItems(items[3..], s, 8, g3) == Some((8, g3));
    DayStep(items[3..], s, 6, g2, d.day);
    assert MatchItems(items[2..], s, 6, g2) == Some((8, g3));
    MonthStep(items[2..], s, 4, g1, d.month);
    assert MatchItems(items[1..], s, 4, g1) == Some((8, g3));
    YearStep(items[1..], s, 0, g0);
    FieldValues(d);
  }

  /** Distinct dates print differently. */
  lemma FormatIsoInjective(a: Date, b: Date)
    requires ValidDate(a) && ValidDate(b) && FormatIso(a) == FormatIso(b)
    ensures a == b
  {
    ParseFormatIso(a);
    ParseFormatIso(b);
  }

  // ---------------------------------------------------------------- leniency

  /** A month field that is one digit from 2 to 9 is accepted as that month. */
  lemma MonthOneDigit(rest: seq<FormatItem>, s: string, i: nat, g: Groups)
    requires i < |s| && '2' <= s[i] <= '9'
    ensures MatchAlternatives(Alternatives(Month), Month, rest, s, i, g)
         == MatchItems(rest, s, i + 1, g.(month := [s[i]]))
  {
    var alts := Alternatives(Month);
    assert !ClassHas(alts[0][0], s[i + 0]) && !ClassHas(alts[1][0], s[i + 0]);
    assert MatchesAt(alts[2], s, i);
    assert s[i..i + 1] == [s[i]];
    var tail := alts[1..][1..];
    assert tail == [alts[2]] && tail[1..] == [];
    assert MatchAlternatives(alts, Month, rest, s, i, g) == MatchAlternatives(alts[1..], Month, rest, s, i, g);
    assert MatchAlternatives(alts[1..], Month, rest, s, i, g) == MatchAlternatives(tail, Month, rest, s, i, g);
    assert MatchAlternatives(tail[1..], Month, rest, s, i, g) == None;
    assert Capture(g, Month, s[i..i + |tail[0]|]) == g.(month := [s[i]]);
  }

  /** A day field that is one digit from 4 to 9 is accepted as that day. */
  lemma DayOneDigit(rest: seq<FormatItem>, s: string, i: nat, g: Groups)
    requires i < |s| && '4' <= s[i] <= '9'
    ensures MatchAlternatives(Alternatives(Day), Day, rest, s, i, g)
         == MatchItems(rest, s, i + 1, g.(day := [s[i]]))
  {
    var alts := Alternatives(Day);
    assert !ClassHas(alts[0][0], s[i + 0]) && !ClassHas(alts[1][0], s[i + 0]);
    assert !ClassHas(alts[2][0], s[i + 0]) && !ClassHas(alts[4][0], s[i + 0]);
    assert MatchesAt(alts[3], s, i);
    assert s[i..i + 1] == [s[i]];
    var tail := alts[1..][1..][1..];
    assert tail == [alts[3], alts[4]] && tail[1..] == [alts[4]] && tail[1..][1..] == [];
    assert !MatchesAt(alts[4], s, i);
    assert MatchAlternatives(alts, Day, rest, s, i, g) == MatchAlternatives(alts[1..], Day, rest, s, i, g);
    assert MatchAlternatives(alts[1..], Day, rest, s, i, g) == MatchAlternatives(alts[1..][1..], Day, rest, s, i, g);
    assert MatchAlternatives(alts[1..][1..], Day, rest, s, i, g) == MatchAlternatives(tail, Day, rest, s, i, g);
    assert MatchAlternatives(tail[1..], Day, rest, s, i, g) == None;
  }

  /** A `/%Y` tail over `/yyyy` at position 3. */
  lemma BrYearTail(it: seq<FormatItem>, s: string, g: Groups)
    requires |it| == 2 && it[0] == Lit('/') && it[1] == Dir(Year)
    requires |s| == 8 && s[3] == '/' && AllDigits(s[4..8])
    ensures MatchItems(it, s, 3, g) == Some((8, g.(year := s[4..8])))
  {
    assert it[1..][1..] == [];
    YearStep(it[1..][1..], s, 4, g);
    MatchDir(it[1..], s, 4, g);
    MatchLit(it, s, 3, g);
  }

  /** A `/%m/%Y` tail over `/m/yyyy` at position 1. */
  lemma BrMonthTail(it: seq<FormatItem>, s: string, g: Groups)
    requires |it| == 4 && it[0] == Lit('/') && it[1] == Dir(Month) && it[2] == Lit('/') && it[3] == Dir(Year)
    requires |s| == 8 && s[1] == '/' && '2' <= s[2] <= '9' && s[3] == '/' && AllDigits(s[4..8])
    ensures MatchItems(it, s, 1, g) == Some((8, g.(month := [s[2]]).(year := s[4..8])))
  {
    BrYearTail(it[1..][1..], s, g.(month := [s[2]]));
    MonthOneDigit(it[1..][1..], s, 2, g);
    MatchDir(it[1..], s, 2, g);
    MatchLit(it, s, 1, g);
  }

  /** A leading `%d` over one digit from 4 to 9 consumes that digit. */
  lemma DayOneDigitItems(items: seq<FormatItem>, s: string, i: nat, g: Groups)
    requires |items| > 0 && items[0] == Dir(Day) && i < |s| && '4' <= s[i] <= '9'
    ensures MatchItems(items, s, i, g) == MatchItems(items[1..], s, i + 1, g.(day := [s[i]]))
  {
    DayOneDigit(items[1..], s, i, g);
    MatchDir(items, s, i, g);
  }

  /** A `d/m/yyyy` text with one-digit day and month matches a `%d/%m/%Y` format whole. */
  lemma BrOneDigitItems(items: seq<FormatItem>, s: string, g: Groups)
    requires |items| == 5 && items[0] == Dir(Day) && items[1] == Lit('/') && items[2] == Dir(Month)
    requires items[3] == Lit('/') && items[4] == Dir(Year)
    requires |s| == 8 && '4' <= s[0] <= '9' && s[1] == '/' && '2' <= s[2] <= '9' && s[3] == '/'
    requires AllDigits(s[4..8])
    ensures MatchItems(items, s, 0, g) == Some((8, g.(day := [s[0]]).(month := [s[2]]).(year := s[4..8])))
  {
    BrMonthTail(items[1..], s, g.(day := [s[0]]));
    DayOneDigitItems(items, s, 0, g);
  }

  /** A `d/m/yyyy` text with one-digit day and month matches `%d/%m/%Y` whole. */
  lemma BrOneDigit(s: string)
    requires |s| == 8 && '4' <= s[0] <= '9' && s[1] == '/' && '2' <= s[2] <= '9' && s[3] == '/'
    requires AllDigits(s[4..8])
    ensures MatchItems(DayMonthYear, s, 0, Groups([], [], [])) == Some((8, Groups([s[0]], [s[2]], s[4..8])))
  {
    BrOneDigitItems(DayMonthYear, s, Groups([], [], []));
  }

  /** One-digit days and months are accepted: `5/7/2025` is 5 July 2025. */
  lemma OneDigitFieldsAccepted()
    ensures Strptime("5/7/2025", DayMonthYear) == Some(Date(2025, 7, 5))
  {
    var s := "5/7/2025";
    assert s[4..8] == "2025";
    BrOneDigit(s);
    SmallFieldValues();
    StrptimeFrom(s, DayMonthYear, Groups("5", "7", "2025"));
  }

  lemma SmallFieldValues()
    ensures FieldValue("2025") == 2025 && FieldValue("7") == 7 && FieldValue("5") == 5
  {
    DigitsOfDigits("2025");
    DigitsOfDigits("7");
    DigitsOfDigits("5");
    assert "2025"[..3] == "202" && "202"[..2] == "20" && "20"[..1] == "2" && "2"[..0] == [];
    assert "7"[..0] == [] && "5"[..0] == [];
  }
}
