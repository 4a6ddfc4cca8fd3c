/**
 * Date-of-birth normalisation (recruitment/views/views.py, dob_matching).
 *
 * `datetime.strptime(s, fmt)` is modelled the way CPython's `_strptime`
 * implements it: the format becomes a regular expression in which
 *   %Y is (\d\d\d\d),
 *   %m is (1[0-2]|0[1-9]|[1-9]),
 *   %d is (3[01]|[12]\d|0[1-9]|[1-9]| [1-9]),
 * that expression is matched at the start of the string with backtracking
 * (alternatives tried in order), a match that does not reach the end of the
 * string fails ("unconverted data remains"), and the fields must then form a
 * real calendar date between years 1 and 9999.
 */
module Dates {
  import opened Common

  datatype Date = Date(year: int, month: int, day: int)

  predicate IsLeap(y: int)
  {
    y % 4 == 0 && (y % 100 != 0 || y % 400 == 0)
  }

  function DaysInMonth(y: int, m: int): (n: int)
    requires 1 <= m <= 12
    ensures 28 <= n <= 31
  {
    if m == 2 then (if IsLeap(y) then 29 else 28)
    else if m == 4 || m == 6 || m == 9 || m == 11 then 30
    else 31
  }

  /** What `datetime.date(year, month, day)` accepts. */
  predicate ValidDate(d: Date)
  {
    1 <= d.year <= 9999 && 1 <= d.month <= 12 && 1 <= d.day <= DaysInMonth(d.year, d.month)
  }

  /** One item of a strptime format: %Y, %m, %d or a literal character. */
  datatype Directive = Year | Month | Day | Lit(c: char)

  type Format = seq<Directive>

  /** The six formats dob_matching tries, in order. */
  const DateFormats: seq<Format> := [
    [Year, Lit('-'), Month, Lit('-'), Day],   // %Y-%m-%d
    [Year, Lit('/'), Month, Lit('/'), Day],   // %Y/%m/%d
    [Day, Lit('-'), Month, Lit('-'), Year],   // %d-%m-%Y
    [Day, Lit('/'), Month, Lit('/'), Year],   // %d/%m/%Y
    [Year, Lit('.'), Month, Lit('.'), Day],   // %Y.%m.%d
    [Day, Lit('.'), Month, Lit('.'), Year]    // %d.%m.%Y
  ]

  predicate NonZeroDigit(c: char) { '1' <= c <= '9' }

  /**
   * The lengths of the texts that the directive's expression matches at
   * position p, in the order the alternation tries them.
   */
  function Alternatives(d: Directive, s: string, p: nat): (alts: seq<nat>)
    ensures forall k :: 0 <= k < |alts| ==> 0 < alts[k] && p + alts[k] <= |s|
  {
    match d
    case Lit(c) =>
      if p < |s| && s[p] == c then [1] else []
    case Year =>
      if p + 4 <= |s| && IsDigit(s[p]) && IsDigit(s[p + 1]) && IsDigit(s[p + 2]) && IsDigit(s[p + 3])
      then [4] else []
    case Month =>
      (if p + 2 <= |s| && ((s[p] == '1' && '0' <= s[p + 1] <= '2') || (s[p] == '0' && NonZeroDigit(s[p + 1])))
       then [2] else [])
      + (if p < |s| && NonZeroDigit(s[p]) then [1] else [])
    case Day =>
      (if p + 2 <= |s| && ((s[p] == '3' && '0' <= s[p + 1] <= '1')
                           || ((s[p] == '1' || s[p] == '2') && IsDigit(s[p + 1]))
                           || (s[p] == '0' && NonZeroDigit(s[p + 1])))
       then [2] else [])
      + (if p < |s| && NonZeroDigit(s[p]) then [1] else [])
      + (if p + 2 <= |s| && s[p] == ' ' && NonZeroDigit(s[p + 1]) then [2] else [])
  }

  /** The first match of fmt[i..] at position p: the text each directive took, and where the match ends. */
  datatype Matched = Matched(texts: seq<string>, end: nat)

  function MatchFrom(fmt: Format, i: nat, s: string, p: nat): (r: Option<Matched>)
    requires i <= |fmt| && p <= |s|
    ensures r.Some? ==> |r.value.texts| == |fmt| - i && p <= r.value.end <= |s|
    decreases |fmt| - i, 1
  {
    if i == |fmt| then Some(Matched([], p))
    else TryAlternatives(fmt, i, s, p, Alternatives(fmt[i], s, p))
  }

  function TryAlternatives(fmt: Format, i: nat, s: string, p: nat, alts: seq<nat>): (r: Option<Matched>)
    requires i < |fmt| && p <= |s|
    requires forall k :: 0 <= k < |alts| ==> p + alts[k] <= |s|
    ensures r.Some? ==> |r.value.texts| == |fmt| - i && p <= r.value.end <= |s|
    decreases |fmt| - i, 0, |alts|
  {
    if alts == [] then None
    else
      match MatchFrom(fmt, i + 1, s, p + alts[0])
      case Some(m) => Some(Matched([s[p..p + alts[0]]] + m.texts, m.end))
      case None => TryAlternatives(fmt, i, s, p, alts[1..])
  }

  /** int() of a field's text; the text is digits, possibly after one space. */
  function DigitsValue(t: string): (n: nat)
  {
    if t == [] then 0
    else DigitsValue(t[..|t| - 1]) * (if IsDigit(t[|t| - 1]) then 10 else 1)
         + (if IsDigit(t[|t| - 1]) then t[|t| - 1] as int - '0' as int else 0)
  }

  /** The value of the first field of kind d, or the default strptime uses when the format has none. */
  function FieldValue(fmt: Format, texts: seq<string>, d: Directive, default: int): int
    requires |texts| == |fmt|
  {
    if fmt == [] then default
    else if fmt[0] == d then DigitsValue(texts[0])
    else FieldValue(fmt[1..], texts[1..], d, default)
  }

  /** datetime.strptime(s, fmt), None standing for the ValueError it raises. */
  function Strptime(s: string, fmt: Format): (r: Option<Date>)
    ensures r.Some? ==> ValidDate(r.value)
  {
    match MatchFrom(fmt, 0, s, 0)
    case None => None
    case Some(m) =>
      if m.end != |s| then None
      else
        var d := Date(FieldValue(fmt, m.texts, Year, 1900),
                      FieldValue(fmt, m.texts, Month, 1),
                      FieldValue(fmt, m.texts, Day, 1));
        if ValidDate(d) then Some(d) else None
  }

  function DigitChar(n: int): (c: char)
    requires 0 <= n <= 9
    ensures IsDigit(c) && c as int - '0' as int == n
  {
    ('0' as int + n) as char
  }

  function Pad2(n: int): (r: string)
    requires 0 <= n <= 99
    ensures |r| == 2 && IsDigit(r[0]) && IsDigit(r[1]) && DigitsValue(r) == n
  {
    var r := [DigitChar(n / 10), DigitChar(n % 10)];
    assert r[..1][..0] == [];
    assert r[..|r| - 1] == [r[0]];
    assert DigitsValue([r[0]]) == n / 10;
    assert DigitsValue(r) == (n / 10) * 10 + n % 10;
    r
  }

  function Pad4(n: int): (r: string)
    requires 0 <= n <= 9999
    ensures |r| == 4 && (forall k :: 0 <= k < 4 ==> IsDigit(r[k])) && DigitsValue(r) == n
  {
    var hi := Pad2(n / 100);
    var lo := Pad2(n % 100);
    var r := hi + lo;
    assert r[..3] == hi + [lo[0]];
    assert r[..3][..2] == hi;
    assert lo[..1] == [lo[0]] && lo[..1][..0] == [];
    assert DigitsValue(hi + [lo[0]]) == DigitsValue(hi) * 10 + DigitsValue([lo[0]]);
    assert DigitsValue(lo) == DigitsValue([lo[0]]) * 10 + (lo[1] as int - '0' as int);
    r
  }

  /** strftime("%Y-%m-%d"): every field zero-padded to its width. */
  function Render(d: Date): (r: string)
    requires ValidDate(d)
    ensures |r| == 10 && r[4] == '-' && r[7] == '-'
    ensures forall k :: 0 <= k < 10 && k != 4 && k != 7 ==> IsDigit(r[k])
    ensures DigitsValue(r[..4]) == d.year && DigitsValue(r[5..7]) == d.month && DigitsValue(r[8..]) == d.day
  {
    var y, m, dd := Pad4(d.year), Pad2(d.month), Pad2(d.day);
    var r := y + "-" + m + "-" + dd;
    assert r[..4] == y && r[5..7] == m && r[8..] == dd;
    r
  }

  /** The index of the first of formats under which s parses, or none. */
  function FirstParsing(s: string, formats: seq<Format>): (r: Option<nat>)
    ensures r.Some? ==> r.value < |formats| && Strptime(s, formats[r.value]).Some?
                        && forall j :: 0 <= j < r.value ==> Strptime(s, formats[j]).None?
    ensures r.None? ==> forall j :: 0 <= j < |formats| ==> Strptime(s, formats[j]).None?
  {
    if formats == [] then None
    else if Strptime(s, formats[0]).Some? then Some(0)
    else
      match FirstParsing(s, formats[1..])
      case None => None
      case Some(k) => Some(k + 1)
  }

  /**
   * dob_matching: the YYYY-MM-DD rendering of the date read by the first of
   * the six formats that parses, or the input unchanged when none does.
   */
  function DobMatching(dob: string): (r: string)
    ensures FirstParsing(dob, DateFormats).None? ==> r == dob
    ensures FirstParsing(dob, DateFormats).Some? ==>
              && |r| == 10 && r[4] == '-' && r[7] == '-'
              && (forall k :: 0 <= k < 10 && k != 4 && k != 7 ==> IsDigit(r[k]))
              && Strptime(r, DateFormats[0]) == Strptime(dob, DateFormats[FirstParsing(dob, DateFormats).value])
  {
    match FirstParsing(dob, DateFormats)
    case None => dob
    case Some(k) =>
      var d := Strptime(dob, DateFormats[k]).value;
      RenderParses(d);
      Render(d)
  }

  // ---------------------------------------------------------------------
  // Matching a rendered date under %Y-%m-%d.

  lemma MonthAlternatives(s: string, p: nat, m: int)
    requires 1 <= m <= 12 && p + 2 <= |s| && s[p..p + 2] == Pad2(m)
    ensures var alts := Alternatives(Month, s, p); alts != [] && alts[0] == 2
  {
    assert s[p] == Pad2(m)[0] && s[p + 1] == Pad2(m)[1];
  }

  lemma DayAlternatives(s: string, p: nat, d: int)
    requires 1 <= d <= 31 && p + 2 <= |s| && s[p..p + 2] == Pad2(d)
    ensures var alts := Alternatives(Day, s, p); alts != [] && alts[0] == 2
  {
    assert s[p] == Pad2(d)[0] && s[p + 1] == Pad2(d)[1];
  }

  lemma {:induction false} FieldValueIso(texts: seq<string>)
    requires |texts| == 5
    ensures FieldValue(DateFormats[0], texts, Year, 1900) == DigitsValue(texts[0])
    ensures FieldValue(DateFormats[0], texts, Month, 1) == DigitsValue(texts[2])
    ensures FieldValue(DateFormats[0], texts, Day, 1) == DigitsValue(texts[4])
  {
    var f := DateFormats[0];
    assert f[1..][1..] == f[2..] && f[2..][1..] == f[3..] && f[3..][1..] == f[4..];
    assert texts[1..][1..] == texts[2..] && texts[2..][1..] == texts[3..] && texts[3..][1..] == texts[4..];
    assert FieldValue(f, texts, Month, 1) == FieldValue(f[1..], texts[1..], Month, 1)
        == FieldValue(f[2..], texts[2..], Month, 1) == DigitsValue(texts[2]);
    assert FieldValue(f, texts, Day, 1) == FieldValue(f[1..], texts[1..], Day, 1)
        == FieldValue(f[2..], texts[2..], Day, 1) == FieldValue(f[3..], texts[3..], Day, 1)
        == FieldValue(f[4..], texts[4..], Day, 1) == DigitsValue(texts[4]);
  }

  /** Round trip: a rendered date reads back as itself under the first format, %Y-%m-%d. */
  /** The month, dash and day of a rendered date match the tail of %Y-%m-%d. */
  lemma RenderMatchesTail(d: Date)
    requires ValidDate(d)
    ensures MatchFrom(DateFormats[0], 2, Render(d), 5)
         == Some(Matched([Pad2(d.month), "-", Pad2(d.day)], 10))
  {
    var s := Render(d);
    var f := DateFormats[0];
    var y, mo, da := Pad4(d.year), Pad2(d.month), Pad2(d.day);
    assert s == y + "-" + mo + "-" + da;
    assert s[5..7] == mo && s[8..10] == da && s[7..8] == "-";
    MonthAlternatives(s, 5, d.month);
    DayAlternatives(s, 8, d.day);
    assert MatchFrom(f, 5, s, 10) == Some(Matched([], 10));
    var a4 := Alternatives(Day, s, 8);
    assert a4[0] == 2 && s[8..8 + a4[0]] == da;
    assert [da] + [] == [da];
    assert TryAlternatives(f, 4, s, 8, a4) == Some(Matched([da], 10));
    var m4 := MatchFrom(f, 4, s, 8);
    assert m4 == Some(Matched([da], 10));
    assert Alternatives(Lit('-'), s, 7) == [1];
    assert [s[7..8]] + [da] == [s[7..8], da];
    assert TryAlternatives(f, 3, s, 7, [1]) == Some(Matched([s[7..8], da], 10));
    var m3 := MatchFrom(f, 3, s, 7);
    assert m3 == Some(Matched([s[7..8], da], 10));
    var a2 := Alternatives(Month, s, 5);
    assert a2[0] == 2 && s[5..5 + a2[0]] == mo;
    assert [mo] + [s[7..8], da] == [mo, s[7..8], da];
    assert TryAlternatives(f, 2, s, 5, a2) == Some(Matched([mo, s[7..8], da], 10));
  }

  lemma RenderParses(d: Date)
    requires ValidDate(d)
    ensures Strptime(Render(d), DateFormats[0]) == Some(d)
  {
    var s := Render(d);
    var f := DateFormats[0];
    var y, mo, da := Pad4(d.year), Pad2(d.month), Pad2(d.day);
    assert s == y + "-" + mo + "-" + da;
    assert s[..4] == y && s[0..4] == y && s[7..8] == "-";
    RenderMatchesTail(d);
    var m2 := MatchFrom(f, 2, s, 5);
    assert m2 == Some(Matched([mo, s[7..8], da], 10));
    assert Alternatives(Lit('-'), s, 4) == [1];
    assert [s[4..5]] + [mo, s[7..8], da] == [s[4..5], mo, s[7..8], da];
    assert TryAlternatives(f, 1, s, 4, [1]) == Some(Matched([s[4..5], mo, s[7..8], da], 10));
    var m1 := MatchFrom(f, 1, s, 4);
    assert m1 == Some(Matched([s[4..5], mo, s[7..8], da], 10));
    assert Alternatives(Year, s, 0) == [4];
    assert [y] + [s[4..5], mo, s[7..8], da] == [y, s[4..5], mo, s[7..8], da];
    assert TryAlternatives(f, 0, s, 0, [4]) == Some(Matched([y, s[4..5], mo, s[7..8], da], 10));
    var m0 := MatchFrom(f, 0, s, 0);
    assert m0 == Some(Matched([y, s[4..5], mo, s[7..8], da], 10));
    FieldValueIso(m0.value.texts);
  }

  /** A date already in YYYY-MM-DD form comes back unchanged. */
  lemma DobMatchingOfRendered(d: Date)
    requires ValidDate(d)
    ensures DobMatching(Render(d)) == Render(d)
  {
    RenderParses(d);
    assert FirstParsing(Render(d), DateFormats) == Some(0);
  }

  /** dob_matching is idempotent. */
  lemma DobMatchingIdempotent(dob: string)
    ensures DobMatching(DobMatching(dob)) == DobMatching(dob)
  {
    match FirstParsing(dob, DateFormats)
    case None =>
    case Some(k) =>
      DobMatchingOfRendered(Strptime(dob, DateFormats[k]).value);
  }

  /** "12/05/2020" does not parse as %Y-%m-%d, %Y/%m/%d or %d-%m-%Y. */
  lemma ExampleFailsFirstThree()
    ensures forall j :: 0 <= j < 3 ==> Strptime("12/05/2020", DateFormats[j]).None?
  {
    var s := "12/05/2020";
    assert Alternatives(Year, s, 0) == [];
    assert Strptime(s, DateFormats[0]) == None;
    assert Strptime(s, DateFormats[1]) == None;
    var f2 := DateFormats[2];
    assert Alternatives(Day, s, 0) == [2, 1];
    assert Alternatives(Lit('-'), s, 2) == [];
    assert Alternatives(Lit('-'), s, 1) == [];
    assert MatchFrom(f2, 1, s, 2) == None;
    assert MatchFrom(f2, 1, s, 1) == None;
    assert TryAlternatives(f2, 0, s, 0, [1]) == None;
    assert Strptime(s, f2) == None;
  }

  lemma ExampleMatchesTail()
    ensures MatchFrom(DateFormats[3], 2, "12/05/2020", 3) == Some(Matched(["05", "/", "2020"], 10))
  {
    var s := "12/05/2020";
    var f3 := DateFormats[3];
    assert Alternatives(Year, s, 6) == [4];
    assert s[6..10] == "2020";
    assert MatchFrom(f3, 5, s, 10) == Some(Matched([], 10));
    assert [s[6..10]] + [] == ["2020"];
    assert TryAlternatives(f3, 4, s, 6, [4]) == Some(Matched(["2020"], 10));
    assert MatchFrom(f3, 4, s, 6) == Some(Matched(["2020"], 10));
    assert Alternatives(Lit('/'), s, 5) == [1];
    assert s[5..6] == "/" && [s[5..6]] + ["2020"] == ["/", "2020"];
    assert TryAlternatives(f3, 3, s, 5, [1]) == Some(Matched(["/", "2020"], 10));
    assert MatchFrom(f3, 3, s, 5) == Some(Matched(["/", "2020"], 10));
    assert Alternatives(Month, s, 3) == [2];
    assert s[3..5] == "05" && [s[3..5]] + ["/", "2020"] == ["05", "/", "2020"];
    assert TryAlternatives(f3, 2, s, 3, [2]) == Some(Matched(["05", "/", "2020"], 10));
  }

  lemma ExampleMatchesDayFirst()
    ensures MatchFrom(DateFormats[3], 0, "12/05/2020", 0) == Some(Matched(["12", "/", "05", "/", "2020"], 10))
  {
    var s := "12/05/2020";
    var f3 := DateFormats[3];
    ExampleMatchesTail();
    assert Alternatives(Lit('/'), s, 2) == [1];
    assert s[2..3] == "/" && [s[2..3]] + ["05", "/", "2020"] == ["/", "05", "/", "2020"];
    assert TryAlternatives(f3, 1, s, 2, [1]) == Some(Matched(["/", "05", "/", "2020"], 10));
    assert MatchFrom(f3, 1, s, 2) == Some(Matched(["/", "05", "/", "2020"], 10));
    assert Alternatives(Day, s, 0) == [2, 1];
    assert s[0..2] == "12" && [s[0..2]] + ["/", "05", "/", "2020"] == ["12", "/", "05", "/", "2020"];
    assert TryAlternatives(f3, 0, s, 0, [2, 1]) == Some(Matched(["12", "/", "05", "/", "2020"], 10));
  }

  lemma ExampleDigits()
    ensures DigitsValue("2020") == 2020 && DigitsValue("05") == 5 && DigitsValue("12") == 12
  {
    assert "2020"[..3] == "202" && "202"[..2] == "20" && "20"[..1] == "2" && "2"[..0] == [];
    assert "05"[..1] == "0" && "0"[..0] == [];
    assert "12"[..1] == "1" && "1"[..0] == [];
  }

  lemma ExampleParsesDayFirst()
    ensures Strptime("12/05/2020", DateFormats[3]) == Some(Date(2020, 5, 12))
  {
    var f3 := DateFormats[3];
    var texts := ["12", "/", "05", "/", "2020"];
    ExampleMatchesDayFirst();
    assert f3[1..][1..] == f3[2..] && f3[2..][1..] == f3[3..] && f3[3..][1..] == f3[4..];
    assert texts[1..][1..] == texts[2..] && texts[2..][1..] == texts[3..] && texts[3..][1..] == texts[4..];
    ExampleDigits();
    assert FieldValue(f3, texts, Year, 1900) == FieldValue(f3[4..], texts[4..], Year, 1900) == 2020;
    assert FieldValue(f3, texts, Month, 1) == FieldValue(f3[2..], texts[2..], Month, 1) == 5;
    assert FieldValue(f3, texts, Day, 1) == 12;
  }

  lemma ExampleRenders()
    ensures Render(Date(2020, 5, 12)) == "2020-05-12"
  {
    assert Pad2(20) == "20" && Pad2(5) == "05" && Pad2(12) == "12";
    assert Pad4(2020) == "2020";
  }

  lemma ExampleFirstParsing()
    ensures FirstParsing("12/05/2020", DateFormats) == Some(3)
  {
    var s := "12/05/2020";
    ExampleFailsFirstThree();
    ExampleParsesDayFirst();
    var fs := DateFormats;
    assert fs[3..][0] == fs[3];
    assert FirstParsing(s, fs[3..]) == Some(0);
    assert fs[2..][1..] == fs[3..] && fs[2..][0] == fs[2];
    assert FirstParsing(s, fs[2..]) == Some(1);
    assert fs[1..][1..] == fs[2..] && fs[1..][0] == fs[1];
    assert FirstParsing(s, fs[1..]) == Some(2);
  }

  /** "12/05/2020" fails the first three formats and parses under %d/%m/%Y. */
  lemma DobMatchingExample()
    ensures DobMatching("12/05/2020") == "2020-05-12"
  {
    ExampleFirstParsing();
    ExampleParsesDayFirst();
    ExampleRenders();
  }
}
