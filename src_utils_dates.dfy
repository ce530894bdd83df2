/**
 * Date and number formatting of `src/utils.py`: `normalizar_data`,
 * `formatar_data_iso_para_br`, `_converter_iso_para_br` and
 * `formatar_numero`.
 */
module SrcUtilsDates {
  import opened Wrappers
  import opened Text
  import opened Calendar

  /**
   * The date `normalizar_data` reads from already-stripped, non-blank text:
   * a `/` selects day/month/year, otherwise a `-` selects year-month-day,
   * otherwise eight digits select the compact form.
   */
  function ParseKnownFormat(t: string): Option<Date>
  {
    if '/' in t then Strptime(t, DayMonthYear)
    else if '-' in t then Strptime(t, YearMonthDay)
    else if |t| == 8 && AllDigits(t) then Strptime(t, Compact)
    else None
  }

  /** `normalizar_data(data)`: None for None, blank, unrecognised or impossible dates. */
  function NormalizarData(data: Option<string>): (r: Option<string>)
    ensures r.Some? ==> data.Some? && Strip(data.value) != []
    ensures r.Some? ==> |r.value| == 10
  {
    if data.None? || data.value == [] then None
    else
      var t := Strip(data.value);
      if t == [] then None
      else
        match ParseKnownFormat(t)
        case None => None
        case Some(d) => Some(FormatIso(d))
  }

  /** Every result is the ISO spelling of a real date. */
  lemma NormalizarDataIsIso(data: Option<string>)
    ensures NormalizarData(data).Some? ==>
              exists d :: ValidDate(d) && NormalizarData(data).value == FormatIso(d)
  {
    if NormalizarData(data).Some? {
      var d := ParseKnownFormat(Strip(data.value)).value;
      assert ValidDate(d) && NormalizarData(data).value == FormatIso(d);
    }
  }

  /** The ISO spelling of a date has no `/` and nothing to strip. */
  lemma FormatIsoShape(d: Date)
    requires ValidDate(d)
    ensures '/' !in FormatIso(d) && '-' in FormatIso(d)
    ensures Strip(FormatIso(d)) == FormatIso(d)
  {
    var s := FormatIso(d);
    assert s[4] == '-';
    forall i | 0 <= i < 10 ensures s[i] != '/' {
      if i < 4 { assert s[i] == Pad4(d.year)[i]; }
      else if 5 <= i < 7 { assert s[i] == Pad2(d.month)[i - 5]; }
      else if 8 <= i { assert s[i] == Pad2(d.day)[i - 8]; }
    }
    assert s[0] == Pad4(d.year)[0] && s[9] == Pad2(d.day)[1];
    StripNoEdges(s);
  }

  /** An ISO date is returned as it is. */
  lemma NormalizarDataIso(d: Date)
    requires ValidDate(d)
    ensures NormalizarData(Some(FormatIso(d))) == Some(FormatIso(d))
  {
    FormatIsoShape(d);
    ParseFormatIso(d);
  }

  /** Normalising twice is normalising once. */
  lemma NormalizarDataIdempotent(data: Option<string>)
    ensures NormalizarData(NormalizarData(data)) == NormalizarData(data)
  {
    if NormalizarData(data).Some? {
      NormalizarDataIso(ParseKnownFormat(Strip(data.value)).value);
    }
  }

  /** A day/month/year date becomes the same date in ISO form. */
  lemma NormalizarDataBr(d: Date)
    requires ValidDate(d)
    ensures NormalizarData(Some(FormatBr(d))) == Some(FormatIso(d))
  {
    var s := FormatBr(d);
    assert s[2] == '/';
    assert s[0] == Pad2(d.day)[0] && s[9] == Pad4(d.year)[3];
    StripNoEdges(s);
    ParseFormatBr(d);
  }

  /** An eight-digit compact date becomes the same date in ISO form. */
  lemma NormalizarDataCompact(d: Date)
    requires ValidDate(d)
    ensures NormalizarData(Some(FormatCompact(d))) == Some(FormatIso(d))
  {
    var s := FormatCompact(d);
    assert s[0] == Pad4(d.year)[0] && s[7] == Pad2(d.day)[1];
    StripNoEdges(s);
    assert '/' !in s && '-' !in s by {
      forall i | 0 <= i < 8 ensures IsDigit(s[i]) { }
    }
    ParseFormatCompact(d);
  }

  /** Whitespace around the text does not matter. */
  lemma NormalizarDataStrips(s: string)
    ensures NormalizarData(Some(s)) == NormalizarData(Some(Strip(s)))
  {
    var t := Strip(s);
    if t != [] {
      StripNoEdges(t);
    }
  }

  /** `formatar_data_iso_para_br(data)`: None for empty input, the input itself when it is not an ISO date. */
  function FormatarDataIsoParaBr(data: Option<string>): (r: Option<string>)
    ensures r.None? <==> data.None? || data.value == []
  {
    if data.None? || data.value == [] then None
    else
      match Strptime(data.value, YearMonthDay)
      case Some(d) => Some(FormatBr(d))
      case None => data
  }

  /** An ISO date comes back in day/month/year form, and normalising that returns the ISO date. */
  lemma FormatarDataIsoParaBrRoundTrip(d: Date)
    requires ValidDate(d)
    ensures FormatarDataIsoParaBr(Some(FormatIso(d))) == Some(FormatBr(d))
    ensures NormalizarData(FormatarDataIsoParaBr(Some(FormatIso(d)))) == Some(FormatIso(d))
  {
    ParseFormatIso(d);
    NormalizarDataBr(d);
  }

  /** `_converter_iso_para_br(s)`: rearranges the fields of any ten-character text other than `N/A`. */
  function ConverterIsoParaBr(s: string): (r: string)
    ensures |r| == |s|
  {
    if s != "N/A" && |s| == 10 then s[8..10] + "/" + s[5..7] + "/" + s[0..4] else s
  }

  /** On ISO dates the slicing conversion agrees with the parsing one. */
  lemma ConverterIsoParaBrAgrees(d: Date)
    requires ValidDate(d)
    ensures Some(ConverterIsoParaBr(FormatIso(d))) == FormatarDataIsoParaBr(Some(FormatIso(d)))
  {
    var s := FormatIso(d);
    assert s[8..10] == Pad2(d.day) && s[5..7] == Pad2(d.month) && s[0..4] == Pad4(d.year);
    ParseFormatIso(d);
  }

  // ---------------------------------------------------------------- formatar_numero

  /** Digits grouped by threes from the right, `,` as in `f"{n:,}"` already replaced by `.`. */
  function Grouped(s: string): (r: string)
    decreases |s|
  {
    if |s| <= 3 then s else Grouped(s[..|s| - 3]) + "." + s[|s| - 3..]
  }

  /** `formatar_numero(n)`: `f"{n:,}".replace(",", ".")`. */
  function FormatarNumero(n: int): (r: string)
    ensures |r| > 0
  {
    if n < 0 then "-" + Grouped(NatToString(-n)) else Grouped(NatToString(n))
  }

  /** Dropping the separators gives back the digits, and there are `(|s| - 1) / 3` of them. */
  lemma {:induction false} GroupedDigits(s: string)
    requires |s| > 0 && AllDigits(s)
    ensures DigitsOf(Grouped(s)) == s
    ensures |Grouped(s)| == |s| + (|s| - 1) / 3
    decreases |s|
  {
    if |s| <= 3 {
      DigitsOfDigits(s);
    } else {
      var hi, lo := s[..|s| - 3], s[|s| - 3..];
      GroupedDigits(hi);
      DigitsOfAppend(Grouped(hi), ".");
      DigitsOfAppend(Grouped(hi) + ".", lo);
      assert DigitsOf(".") == [] by { assert "."[1..] == []; }
      DigitsOfDigits(lo);
      assert hi + lo == s;
    }
  }

  /** The formatted number reads back as `n`: its digits are those of `abs(n)`, its sign leads. */
  lemma FormatarNumeroDigits(n: int)
    ensures DigitsOf(FormatarNumero(n)) == NatToString(if n < 0 then -n else n)
    ensures (FormatarNumero(n)[0] == '-') <==> n < 0
    ensures NatOf(DigitsOf(FormatarNumero(n))) == (if n < 0 then -n else n)
  {
    var m: nat := if n < 0 then -n else n;
    var g := Grouped(NatToString(m));
    GroupedDigits(NatToString(m));
    NatOfNatToString(m);
    if n < 0 {
      DigitsOfAppend("-", g);
      assert DigitsOf("-") == [] by { assert "-"[1..] == []; }
    } else {
      GroupedFirst(NatToString(m));
    }
  }

  lemma {:induction false} GroupedFirst(s: string)
    requires |s| > 0 && AllDigits(s)
    ensures Grouped(s)[0] == s[0]
    decreases |s|
  {
    if |s| > 3 {
      GroupedFirst(s[..|s| - 3]);
    }
  }
}
