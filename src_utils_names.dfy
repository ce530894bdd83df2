/**
 * Fiscal keys, XML file names and what can be read back from them, as in
 * `src/utils.py`: `sanitizar_cnpj`, `normalizar_chave_nfe`,
 * `gerar_nome_arquivo_xml`, `extrair_mes_do_path` and the two file-name
 * parsers used when indexing existing XML files.
 */
module SrcUtilsNames {
  import opened Wrappers
  import opened Text
  import opened Calendar
  import opened Json
  import opened Fs
  import opened SrcUtilsDates

  /** A fiscal key has 44 digits. */
  const KeyLength := 44

  predicate IsKey(s: string) { |s| == KeyLength && AllDigits(s) }

  /** `sanitizar_cnpj(valor)`: the digits of `str(valor)`, `''` for a falsy value. */
  function SanitizarCnpj(v: Json): (r: string)
    ensures AllDigits(r)
    ensures !Truthy(v) ==> r == []
  {
    if !Truthy(v) then [] else DigitsOf(PyStr(v))
  }

  /** Sanitising is idempotent and loses no digit of a text value. */
  lemma SanitizarCnpjIdempotent(s: string)
    ensures SanitizarCnpj(JStr(SanitizarCnpj(JStr(s)))) == SanitizarCnpj(JStr(s))
    ensures SanitizarCnpj(JStr(s)) == DigitsOf(s)
  {
    DigitsOfDigits(DigitsOf(s));
  }

  /** `normalizar_chave_nfe(chave)`: the digits of the stripped key, cut to 44. */
  function NormalizarChaveNfe(chave: string): (r: string)
    ensures AllDigits(r) && |r| <= KeyLength
  {
    if chave == [] then []
    else
      var limpa := DigitsOf(Strip(chave));
      if |limpa| >= KeyLength then limpa[..KeyLength] else limpa
  }

  /** The normalised key is the first 44 digits of the key, or all of them when there are fewer. */
  lemma NormalizarChaveNfeDigits(chave: string)
    ensures var ds := DigitsOf(chave);
            NormalizarChaveNfe(chave) == if |ds| >= KeyLength then ds[..KeyLength] else ds
  {
    DigitsOfStrip(chave);
  }

  /** Normalising a key twice is normalising it once; a 44-digit key stays as it is. */
  lemma NormalizarChaveNfeIdempotent(chave: string)
    ensures NormalizarChaveNfe(NormalizarChaveNfe(chave)) == NormalizarChaveNfe(chave)
    ensures IsKey(chave) ==> NormalizarChaveNfe(chave) == chave
  {
    var r := NormalizarChaveNfe(chave);
    NormalizarChaveNfeDigits(r);
    DigitsOfDigits(r);
    NormalizarChaveNfeDigits(chave);
    if IsKey(chave) {
      DigitsOfDigits(chave);
      assert chave[..KeyLength] == chave;
    }
  }

  /** `not value`, for a text column that may be NULL. */
  predicate Falsy(v: Option<string>) { v.None? || v.value == [] }

  /** `str(num).strip() + "_" + YYYYMMDD + "_" + key + ".xml"`. */
  function XmlName(num: string, d: Date, chave: string): string
    requires ValidDate(d)
  {
    num + "_" + FormatCompact(d) + "_" + chave + ".xml"
  }

  /**
   * `gerar_nome_arquivo_xml(chave, dEmi, num_nfe)` for a textual `dEmi`:
   * ValueError when a field is missing or the date does not normalise.
   */
  function GerarNomeArquivoXml(chave: string, dEmi: Option<string>, num: Option<string>): (r: Outcome<string>)
    ensures r.Raise? ==> r.exc == ValueError
  {
    if chave == [] || Falsy(dEmi) || Falsy(num) then Raise(ValueError)
    else
      match NormalizarData(Some(Strip(dEmi.value)))
      case None => Raise(ValueError)
      case Some(iso) =>
        match Strptime(iso, YearMonthDay)
        case None => Raise(ValueError)
        case Some(d) => Ok(XmlName(Strip(num.value), d, NormalizarChaveNfe(chave)))
  }

  /**
   * The name fails exactly when a field is missing or the date does not
   * normalise.
   */
  lemma GerarNomeArquivoXmlFails(chave: string, dEmi: Option<string>, num: Option<string>)
    ensures GerarNomeArquivoXml(chave, dEmi, num).Raise? <==>
              chave == [] || Falsy(dEmi) || Falsy(num) || NormalizarData(dEmi).None?
  {
    if !(chave == [] || Falsy(dEmi) || Falsy(num)) {
      NormalizarDataStrips(dEmi.value);
      StripStrip(dEmi.value);
      if NormalizarData(dEmi).Some? {
        var d := GerarNomeArquivoXmlDate(chave, dEmi, num);
      }
    }
  }

  /**
   * Otherwise the name is built from the stripped number, the date
   * `normalizar_data` finds and the normalised key; `d` is that date.
   */
  lemma GerarNomeArquivoXmlDate(chave: string, dEmi: Option<string>, num: Option<string>) returns (d: Date)
    requires !(chave == [] || Falsy(dEmi) || Falsy(num)) && NormalizarData(dEmi).Some?
    ensures ValidDate(d) && NormalizarData(dEmi) == Some(FormatIso(d))
    ensures GerarNomeArquivoXml(chave, dEmi, num) == Ok(XmlName(Strip(num.value), d, NormalizarChaveNfe(chave)))
  {
    NormalizarDataStrips(dEmi.value);
    StripStrip(dEmi.value);
    NormalizarDataIsIso(dEmi);
    d :| ValidDate(d) && NormalizarData(dEmi).value == FormatIso(d);
    ParseFormatIso(d);
  }

  lemma StripStrip(s: string)
    ensures Strip(Strip(s)) == Strip(s)
  {
    StripNoEdges(Strip(s));
  }

  // ---------------------------------------------------------------- extrair_mes_do_path

  predicate IsYearPart(p: string) { |p| == 4 && AllDigits(p) && 2000 <= NatOf(p) <= 2099 }

  predicate IsMonthPart(p: string) { |p| == 2 && AllDigits(p) && 1 <= NatOf(p) <= 12 }

  /** Components `i` and `i + 1` read as a year of this century and a month. */
  predicate YearMonthAt(parts: seq<string>, i: nat)
    requires i + 1 < |parts|
  {
    IsYearPart(parts[i]) && IsMonthPart(parts[i + 1])
  }

  /** No component before `k` starts a year/month pair. */
  predicate NoYearMonthBefore(parts: seq<string>, k: int)
  {
    forall j | 0 <= j < k && j + 1 < |parts| :: !YearMonthAt(parts, j)
  }

  /**
   * `extrair_mes_do_path(caminho)`: `YYYY-MM` from the first year/month pair
   * of components with at least one component after it, else `outros`.
   */
  method ExtrairMesDoPath(parts: Path) returns (mes: string)
    ensures mes == "outros" <==> NoYearMonthBefore(parts, |parts| - 2)
    ensures mes != "outros" ==>
              exists i: nat | i + 2 < |parts| ::
                YearMonthAt(parts, i) && NoYearMonthBefore(parts, i) && mes == parts[i] + "-" + parts[i + 1]
  {
    var i: nat := 0;
    while i + 2 < |parts|
      invariant NoYearMonthBefore(parts, i)
      decreases |parts| - i
    {
      if YearMonthAt(parts, i) {
        mes := parts[i] + "-" + parts[i + 1];
        assert mes[4] == '-';
        assert !NoYearMonthBefore(parts, |parts| - 2);
        return;
      }
      i := i + 1;
    }
    mes := "outros";
  }

  // ---------------------------------------------------------------- file-name parsers

  /** `name.rfind(c)`, or -1. */
  function LastIndexOf(s: string, c: char): (i: int)
    ensures -1 <= i < |s|
    ensures i >= 0 ==> s[i] == c && forall j | i < j < |s| :: s[j] != c
    ensures i == -1 ==> c !in s
    decreases |s|
  {
    if s == [] then -1
    else if s[|s| - 1] == c then |s| - 1
    else LastIndexOf(s[..|s| - 1], c)
  }

  /** `Path(name).stem`: the name without a suffix that starts after its first character and is not a bare dot. */
  function Stem(name: string): (r: string)
    ensures |r| <= |name|
  {
    var i := LastIndexOf(name, '.');
    if 0 < i < |name| - 1 then name[..i] else name
  }

  /** `re.compile(r'^[0-9]{44}$').match(p)`; `$` also matches before one final newline. */
  predicate KeyPattern(p: string)
  {
    IsKey(p) || (|p| == KeyLength + 1 && IsKey(p[..KeyLength]) && p[KeyLength] == '\n')
  }

  /** The last component that matches the key pattern, scanning `parts[..n]` from its end. */
  function LastKeyPart(parts: seq<string>, n: nat): (r: Option<string>)
    requires n <= |parts|
    ensures r.Some? ==> KeyPattern(r.value) && r.value in parts
    decreases n
  {
    if n == 0 then None
    else if KeyPattern(parts[n - 1]) then Some(parts[n - 1])
    else LastKeyPart(parts, n - 1)
  }

  /**
   * The parser inside `_indexar_xmls_por_chave`: the stem's last
   * `_`-separated part when there are several parts and it is a key,
   * otherwise the first key-shaped part scanning from the end.
   */
  function ChaveDoNome(name: string): (r: Option<string>)
  {
    var parts := Split(Stem(name), '_');
    var candidata := if |parts| > 1 then Some(parts[|parts| - 1]) else None;
    if candidata.Some? && candidata.value != [] && KeyPattern(candidata.value) then candidata
    else LastKeyPart(parts, |parts|)
  }

  /** The parser returns the last key-shaped part of the stem, whatever the number of parts. */
  lemma ChaveDoNomeLastPart(name: string)
    ensures ChaveDoNome(name) == LastKeyPart(Split(Stem(name), '_'), |Split(Stem(name), '_')|)
  {
  }

  /** The name `gerar_nome_arquivo_xml` builds from a 44-digit key gives that key back. */
  lemma ChaveDoNomeOfXmlName(num: string, d: Date, chave: string)
    requires ValidDate(d) && AllDigits(num) && IsKey(chave)
    ensures ChaveDoNome(XmlName(num, d, chave)) == Some(chave)
  {
    var name := XmlName(num, d, chave);
    var stem := num + "_" + FormatCompact(d) + "_" + chave;
    var n := |name|;
    assert name == stem + ".xml";
    assert name[n - 4] == '.';
    assert LastIndexOf(name, '.') == n - 4 by {
      forall j | n - 4 < j < n ensures name[j] != '.' { }
    }
    assert NoDigitSeparator(num) && NoDigitSeparator(FormatCompact(d)) && NoDigitSeparator(chave) by {
      DigitsHaveNo(num, '_');
      DigitsHaveNo(FormatCompact(d), '_');
      DigitsHaveNo(chave, '_');
    }
    assert Stem(name) == stem;
    SplitThree(num, FormatCompact(d), chave, '_');
  }

  predicate NoDigitSeparator(s: string) { '_' !in s }

  lemma DigitsHaveNo(s: string, c: char)
    requires AllDigits(s) && !IsDigit(c)
    ensures c !in s
  {
    forall i | 0 <= i < |s| ensures s[i] != c {
      assert IsDigit(s[i]);
    }
  }

  /** What the second parser reads from a name in the standard form. */
  datatype NameData = NameData(nNF: string, dEmi: Option<string>, cChaveNFe: string) | NoNameData

  /** `\.xml` under IGNORECASE, then `$`. */
  predicate XmlSuffix(e: string)
  {
    (|e| == 4 || (|e| == 5 && e[4] == '\n'))
    && e[0] == '.' && e[1] in "xX" && e[2] in "mM" && e[3] in "lL"
  }

  /**
   * `^(\d+)_(\d{8})_([0-9]{44})\.xml$` with IGNORECASE.  No group can hold
   * an `_`, so the name matches exactly when it has three `_`-separated
   * parts of these shapes.
   */
  function MatchNomePadrao(name: string): (r: Option<(string, string, string)>)
    ensures r.Some? ==> |r.value.0| > 0 && AllDigits(r.value.0) && |r.value.1| == 8
                        && AllDigits(r.value.1) && IsKey(r.value.2)
  {
    var parts := Split(name, '_');
    if |parts| == 3 && |parts[0]| > 0 && AllDigits(parts[0]) && |parts[1]| == 8 && AllDigits(parts[1])
       && |parts[2]| >= KeyLength && IsKey(parts[2][..KeyLength]) && XmlSuffix(parts[2][KeyLength..])
    then Some((parts[0], parts[1], parts[2][..KeyLength]))
    else None
  }

  /** `re.findall(r'[0-9]{44}', s)[0]`: the leftmost run of 44 digits. */
  function FirstKeyRun(s: string): (r: Option<string>)
    ensures r.Some? ==> IsKey(r.value) && Contains(s, r.value)
    decreases |s|
  {
    if |s| < KeyLength then None
    else if AllDigits(s[..KeyLength]) then Some(s[..KeyLength])
    else FirstKeyRun(s[1..])
  }

  /**
   * The parser inside `_indexar_xmls_por_chave_com_dados`: key, number and
   * ISO date from a standard name; otherwise the first 44-digit run with no
   * data; otherwise None.
   */
  function ChaveEDadosDoNome(name: string): (r: Option<(string, NameData)>)
    ensures r.Some? ==> IsKey(r.value.0)
  {
    var m := MatchNomePadrao(name);
    if m.Some? then
      var dEmi := IsoOfCompact(m.value.1);
      Some((m.value.2, NameData(m.value.0, dEmi, m.value.2)))
    else
      var run := FirstKeyRun(name);
      if run.Some? then Some((run.value, NoNameData)) else None
  }

  /** `datetime.strptime(s, '%Y%m%d').strftime('%Y-%m-%d')`, or None where it raises ValueError. */
  function IsoOfCompact(s: string): Option<string>
  {
    var d := Strptime(s, Compact);
    if d.Some? then Some(FormatIso(d.value)) else None
  }

  /** A standard name yields its number, its date in ISO form and its key. */
  lemma ChaveEDadosDoNomeOfXmlName(num: string, d: Date, chave: string)
    requires ValidDate(d) && |num| > 0 && AllDigits(num) && IsKey(chave)
    ensures ChaveEDadosDoNome(XmlName(num, d, chave))
            == Some((chave, NameData(num, Some(FormatIso(d)), chave)))
  {
    var name := XmlName(num, d, chave);
    DigitsHaveNo(num, '_');
    DigitsHaveNo(FormatCompact(d), '_');
    DigitsHaveNo(chave, '_');
    assert '_' !in chave + ".xml" by {
      var z := chave + ".xml";
      forall i | 0 <= i < |z| ensures z[i] != '_' {
        if i < KeyLength { assert z[i] == chave[i]; }
      }
    }
    assert name == num + "_" + FormatCompact(d) + "_" + (chave + ".xml");
    SplitThree(num, FormatCompact(d), chave + ".xml", '_');
    assert (chave + ".xml")[..KeyLength] == chave && (chave + ".xml")[KeyLength..] == ".xml";
    ParseFormatCompact(d);
  }

  /** A name built by `gerar_nome_arquivo_xml` is read back by both parsers. */
  lemma ParsersInvertGerarNome(chave: string, dEmi: Option<string>, num: Option<string>)
    requires GerarNomeArquivoXml(chave, dEmi, num).Ok?
    requires IsKey(NormalizarChaveNfe(chave)) && AllDigits(Strip(num.value))
    ensures ChaveDoNome(GerarNomeArquivoXml(chave, dEmi, num).value) == Some(NormalizarChaveNfe(chave))
    ensures Strip(num.value) != [] ==>
              ChaveEDadosDoNome(GerarNomeArquivoXml(chave, dEmi, num).value)
              == Some((NormalizarChaveNfe(chave), NameData(Strip(num.value), NormalizarData(dEmi), NormalizarChaveNfe(chave))))
  {
    GerarNomeArquivoXmlFails(chave, dEmi, num);
    var d := GerarNomeArquivoXmlDate(chave, dEmi, num);
    var n, k := Strip(num.value), NormalizarChaveNfe(chave);
    ChaveDoNomeOfXmlName(n, d, k);
    if n != [] {
      ChaveEDadosDoNomeOfXmlName(n, d, k);
    }
  }
}
