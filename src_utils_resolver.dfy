/**
 * Where `src/utils.py` puts, or finds, the XML file of a note:
 * `gerar_xml_path`, `gerar_xml_path_otimizado` and
 * `mapear_xml_data_chave_caminho`.
 *
 * Each search is a function that states the answer and a method with the
 * source's loops that is proved to compute it.
 */
module SrcUtilsResolver {
  import opened Wrappers
  import opened Text
  import opened Calendar
  import opened Fs
  import opened SrcUtilsDates
  import opened SrcUtilsNames

  // ---------------------------------------------------------------- what a scan looks for

  /** A test on a scanned file's name: equal to a name, or containing every piece. */
  datatype Probe = Exact(name: string) | HasAll(pieces: seq<string>)

  predicate Hits(pr: Probe, p: Path)
  {
    match pr
    case Exact(n) => Name(p) == n
    case HasAll(pieces) => forall k | 0 <= k < |pieces| :: Contains(Name(p), pieces[k])
  }

  /** `xs[i]` is the first file the probe accepts. */
  predicate FirstHit(xs: seq<Path>, pr: Probe, i: nat)
  {
    i < |xs| && Hits(pr, xs[i]) && forall j | 0 <= j < i :: !Hits(pr, xs[j])
  }

  /** The index of the first accepted file, scanning in order. */
  function FirstHitIndex(xs: seq<Path>, pr: Probe): (r: Option<nat>)
    ensures r.Some? ==> FirstHit(xs, pr, r.value)
    ensures r.None? ==> forall j | 0 <= j < |xs| :: !Hits(pr, xs[j])
    decreases |xs|
  {
    if xs == [] then None
    else if Hits(pr, xs[0]) then Some(0)
    else
      var rest := FirstHitIndex(xs[1..], pr);
      assert forall j | 1 <= j < |xs| :: xs[j] == xs[1..][j - 1];
      if rest.Some? then Some(rest.value + 1) else None
  }

  /** Only one index can be the first hit. */
  lemma FirstHitUnique(xs: seq<Path>, pr: Probe, i: nat, k: nat)
    requires FirstHit(xs, pr, i) && FirstHit(xs, pr, k)
    ensures i == k
  {
  }

  /** `for xml_path in xs: if <probe>: return ...`, as a loop. */
  method FindFirst(xs: seq<Path>, pr: Probe) returns (found: Option<nat>)
    ensures found == FirstHitIndex(xs, pr)
  {
    var i := 0;
    while i < |xs|
      invariant 0 <= i <= |xs|
      invariant forall j | 0 <= j < i :: !Hits(pr, xs[j])
    {
      if Hits(pr, xs[i]) {
        found := Some(i);
        FirstHitUnique(xs, pr, i, FirstHitIndex(xs, pr).value);
        return;
      }
      i := i + 1;
    }
    found := None;
  }

  // ---------------------------------------------------------------- the first sub-folder by name

  predicate DistinctNames(s: set<Path>)
  {
    forall a, b | a in s && b in s && a != b :: Name(a) != Name(b)
  }

  predicate IsFirstByName(s: set<Path>, m: Path)
  {
    m in s && forall o | o in s :: o == m || LexLess(Name(m), Name(o))
  }

  lemma {:induction false} FirstByNameExists(s: set<Path>)
    requires s != {} && DistinctNames(s)
    ensures exists m :: IsFirstByName(s, m)
    decreases |s|
  {
    var x :| x in s;
    var rest := s - {x};
    if rest == {} {
      assert s == {x};
      assert IsFirstByName(s, x);
    } else {
      FirstByNameExists(rest);
      var m :| IsFirstByName(rest, m);
      if LexLess(Name(x), Name(m)) {
        forall o | o in s ensures o == x || LexLess(Name(x), Name(o)) {
          if o != x && o != m { LexLessTransitive(Name(x), Name(m), Name(o)); }
        }
        assert IsFirstByName(s, x);
      } else {
        LexLessTotal(Name(x), Name(m));
        assert IsFirstByName(s, m);
      }
    }
  }

  lemma FirstByNameUnique(s: set<Path>, a: Path, b: Path)
    requires IsFirstByName(s, a) && IsFirstByName(s, b)
    ensures a == b
  {
    if a != b {
      LexLessAsymmetric(Name(a), Name(b));
    }
  }

  lemma FirstByNameUniqueAll(s: set<Path>)
    ensures forall a, b | IsFirstByName(s, a) && IsFirstByName(s, b) :: a == b
  {
    forall a, b | IsFirstByName(s, a) && IsFirstByName(s, b) ensures a == b {
      FirstByNameUnique(s, a, b);
    }
  }

  /** `sorted(subpastas, key=lambda x: x.name)[0]`. */
  function FirstByName(s: set<Path>): (m: Path)
    requires s != {} && DistinctNames(s)
    ensures IsFirstByName(s, m)
  {
    FirstByNameExists(s);
    FirstByNameUniqueAll(s);
    var m :| IsFirstByName(s, m);
    m
  }

  /** The sub-directories of one directory are told apart by their names. */
  lemma SubDirsDistinct(fs: FileSystem, dir: Path)
    ensures DistinctNames(SubDirs(fs, dir))
  {
    forall a, b | a in SubDirs(fs, dir) && b in SubDirs(fs, dir) && a != b
      ensures Name(a) != Name(b)
    {
      assert a == dir + [Name(a)] && b == dir + [Name(b)];
    }
  }

  /** The sub-folder the optimised resolver falls back to, if there is any. */
  function FirstSubfolder(fs: FileSystem, dir: Path): (r: Option<Path>)
    ensures r.None? <==> SubDirs(fs, dir) == {}
    ensures r.Some? ==> IsFirstByName(SubDirs(fs, dir), r.value)
  {
    SubDirsDistinct(fs, dir);
    if SubDirs(fs, dir) == {} then None else Some(FirstByName(SubDirs(fs, dir)))
  }

  /** `[item for item in dir.iterdir() if item.is_dir()]`, then the first by name. */
  method FindFirstSubfolder(fs: FileSystem, dir: Path) returns (best: Option<Path>)
    ensures best == FirstSubfolder(fs, dir)
  {
    var all := SubDirs(fs, dir);
    SubDirsDistinct(fs, dir);
    var rest := all;
    best := None;
    while rest != {}
      invariant rest <= all
      invariant best.None? <==> rest == all
      invariant best.Some? ==> IsFirstByName(all - rest, best.value)
      decreases |rest|
    {
      var x :| x in rest;
      if best.None? {
        best := Some(x);
      } else if LexLess(Name(x), Name(best.value)) {
        forall o | o in all - rest ensures o == best.value || LexLess(Name(x), Name(o)) {
          if o != best.value { LexLessTransitive(Name(x), Name(best.value), Name(o)); }
        }
        best := Some(x);
      } else {
        LexLessTotal(Name(x), Name(best.value));
      }
      rest := rest - {x};
    }
    if best.Some? {
      FirstByNameUnique(all, best.value, FirstSubfolder(fs, dir).value);
    }
  }

  // ---------------------------------------------------------------- the day folder and the name

  /** The date `normalizar_data(str(dEmi).strip())` finds, read back by `strptime`. */
  function EmissionDate(dEmi: Option<string>): (r: Option<Date>)
    ensures r.Some? ==> ValidDate(r.value) && NormalizarData(dEmi) == Some(FormatIso(r.value))
    ensures r.None? ==> Falsy(dEmi) || NormalizarData(dEmi).None?
  {
    if Falsy(dEmi) then None
    else
      NormalizarDataStrips(dEmi.value);
      StripStrip(dEmi.value);
      match NormalizarData(Some(Strip(dEmi.value)))
      case None => None
      case Some(iso) =>
        NormalizarDataIsIso(Some(Strip(dEmi.value)));
        var d :| ValidDate(d) && iso == FormatIso(d);
        ParseFormatIso(d);
        FormatIsoInjective(d, Strptime(iso, YearMonthDay).value);
        Strptime(iso, YearMonthDay)
  }

  /** `base/YYYY/MM/DD`. */
  function DayPath(base: Path, d: Date): (p: Path)
    requires ValidDate(d)
    ensures |p| == |base| + 3 && p[..|base|] == base
  {
    base + [YearDir(d), MonthDir(d), DayDir(d)]
  }

  /** The fields are present and the date normalises. */
  predicate Resolvable(chave: string, dEmi: Option<string>, num: Option<string>)
  {
    chave != [] && !Falsy(dEmi) && !Falsy(num) && EmissionDate(dEmi).Some?
  }

  /** The name `gerar_nome_arquivo_xml` gives the note, with the date already parsed. */
  function ExpectedName(chave: string, dEmi: Option<string>, num: Option<string>): string
    requires Resolvable(chave, dEmi, num)
  {
    XmlName(Strip(num.value), EmissionDate(dEmi).value, NormalizarChaveNfe(chave))
  }

  /** It is the name `gerar_nome_arquivo_xml(chave, dEmi, num)` returns for the textual date. */
  lemma ExpectedNameIsGerarNome(chave: string, dEmi: Option<string>, num: Option<string>)
    requires Resolvable(chave, dEmi, num)
    ensures GerarNomeArquivoXml(chave, dEmi, num) == Ok(ExpectedName(chave, dEmi, num))
  {
    var d := GerarNomeArquivoXmlDate(chave, dEmi, num);
    FormatIsoInjective(d, EmissionDate(dEmi).value);
  }

  /** `not all([chave, dEmi, num])` or an unusable date is the only failure. */
  lemma ResolvableIff(chave: string, dEmi: Option<string>, num: Option<string>)
    ensures Resolvable(chave, dEmi, num) <==>
              chave != [] && !Falsy(dEmi) && !Falsy(num) && NormalizarData(dEmi).Some?
  {
    if chave != [] && !Falsy(dEmi) && !Falsy(num) && NormalizarData(dEmi).Some? {
      var d := GerarNomeArquivoXmlDate(chave, dEmi, num);
    }
  }

  // ---------------------------------------------------------------- gerar_xml_path

  /** The search of `gerar_xml_path` in the day folder `day`, for the expected name and the stripped key. */
  function SearchDay(fs: FileSystem, day: Path, name: string, k: string): (r: (Path, Path))
  {
    if !Exists(fs, day) then (day, day + [name])
    else
      var xs := Rglob(fs, day);
      var exact := FirstHitIndex(xs, Exact(name));
      if exact.Some? then (Parent(xs[exact.value]), xs[exact.value])
      else
        var byKey := FirstHitIndex(xs, HasAll([k]));
        if byKey.Some? then (Parent(xs[byKey.value]), xs[byKey.value])
        else (day, day + [name])
  }

  /**
   * `gerar_xml_path(chave, dEmi, num, base)`: an existing file with the
   * expected name, else one whose name contains the stripped key, anywhere
   * under the day folder; else the expected name in the day folder.
   */
  function XmlPath(fs: FileSystem, chave: string, dEmi: Option<string>, num: Option<string>,
                   base: Path): (r: Outcome<(Path, Path)>)
    ensures r.Raise? <==> !Resolvable(chave, dEmi, num)
    ensures r.Raise? ==> r.exc == ValueError
  {
    if !Resolvable(chave, dEmi, num) then Raise(ValueError)
    else Ok(SearchDay(fs, DayPath(base, EmissionDate(dEmi).value), ExpectedName(chave, dEmi, num), Strip(chave)))
  }

  method SearchDayLoops(fs: FileSystem, day: Path, name: string, k: string) returns (r: (Path, Path))
    ensures r == SearchDay(fs, day, name, k)
  {
    if !Exists(fs, day) {
      return (day, day + [name]);
    }
    var xs := Rglob(fs, day);
    var exact := FindFirst(xs, Exact(name));
    if exact.Some? {
      return (Parent(xs[exact.value]), xs[exact.value]);
    }
    var byKey := FindFirst(xs, HasAll([k]));
    if byKey.Some? {
      return (Parent(xs[byKey.value]), xs[byKey.value]);
    }
    return (day, day + [name]);
  }

  method GerarXmlPath(fs: FileSystem, chave: string, dEmi: Option<string>, num: Option<string>,
                      base: Path) returns (r: Outcome<(Path, Path)>)
    ensures r == XmlPath(fs, chave, dEmi, num, base)
  {
    if !Resolvable(chave, dEmi, num) {
      return Raise(ValueError);
    }
    var found := SearchDayLoops(fs, DayPath(base, EmissionDate(dEmi).value), ExpectedName(chave, dEmi, num), Strip(chave));
    return Ok(found);
  }

  // ---------------------------------------------------------------- gerar_xml_path_otimizado

  /** The search of `gerar_xml_path_otimizado` in `day`, for the expected name, the stripped key and number. */
  function SearchDayOtimizado(fs: FileSystem, day: Path, name: string, k: string, n: string): (r: (Path, Path))
  {
    var xs := Rglob(fs, day);
    if !Exists(fs, day) || xs == [] then (day, day + [name])
    else
      var exact := FirstHitIndex(xs, Exact(name));
      if exact.Some? then (Parent(xs[exact.value]), xs[exact.value])
      else
        var both := FirstHitIndex(xs, HasAll([k, n]));
        if both.Some? then (Parent(xs[both.value]), xs[both.value])
        else
          var byKey := FirstHitIndex(xs, HasAll([k]));
          if byKey.Some? then (Parent(xs[byKey.value]), xs[byKey.value])
          else
            var sub := FirstSubfolder(fs, day);
            if sub.Some? then (sub.value, sub.value + [name]) else (day, day + [name])
  }

  /**
   * `gerar_xml_path_otimizado(chave, dEmi, num, base)`: the expected name in
   * the day folder when that folder is absent or has no XML below it;
   * otherwise the first file with the expected name, the first whose name
   * contains both the stripped key and the stripped number, the first that
   * contains the key; otherwise the expected name in the first sub-folder
   * by name, or in the day folder when there is none.
   */
  function XmlPathOtimizado(fs: FileSystem, chave: string, dEmi: Option<string>, num: Option<string>,
                            base: Path): (r: Outcome<(Path, Path)>)
    ensures r.Raise? <==> !Resolvable(chave, dEmi, num)
    ensures r.Raise? ==> r.exc == ValueError
  {
    if !Resolvable(chave, dEmi, num) then Raise(ValueError)
    else Ok(SearchDayOtimizado(fs, DayPath(base, EmissionDate(dEmi).value), ExpectedName(chave, dEmi, num),
                               Strip(chave), Strip(num.value)))
  }

  method SearchDayOtimizadoLoops(fs: FileSystem, day: Path, name: string, k: string, n: string)
    returns (r: (Path, Path))
    ensures r == SearchDayOtimizado(fs, day, name, k, n)
  {
    var xs := Rglob(fs, day);
    if !Exists(fs, day) || xs == [] {
      return (day, day + [name]);
    }
    var exact := FindFirst(xs, Exact(name));
    if exact.Some? {
      return (Parent(xs[exact.value]), xs[exact.value]);
    }
    var both := FindFirst(xs, HasAll([k, n]));
    if both.Some? {
      return (Parent(xs[both.value]), xs[both.value]);
    }
    var byKey := FindFirst(xs, HasAll([k]));
    if byKey.Some? {
      return (Parent(xs[byKey.value]), xs[byKey.value]);
    }
    var sub := FindFirstSubfolder(fs, day);
    if sub.Some? {
      return (sub.value, sub.value + [name]);
    }
    return (day, day + [name]);
  }

  method GerarXmlPathOtimizado(fs: FileSystem, chave: string, dEmi: Option<string>, num: Option<string>,
                               base: Path) returns (r: Outcome<(Path, Path)>)
    ensures r == XmlPathOtimizado(fs, chave, dEmi, num, base)
  {
    if !Resolvable(chave, dEmi, num) {
      return Raise(ValueError);
    }
    var found := SearchDayOtimizadoLoops(fs, DayPath(base, EmissionDate(dEmi).value),
                                         ExpectedName(chave, dEmi, num), Strip(chave), Strip(num.value));
    return Ok(found);
  }

  /** A file found by a scan lies below the day folder, so the folder exists. */
  lemma ScannedBelow(fs: FileSystem, day: Path, i: nat)
    requires i < |Rglob(fs, day)|
    ensures Below(Rglob(fs, day)[i], day) && Rglob(fs, day)[i] in fs.files && Exists(fs, Rglob(fs, day)[i])
  {
  }

  /** With no day folder, or no XML below it, the expected name in the day folder is proposed. */
  lemma OtimizadoFresh(fs: FileSystem, day: Path, name: string, k: string, n: string)
    requires !Exists(fs, day) || Rglob(fs, day) == []
    ensures SearchDayOtimizado(fs, day, name, k, n) == (day, day + [name])
  {
  }

  /**
   * On a well-formed file system, the scan below the day folder is empty
   * exactly when no XML file lies below it on disk.
   */
  lemma RglobVazioNoDisco(fs: FileSystem, day: Path)
    requires Valid(fs)
    ensures Rglob(fs, day) == [] <==>
              forall p | p in fs.files && Below(p, day) :: !EndsWith(Name(p), ".xml")
  {
    RglobCompleto(fs, day);
    if Rglob(fs, day) != [] {
      assert Rglob(fs, day)[0] in Rglob(fs, day);
    }
  }

  /** A file with the expected name wins over every other: the first one in scan order. */
  lemma OtimizadoExact(fs: FileSystem, day: Path, name: string, k: string, n: string, i: nat)
    requires Exists(fs, day) && FirstHit(Rglob(fs, day), Exact(name), i)
    ensures SearchDayOtimizado(fs, day, name, k, n) == (Parent(Rglob(fs, day)[i]), Rglob(fs, day)[i])
  {
    FirstHitUnique(Rglob(fs, day), Exact(name), i, FirstHitIndex(Rglob(fs, day), Exact(name)).value);
  }

  /** Without an exact name, the first file naming both key and number wins. */
  lemma OtimizadoKeyAndNumber(fs: FileSystem, day: Path, name: string, k: string, n: string, i: nat)
    requires Exists(fs, day)
    requires forall j | 0 <= j < |Rglob(fs, day)| :: Name(Rglob(fs, day)[j]) != name
    requires FirstHit(Rglob(fs, day), HasAll([k, n]), i)
    ensures SearchDayOtimizado(fs, day, name, k, n) == (Parent(Rglob(fs, day)[i]), Rglob(fs, day)[i])
  {
    FirstHitUnique(Rglob(fs, day), HasAll([k, n]), i, FirstHitIndex(Rglob(fs, day), HasAll([k, n])).value);
  }

  /** Then the first file naming the key wins. */
  lemma OtimizadoKeyOnly(fs: FileSystem, day: Path, name: string, k: string, n: string, i: nat)
    requires Exists(fs, day)
    requires forall j | 0 <= j < |Rglob(fs, day)| :: Name(Rglob(fs, day)[j]) != name
    requires forall j | 0 <= j < |Rglob(fs, day)| :: !Hits(HasAll([k, n]), Rglob(fs, day)[j])
    requires FirstHit(Rglob(fs, day), HasAll([k]), i)
    ensures SearchDayOtimizado(fs, day, name, k, n) == (Parent(Rglob(fs, day)[i]), Rglob(fs, day)[i])
  {
    FirstHitUnique(Rglob(fs, day), HasAll([k]), i, FirstHitIndex(Rglob(fs, day), HasAll([k])).value);
  }

  /**
   * When nothing matches, a new file goes to the first sub-folder by name,
   * or to the day folder when it has none.
   */
  lemma OtimizadoNoMatch(fs: FileSystem, day: Path, name: string, k: string, n: string)
    requires Exists(fs, day) && Rglob(fs, day) != []
    requires forall j | 0 <= j < |Rglob(fs, day)| :: Name(Rglob(fs, day)[j]) != name
    requires forall j | 0 <= j < |Rglob(fs, day)| :: !Hits(HasAll([k]), Rglob(fs, day)[j])
    ensures SubDirs(fs, day) == {} ==> SearchDayOtimizado(fs, day, name, k, n) == (day, day + [name])
    ensures SubDirs(fs, day) != {} ==>
              var r := SearchDayOtimizado(fs, day, name, k, n);
              IsFirstByName(SubDirs(fs, day), r.0) && r.1 == r.0 + [name]
  {
    var xs := Rglob(fs, day);
    forall j | 0 <= j < |xs| ensures !Hits(Exact(name), xs[j]) {
      assert Name(xs[j]) != name;
    }
    forall j | 0 <= j < |xs| ensures !Hits(HasAll([k, n]), xs[j]) {
      assert !Hits(HasAll([k]), xs[j]);
      assert [k, n][0] == k && [k][0] == k;
    }
    NoHitNone(xs, Exact(name));
    NoHitNone(xs, HasAll([k, n]));
    NoHitNone(xs, HasAll([k]));
  }

  /** A probe that accepts no file finds nothing. */
  lemma NoHitNone(xs: seq<Path>, pr: Probe)
    requires forall j | 0 <= j < |xs| :: !Hits(pr, xs[j])
    ensures FirstHitIndex(xs, pr).None?
  {
  }

  /** Whatever is returned lies in the day folder or below it, and the folder is its parent. */
  lemma OtimizadoInsideDay(fs: FileSystem, day: Path, name: string, k: string, n: string)
    ensures var r := SearchDayOtimizado(fs, day, name, k, n);
            Below(r.1, day) && r.0 == Parent(r.1)
  {
    var xs := Rglob(fs, day);
    assert (day + [name])[..|day|] == day;
    if Exists(fs, day) && xs != [] {
      var sub := FirstSubfolder(fs, day);
      if sub.Some? {
        assert sub.value[..|day|] == day;
        assert (sub.value + [name])[..|day|] == sub.value[..|day|];
      }
      CandidateInside(fs, day, xs, FirstHitIndex(xs, Exact(name)));
      CandidateInside(fs, day, xs, FirstHitIndex(xs, HasAll([k, n])));
      CandidateInside(fs, day, xs, FirstHitIndex(xs, HasAll([k])));
    }
  }

  lemma CandidateInside(fs: FileSystem, day: Path, xs: seq<Path>, i: Option<nat>)
    requires xs == Rglob(fs, day) && (i.Some? ==> i.value < |xs|)
    ensures i.Some? ==> Below(xs[i.value], day)
  {
  }

  /** A key that is blank after stripping is found in every name: the first scanned file is taken. */
  lemma OtimizadoBlankKey(fs: FileSystem, day: Path, name: string, n: string)
    requires Exists(fs, day) && Rglob(fs, day) != []
    requires forall j | 0 <= j < |Rglob(fs, day)| :: Name(Rglob(fs, day)[j]) != name
    requires forall j | 0 <= j < |Rglob(fs, day)| :: !Contains(Name(Rglob(fs, day)[j]), n)
    ensures SearchDayOtimizado(fs, day, name, [], n) == (Parent(Rglob(fs, day)[0]), Rglob(fs, day)[0])
  {
    var xs := Rglob(fs, day);
    assert IsPrefix([], Name(xs[0]));
    assert Hits(HasAll([[]]), xs[0]);
    forall j | 0 <= j < |xs| ensures !Hits(HasAll([[], n]), xs[j]) {
      assert [[], n][1] == n;
    }
    OtimizadoKeyOnly(fs, day, name, [], n, 0);
  }

  // ---------------------------------------------------------------- mapear_xml_data_chave_caminho

  /** A record `(chave, dEmi, num_nfe)` as read from the table. */
  type NoteRef = (string, Option<string>, Option<string>)

  /** `{"cChaveNFe": ..., "caminho_arquivo": ...}`. */
  datatype MapEntry = MapEntry(cChaveNFe: string, caminhoArquivo: string)

  /** The entry a usable record contributes. */
  function EntryOf(fs: FileSystem, r: NoteRef, base: Path): MapEntry
    requires Resolvable(r.0, r.1, r.2)
  {
    MapEntry(Strip(r.0), PathStr(XmlPathOtimizado(fs, r.0, r.1, r.2, base).value.1))
  }

  /** The normalised date a usable record is filed under. */
  function DateKey(r: NoteRef): string
    requires Resolvable(r.0, r.1, r.2)
  {
    FormatIso(EmissionDate(r.1).value)
  }

  predicate Usable(r: NoteRef) { Resolvable(r.0, r.1, r.2) }

  /** What one record does to the mapping: write its entry under its date, or nothing. */
  function Contribution(fs: FileSystem, r: NoteRef, base: Path): Option<(string, MapEntry)>
  {
    if Usable(r) then Some((DateKey(r), EntryOf(fs, r, base))) else None
  }

  /** Writes applied in order, later ones overwriting earlier ones. */
  function Overwrite(ws: seq<Option<(string, MapEntry)>>): map<string, MapEntry>
    decreases |ws|
  {
    if ws == [] then map[]
    else
      var m := Overwrite(ws[..|ws| - 1]);
      var w := ws[|ws| - 1];
      if w.Some? then m[w.value.0 := w.value.1] else m
  }

  /** The mapping after the records in turn: a usable record overwrites its date's entry. */
  function Mapeamento(fs: FileSystem, records: seq<NoteRef>, base: Path): (m: map<string, MapEntry>)
  {
    Overwrite(seq(|records|, i requires 0 <= i < |records| => Contribution(fs, records[i], base)))
  }

  /** `mapear_xml_data_chave_caminho(registros, base_dir)`. */
  method MapearXmlDataChaveCaminho(fs: FileSystem, records: seq<NoteRef>, base: Path)
    returns (mapeamento: map<string, MapEntry>)
    ensures mapeamento == Mapeamento(fs, records, base)
  {
    ghost var ws := seq(|records|, i requires 0 <= i < |records| => Contribution(fs, records[i], base));
    mapeamento := map[];
    var i := 0;
    while i < |records|
      invariant 0 <= i <= |records|
      invariant mapeamento == Overwrite(ws[..i])
    {
      var (chave, dEmi, num) := records[i];
      OverwriteStep(ws, i);
      ContributionValue(fs, records[i], base);
      ResolvableIff(chave, dEmi, num);
      if chave != [] && !Falsy(dEmi) && !Falsy(num) {
        var dataNormalizada := NormalizarData(Some(Strip(dEmi.value)));
        NormalizarDataStrips(dEmi.value);
        if dataNormalizada.Some? {
          var found := GerarXmlPathOtimizado(fs, chave, dEmi, num, base);
          if found.Ok? {
            mapeamento := mapeamento[dataNormalizada.value := MapEntry(Strip(chave), PathStr(found.value.1))];
          }
        }
      }
      i := i + 1;
    }
    assert ws[..|records|] == ws;
  }

  lemma OverwriteStep(ws: seq<Option<(string, MapEntry)>>, i: nat)
    requires i < |ws|
    ensures Overwrite(ws[..i + 1]) == if ws[i].Some? then Overwrite(ws[..i])[ws[i].value.0 := ws[i].value.1]
                                      else Overwrite(ws[..i])
  {
    assert ws[..i + 1][..i] == ws[..i];
  }

  /** What a record writes: its entry under `normalizar_data` of its date, when it is usable. */
  lemma ContributionValue(fs: FileSystem, r: NoteRef, base: Path)
    ensures Contribution(fs, r, base).Some? <==> Usable(r)
    ensures Usable(r) ==>
              (Contribution(fs, r, base).value
               == (NormalizarData(r.1).value, MapEntry(Strip(r.0), PathStr(XmlPathOtimizado(fs, r.0, r.1, r.2, base).value.1))))
  {
  }

  /** The keys of the writes that happen. */
  lemma {:induction false} OverwriteKeys(ws: seq<Option<(string, MapEntry)>>, k: string)
    ensures k in Overwrite(ws) <==> exists i | 0 <= i < |ws| :: ws[i].Some? && ws[i].value.0 == k
    decreases |ws|
  {
    if ws != [] {
      var front := ws[..|ws| - 1];
      OverwriteKeys(front, k);
      assert forall i | 0 <= i < |front| :: front[i] == ws[i];
    }
  }

  /** The value of a key is that of the last write to it. */
  lemma {:induction false} OverwriteLastWins(ws: seq<Option<(string, MapEntry)>>, i: nat)
    requires i < |ws| && ws[i].Some?
    requires forall j | i < j < |ws| :: !(ws[j].Some? && ws[j].value.0 == ws[i].value.0)
    ensures ws[i].value.0 in Overwrite(ws) && Overwrite(ws)[ws[i].value.0] == ws[i].value.1
    decreases |ws|
  {
    var front := ws[..|ws| - 1];
    if i < |ws| - 1 {
      assert front[i] == ws[i];
      forall j | i < j < |front| ensures !(front[j].Some? && front[j].value.0 == front[i].value.0) {
        assert front[j] == ws[j];
      }
      OverwriteLastWins(front, i);
    }
  }

  /** The keys are the normalised dates of the usable records. */
  lemma MapeamentoKeys(fs: FileSystem, records: seq<NoteRef>, base: Path, k: string)
    ensures k in Mapeamento(fs, records, base) <==>
              exists i | 0 <= i < |records| :: Usable(records[i]) && DateKey(records[i]) == k
  {
    var ws := seq(|records|, i requires 0 <= i < |records| => Contribution(fs, records[i], base));
    OverwriteKeys(ws, k);
    if k in Mapeamento(fs, records, base) {
      var i :| 0 <= i < |ws| && ws[i].Some? && ws[i].value.0 == k;
      ContributionOf(fs, records[i], base);
    } else {
      forall i | 0 <= i < |records| ensures !(Usable(records[i]) && DateKey(records[i]) == k) {
        assert !(ws[i].Some? && ws[i].value.0 == k);
        ContributionOf(fs, records[i], base);
      }
    }
  }

  lemma ContributionOf(fs: FileSystem, r: NoteRef, base: Path)
    ensures Contribution(fs, r, base).Some? <==> Usable(r)
    ensures Usable(r) ==> Contribution(fs, r, base).value.0 == DateKey(r)
  {
  }

  /** A date's entry comes from the last usable record with that date. */
  lemma MapeamentoLastWins(fs: FileSystem, records: seq<NoteRef>, base: Path, i: nat)
    requires i < |records| && Usable(records[i])
    requires forall j | i < j < |records| :: !(Usable(records[j]) && DateKey(records[j]) == DateKey(records[i]))
    ensures DateKey(records[i]) in Mapeamento(fs, records, base)
    ensures Mapeamento(fs, records, base)[DateKey(records[i])] == EntryOf(fs, records[i], base)
  {
    var ws := seq(|records|, i requires 0 <= i < |records| => Contribution(fs, records[i], base));
    ContributionOf(fs, records[i], base);
    forall j | i < j < |ws| ensures !(ws[j].Some? && ws[j].value.0 == ws[i].value.0) {
      ContributionOf(fs, records[j], base);
    }
    OverwriteLastWins(ws, i);
  }
}
