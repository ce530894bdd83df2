# Omie NF-e pipeline, modelled in Dafny

This project models the record-keeping and decision logic of a pipeline that
harvests Brazilian electronic invoices (NF-e) from the Omie ERP API. The
pipeline does four things:

- **Listing.** It lists the invoices issued in a period with the `ListarNF`
  call, page by page, and saves one row per invoice in the SQLite table
  `notas`. The row's primary key is the 44-digit fiscal key `cChaveNFe`.
- **Downloading.** It downloads the XML of every row not yet downloaded
  with `ObterNfe`. The file goes to `resultado/YYYY/MM/DD/{nNF}_{YYYYMMDD}_{key}.xml`,
  and the row is then marked as downloaded.
- **Reconciling.** It reconciles the table with the files already on disk:
  it looks files up by name, key and number, reads keys back from file
  names, and records paths and empty-file flags.
- **Maintenance.** It purges rows whose essential columns are unusable,
  backfills the `anomesdia` day number, and selects the pending rows.

The repository has two generations of every script: the root scripts
(`utils.py`, `extrator_async.py`, `baixar_parallel.py`, `omie_client_async.py`,
`verificador_xmls.py`) and their `src/` counterparts. They differ in many
details. Each one is modelled on its own, in its own module, and nothing is
merged.

The outside world is described by three values:

- **Store.** The table is a `map` from key to `Row`, held by the `Store.Table`
  class that the saving and updating methods modify.
- **Fs.** The file system is a value that holds the file contents by path,
  the set of directories, and the order in which a recursive scan meets the
  files. It is well formed (`Fs.Valid`) when that order lists every file
  exactly once. `mkdir` fails when a file lies on the folder's path, and
  `write_text` fails on a folder or on a missing parent. Every download
  catches these failures, and then skips the row's status update.
- **Host.** This class holds the file system and a millisecond clock that
  moves only while the program sleeps. It also holds the logs of sleeps, of
  POSTs and of client calls. HTTP replies come from a fixed function of the
  request and of how many requests came before, so any sequence of replies,
  failures included, can be described.

Functions and lemmas model the code that only computes: normalising dates,
keys and names, resolving paths, parsing file names, and the retry
decisions. Methods model the code that works by changing things: the page
loops, the attempt loops, the table updates and the download sequences.
Each method is proved against a specification function of its inputs and of
the old state. The properties the code promises are proved about those
functions as lemmas:

- first write wins;
- status updates come only after the write;
- pages run 1, 2, 3, ... in order;
- at most five attempts, with the backoffs of each status;
- the resolver's search order;
- the last file of a key wins;
- every batch split covers each item exactly once.

Time is in integer milliseconds. A wait of `1.5 * attempt` seconds is
`1500 * attempt` ms exactly.

`strptime` is modelled as Python matches it: the format is compiled to
alternatives, which are tried left to right with backtracking. In
particular, one-digit days and months are accepted, as
`Calendar.OneDigitFieldsAccepted` shows.

## Model

| member | source | states |
|---|---|---|
| SrcUtilsDates.NormalizarData | src/utils.py:714-747 | None for None and for blank text; every result is ten characters long |
| SrcUtilsDates.NormalizarDataIsIso | src/utils.py:722-735 | every non-None result is the `YYYY-MM-DD` spelling of a real date |
| SrcUtilsDates.NormalizarDataIso | src/utils.py:728-731 | an ISO date is returned unchanged |
| SrcUtilsDates.NormalizarDataIdempotent | src/utils.py:728-731 | normalising a result again returns that result: the function is idempotent |
| SrcUtilsDates.NormalizarDataBr | src/utils.py:723-726 | a `dd/mm/yyyy` date becomes the same date in ISO form (the `/` branch is tried first) |
| SrcUtilsDates.NormalizarDataCompact | src/utils.py:733-736 | an eight-digit `YYYYMMDD` date becomes the same date in ISO form |
| SrcUtilsDates.NormalizarDataStrips | src/utils.py:717-719 | surrounding whitespace does not change the result |
| SrcUtilsDates.FormatarDataIsoParaBr | src/utils.py:764-776 | None exactly for None or empty text |
| SrcUtilsDates.FormatarDataIsoParaBrRoundTrip | src/utils.py:767-769 | an ISO date comes back as `dd/mm/yyyy`, and normalising that gives the ISO date back |
| SrcUtilsDates.ConverterIsoParaBr | src/utils.py:3976-3983 | the field rearrangement keeps the length of the text |
| SrcUtilsDates.ConverterIsoParaBrAgrees | src/utils.py:3976-3979 | on ISO dates the slicing conversion agrees with `formatar_data_iso_para_br` |
| SrcUtilsDates.FormatarNumero | src/utils.py:3757-3772 | the formatted number is never empty |
| SrcUtilsDates.FormatarNumeroDigits | src/utils.py:3772 | dropping the `.` separators gives the digits of `abs(n)` back, and a leading `-` appears exactly for negative `n` |
| SrcUtilsDates.GroupedDigits | src/utils.py:3772 | grouping by threes keeps the digits and adds `(len - 1) / 3` separators |
| SrcUtilsNames.SanitizarCnpj | src/utils.py:823-830 | only digits come out, and `''` for a falsy value |
| SrcUtilsNames.SanitizarCnpjIdempotent | src/utils.py:826 | on text, the result is exactly the digits of the input, and sanitising again changes nothing |
| SrcUtilsNames.NormalizarChaveNfe | src/utils.py:998-1010 | only digits, at most 44 of them |
| SrcUtilsNames.NormalizarChaveNfeDigits | src/utils.py:1003-1010 | the first 44 digits of the key when it has 44 or more, all of its digits otherwise, `''` for an empty key |
| SrcUtilsNames.NormalizarChaveNfeIdempotent | src/utils.py:998-1010 | normalising twice equals normalising once, and a 44-digit key is kept as it is |
| SrcUtilsNames.GerarNomeArquivoXml | src/utils.py:1033-1062 | every failure is a ValueError |
| SrcUtilsNames.GerarNomeArquivoXmlFails | src/utils.py:1033-1040 | raises exactly when the key, the date or the number is missing or the date does not normalise |
| SrcUtilsNames.GerarNomeArquivoXmlDate | src/utils.py:1041-1053 | otherwise the name is `strip(num) + "_" + YYYYMMDD + "_" + normalizar_chave_nfe(key) + ".xml"` for the normalised date |
| SrcUtilsNames.ExtrairMesDoPath | src/utils.py:1546-1567 | `"outros"` exactly when no component is followed by a year 2000-2099 then a month 01-12 within the scanned range; otherwise `YYYY-MM` of the first such pair |
| SrcUtilsNames.LastIndexOf | src/utils.py:2262 | the index of the last occurrence of the character, or -1 when there is none |
| SrcUtilsNames.Stem | src/utils.py:2262 | the stem of a name is never longer than the name |
| SrcUtilsNames.LastKeyPart | src/utils.py:2266-2276 | a part it returns matches `^[0-9]{44}$` and is one of the parts |
| SrcUtilsNames.ChaveDoNomeLastPart | src/utils.py:2262-2279 | the first parser returns the last part of the stem that matches the key pattern |
| SrcUtilsNames.ChaveDoNomeOfXmlName | src/utils.py:2262-2279 | a standard name with a 44-digit key gives that key back |
| SrcUtilsNames.MatchNomePadrao | src/utils.py:2829 | a match has a non-empty run of digits for `nNF` and eight characters for the date |
| SrcUtilsNames.FirstKeyRun | src/utils.py:2855-2858 | a run it returns has 44 digits and occurs in the name |
| SrcUtilsNames.ChaveEDadosDoNome | src/utils.py:2834-2862 | every key the second parser returns has 44 digits |
| SrcUtilsNames.ChaveEDadosDoNomeOfXmlName | src/utils.py:2834-2852 | a standard name yields its number, its date in ISO form and its key |
| SrcUtilsNames.ParsersInvertGerarNome | src/utils.py:1048-1053 | a name built by `gerar_nome_arquivo_xml` is read back by both parsers, with the normalised key, the number and the date |
| SrcUtilsResolver.FirstHitIndex | src/utils.py:1225-1240 | the index found is the first file the test accepts; no index means no file is accepted |
| SrcUtilsResolver.FirstHitUnique | src/utils.py:1225-1228 | the first accepted file is unique |
| SrcUtilsResolver.FindFirst | src/utils.py:1133-1144 | the scanning loop returns the first accepted index |
| SrcUtilsResolver.FirstByNameExists | src/utils.py:1248 | a non-empty set of sub-folders with distinct names has a first by name |
| SrcUtilsResolver.FirstByNameUnique | src/utils.py:1248 | that first sub-folder is unique |
| SrcUtilsResolver.FirstByNameUniqueAll | src/utils.py:1248 | any two first sub-folders by name are equal |
| SrcUtilsResolver.FirstByName | src/utils.py:1248 | `sorted(subpastas, key=name)[0]`: the sub-folder whose name is no greater than any other |
| SrcUtilsResolver.SubDirsDistinct | src/utils.py:1246 | the sub-directories of one directory have distinct names |
| SrcUtilsResolver.FirstSubfolder | src/utils.py:1244-1250 | there is none exactly when the day folder has no sub-directory, and otherwise it is the first by name |
| SrcUtilsResolver.FindFirstSubfolder | src/utils.py:1244-1250 | the loop over the sub-directories finds that sub-folder |
| SrcUtilsResolver.EmissionDate | src/utils.py:1194-1198 | a date comes out only when `normalizar_data(str(dEmi).strip())` gives its ISO form, and none exactly when dEmi is falsy or does not normalise |
| SrcUtilsResolver.DayPath | src/utils.py:1204 | the day folder is three components below the base |
| SrcUtilsResolver.ExpectedNameIsGerarNome | src/utils.py:1200-1201 | the expected name is what `gerar_nome_arquivo_xml` returns for the note |
| SrcUtilsResolver.ResolvableIff | src/utils.py:1189-1196 | a record resolves exactly when key, date and number are present and the date normalises |
| SrcUtilsResolver.XmlPath | src/utils.py:1104-1148 | `gerar_xml_path` raises ValueError exactly when the record does not resolve |
| SrcUtilsResolver.SearchDayLoops | src/utils.py:1124-1148 | the two scanning loops return the path the search prescribes: an exact name, else a name with the key, else the expected name in the day folder |
| SrcUtilsResolver.GerarXmlPath | src/utils.py:1104-1148 | the method returns what `XmlPath` prescribes |
| SrcUtilsResolver.XmlPathOtimizado | src/utils.py:1189-1257 | `gerar_xml_path_otimizado` raises ValueError exactly when the record does not resolve |
| SrcUtilsResolver.SearchDayOtimizadoLoops | src/utils.py:1207-1254 | the three scanning loops and the sub-folder choice return the path the optimised search prescribes |
| SrcUtilsResolver.GerarXmlPathOtimizado | src/utils.py:1189-1257 | the method returns what `XmlPathOtimizado` prescribes |
| SrcUtilsResolver.ScannedBelow | src/utils.py:1212 | a scanned file exists and lies below the day folder |
| SrcUtilsResolver.OtimizadoFresh | src/utils.py:1207-1218 | with no day folder, or no XML below it, the expected name in the day folder is proposed |
| SrcUtilsResolver.RglobVazioNoDisco | src/utils.py:1212-1217 | on a well-formed file system the day's scan is empty exactly when no XML file lies below the day folder on disk |
| SrcUtilsResolver.OtimizadoExact | src/utils.py:1225-1228 | the first file with the expected name wins over every other |
| SrcUtilsResolver.OtimizadoKeyAndNumber | src/utils.py:1231-1234 | without an exact name, the first file naming both key and number wins |
| SrcUtilsResolver.OtimizadoKeyOnly | src/utils.py:1237-1240 | then the first file naming the key wins |
| SrcUtilsResolver.OtimizadoNoMatch | src/utils.py:1244-1254 | with no match, the expected name goes to the first sub-folder by name, or to the day folder when there is none |
| SrcUtilsResolver.OtimizadoInsideDay | src/utils.py:1207-1254 | every proposed path lies below the day folder, and the folder returned is its parent |
| SrcUtilsResolver.CandidateInside | src/utils.py:1225-1240 | a candidate of the scan lies below the day folder |
| SrcUtilsResolver.OtimizadoBlankKey | src/utils.py:1237-1240 | a key that is blank after stripping occurs in every name, so the first scanned file is taken |
| SrcUtilsResolver.MapearXmlDataChaveCaminho | src/utils.py:1304-1330 | the loop builds the mapping that applies each usable record's entry in turn |
| SrcUtilsResolver.OverwriteStep | src/utils.py:1322-1325 | one more record overwrites its date's entry, or leaves the mapping as it was |
| SrcUtilsResolver.ContributionValue | src/utils.py:1306-1325 | a record writes exactly when it is usable, and then writes its stripped key and its path under its normalised date |
| SrcUtilsResolver.OverwriteKeys | src/utils.py:1322-1325 | a key is in the mapping exactly when some write used it |
| SrcUtilsResolver.OverwriteLastWins | src/utils.py:1322-1325 | a key's value is that of the last write to it |
| SrcUtilsResolver.MapeamentoKeys | src/utils.py:1304-1325 | the mapping's keys are exactly the normalised dates of the usable records |
| SrcUtilsResolver.ContributionOf | src/utils.py:1306-1325 | a record contributes exactly when usable, under its normalised date |
| SrcUtilsResolver.MapeamentoLastWins | src/utils.py:1304-1325 | a date's entry comes from the last usable record with that date |
| SrcUtilsRecords.SafeStr | src/utils.py:909-914 | None stays None, and any text produced is stripped and none of `''`, `'-'` or `'None'` |
| SrcUtilsRecords.SafeStrIdempotent | src/utils.py:909-914 | applying `safe_str` to its own result changes nothing |
| SrcUtilsRecords.SafeInt | src/utils.py:916-924 | an int is kept, and None, lists and dicts give None |
| SrcUtilsRecords.SafeIntOfText | src/utils.py:916-924 | an integer survives the trip through its decimal text |
| SrcUtilsRecords.TransformarEmTuple | src/utils.py:900-961 | ValueError exactly when key, date or number is falsy; otherwise the row has no path, is not downloaded and not empty, and its date is already normalised |
| SrcUtilsRecords.Colunas | src/utils.py:931-951 | one text column per field name |
| SrcUtilsRecords.ColunasIndex | src/utils.py:931-951 | column `k` is `safe_str` of field `k` |
| SrcUtilsRecords.ValidoConverte | src/utils.py:3110-3123 | a record that passes `_validar_registro_nota` always converts, and its stripped key has 44 characters |
| SrcUtilsRecords.Tuplas | src/utils.py:3362-3364 | one tuple per valid record |
| SrcUtilsRecords.Prefixo8 | src/utils.py:3192 | `v[:8]` succeeds exactly on strings and lists, and on a string gives its first `min(8, len)` characters |
| SrcUtilsRecords.SalvarNotaResultado | src/utils.py:3192-3271 | TypeError exactly when the context key cannot be sliced; success exactly for a valid record; a failure carries the context key and `dados_invalidos`; a success carries the record's key and is a duplicate exactly when the stripped key is already stored |
| SrcUtilsRecords.SalvarNotaLinhas | src/utils.py:3217-3243 | no stored row changes; a valid record adds exactly its own key, its row when new; anything else leaves the table as it was |
| SrcUtilsRecords.SalvarNota | src/utils.py:3192-3271 | the method returns the prescribed result and leaves the prescribed table |
| SrcUtilsRecords.TriagemComoEscrita | src/utils.py:3336-3351 | the validation pass as written can fail only with TypeError |
| SrcUtilsRecords.Triagem | src/utils.py:3336-3351 | the intended pass puts every record in exactly one of the two lists |
| SrcUtilsRecords.TriagemValidos | src/utils.py:3340-3343 | every record the pass keeps is valid |
| SrcUtilsRecords.TriagemSnoc | src/utils.py:3340-3350 | one more record extends the pass by that record's verdict alone |
| SrcUtilsRecords.TriagemKeepsValid | src/utils.py:3340-3343 | the pass keeps every valid record |
| SrcUtilsRecords.TriagemKeepsInput | src/utils.py:3340-3343 | the pass keeps nothing from outside its input |
| SrcUtilsRecords.TriagemComoEscritaAgrees | src/utils.py:3340-3350 | where the written pass does not raise, it agrees with the intended one |
| SrcUtilsRecords.TriagemNoneKey | src/utils.py:3345-3346 | a key that is present but None ends the written pass with TypeError, while the intended pass records it |
| SrcUtilsRecords.QuebraDoInvalido | src/utils.py:3343-3346 | the written pass's step on a record raises exactly when the record is invalid and carries a key that is present but neither text nor a list; a missing key reads `REGISTRO_<i>`, which slices |
| SrcUtilsRecords.TriagemComoEscritaRaiseIff | src/utils.py:3336-3351 | the written pass raises exactly when some invalid record carries such a key |
| SrcUtilsRecords.TriagemComoEscritaPrefixo | src/utils.py:3340-3346 | once the records up to some point make the written pass raise, the whole list does |
| SrcUtilsRecords.LinhasAposLote | src/utils.py:3336-3393 | batches never alter a row already stored; the table is untouched when the validation pass raises |
| SrcUtilsRecords.RelatorioLoteExato | src/utils.py:3374-3412 | `inseridos` is the number of rows the table gained, inserted plus duplicates is the number of valid records, and processed plus errors is the number of records |
| SrcUtilsRecords.LinhasAposLoteKeys | src/utils.py:3357-3376 | unless the validation pass raised, every valid record's stripped key is stored after the batches |
| SrcUtilsRecords.RelatorioLoteComoEscrito | src/utils.py:3336-3426 | `salvar_varias_notas` raises TypeError exactly when some invalid record's key cannot be sliced, and leaves the table as it was; otherwise it returns the corrected dictionary |
| SrcUtilsRecords.InsertAllConcat | src/utils.py:3357-3376 | inserting two runs in a row is inserting their concatenation, and the new-row counts add |
| SrcUtilsRecords.TriarRegistros | src/utils.py:3336-3351 | the validation loop is the pass as written, TypeError included; where it does not raise it is the intended split, and the error count is the number of keys collected |
| SrcUtilsRecords.InserirLotes | src/utils.py:3357-3384 | the batch loop runs every valid record through `INSERT OR IGNORE` in order, counts as inserted the rows the table gained, and inserted plus duplicates is the number of records |
| SrcUtilsRecords.LoteStep | src/utils.py:3357-3376 | one more batch extends what the earlier batches inserted and counted |
| SrcUtilsRecords.RelatorioLoteDe | src/utils.py:3357-3426 | with a positive batch size, the corrected dictionary is made of the intended pass's results and the number of rows gained |
| SrcUtilsRecords.RelatorioSemLotes | src/utils.py:3357 | a negative batch size runs no batch, so the corrected dictionary reports the intended pass alone |
| SrcUtilsRecords.SalvarVariasNotas | src/utils.py:3317-3426 | the method raises the validation pass's TypeError with the table untouched, or returns the dictionary and leaves the table `RelatorioLote` and `LinhasAposLote` prescribe |
| SrcUtilsRecords.ContadoresComoEscritosSum | src/utils.py:3379-3383 | as written, inserted plus duplicates still adds up to the rows attempted |
| SrcUtilsRecords.ContadoresComoEscritosUnderReport | src/utils.py:3379-3383 | with key `a` stored and batches `[a, b]` and `[c]`, two rows are added, yet the written counters report one insertion and two duplicates |
| SrcUtilsStatus.MarcarLinha | src/utils.py:3070-3077 | the update touches only the row of the key, which becomes downloaded with the given path and empty flag; no key is added or removed |
| SrcUtilsStatus.StatusXmlApos | src/utils.py:2106-2134 | an empty key or a missing file changes nothing; otherwise only the key's row is marked downloaded, with the path's text and the empty flag, its other columns kept |
| SrcUtilsStatus.AtualizarStatusXml | src/utils.py:2106-2140 | the method leaves the table the update prescribes |
| SrcUtilsStatus.MarcadoApos | src/utils.py:3058-3077 | an empty key changes nothing; otherwise only the key's row is marked, whether or not the file exists |
| SrcUtilsStatus.MarcarComoBaixado | src/utils.py:3058-3086 | the method leaves the table the update prescribes |
| SrcUtilsStatus.MarcadoAgreesWithStatusXml | src/utils.py:2112-2134 | the two updates agree wherever the file exists and its path is not empty |
| SrcUtilsStatus.Limpeza | src/utils.py:640-660 | no days deletes nothing; otherwise exactly the pending rows whose `dEmi` is one of the days are deleted, and the rest are kept unchanged |
| SrcUtilsStatus.LimparRegistrosInvalidosReprocessados | src/utils.py:640-669 | the method leaves that table and returns the number of rows deleted |
| SrcUtilsStatus.DiasInvalidos | src/utils.py:2964-2967 | every day listed is the `dReg` of an invalid row and is not a blank or zero marker, and every such `dReg` of an invalid row is listed |
| SrcUtilsStatus.Purga | src/utils.py:2955-2970 | exactly the rows with a usable essential column set are kept, unchanged |
| SrcUtilsStatus.RemoverRegistrosComCamposEssenciaisInvalidos | src/utils.py:2948-2975 | the method returns those days and leaves the purged table |
| SrcUtilsStatus.TrimNeverSpaced | src/utils.py:2961 | the condition `TRIM(c) = ' - '` can never hold |
| SrcUtilsStatus.InteiroInvalidoIff | src/utils.py:2956-2961 | a stored integer column is unusable exactly when it is 0 |
| SrcUtilsStatus.NoSpaceTrim | src/utils.py:2958 | `TRIM` keeps a text without spaces at its ends |
| SrcUtilsStatus.Atualizacoes | src/utils.py:3530-3557 | the pairs collected are exactly the selected rows whose date normalises, each with its `anomesdia` |
| SrcUtilsStatus.AplicarAnomesdia | src/utils.py:3567-3572 | only the collected rows change, and only in `anomesdia` |
| SrcUtilsStatus.AtualizarAnomesdia | src/utils.py:3530-3584 | the method leaves that table and returns the number of pairs |
| SrcUtilsStatus.AtualizacoesUnicas | src/utils.py:3549-3557 | the map the loop collects is the one prescribed |
| SrcUtilsStatus.NatOfAppend2 | src/utils.py:3556 | appending two digits multiplies the value by a hundred and adds them |
| SrcUtilsStatus.DigitosDaDataIso | src/utils.py:3555-3556 | the `anomesdia` of a date is `year * 10000 + month * 100 + day` |
| SrcUtilsStatus.AnomesdiaDeDate | src/utils.py:3552-3556 | a `dEmi` that normalises to a date gets that date's `anomesdia` |
| SrcUtilsStatus.AnomesdiaDeSome | src/utils.py:3552-3560 | a stored `dEmi` gets an `anomesdia` exactly when it normalises, and the value is never 0 |
| SrcUtilsStatus.AtualizarAnomesdiaIdempotent | src/utils.py:3536 | a second run finds nothing to update |
| SrcUtilsStatus.DiaNormalizado | src/utils.py:275-278 | one filter day yields at most one normalised day |
| SrcUtilsStatus.DiasNormalizados | src/utils.py:273-278 | the loop keeps at most one day per filter day |
| SrcUtilsStatus.DiasNormalizadosIso | src/utils.py:273-278 | every surviving day is an ISO date that normalises to itself |
| SrcUtilsStatus.Pendentes | src/utils.py:269-306 | only stored rows are returned; without a filter every pending row; with a filter only pending rows on a surviving day, all of them, and none when no day survives |
| SrcUtilsStatus.ObterRegistrosPendentes | src/utils.py:269-309 | the loop and query return that set |
| SrcUtilsStatus.Preencher | src/utils.py:2532-2536 | a column is filled exactly when the row's value is falsy and the name's is not, and then from the name |
| SrcUtilsStatus.Verificar | src/utils.py:2508-2543 | the verdict keeps the key; not found exactly when the key is not indexed; found exactly when its file exists, then with its size, its path, `xml_vazio` exactly below 100 bytes, and dates and numbers only fill falsy columns |
| SrcUtilsStatus.ProcessarLoteVerificacao | src/utils.py:2497-2552 | one verdict per row, in order |
| SrcUtilsRate.Espera | src/utils.py:1700-1705 | inside the interval the wait is positive and ends exactly when the interval does; after it there is no wait |
| SrcUtilsRate.RespeitarLimiteRequisicoes | src/utils.py:1697-1707 | sleeps for what is left of the interval since the last call, then records the time; nothing else on the host changes |
| SrcAtualizarCaminhos.ExtrairChaveDoNome | src/atualizar_caminhos_arquivos.py:339-360 | except for an old `NFe_` name, whose third part is returned unchecked, a non-empty result is a 44-digit key |
| SrcAtualizarCaminhos.ExtrairChaveNFe | src/atualizar_caminhos_arquivos.py:346-347 | an old-style name gives its third part, whatever it holds |
| SrcAtualizarCaminhos.ExtrairChaveSemSeparador | src/atualizar_caminhos_arquivos.py:342-360 | a name without `_` gives itself when it is a key and `""` otherwise |
| SrcAtualizarCaminhos.ReplaceAfterDigits | src/atualizar_caminhos_arquivos.py:339 | replacing `.xml` leaves a leading run of digits alone |
| SrcAtualizarCaminhos.ReplaceAbsentShort | src/atualizar_caminhos_arquivos.py:339 | a text shorter than the pattern is not changed by the replacement |
| SrcAtualizarCaminhos.ReplaceAtStart | src/atualizar_caminhos_arquivos.py:339 | a leading occurrence of the pattern is replaced, and the replacement goes on with the rest |
| SrcAtualizarCaminhos.NoDotUnchanged | src/atualizar_caminhos_arquivos.py:339 | a text with no `.` has no extension to remove |
| SrcAtualizarCaminhos.NoDotNotContains | src/atualizar_caminhos_arquivos.py:339 | a text with no `.` does not contain `.xml` |
| SrcAtualizarCaminhos.ExtrairChaveAnywhere | src/atualizar_caminhos_arquivos.py:339-358 | `.xml` is removed wherever it occurs, so two runs of digits around it read as one key |
| SrcAtualizarCaminhos.ExtrairChaveOfXmlName | src/atualizar_caminhos_arquivos.py:350-354 | the key comes back from the name `gerar_nome_arquivo_xml` gives a note |
| SrcAtualizarCaminhos.NoDotPrefixThenPat | src/atualizar_caminhos_arquivos.py:339 | in a text with no `.` before a final `.xml`, only the extension goes |
| SrcAtualizarCaminhos.Inicio | src/atualizar_caminhos_arquivos.py:194 | `f.read(1024)` is a prefix of the file of at most 1024 bytes |
| SrcAtualizarCaminhos.ConteudoVazio | src/atualizar_caminhos_arquivos.py:189-202 | the verdict on a file's bytes is 0 or 1 |
| SrcAtualizarCaminhos.VerificarArquivoVazio | src/atualizar_caminhos_arquivos.py:187-206 | the verdict is 0 or 1, and 0 for what cannot be opened as a file |
| SrcAtualizarCaminhos.ContainsHead | src/atualizar_caminhos_arquivos.py:199 | a byte string that contains a pattern holds the pattern's first byte |
| SrcAtualizarCaminhos.ConteudoVazioIff | src/atualizar_caminhos_arquivos.py:189-202 | a file is valid exactly when its first 1024 bytes hold `<?xml` or `<nfeProc` |
| SrcAtualizarCaminhos.Atribuir | src/atualizar_caminhos_arquivos.py:127-131 | `d[k] = v` on a Python dict: the entry is set and the insertion order stays well formed |
| SrcAtualizarCaminhos.Entrada | src/atualizar_caminhos_arquivos.py:117-131 | a file contributes an entry only under a non-empty key |
| SrcAtualizarCaminhos.Registrar | src/atualizar_caminhos_arquivos.py:113-131 | the dict built by assigning the entries is well formed |
| SrcAtualizarCaminhos.Mapeamento | src/atualizar_caminhos_arquivos.py:109-131 | `mapeamento_chaves` is a well-formed dict |
| SrcAtualizarCaminhos.MapearChaves | src/atualizar_caminhos_arquivos.py:109-132 | the mapping loop builds that dict, keys in insertion order |
| SrcAtualizarCaminhos.RegistrarSnoc | src/atualizar_caminhos_arquivos.py:119-131 | a file without a key adds nothing, and one with a key is one assignment |
| SrcAtualizarCaminhos.RegistrarKeys | src/atualizar_caminhos_arquivos.py:119-131 | a key is registered exactly when some entry carries it |
| SrcAtualizarCaminhos.RegistrarLastWins | src/atualizar_caminhos_arquivos.py:127-131 | the last entry carrying a key decides what it maps to |
| SrcAtualizarCaminhos.MapeamentoKeys | src/atualizar_caminhos_arquivos.py:113-131 | the keys mapped are exactly those read from some file name |
| SrcAtualizarCaminhos.MapeamentoNoDisco | src/atualizar_caminhos_arquivos.py:90-131 | on a well-formed file system a key is mapped exactly when some XML file on disk below the result folder gives it from its name |
| SrcAtualizarCaminhos.MapeamentoLastWins | src/atualizar_caminhos_arquivos.py:113-131 | for a key read from several files, the last of them wins |
| SrcAtualizarCaminhos.Aplicado | src/atualizar_caminhos_arquivos.py:234-250 | only the mapped keys' rows change: path, downloaded and empty flag from the mapping |
| SrcAtualizarCaminhos.AplicadoConcat | src/atualizar_caminhos_arquivos.py:230-250 | updating two runs of keys in turn is updating their concatenation |
| SrcAtualizarCaminhos.Presentes | src/atualizar_caminhos_arquivos.py:252 | the summed `rowcount` is at most the number of keys |
| SrcAtualizarCaminhos.PresentesConcat | src/atualizar_caminhos_arquivos.py:230-252 | the counts of two runs add |
| SrcAtualizarCaminhos.PresentesDistinct | src/atualizar_caminhos_arquivos.py:214-252 | with no repeated key, the count is the number of distinct keys found in the table |
| SrcAtualizarCaminhos.AtualizarBancoOtimizado | src/atualizar_caminhos_arquivos.py:213-257 | the batches of 1000 apply every mapped key's update and count the rows matched |
| SrcAtualizarCaminhos.AtualizarCaminhosNoBanco | src/atualizar_caminhos_arquivos.py:89-146 | the run leaves the table `CaminhosApos` prescribes |
| SrcAtualizarCaminhos.CaminhosAposEfeito | src/atualizar_caminhos_arquivos.py:89-146 | every row whose key a file name gives is marked with that key's mapped file, downloaded or not; every other row is unchanged |
| SrcVerificador.VerificarArquivoNoDisco | src/verificador_xmls.py:57-75 | missing fields give None; a key that comes back is the record's own, non-empty key |
| SrcVerificador.VerificarArquivoResolvivel | src/verificador_xmls.py:57-75 | a key comes back exactly when the record resolves and the optimised path has content |
| SrcVerificador.GuardaRedundante | src/verificador_xmls.py:59-75 | the early return decides nothing the resolver's ValueError would not |
| SrcVerificador.Validas | src/verificador_xmls.py:104-119 | every valid key belongs to a pending row and is not empty |
| SrcVerificador.VerificarArquivosExistentes | src/verificador_xmls.py:104-129 | the keys collected are exactly the valid ones, each once |
| SrcVerificador.MarcarBaixados | src/verificador_xmls.py:165-168 | only the listed keys' rows change, and only their downloaded flag |
| SrcVerificador.MarcarBaixadosConcat | src/verificador_xmls.py:159-168 | marking two runs in turn is marking their concatenation |
| SrcVerificador.MarcarBaixadosSoFlag | src/verificador_xmls.py:166 | a marked row keeps its path and every other column |
| SrcVerificador.StatusNoBancoApos | src/verificador_xmls.py:152-172 | no keys or a batch size that is not positive changes nothing, and no key is added or removed |
| SrcVerificador.AtualizarStatusNoBanco | src/verificador_xmls.py:152-172 | the batches leave the prescribed table |
| SrcVerificador.VerificarEMarcar | src/verificador_xmls.py:104-168 | checking then marking makes every row with a present file downloaded, changes no other row, and records no path |
| RootUtils.GerarXmlPath | utils.py:31-39 | None is a TypeError; text succeeds exactly when `%d/%m/%Y` parses it and otherwise raises ValueError; the file sits directly in a folder three levels below the base |
| RootUtils.GerarXmlPathBr | utils.py:32-39 | a `dd/mm/yyyy` date gives that day's folder and the name `{num}_{YYYYMMDD}_{chave}.xml`, the key unchanged |
| RootUtils.GerarXmlPathIso | utils.py:32-34 | an ISO date is refused with ValueError |
| RootUtils.IsoNotBr | utils.py:32 | `%d/%m/%Y` does not parse an ISO date |
| RootUtils.BrShape | utils.py:32 | whatever `%d/%m/%Y` parses has a `/` in its second or third character |
| RootUtils.DayThenSlash | utils.py:32 | a match of the whole format has that `/` |
| RootUtils.FirstAltSlash | utils.py:32 | a day of one or two digits is followed by that `/` |
| RootUtils.SlashAt | utils.py:32 | the rest of the format starts with a `/` |
| RootUtils.StatusXmlApos | utils.py:58-84 | an empty or unknown key changes nothing; only the key's row can change, and no key is added or removed |
| RootUtils.StatusXmlMarca | utils.py:62-79 | the marked row is downloaded, at the path's text, re-downloaded as `rebaixado` says, empty exactly when the text is all whitespace, and its other columns are kept |
| RootUtils.AtualizarStatusXml | utils.py:58-84 | the method leaves the prescribed table |
| RootUtils.Textos | utils.py:152-171 | the bound text columns, one per name, or a binding error |
| RootUtils.LinhaRaiz | utils.py:152-174 | the inserted row has no path and is neither downloaded nor re-downloaded; a failure is a binding error |
| RootUtils.Tupla | utils.py:152-175 | a record that does not bind raises a binding error |
| RootUtils.SalvarNotaApos | utils.py:135-178 | a keyless record changes nothing; a failure is a binding error; stored rows never change |
| RootUtils.SalvarNotaDuplicada | utils.py:177-178 | a record whose key is already stored changes nothing |
| RootUtils.SalvarNotaNova | utils.py:146-176 | a new key that binds adds exactly its row |
| RootUtils.SalvarNota | utils.py:135-178 | the method fails exactly when the record does not bind, leaving the table as it was, and otherwise leaves the prescribed table |
| RootUtils.ComChave | utils.py:188-193 | the records kept all have a key and are no more than the input |
| RootUtils.ComChaveMembros | utils.py:189-193 | the records kept are exactly those of the input with a key |
| RootUtils.Tuplas | utils.py:194-216 | when every record binds, one tuple per record, in order |
| RootUtils.VariasNotasApos | utils.py:218-233 | the batch never alters or removes a stored row |
| RootUtils.VariasNotasChaves | utils.py:228-233 | when every record binds, the keys added are exactly those of the kept records |
| RootUtils.SalvarVariasNotas | utils.py:188-233 | the method leaves the prescribed table |
| RootVerificador.ConstruirCaminhoXml | verificador_xmls.py:22-29 | a path exactly when the date is text that `%d/%m/%Y` parses |
| RootVerificador.ConstruirCaminhoXmlIsGerarXmlPath | verificador_xmls.py:22-29 | it is the file part of `gerar_xml_path` under `resultado`, and None exactly where that raises |
| RootVerificador.ConstruirCaminhoXmlBr | verificador_xmls.py:23-26 | a `dd/mm/yyyy` date lands in that day's folder under `resultado` |
| RootVerificador.VerificarArquivoNoDisco | verificador_xmls.py:38-42 | the key comes back exactly when the path is built and exists, with no size check |
| RootVerificador.Encontradas | verificador_xmls.py:54-69 | every key found belongs to a non-empty pending row |
| RootVerificador.MarcarEncontradas | verificador_xmls.py:71-76 | the keys found become downloaded, and nothing else changes |
| RootVerificador.CorpoComoEscrito | verificador_xmls.py:60 | as written, the pool's `os.cpu_count()` raises NameError |
| RootVerificador.VerificarArquivosExistentesComoEscrito | verificador_xmls.py:51-82 | as written, the pass leaves the table as the NameError left it |
| RootVerificador.ComoEscritaNaoMarca | verificador_xmls.py:51-82 | a pending note whose file is in its day folder stays pending as written, although the check would find it |
| RootVerificador.VerificacaoApos | verificador_xmls.py:59-77 | with `os` imported, no key is added or removed |
| RootVerificador.VerificacaoAposExata | verificador_xmls.py:54-77 | with `os` imported, exactly the pending rows whose file is on disk become downloaded, and no other column moves |
| RootVerificador.VerificarArquivosExistentes | verificador_xmls.py:51-82 | the corrected method leaves the prescribed table |
| RootVerificador.PorChaves | verificador_xmls.py:71-75 | the `executemany` over the collected keys marks the same rows as the set of keys found |
| RootOmieClient.Lineares | omie_client_async.py:33 | the sleeps `delay*a, ..., delay*(b-1)`, one per attempt |
| RootOmieClient.Retries | omie_client_async.py:26-33 | the body runs at most once per remaining attempt, with one sleep fewer than runs; a result is that of the last run; an exception is the last attempt's; with no attempt left the wrapper returns None |
| RootOmieClient.RetriesPrimeiroSucesso | omie_client_async.py:27-33 | the first run that returns decides the result, no later run happens, and the sleeps before it grow linearly |
| RootOmieClient.RetriesTodasFalham | omie_client_async.py:27-33 | when every run raises, the body runs once per attempt, the last exception propagates, and no sleep follows the last failure |
| RootOmieClient.RetriesFalhaPasso | omie_client_async.py:30-33 | a failed attempt that is not the last sleeps `delay*attempt` and hands over to the next |
| RootOmieClient.CallApi | omie_client_async.py:71-109 | each attempt posts the same envelope to the method's endpoint; the result, the POSTs and the sleeps are those of `with_retries(3, 2)` over the replies |
| RootOmieClient.ComRetentativas | omie_client_async.py:26-33 | the decorator's loop around the body gives what `Retries` prescribes |
| RootOmieClient.Tentativa | omie_client_async.py:29-33 | one run posts once and returns the body's verdict, sleeping `delay*attempt` only after a failure that is not the last |
| RootOmieClient.CallApiNaoDict | omie_client_async.py:107-108 | a server that keeps answering JSON that is not a dict gets three POSTs and sleeps of 2 s and 4 s, then ValueError |
| SrcOmieClient.Decisao | src/omie_client_async.py:53-85 | an attempt returns exactly for a status below 400 with a JSON object; 429 sleeps `2**attempt` seconds; every other failure sleeps `1.5*attempt` seconds |
| SrcOmieClient.Laco | src/omie_client_async.py:48-87 | at most five attempts; RuntimeError carries the method, after all five sleep; a result is the last attempt's dict, after one sleep per attempt before it |
| SrcOmieClient.Pausas | src/omie_client_async.py:49-85 | one sleep per attempt counted |
| SrcOmieClient.PausasSnoc | src/omie_client_async.py:49-85 | one more attempt adds its sleep at the end |
| SrcOmieClient.LacoPrimeiro | src/omie_client_async.py:49-73 | the first attempt that gets a dict returns it, after the sleeps of the attempts before it |
| SrcOmieClient.LacoEsgota | src/omie_client_async.py:49-87 | when no attempt gets a dict, all five sleep and RuntimeError follows |
| SrcOmieClient.CallApi | src/omie_client_async.py:40-87 | the same envelope to the method's endpoint on every attempt; the result, the POSTs and the sleeps are those of the loop |
| SrcOmieClient.Tentativa | src/omie_client_async.py:51-85 | one attempt posts once, returns its verdict and sleeps what the verdict says |
| SrcOmieClient.SempreLimitado | src/omie_client_async.py:55-59 | a server always answering 429 gets five POSTs, sleeps of 2, 4, 8, 16 and 32 seconds, then RuntimeError |
| Omie.Url | omie_client_async.py:101 | `ListarNF` goes to the listing endpoint and every other method to the documents endpoint |
| Omie.Envelope | omie_client_async.py:93-98 | the body is a dict of exactly `app_key`, `app_secret`, `call` and `param` |
| Omie.EnvelopeDesembrulha | omie_client_async.py:93-98 | the envelope carries the credentials, the method and its one parameter object, and nothing is lost |
| Omie.ParamsListar | extrator_async.py:39-50 | the page query carries the page number under `pagina` |
| Omie.ParamsListarSoPagina | extrator_async.py:39-50 | two page queries differ in the page number and nothing else |
| Omie.Indexar | extrator_async.py:81 | `j[k]` succeeds exactly on a dict holding the key, gives its value, and raises KeyError on a dict without it and TypeError on anything else |
| Omie.Secao | extrator_async.py:64-81 | a section can be read with `.get` exactly when it is present and is a dict |
| Omie.ComoDict | extrator_async.py:54 | `data.get` succeeds exactly on a dict |
| Omie.Itens | extrator_async.py:57-62 | iterating raises TypeError exactly on None and numbers; a list yields its items; otherwise only strings come out; the items are empty exactly when the value is falsy |
| Omie.TotalPaginas | extrator_async.py:85-87 | a missing `total_de_paginas` reads 1, and the comparison succeeds exactly when the value is a number |
| Omie.TextoXml | extrator_async.py:125-128 | unescaping and writing succeed exactly for a string |
| Omie.CorpoRequests | baixar_parallel.py:65-68 | a `requests` reply gives its JSON body exactly for a status outside 400-599 with a body |
| Omie.CorpoAiohttp | omie_client_async.py:104-109 | an aiohttp reply gives a dict exactly for a status below 400 with a JSON object, and ValueError for other JSON |
| Omie.SecoesDaNota | extrator_async.py:63-81 | a note's record can be read exactly when `compl`, `ide`, `nfDestInt` and `total.ICMSTot` are dicts; a note that is not a dict raises TypeError |
| Omie.RegistroDaNota | extrator_async.py:63-82 | the record is built from those sections, with `vNF` as given |
| Omie.RegistroDaNotaCampos | extrator_async.py:64-75 | the record's key, date and number are `compl.cChaveNFe`, `ide.dEmi` and `ide.nNF` |
| Omie.Pendentes | extrator_async.py:148-151 | exactly the rows not yet downloaded are selected, each with its own key |
| Omie.SalvarNotasEstende | extrator_async.py:62-82 | when no save alters a stored row, neither does the loop over a page |
| Omie.SalvarNotasParaNaFalha | extrator_async.py:62-94 | the notes before a failing one are saved, the failing one stops the loop, and none after it is read |
| Omie.SalvarNotasPara | extrator_async.py:92-94 | once a note stopped the loop, the notes after it are never read |
| Omie.SalvarNotasSnoc | extrator_async.py:62-82 | one more note is saved into the table the earlier ones left |
| Omie.SalvarNotasUma | extrator_async.py:62-82 | the loop over one note reads it, then saves it, and stops on the first exception |
| Omie.GravarPasso | extrator_async.py:62-94 | one more note is one save, and a failing note stops the loop |
| Omie.Paginar | extrator_async.py:35-94 | the pages requested run `pagina, pagina + 1, ...` without a gap, and a stop follows at least one page |
| Omie.PaginarPassos | extrator_async.py:37-90 | each page requested is one turn from the state the turns before it left |
| Omie.PaginarNuncaPara | extrator_async.py:37-94 | a reason no turn gives is never why the listing stopped |
| Omie.Registros | baixar_parallel.py:65-67 | the entries `f(a), ..., f(a + n - 1)` |
| Omie.PaginarRegistra | baixar_parallel.py:65-67 | when every turn logs one entry for its page, the listing logs one entry per page requested, in order |
| Omie.PaginarPreserva | extrator_async.py:37-94 | a property every turn keeps holds of the state the listing ends in |
| Host.Host.Sleep | src/omie_client_async.py:58 | a sleep is recorded and advances the clock, and nothing else changes |
| Host.Host.Post | baixar_parallel.py:65-67 | a POST is recorded and answered by the modelled server, and nothing else changes |
| Host.Host.ClientCall | src/extrator_async.py:75 | a call on a client passed in is recorded and answered, and nothing else changes |
| Host.Host.Mkdir | baixar_parallel.py:123 | `mkdir(parents=True, exist_ok=True)` fails exactly when a file sits at the folder or above it, and then changes nothing; otherwise it makes the folders; nothing else changes |
| Host.Host.WriteText | baixar_parallel.py:140 | `write_text` fails exactly when the path is a folder or its parent is not one, and then changes nothing; otherwise it writes the UTF-8 bytes of the text; nothing else changes |
| RootExtrator.SalvarEstende | utils.py:135-178 | no save through the root `salvar_nota` alters a stored row |
| RootExtrator.PaginaR | extrator_async.py:39-94 | one turn posts one `ListarNF` call for its page and leaves the files alone; it stops as empty exactly when `nfCadastro` is falsy; the table is the notes saved in order; it goes on exactly when every note saved and the page is not the last |
| RootExtrator.PaginaREstende | extrator_async.py:53-90 | a page never alters a stored row |
| RootExtrator.ListarEstende | extrator_async.py:35-94 | the listing never alters a stored row and never touches the files |
| RootExtrator.ListarPrimeiraVazia | extrator_async.py:57-59 | an empty first page ends the listing there, with nothing saved |
| RootExtrator.PaginaNotaQuebrada | extrator_async.py:62-94 | a note that cannot be read ends the listing on its page: the notes before it are saved, it and those after it are not |
| RootExtrator.ListarNfs | extrator_async.py:25-94 | the table and the client calls end as the page loop prescribes, and nothing is posted or slept |
| RootExtrator.Paginas | extrator_async.py:37-94 | the `while True` over pages ends in the state the page loop prescribes |
| RootExtrator.ListarPagina | extrator_async.py:39-94 | the body for one page does what one turn prescribes |
| RootExtrator.SalvarNotasDaPagina | extrator_async.py:62-82 | the loop over a page's notes leaves the table and the exception the loop prescribes |
| RootExtrator.SalvarCada | extrator_async.py:62-82 | the loop over the notes, with each save one step |
| RootExtrator.SalvarUma | extrator_async.py:63-82 | one turn reads the note's record, then saves it |
| RootExtrator.BaixarXmlEscrito | extrator_async.py:119-131 | a download that reaches the write makes the folder, writes the file, marks the row, and makes one `ObterNfe` call |
| RootExtrator.BaixarXmlOrdem | extrator_async.py:117-135 | a download that stops before the write leaves the table as it was; one that writes stores the unescaped XML and marks only its row, re-downloaded exactly when the file was there before |
| RootExtrator.BaixarXmlSemConteudo | extrator_async.py:120-131 | where neither `mkdir` nor `write_text` raises, a reply without `cXmlNfe` leaves an empty file and marks the row as empty |
| RootExtrator.RetentativasInertes | extrator_async.py:97-135 | the retry decorator around a body that catches everything runs it once, sleeps nothing and returns its result |
| RootExtrator.BaixarXmlIndividual | extrator_async.py:115-135 | the method leaves the world the download prescribes, and posts and sleeps nothing itself |
| RootExtrator.BaixarXmlSoSuaLinha | extrator_async.py:115-135 | a download, complete or not, changes no row but its note's, and no key |
| RootExtrator.BaixarTodasPreserva | extrator_async.py:158-161 | the rows of notes outside the order are left as they were, and so is the set of keys |
| RootExtrator.BaixarXmls | extrator_async.py:148-161 | every pending row is downloaded exactly once, in some order |
| SrcExtrator.RespeitarLimiteRequisicoes | src/extrator_async.py:31-38 | sleeps exactly what is missing of the 0.25 s since the last request (nothing when enough time passed), then records the clock as the last request; afterwards at least 0.25 s separate it from the previous one; files, posts and client calls unchanged |
| SrcExtrator.OuZero | src/extrator_async.py:61 | `v or 0`: a truthy value is kept, a falsy one becomes 0 |
| SrcExtrator.NormalizarNota | src/extrator_async.py:41-65 | the result is `{}` exactly when a section is missing or `float(vNF or 0)` would raise; otherwise it has the keys of the note's record and its fields, with `vNF` defaulted to 0 |
| SrcExtrator.Normalizados | src/extrator_async.py:119 | the comprehension keeps at most as many records as notes, and never an empty one |
| SrcExtrator.NormalizadosMembros | src/extrator_async.py:119 | a record is kept exactly when it is non-empty and the normalisation of some note |
| SrcExtrator.NormalizadosConcat | src/extrator_async.py:119 | the comprehension keeps the order of the notes: it distributes over concatenation |
| SrcExtrator.Reacao | src/extrator_async.py:75-90 | a retry happens exactly on a 429 or a status from 500 on; a 429 on attempt `t` sleeps `2**t` s, a 5xx sleeps `1+t` s; every retry sleeps at least 2 s |
| SrcExtrator.UmaVez | src/extrator_async.py:71-90 | one attempt returns the client's reply; when it retries, the handler's sleep is the reaction to that failure and the clock moves on by it from the gate |
| SrcExtrator.Retentativa | src/extrator_async.py:68-92 | at most five calls; a success or an exception that is not retried ends the loop with that reply after one call; a success is the reply of the last call made; a failure is either RuntimeError after every attempt or the last reply when it is not retried |
| SrcExtrator.UmaVezRelogio | src/extrator_async.py:71-83 | an attempt only appends sleeps, and the clock advances by exactly their sum |
| SrcExtrator.RetentativaRelogio | src/extrator_async.py:68-92 | the whole loop only appends sleeps, and the clock advances by exactly their sum |
| SrcExtrator.RetentativaEsgota | src/extrator_async.py:76-92 | retryable failures on every attempt left give RuntimeError naming the method after one call per attempt |
| SrcExtrator.Recuos429 | src/extrator_async.py:76-79 | one backoff per attempt left |
| SrcExtrator.RetentativaSempre429 | src/extrator_async.py:72-92 | a client that keeps answering 429 gives RuntimeError after every attempt left, with the gate's sleep followed by the doubling backoffs |
| SrcExtrator.Vez429 | src/extrator_async.py:72-79 | an attempt answered with 429 sleeps its backoff after the gate's wait, and the next gate has nothing to wait for |
| SrcExtrator.Recuos429DoPrimeiro | src/extrator_async.py:69-79 | from the first attempt the 429 backoffs are 2, 4, 8, 16 and 32 seconds |
| SrcExtrator.SempreLimitado | src/extrator_async.py:68-92 | always 429: five calls, sleeps of 2, 4, 8, 16 and 32 s after the gate, then RuntimeError |
| SrcExtrator.RetentativaDesde | src/extrator_async.py:70-90 | after `k` retried attempts, the loop from the first attempt ends as the loop from attempt `k + 1` does |
| SrcExtrator.RetentativaFim | src/extrator_async.py:73-90 | the first attempt that is not retried ends the loop with its own outcome, sleeps, clock and gate |
| SrcExtrator.RetentativaEsgotada | src/extrator_async.py:92 | five retried attempts end in RuntimeError with the sleeps, clock and gate after the fifth |
| SrcExtrator.RetentativaLaco | src/extrator_async.py:68-92 | the loop as the method runs it, attempt by attempt, is the loop function from the first attempt |
| SrcExtrator.CallApiComRetentativa | src/extrator_async.py:68-92 | the result, the client calls, the sleeps and the gate time are those of the retry loop function; files and posts unchanged |
| SrcExtrator.Tentativas | src/extrator_async.py:70-92 | the `for` loop makes one client call per attempt, retries exactly on the retried failures, and returns the last attempt's reply or RuntimeError after five |
| SrcExtrator.Turno | src/extrator_async.py:71-90 | one turn appends one client call and leaves the state of the attempt it models |
| SrcExtrator.RestaFim | src/extrator_async.py:73-90 | a turn that is not retried ends the loop with that turn's outcome, sleeps, clock and gate |
| SrcExtrator.RestaPasso | src/extrator_async.py:76-83 | a retried turn hands the rest of the loop to the next attempt |
| SrcExtrator.RetentativaPasso | src/extrator_async.py:70-90 | the loop is one turn followed, when it retries, by the loop from the next attempt |
| SrcExtrator.Tentar | src/extrator_async.py:72-83 | the gate, one client call, and the retry handler's sleep: the outcome and state of one attempt |
| SrcExtrator.ChamarFluxo | src/extrator_async.py:68-92 | a call through the loop appends one client call per attempt made, with the loop's sleeps and gate |
| SrcExtrator.PaginaA | src/extrator_async.py:99-130 | one page calls `ListarNF` through the retry loop; it stops as empty exactly when the call succeeded with a falsy `nfCadastro`; the table is the batch save of the normalised notes; a record set that makes the written validation pass raise stops the listing with TypeError; it goes on exactly when everything succeeded, the validation pass did not raise and the page is not the last; rows are only added or updated, files untouched |
| SrcExtrator.PaginaChaveQuebrada | src/extrator_async.py:119-130 | a page with a note whose record carries an unsliceable key, None when `compl` has no `cChaveNFe`, ends the listing with TypeError and saves none of that page's records |
| SrcExtrator.ListarEstende | src/extrator_async.py:95-131 | the listing never alters or removes a stored row and never touches the files |
| SrcExtrator.ListarPrimeiraVazia | src/extrator_async.py:97-117 | an empty first page ends the listing there, with pages `[1]` and the table unchanged |
| SrcExtrator.ListarNfs | src/extrator_async.py:95-131 | the table, the client calls, the sleeps and the gate end as the page loop over `PaginaA` from page 1; no post is made |
| SrcExtrator.Paginas | src/extrator_async.py:98-127 | the `while True` ends in the state of the page loop over the turns it is given |
| SrcExtrator.ListarPagina | src/extrator_async.py:99-127 | one turn leaves the state of `PaginaA` and breaks exactly when it stops |
| SrcExtrator.BaixarXmlOrdem | src/extrator_async.py:134-149 | the row is updated only after the file is written: a download that stops earlier leaves the table as it was; one that writes leaves the unescaped XML at the path and marks that note's row, and only it, as downloaded there and not empty |
| SrcExtrator.BaixarXmlSemConteudo | src/extrator_async.py:139-145 | where neither `mkdir` nor `write_text` raises, a reply with no `cXmlNfe` is written as an empty file |
| SrcExtrator.BaixarXmlPasta | src/extrator_async.py:138-139 | once the path is resolved, a failing `mkdir` leaves the world as it was, with no API call; otherwise the folder exists afterwards, whatever happened next |
| SrcExtrator.BaixarXmlIndividual | src/extrator_async.py:134-149 | the files, table, client calls, sleeps and gate end as the download function says; no post is made |
| SrcExtrator.BaixarXmlSoSuaLinha | src/extrator_async.py:134-149 | a download, complete or not, changes no row but its note's, and no key |
| SrcExtrator.BaixarTodasPreserva | src/extrator_async.py:152-168 | the rows of notes outside the batch are left as they were, and so is the set of keys |
| SrcExtrator.BaixarXmls | src/extrator_async.py:152-168 | every pending note is downloaded once, in some order, the world ends as the downloads of that order one after the other; no post is made |
| RootBaixarParallel.PaginaP | baixar_parallel.py:44-102 | one turn POSTs one `ListarNF` request for its page and leaves the files alone; the table is the notes saved in order when the reply parses, unchanged otherwise; it goes on exactly when every note saved and the page is not the last; it never stops for an empty page |
| RootBaixarParallel.ListarNuncaParaVazia | baixar_parallel.py:68-102 | the listing stops only at the last page or at an exception, never at an empty page |
| RootBaixarParallel.PaginaVaziaSegue | baixar_parallel.py:68-98 | a reply without `nfCadastro` that is not the last page goes on to the next page with nothing saved |
| RootBaixarParallel.ListarPedidos | baixar_parallel.py:44-98 | the listing POSTs exactly one request per page, for pages 1, 2, ... in order |
| RootBaixarParallel.ListarEstende | baixar_parallel.py:71-91 | with a `salvar_nota` that never alters a stored row, neither does the listing, and it never touches the files |
| RootBaixarParallel.PaginaNotaQuebrada | baixar_parallel.py:71-102 | a note missing a section ends the listing on its page: the notes before it stay saved, it and the notes after it are not |
| RootBaixarParallel.ListarNfs | baixar_parallel.py:39-102 | the table and the POSTs end as the page loop over `PaginaP` with the root `salvar_nota`; no sleep and no client call |
| RootBaixarParallel.Paginas | baixar_parallel.py:44-102 | the `while True` ends in the state of the page loop over the turns it is given |
| RootBaixarParallel.ListarPagina | baixar_parallel.py:46-102 | one turn leaves the state `PaginaP` gives and breaks exactly when it stops |
| RootBaixarParallel.BaixarUmaEscrita | baixar_parallel.py:118-145 | a download that reaches the write makes the folder, POSTs `ObterNfe`, writes the unescaped XML, then updates the row with whether the file was there before, and returns the key |
| RootBaixarParallel.BaixarUmaOrdem | baixar_parallel.py:115-149 | the key comes back exactly when the XML was written; a download that stops before the write leaves the table as it was; one that writes leaves the XML at its path and the row as the status update says |
| RootBaixarParallel.BaixarUmaSemConteudo | baixar_parallel.py:139-149 | a reply without `cXmlNfe` is a KeyError: no file written, no row marked, None returned |
| RootBaixarParallel.BaixarUmaMarcaRaiz | baixar_parallel.py:124-143 | with the root status update a written note's row, and only it, is marked downloaded at its path, re-downloaded exactly when the file was there before, and empty exactly when the text is blank |
| RootBaixarParallel.BaixarUmaNota | baixar_parallel.py:105-149 | the files, table, POSTs and result end as the download function says; no sleep and no client call |
| RootBaixarParallel.BaixarTodasPreserva | baixar_parallel.py:152-168 | with a status update that changes only its note's row and no key, the rows of notes outside the batch are left as they were, and so is the set of keys |
| RootBaixarParallel.MarcarRaizSoSuaLinha | baixar_parallel.py:143 | the root status update changes no row but the note's, and no key |
| RootBaixarParallel.BaixarXmlsEmParallel | baixar_parallel.py:152-168 | the rows with `xml_baixado = 0` are read once and each is downloaded exactly once, in some order; the world ends as those downloads one after the other |
| SrcBaixarParallel.SalvarEstende | src/utils.py:3192-3271 | no save through `src/utils.py`'s `salvar_nota` alters a stored row |
| SrcBaixarParallel.SalvarNotaDaPagina | src/baixar_parallel.py:63-83 | a note read from a page raises exactly when its key is neither text nor a list, and then TypeError; otherwise the table is what `salvar_nota` leaves |
| SrcBaixarParallel.ListarSrc | src/baixar_parallel.py:35-94 | the listing never alters a stored row, never touches the files, and stops only at the last page or at an exception |
| SrcBaixarParallel.ListarNfs | src/baixar_parallel.py:35-96 | the table and the POSTs end as the page loop with `src/utils.py`'s `salvar_nota`; no sleep and no client call |
| SrcBaixarParallel.Paginas | src/baixar_parallel.py:37-94 | the `while True` ends in the state of the page loop over the turns it is given |
| SrcBaixarParallel.ListarPagina | src/baixar_parallel.py:39-94 | one turn leaves the state the page function gives and breaks exactly when it stops |
| SrcBaixarParallel.SalvarNotasDaPagina | src/baixar_parallel.py:63-83 | each note's record is saved in order; the first exception stops the loop and is returned, with the notes before it saved |
| SrcBaixarParallel.SalvarCada | src/baixar_parallel.py:63-83 | the loop over notes ends with the table and the error of the save loop |
| SrcBaixarParallel.SalvarUma | src/baixar_parallel.py:64-83 | one note: its record, then `salvar_nota` |
| SrcBaixarParallel.BaixarUmaMarcaSrc | src/baixar_parallel.py:102-126 | a written note returns its key; its row, and only it, is marked downloaded at its path and never as empty; no key is added |
| SrcBaixarParallel.MarcarSrcSoSuaLinha | src/baixar_parallel.py:124 | `src/utils.py`'s status update changes no row but the note's, and no key |
| SrcBaixarParallel.BaixarUmaNota | src/baixar_parallel.py:99-130 | the files, table, POSTs and result end as the download function says with `src/utils.py`'s status update |
| SrcBaixarParallel.BaixarXmlsEmParallel | src/baixar_parallel.py:133-146 | the rows with `xml_baixado = 0` are read once and each is downloaded exactly once, in some order; the world ends as those downloads one after the other |
| Calendar.Strptime | src/utils.py:725-735 | every date `strptime` accepts is a valid calendar date |
| Calendar.ParseFormatBr | utils.py:32 | parsing the `dd/mm/yyyy` rendering of a valid date gives the date back |
| Calendar.ParseFormatIso | src/utils.py:1114 | parsing the `yyyy-mm-dd` rendering of a valid date gives the date back |
| Calendar.ParseFormatCompact | src/utils.py:2842 | parsing the `yyyymmdd` rendering of a valid date gives the date back |
| Calendar.FormatIsoInjective | src/utils.py:1114 | distinct valid dates print differently as `yyyy-mm-dd` |
| Calendar.OneDigitFieldsAccepted | src/utils.py:725 | `strptime` also accepts one-digit day and month fields under `%d/%m/%Y` |
| Store.InsertOrIgnore | src/utils.py:3374-3377 | `INSERT OR IGNORE` of a present key leaves the table as it was; of a new key adds that row; no other row changes |
| Store.InsertAllKeys | src/utils.py:3374-3377 | `executemany` of `INSERT OR IGNORE` leaves exactly the old keys and the batch's keys |
| Store.InsertAllCount | src/utils.py:3374-3379 | the rows it adds are exactly as many as the batch's new keys |
| Batches.LotesCover | src/utils.py:3357-3358 | the slices `registros[i:i + tamanho_lote]` put back together are the list |
| Batches.LotesSizes | src/utils.py:3357-3358 | every slice is non-empty and at most `tamanho_lote` long |
| Batches.LotesIndex | src/utils.py:3357-3358 | slice `j` starts at `j * tamanho_lote` |
| Text.StripEmptyIff | utils.py:63 | `s.strip() == ''` exactly when every character is whitespace |
| Text.DigitsOfStrip | src/utils.py:1002 | stripping whitespace before removing non-digits changes nothing |
| Fs.Mkdir | baixar_parallel.py:123 | a `mkdir(parents=True, exist_ok=True)` that succeeds keeps every file and folder and the well-formedness of the file system, and the folder exists afterwards |
| Fs.MkdirDeeper | baixar_parallel.py:123-124 | making a folder does not change whether a longer path exists |
| Fs.WriteFile | baixar_parallel.py:140 | a `write_text` that succeeds leaves the text's bytes at the path, every other file as it was, the folders unchanged, and the file system well formed |
| Fs.WriteAposMkdir | src/extrator_async.py:139-145 | after a `mkdir` that succeeds, writing a file directly in that folder fails exactly when a folder has the file's name |
| Fs.Rglob | src/atualizar_caminhos_arquivos.py:92 | `rglob("*.xml")` yields only files below the folder whose name ends in `.xml` |
| Fs.RglobCompleto | src/utils.py:971-977 | on a well-formed file system the scan yields every file below the folder whose name ends in `.xml`, and each exactly once |
| Fs.RglobOfMembros | src/utils.py:977 | a path is in the scan of an order exactly when the order lists it and it is a matching file |
| Fs.RglobOfDistinct | src/utils.py:977 | a scan order without repeats gives a scan without repeats |

## Left out

- Concurrency is modelled as sequential iteration. This covers thread pools, `asyncio.gather`, the `asyncio` semaphore and lock, and `as_completed`. Each bulk download returns a ghost order that lists every pending row exactly once. The parallel file checks state the keys they find as a set.
- HTTP transport is not modelled: `aiohttp`, `requests`, timeouts and headers. An endpoint is a function from the request and the number of earlier requests to a reply: a status, a body, or a transport exception.
- `html.unescape` is an opaque function, fixed per run.
- SQLite plumbing is not modelled: PRAGMAs, DDL, indexes, views and connection managers. An `sqlite3.Error` raised by a single statement, or by opening the database, is not modelled either. The table is a map, so `ORDER BY` only affects the order of a result, and results are stated as sets.
- SrcUtilsStatus.ObterRegistrosPendentes: returns the pending rows as a set, without the `ORDER BY dEmi, nNF` order of the query.
- Floating point is not modelled:
  - the `vNF` column and `normalizar_valor_nf`;
  - percentages and rates in logs;
  - the estimates of processing time.
  JSON numbers are integers here; JSON floats and booleans are outside the `Json` datatype.
- SrcUtilsRecords.SafeInt: reads plain integer text only. `int(float(v))` also accepts decimals and exponents ("1.5" gives 1) and rounds beyond 2**53; here such text gives None.
- SrcExtrator.NormalizarNota: `float()` is modelled on optional-sign decimal text. Exponents, `inf`, `nan` and underscores count as rejected, so such a note normalises to `{}`.
- Json.PyStr: `str()` of a list or a dict in a scalar field is a fixed placeholder, not Python's repr.
- XML content parsing with ElementTree is not modelled (`atualizar_dEmi_registros_pendentes`, `_extrair_valor_xml`). It is a foreign library.
- Reporting and metrics are not modelled: database metrics, final reports, the benchmark of the two path generators, and the empty-file report.
- Archiving (`compactador_resultado.py`) and OneDrive upload (`upload_onedrive.py`) are not modelled. They move files, write ZIPs and make Graph HTTP calls. The resolver's subfolder search covers the `{day}_pasta_{n}` folders they leave.
- Orchestration and configuration are not modelled: `main.py`, the INI reads, the lock file and the folder enumerations. Their results enter as parameters: the client, the query, the file system and its scan order.
- Logging is not modelled anywhere. `marcar_como_erro` is a documented no-op and is not modelled.
- Paths are sequences of components, and `Path.resolve()` is the identity.
- Digits are the ASCII digits: Python's `\d`, `isdigit` and `int()` also accept other Unicode digits.
- RootExtrator.ListarNfs: walks at most `limite` pages. The source's `while True` has no bound, and a listing whose API never reports the last page does not end.
- SrcExtrator.ListarNfs: at most `limite` pages, for the same reason.
- RootBaixarParallel.ListarNfs: at most `limite` pages, for the same reason.
- SrcBaixarParallel.ListarNfs: at most `limite` pages, for the same reason.
- Fs.Rglob: yields files only. `rglob("*.xml")` also yields a directory whose name ends in `.xml`, which the model never does. The scan order is a fixed sequence given with the file system, not the directory walk. Completeness and uniqueness (`Fs.RglobCompleto`) hold on a file system that satisfies `Fs.Valid`, which `Fs.Mkdir` and `Fs.WriteFile` preserve.
- Fs.MkdirFalha: the only `mkdir` failure modelled is a file on the folder's path. A refusal for permissions, a full disk or a name the operating system rejects is not modelled. Fs.WriteFalha likewise covers only a folder at the path or a parent that is not a folder.
- SrcUtilsRecords.SalvarNota: only `validar_entrada=True` is modelled, the default every caller in the pipeline uses. The unvalidated path, reached only through `salvar_nota_deprecated`, is not.
- SrcUtilsRecords.SalvarVariasNotas: only `validar_entrada=True` is modelled, for the same reason. Its counters are the corrected ones of the Findings table, while the validation pass is the one as written.

## Findings

| source | as written | input that shows it | evidently intended | confidence | as-written member | corrected member |
|---|---|---|---|---|---|---|
| src/utils.py:3379 | a batch's `inseridos_lote` is the connection's cumulative `total_changes` minus the running inserted and duplicate totals, so once an earlier batch had duplicates, later batches under-report their inserts | table holding key `a`, records `a`, `b`, `c`, `tamanho_lote = 2`: reports 1 inserted and 2 duplicates, while 2 rows were added | inserted per batch = new keys of that batch; inserted + duplicates = rows attempted | not executed | SrcUtilsRecords.ContadoresComoEscritosUnderReport | SrcUtilsRecords.InserirLotes |
| src/utils.py:3345-3346 | an invalid record's handler logs `chave[:8]` where `chave` is the record's `cChaveNFe`; a key present but None (or a number) raises TypeError inside the handler, which ends `salvar_varias_notas` | `salvar_varias_notas([{'cChaveNFe': None}])` | the record is counted as an error and skipped | not executed | SrcUtilsRecords.TriagemNoneKey | SrcUtilsRecords.Triagem |
| verificador_xmls.py:60 | the thread pool is sized with `os.cpu_count()`, but `os` is not imported, so every run raises NameError into the handler at line 81 and no row is ever marked | any table with a pending row whose file exists | the pending rows whose file exists are marked as downloaded | not executed | RootVerificador.ComoEscritaNaoMarca | RootVerificador.VerificacaoAposExata |

The TypeError of the second row decides whether `listar_nfs` goes on: `src/extrator_async.py` catches it and ends the listing. So `SrcUtilsRecords.SalvarVariasNotas` and `SrcExtrator.PaginaA` follow the validation pass as written (`SrcUtilsRecords.TriarRegistros`, `SrcUtilsRecords.RelatorioLoteComoEscrito`, `SrcExtrator.PaginaChaveQuebrada`). The intended pass is `SrcUtilsRecords.Triagem`, and `SrcUtilsRecords.RelatorioCorrigido` is the dictionary built from it.
