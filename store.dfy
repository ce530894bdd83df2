/**
 * The `notas` table: one row per fiscal key `cChaveNFe` (its primary key).
 * The row carries the columns of both schemas in the repository; the root
 * schema has `baixado_novamente`, the `src` schema has `anomesdia`.  The
 * floating-point `vNF` column is not part of this model.
 */
module Store {
  import opened Wrappers
  import opened Text
  import opened Json

  /** A value stored in a column without TEXT affinity. */
  datatype SqlVal = Null | Int(i: int) | Text(s: string)

  datatype Row = Row(
    nIdNF: SqlVal, nIdPedido: SqlVal,
    dCan: Option<string>, dEmi: Option<string>, dInut: Option<string>, dReg: Option<string>,
    dSaiEnt: Option<string>, hEmi: Option<string>, hSaiEnt: Option<string>,
    mod: Option<string>, nNF: Option<string>, serie: Option<string>, tpAmb: Option<string>,
    tpNF: Option<string>, cnpjCpf: Option<string>, cRazao: Option<string>,
    xmlBaixado: bool, anomesdia: Option<int>, caminhoArquivo: Option<string>,
    xmlVazio: bool, baixadoNovamente: bool)

  type Rows = map<string, Row>

  /** The table, updated in place by the pipeline's SQL statements. */
  class Table {
    var rows: Rows

    constructor (initial: Rows)
      ensures rows == initial
    {
      rows := initial;
    }
  }

  /** `depois` keeps every row of `antes` as it was: what a run of `INSERT OR IGNORE`s guarantees. */
  predicate Estende(antes: Rows, depois: Rows)
  {
    forall k | k in antes :: k in depois && depois[k] == antes[k]
  }

  lemma EstendeTransitiva(a: Rows, b: Rows, c: Rows)
    requires Estende(a, b) && Estende(b, c)
    ensures Estende(a, c)
  {
  }

  /** `INSERT OR IGNORE` of one row: an existing key keeps its row. */
  function InsertOrIgnore(rows: Rows, key: string, row: Row): (r: Rows)
    ensures key in r && r.Keys == rows.Keys + {key}
    ensures key in rows ==> r == rows
    ensures key !in rows ==> r[key] == row
    ensures forall k | k in rows :: r[k] == rows[k]
  {
    if key in rows then rows else rows[key := row]
  }

  /** `executemany` of `INSERT OR IGNORE` over `batch`, in order: the first row of a key wins. */
  function InsertAllOrIgnore(rows: Rows, batch: seq<(string, Row)>): (r: Rows)
    ensures forall k | k in rows :: k in r && r[k] == rows[k]
    decreases |batch|
  {
    if batch == [] then rows
    else InsertAllOrIgnore(InsertOrIgnore(rows, batch[0].0, batch[0].1), batch[1..])
  }

  /** The number of rows `InsertAllOrIgnore` adds: the keys of `batch` new to `rows`. */
  function NewKeys(rows: Rows, batch: seq<(string, Row)>): (n: nat)
    ensures n <= |batch|
    decreases |batch|
  {
    if batch == [] then 0
    else (if batch[0].0 in rows then 0 else 1)
         + NewKeys(InsertOrIgnore(rows, batch[0].0, batch[0].1), batch[1..])
  }

  /** The keys of a batch, as a set. */
  function BatchKeys(batch: seq<(string, Row)>): (ks: set<string>)
    ensures forall i | 0 <= i < |batch| :: batch[i].0 in ks
    ensures forall k | k in ks :: exists i | 0 <= i < |batch| :: batch[i].0 == k
    decreases |batch|
  {
    if batch == [] then {} else {batch[0].0} + BatchKeys(batch[1..])
  }

  /** After the batch, the table holds its old keys and the batch's keys, and no other. */
  lemma {:induction false} InsertAllKeys(rows: Rows, batch: seq<(string, Row)>)
    ensures InsertAllOrIgnore(rows, batch).Keys == rows.Keys + BatchKeys(batch)
    decreases |batch|
  {
    if batch != [] {
      InsertAllKeys(InsertOrIgnore(rows, batch[0].0, batch[0].1), batch[1..]);
    }
  }

  /** The table grows by exactly `NewKeys` rows. */
  lemma {:induction false} InsertAllCount(rows: Rows, batch: seq<(string, Row)>)
    ensures |InsertAllOrIgnore(rows, batch).Keys| == |rows.Keys| + NewKeys(rows, batch)
    decreases |batch|
  {
    if batch != [] {
      var next := InsertOrIgnore(rows, batch[0].0, batch[0].1);
      InsertAllCount(next, batch[1..]);
      if batch[0].0 !in rows {
        assert next.Keys == rows.Keys + {batch[0].0};
      }
    }
  }

  /** Binding a Python value to a TEXT column: integers are stored as their decimal text. */
  function TextColumn(j: Json): Outcome<Option<string>>
  {
    match j
    case JNull => Ok(None)
    case JInt(i) => Ok(Some(IntToString(i)))
    case JStr(s) => Ok(Some(s))
    case _ => Raise(BindingError)
  }

  /** An integer literal SQLite converts to INTEGER under INTEGER affinity: an optional `-` and digits. */
  predicate IsIntLiteral(s: string)
  {
    (|s| > 0 && AllDigits(s)) || (|s| > 1 && s[0] == '-' && AllDigits(s[1..]))
  }

  function IntLiteralValue(s: string): int
    requires IsIntLiteral(s)
  {
    if s[0] == '-' then 0 - NatOf(s[1..]) else NatOf(s)
  }

  /** Binding a Python value to an INTEGER column. */
  function IntColumn(j: Json): Outcome<SqlVal>
  {
    match j
    case JNull => Ok(Null)
    case JInt(i) => Ok(Int(i))
    case JStr(s) => Ok(if IsIntLiteral(s) then Int(IntLiteralValue(s)) else Text(s))
    case _ => Raise(BindingError)
  }
}
