/** Building a targeted proposal from an uploaded list of (precodice, code)
    pairs: the column check, the row parsing, and the match of each row
    against the joined item data. */
module CsvProposal {
  import opened Common
  import opened Domain
  import opened ImportValidation
  import opened Proposals

  /** One parsed line of the uploaded file. */
  datatype CsvRow = CsvRow(precodice: string, code: string)

  const PrecodiceAliases: seq<string> := ["precodice"]
  const CodeAliases: seq<string> := ["code", "codice", "codice articolo"]

  /** A header as this page compares it: lower-cased, then trimmed. */
  function NormHeader(h: string): string {
    Trim(Lower(h))
  }

  /** The normalised headers of the first row. */
  function CsvHeaders(sheet: seq<SheetRow>): (h: seq<string>)
    ensures |sheet| > 0 ==> |h| == |sheet[0]| && forall i :: 0 <= i < |h| ==> h[i] == NormHeader(sheet[0][i].0)
  {
    if |sheet| == 0 then [] else seq(|sheet[0]|, i requires 0 <= i < |sheet[0]| => NormHeader(sheet[0][i].0))
  }

  // ---------------------------------------------------------------------
  // findKeyByAliases

  /** `Object.keys(row)` paired with their normalised forms. */
  function RowKeys(row: SheetRow): (keys: seq<(string, string)>)
    ensures |keys| == |row|
    ensures forall j :: 0 <= j < |row| ==> keys[j] == (row[j].0, NormHeader(row[j].0))
  {
    seq(|row|, j requires 0 <= j < |row| => (row[j].0, NormHeader(row[j].0)))
  }

  /** `rowKeys.find(k => k.lower === alias)`: the first key whose normal form is `alias`. */
  function FirstColumn(keys: seq<(string, string)>, alias: string): (r: Option<nat>)
    ensures r.Some? ==> r.value < |keys| && keys[r.value].1 == alias &&
                        forall k :: 0 <= k < r.value ==> keys[k].1 != alias
    ensures r.None? ==> forall j :: 0 <= j < |keys| ==> keys[j].1 != alias
  {
    if |keys| == 0 then None
    else if keys[0].1 == alias then Some(0)
    else match FirstColumn(keys[1..], alias)
      case None => None
      case Some(j) => Some(j + 1)
  }

  /** The original key of the first alias, in alias order, that some column carries. */
  function KeyForAliases(keys: seq<(string, string)>, aliases: seq<string>): (r: Option<string>)
    ensures r.Some? ==> exists i :: 0 <= i < |aliases| && FirstColumn(keys, aliases[i]).Some? &&
                          keys[FirstColumn(keys, aliases[i]).value].0 == r.value &&
                          forall k :: 0 <= k < i ==> FirstColumn(keys, aliases[k]).None?
    ensures r.None? <==> forall i :: 0 <= i < |aliases| ==> FirstColumn(keys, aliases[i]).None?
  {
    if |aliases| == 0 then None
    else
      var here := FirstColumn(keys, aliases[0]);
      if here.Some? then Some(keys[here.value].0)
      else
        var rest := KeyForAliases(keys, aliases[1..]);
        assert forall i :: 1 <= i < |aliases| ==> aliases[i] == aliases[1..][i - 1];
        rest
  }

  /** findKeyByAliases: the loop over the aliases, returning at the first one found. */
  method FindKeyByAliases(row: SheetRow, aliases: seq<string>) returns (key: Option<string>)
    ensures key == KeyForAliases(RowKeys(row), aliases)
  {
    var rowKeys := RowKeys(row);
    var i := 0;
    while i < |aliases|
      invariant 0 <= i <= |aliases|
      invariant KeyForAliases(rowKeys, aliases) == KeyForAliases(rowKeys, aliases[i..])
    {
      var found := FirstColumn(rowKeys, aliases[i]);
      if found.Some? {
        return Some(rowKeys[found.value].0);
      }
      assert aliases[i..][1..] == aliases[i + 1..];
      i := i + 1;
    }
    key := None;
  }

  // ---------------------------------------------------------------------
  // Row parsing

  /** `row[key]`: the cell of the column named exactly `key`. */
  function ValueAt(row: SheetRow, key: string): Cell {
    if |row| == 0 then Undefined
    else if row[0].0 == key then row[0].1
    else ValueAt(row[1..], key)
  }

  /** The trimmed text of the column found through `aliases`, or "" when there is none. */
  function AliasText(row: SheetRow, aliases: seq<string>): string {
    match KeyForAliases(RowKeys(row), aliases)
    case None => ""
    case Some(k) => Trim(Str(ValueAt(row, k)))
  }

  function ParseRow(row: SheetRow): CsvRow {
    CsvRow(AliasText(row, PrecodiceAliases), AliasText(row, CodeAliases))
  }

  predicate NotEmptyRow(r: CsvRow) {
    r.code != "" || r.precodice != ""
  }

  /** `json.map(parse)`: every sheet row parsed, in file order. */
  function ParsedRows(sheet: seq<SheetRow>): (all: seq<CsvRow>)
    ensures |all| == |sheet| && forall i :: 0 <= i < |sheet| ==> all[i] == ParseRow(sheet[i])
  {
    seq(|sheet|, i requires 0 <= i < |sheet| => ParseRow(sheet[i]))
  }

  /** The parsed rows: one per sheet row, in file order, dropping only rows whose code and
      precodice are both empty. */
  function ParseRows(sheet: seq<SheetRow>): (r: seq<CsvRow>)
    ensures |r| <= |sheet|
    ensures forall i :: 0 <= i < |r| ==> NotEmptyRow(r[i])
    ensures forall i :: 0 <= i < |r| ==> exists j :: 0 <= j < |sheet| && r[i] == ParseRow(sheet[j])
    ensures forall i :: 0 <= i < |sheet| && NotEmptyRow(ParseRow(sheet[i])) ==> ParseRow(sheet[i]) in r
    ensures IsSubsequence(r, ParsedRows(sheet))
  {
    var all := ParsedRows(sheet);
    FilterIsSubsequence(all, NotEmptyRow);
    Filter(all, NotEmptyRow)
  }

  /** A null cell stringifies to "null", so a row whose code cell is null is kept with code "null". */
  lemma NullCodeKept(row: SheetRow, k: string)
    requires KeyForAliases(RowKeys(row), CodeAliases) == Some(k) && ValueAt(row, k) == Null
    ensures ParseRow(row).code == "null" && NotEmptyRow(ParseRow(row))
  {
    TrimNull();
  }

  lemma TrimNull()
    ensures Trim("null") == "null"
  {
    var s := "null";
    assert s[0] == 'n' && s[|s| - 1] == 'l';
    TrimKeepsSolid(s);
  }

  /** A text that starts and ends with a non-space is its own trim. */
  lemma TrimKeepsSolid(s: string)
    requires |s| > 0 && !IsSpace(s[0]) && !IsSpace(s[|s| - 1])
    ensures Trim(s) == s
  {
    assert TrimStart(s) == s;
    assert TrimEnd(s) == s;
  }

  // ---------------------------------------------------------------------
  // Matching

  function ItemKey(d: FullItemData): CodeKey {
    var p := match d.item.precodice
      case None => ""
      case Some(s) => Trim(s);
    CodeKey(p, Trim(d.item.code))
  }

  function RowKey(r: CsvRow): CodeKey {
    CodeKey(r.precodice, r.code)
  }

  /** The map a sequence of `set(key, value)` calls builds: later pairs overwrite earlier ones. */
  function MapOf<K, V>(pairs: seq<(K, V)>): map<K, V>
    decreases |pairs|
  {
    if |pairs| == 0 then map[]
    else MapOf(pairs[..|pairs| - 1])[pairs[|pairs| - 1].0 := pairs[|pairs| - 1].1]
  }

  /** A key is in the map iff some pair has it. */
  lemma {:induction false} MapOfHas<K, V>(pairs: seq<(K, V)>, key: K)
    ensures key in MapOf(pairs) <==> exists i :: 0 <= i < |pairs| && pairs[i].0 == key
    decreases |pairs|
  {
    if |pairs| > 0 {
      var n := |pairs| - 1;
      MapOfHas(pairs[..n], key);
      if exists i :: 0 <= i < |pairs| && pairs[i].0 == key {
        var i :| 0 <= i < |pairs| && pairs[i].0 == key;
        if i < n {
          assert pairs[..n][i] == pairs[i];
        }
      }
      if key in MapOf(pairs[..n]) {
        var i :| 0 <= i < n && pairs[..n][i].0 == key;
        assert pairs[i] == pairs[..n][i];
      }
    }
  }

  /** A key maps to the value of the last pair that has it. */
  lemma {:induction false} MapOfLastWins<K, V>(pairs: seq<(K, V)>, i: nat)
    requires i < |pairs|
    requires forall j :: i < j < |pairs| ==> pairs[j].0 != pairs[i].0
    ensures pairs[i].0 in MapOf(pairs) && MapOf(pairs)[pairs[i].0] == pairs[i].1
    decreases |pairs|
  {
    var n := |pairs| - 1;
    if i < n {
      assert pairs[..n][i] == pairs[i];
      assert forall j :: i < j < n ==> pairs[..n][j] == pairs[j];
      MapOfLastWins(pairs[..n], i);
    }
  }

  /** One more `set` call. */
  lemma MapOfSnoc<K, V>(pairs: seq<(K, V)>, i: nat)
    requires i < |pairs|
    ensures MapOf(pairs[..i + 1]) == MapOf(pairs[..i])[pairs[i].0 := pairs[i].1]
  {
    assert pairs[..i + 1][..i] == pairs[..i];
  }

  function Keyed(items: seq<FullItemData>): (pairs: seq<(CodeKey, FullItemData)>)
    ensures |pairs| == |items| && forall i :: 0 <= i < |items| ==> pairs[i] == (ItemKey(items[i]), items[i])
  {
    seq(|items|, i requires 0 <= i < |items| => (ItemKey(items[i]), items[i]))
  }

  /** The lookup map: each item stored under its key, later items overwriting earlier ones. */
  function ItemIndex(items: seq<FullItemData>): map<CodeKey, FullItemData> {
    MapOf(Keyed(items))
  }

  /** A key is in the map iff some item has it. */
  lemma ItemIndexHas(items: seq<FullItemData>, key: CodeKey)
    ensures key in ItemIndex(items) <==> exists i :: 0 <= i < |items| && ItemKey(items[i]) == key
  {
    MapOfHas(Keyed(items), key);
  }

  /** A key maps to the last item that has it. */
  lemma ItemIndexLastWins(items: seq<FullItemData>, i: nat)
    requires i < |items|
    requires forall j :: i < j < |items| ==> ItemKey(items[j]) != ItemKey(items[i])
    ensures ItemKey(items[i]) in ItemIndex(items) && ItemIndex(items)[ItemKey(items[i])] == items[i]
  {
    MapOfLastWins(Keyed(items), i);
  }

  /** The `dataMap.set` loop. */
  method BuildIndex(items: seq<FullItemData>) returns (index: map<CodeKey, FullItemData>)
    ensures index == ItemIndex(items)
  {
    ghost var pairs := Keyed(items);
    index := map[];
    var i := 0;
    while i < |items|
      invariant 0 <= i <= |items|
      invariant index == MapOf(pairs[..i])
    {
      MapOfSnoc(pairs, i);
      index := index[ItemKey(items[i]) := items[i]];
      i := i + 1;
    }
    assert pairs[..|items|] == pairs;
  }

  function InIndex(index: map<CodeKey, FullItemData>): CsvRow -> bool {
    (r: CsvRow) => RowKey(r) in index
  }

  function NotInIndex(index: map<CodeKey, FullItemData>): CsvRow -> bool {
    (r: CsvRow) => RowKey(r) !in index
  }

  /** The items found for the rows, in row order (one per matching row, repeats included). */
  function Found(rows: seq<CsvRow>, index: map<CodeKey, FullItemData>): seq<FullItemData>
    decreases |rows|
  {
    if |rows| == 0 then []
    else
      var r := rows[|rows| - 1];
      Found(rows[..|rows| - 1], index) + (if RowKey(r) in index then [index[RowKey(r)]] else [])
  }

  /** The rows with no item, in row order. */
  function NotFound(rows: seq<CsvRow>, index: map<CodeKey, FullItemData>): seq<CsvRow>
    decreases |rows|
  {
    if |rows| == 0 then []
    else
      var r := rows[|rows| - 1];
      NotFound(rows[..|rows| - 1], index) + (if RowKey(r) in index then [] else [r])
  }

  /** The `parsedCsv.forEach` pushing into found and notFound. */
  method MatchRows(rows: seq<CsvRow>, index: map<CodeKey, FullItemData>) returns (found: seq<FullItemData>, notFound: seq<CsvRow>)
    ensures found == Found(rows, index) && notFound == NotFound(rows, index)
  {
    found, notFound := [], [];
    var i := 0;
    while i < |rows|
      invariant 0 <= i <= |rows|
      invariant found == Found(rows[..i], index) && notFound == NotFound(rows[..i], index)
    {
      var key := RowKey(rows[i]);
      if key in index {
        found := found + [index[key]];
      } else {
        notFound := notFound + [rows[i]];
      }
      assert rows[..i + 1][..i] == rows[..i];
      i := i + 1;
    }
    assert rows[..|rows|] == rows;
  }

  lemma FilterSnoc<T>(s: seq<T>, x: T, p: T -> bool)
    ensures Filter(s + [x], p) == Filter(s, p) + (if p(x) then [x] else [])
  {
    FilterAppend(s, [x], p);
    assert Filter([x], p) == (if p(x) then [x] else []) + Filter([x][1..], p);
  }

  /** The unmatched rows are exactly the rows whose key no item has, in file order. */
  lemma {:induction false} NotFoundIsFilter(rows: seq<CsvRow>, index: map<CodeKey, FullItemData>)
    ensures NotFound(rows, index) == Filter(rows, NotInIndex(index))
    decreases |rows|
  {
    if |rows| > 0 {
      var n := |rows| - 1;
      NotFoundIsFilter(rows[..n], index);
      assert rows == rows[..n] + [rows[n]];
      FilterSnoc(rows[..n], rows[n], NotInIndex(index));
    }
  }

  /** There is one found item per matching row, in file order: the item stored under its key. */
  lemma {:induction false} FoundIsMatched(rows: seq<CsvRow>, index: map<CodeKey, FullItemData>)
    ensures var matched := Filter(rows, InIndex(index));
      |Found(rows, index)| == |matched| &&
      forall i :: 0 <= i < |matched| ==> RowKey(matched[i]) in index && Found(rows, index)[i] == index[RowKey(matched[i])]
    decreases |rows|
  {
    if |rows| > 0 {
      var n := |rows| - 1;
      FoundIsMatched(rows[..n], index);
      assert rows == rows[..n] + [rows[n]];
      FilterSnoc(rows[..n], rows[n], InIndex(index));
      var before := Filter(rows[..n], InIndex(index));
      var matched := Filter(rows, InIndex(index));
      var found, found0 := Found(rows, index), Found(rows[..n], index);
      if RowKey(rows[n]) in index {
        assert matched == before + [rows[n]];
        assert found == found0 + [index[RowKey(rows[n])]];
        forall i | 0 <= i < |matched|
          ensures RowKey(matched[i]) in index && found[i] == index[RowKey(matched[i])]
        {
          if i < |before| {
            assert matched[i] == before[i] && found[i] == found0[i];
          }
        }
      } else {
        assert matched == before;
        assert found == found0;
      }
    }
  }

  /** Every row lands in exactly one of the two lists. */
  lemma {:induction false} MatchPartition(rows: seq<CsvRow>, index: map<CodeKey, FullItemData>)
    ensures |Found(rows, index)| + |NotFound(rows, index)| == |rows|
    decreases |rows|
  {
    if |rows| > 0 {
      MatchPartition(rows[..|rows| - 1], index);
    }
  }

  /** A row is reported as not found iff no item carries its key. */
  lemma NotFoundIffNoItem(items: seq<FullItemData>, rows: seq<CsvRow>, r: CsvRow)
    requires r in rows
    ensures r in NotFound(rows, ItemIndex(items)) <==> forall i :: 0 <= i < |items| ==> ItemKey(items[i]) != RowKey(r)
  {
    var index := ItemIndex(items);
    NotFoundIsFilter(rows, index);
    ItemIndexHas(items, RowKey(r));
    var k :| 0 <= k < |rows| && rows[k] == r;
    if RowKey(r) !in index {
      assert NotInIndex(index)(rows[k]);
    }
  }

  // ---------------------------------------------------------------------
  // The whole upload

  datatype MissingColumn = PrecodiceColumn | CodeColumn

  /** How processing a file ends. */
  datatype CsvOutcome =
    | EmptyFile
    | ColumnNotFound(column: MissingColumn, headers: seq<string>)
    | NoBaseData(rows: seq<CsvRow>)
    | Matched(rows: seq<CsvRow>, found: seq<FullItemData>, notFound: seq<CsvRow>)

  function HasAlias(headers: seq<string>, aliases: seq<string>): bool {
    exists i :: 0 <= i < |aliases| && aliases[i] in headers
  }

  /** processFile on an already-read sheet, given the joined item data. */
  function Process(sheet: seq<SheetRow>, items: seq<FullItemData>): (r: CsvOutcome)
    ensures |sheet| == 0 <==> r == EmptyFile
    ensures r.ColumnNotFound? ==> r.headers == CsvHeaders(sheet)
    ensures r.ColumnNotFound? <==> |sheet| > 0 && !(HasAlias(CsvHeaders(sheet), PrecodiceAliases) && HasAlias(CsvHeaders(sheet), CodeAliases))
    ensures r.ColumnNotFound? ==> (r.column == PrecodiceColumn <==> !HasAlias(CsvHeaders(sheet), PrecodiceAliases))
    ensures r.NoBaseData? ==> |items| == 0 && r.rows == ParseRows(sheet)
    ensures r.Matched? ==> (|items| > 0 && r.rows == ParseRows(sheet) &&
      r.found == Found(r.rows, ItemIndex(items)) && r.notFound == NotFound(r.rows, ItemIndex(items)))
  {
    if |sheet| == 0 then EmptyFile
    else
      var headers := CsvHeaders(sheet);
      if !HasAlias(headers, PrecodiceAliases) then ColumnNotFound(PrecodiceColumn, headers)
      else if !HasAlias(headers, CodeAliases) then ColumnNotFound(CodeColumn, headers)
      else
        var rows := ParseRows(sheet);
        if |items| == 0 then NoBaseData(rows)
        else
          var index := ItemIndex(items);
          Matched(rows, Found(rows, index), NotFound(rows, index))
  }

  /** processFile: the checks in order, then the index and the matching loops. */
  method ProcessFile(sheet: seq<SheetRow>, items: seq<FullItemData>) returns (outcome: CsvOutcome)
    ensures outcome == Process(sheet, items)
  {
    if |sheet| == 0 {
      return EmptyFile;
    }
    var headers := CsvHeaders(sheet);
    var hasPrecodice := HasAlias(headers, PrecodiceAliases);
    var hasCode := HasAlias(headers, CodeAliases);
    if !hasPrecodice || !hasCode {
      if !hasPrecodice {
        return ColumnNotFound(PrecodiceColumn, headers);
      }
      return ColumnNotFound(CodeColumn, headers);
    }
    var rows := ParseRows(sheet);
    if |items| == 0 {
      return NoBaseData(rows);
    }
    var index := BuildIndex(items);
    var found, notFound := MatchRows(rows, index);
    outcome := Matched(rows, found, notFound);
  }

  const EmptyFileText := "Il file è vuoto o non contiene dati validi."
  const NoPrecodiceText := "Colonna 'PRECODICE' non trovata."
  const NoCodeText := "Colonna 'CODICE' (o 'Codice Articolo') non trovata."
  const FoundColumnsText := " Colonne trovate nel file: "
  const NoBaseDataText := "I dati di base non sono stati caricati. Importa prima un file di vendite dalla pagina 'Import Dati'."

  /** The error shown after processing (`null` when the file was matched). */
  function ErrorText(o: CsvOutcome): (t: Option<string>)
    ensures o.Matched? <==> t.None?
  {
    match o
    case EmptyFile => Some(EmptyFileText)
    case ColumnNotFound(PrecodiceColumn, headers) => Some(NoPrecodiceText + FoundColumnsText + Join(headers, ", "))
    case ColumnNotFound(CodeColumn, headers) => Some(NoCodeText + FoundColumnsText + Join(headers, ", "))
    case NoBaseData(_) => Some(NoBaseDataText)
    case Matched(_, _, _) => None
  }

  /** handleGenerateProposal: the found items become the draft, but only if there are any. */
  function GenerateFromFound(draft: seq<ProposalLine>, found: seq<FullItemData>): (r: seq<ProposalLine>)
    ensures |found| == 0 ==> r == draft
    ensures |found| > 0 ==> |r| == |found| && forall i :: 0 <= i < |found| ==> r[i].itemData == found[i]
  {
    if |found| > 0 then GenerateLines(found) else draft
  }
}
