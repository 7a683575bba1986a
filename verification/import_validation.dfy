/** Validation of an uploaded sales sheet before import: the required-header
    check, the per-row checks (missing code, non-numeric and negative
    figures), duplicate detection on the (precodice, code) key, the cap on
    displayed messages and the three-way outcome. The sheet arrives already
    read: one list of (column header, cell) pairs per data row. */
module ImportValidation {
  import opened Common
  import opened Domain

  /** A cell as the sheet reader hands it over; `Undefined` is a column the row does not have. */
  datatype Cell = Undefined | Null | Num(n: int) | Text(s: string)

  type SheetRow = seq<(string, Cell)>

  /** JavaScript falsiness of a cell. */
  predicate Falsy(c: Cell) {
    c.Undefined? || c.Null? || c == Num(0) || c == Text("")
  }

  /** `String(c)`. */
  function Str(c: Cell): string {
    match c
    case Undefined => "undefined"
    case Null => "null"
    case Num(n) => IntToString(n)
    case Text(s) => s
  }

  // ---------------------------------------------------------------------
  // Number()

  /** `Number(c)`, with `None` for NaN: null and blank text are 0, undefined is NaN. */
  function JsNumber(c: Cell): (r: Option<int>)
    ensures c.Null? || c.Num? ==> r.Some?
    ensures c.Undefined? ==> r.None?
    ensures c.Num? ==> r == Some(c.n)
    ensures c.Null? ==> r == Some(0)
    ensures c.Text? && Trim(c.s) == "" ==> r == Some(0)
  {
    match c
    case Undefined => None
    case Null => Some(0)
    case Num(n) => Some(n)
    case Text(s) => var t := Trim(s); if t == "" then Some(0) else ParseInteger(t)
  }

  // ---------------------------------------------------------------------
  // Excel dates

  const ExcelEpochOffset := 25569

  /** The day number (days since 1970-01-01) of a whole-day spreadsheet date serial. */
  function ExcelSerialToDay(serial: int): (d: int)
    ensures d + ExcelEpochOffset == serial
  {
    serial - ExcelEpochOffset
  }

  /** The date the application records for a whole-day serial on a machine whose
      clock is `offsetMinutes` east of UTC: the serial's UTC midnight is read back
      as a local calendar date, that date's local midnight is built, and its UTC
      calendar date is what gets printed. */
  function ExcelDateAsWritten(serial: int, offsetMinutes: int): int
    requires -1440 < offsetMinutes < 1440
  {
    var utcDay := serial - ExcelEpochOffset;
    var localDay := (utcDay * 1440 + offsetMinutes) / 1440;
    (localDay * 1440 - offsetMinutes) / 1440
  }

  /** Away from UTC the recorded date is one day before the sheet's date. */
  lemma ExcelDateShiftsOutsideUtc(serial: int, offsetMinutes: int)
    requires -1440 < offsetMinutes < 1440
    ensures offsetMinutes == 0 ==> ExcelDateAsWritten(serial, offsetMinutes) == ExcelSerialToDay(serial)
    ensures offsetMinutes != 0 ==> ExcelDateAsWritten(serial, offsetMinutes) == ExcelSerialToDay(serial) - 1
  {
    var d := serial - ExcelEpochOffset;
    if offsetMinutes > 0 {
      assert (d * 1440 + offsetMinutes) / 1440 == d;
      assert (d * 1440 - offsetMinutes) == (d - 1) * 1440 + (1440 - offsetMinutes);
      assert (d * 1440 - offsetMinutes) / 1440 == d - 1;
    } else if offsetMinutes < 0 {
      assert (d * 1440 + offsetMinutes) == (d - 1) * 1440 + (1440 + offsetMinutes);
      assert (d * 1440 + offsetMinutes) / 1440 == d - 1;
      assert ((d - 1) * 1440 - offsetMinutes) / 1440 == d - 1;
    } else {
      assert (d * 1440) / 1440 == d;
    }
  }

  /** 1 January 2024 (serial 45292, day 19723) is recorded as 31 December 2023 at UTC+1. */
  lemma NewYearRecordedInItaly()
    ensures ExcelSerialToDay(45292) == 19723
    ensures ExcelDateAsWritten(45292, 60) == 19722
  {
    ExcelDateShiftsOutsideUtc(45292, 60);
  }

  /** `formatDate(excelDateToJSDate(c))`: only a numeric cell is a date. */
  function ExcelDate(c: Cell): Option<int> {
    if c.Num? then Some(ExcelSerialToDay(c.n)) else None
  }

  // ---------------------------------------------------------------------
  // Headers

  const RequiredHeaders: seq<string> :=
    ["codice", "quantita venduta", "valore venduto", "data ultima vendita", "data ultimo acquisto"]

  /** The field a lower-cased header maps to, if it is one of the known headers. */
  function FieldOf(lowerHeader: string): Option<string> {
    if lowerHeader == "codice" then Some("code")
    else if lowerHeader == "quantita venduta" then Some("qty_sold_365")
    else if lowerHeader == "valore venduto" then Some("value_sold_365")
    else if lowerHeader == "data ultima vendita" then Some("last_sale_date")
    else if lowerHeader == "data ultimo acquisto" then Some("last_purchase_date")
    else if lowerHeader == "precodice" then Some("precodice")
    else if lowerHeader == "descrizione" then Some("description")
    else if lowerHeader == "ubicazione" then Some("ubicazione")
    else None
  }

  /** The lower-cased column headers of the first row; none for an empty sheet. */
  function Headers(sheet: seq<SheetRow>): (h: seq<string>)
    ensures |sheet| == 0 ==> h == []
    ensures |sheet| > 0 ==> |h| == |sheet[0]| && forall i :: 0 <= i < |h| ==> h[i] == Lower(sheet[0][i].0)
  {
    if |sheet| == 0 then [] else seq(|sheet[0]|, i requires 0 <= i < |sheet[0]| => Lower(sheet[0][i].0))
  }

  function IsMissingFrom(headers: seq<string>): string -> bool {
    (h: string) => h !in headers
  }

  /** The required headers absent from `headers`, in their fixed order. */
  function MissingHeaders(headers: seq<string>): (m: seq<string>)
    ensures forall i :: 0 <= i < |m| ==> m[i] in RequiredHeaders && m[i] !in headers
    ensures forall i :: 0 <= i < |RequiredHeaders| && RequiredHeaders[i] !in headers ==> RequiredHeaders[i] in m
  {
    var m := Filter(RequiredHeaders, IsMissingFrom(headers));
    assert forall i :: 0 <= i < |m| ==> IsMissingFrom(headers)(m[i]);
    assert forall i :: 0 <= i < |RequiredHeaders| && RequiredHeaders[i] !in headers ==> IsMissingFrom(headers)(RequiredHeaders[i]);
    m
  }

  // ---------------------------------------------------------------------
  // Mapping a row onto fields

  /** The cell a row gives a field: the last column whose header maps to it (later columns overwrite earlier ones). */
  function Field(row: SheetRow, field: string): Option<Cell> {
    if |row| == 0 then None
    else if FieldOf(Lower(row[|row| - 1].0)) == Some(field) then Some(row[|row| - 1].1)
    else Field(row[..|row| - 1], field)
  }

  function Get(row: SheetRow, field: string): Cell {
    match Field(row, field)
    case None => Undefined
    case Some(c) => c
  }

  function Lookup(m: map<string, Cell>, field: string): Cell {
    if field in m then m[field] else Undefined
  }

  /** The mapped row: each column's cell stored under its header's field, in column order. */
  function MappedRow(row: SheetRow): map<string, Cell>
    decreases |row|
  {
    if |row| == 0 then map[]
    else
      var m := MappedRow(row[..|row| - 1]);
      match FieldOf(Lower(row[|row| - 1].0))
      case None => m
      case Some(f) => m[f := row[|row| - 1].1]
  }

  /** The mapped row gives each field the cell of the last column whose header maps to it,
      and has no other fields. */
  lemma {:induction false} MappedRowLastColumnWins(row: SheetRow, field: string)
    ensures field in MappedRow(row) <==> Field(row, field).Some?
    ensures Lookup(MappedRow(row), field) == Get(row, field)
    decreases |row|
  {
    if |row| > 0 {
      MappedRowLastColumnWins(row[..|row| - 1], field);
    }
  }

  /** The `for (const key in row)` loop building the mapped row. */
  method MapRow(row: SheetRow) returns (mapped: map<string, Cell>)
    ensures mapped == MappedRow(row)
  {
    mapped := map[];
    var i := 0;
    while i < |row|
      invariant 0 <= i <= |row|
      invariant mapped == MappedRow(row[..i])
    {
      var lowerKey := Lower(row[i].0);
      var target := FieldOf(lowerKey);
      if target.Some? {
        mapped := mapped[target.value := row[i].1];
      }
      assert row[..i + 1][..i] == row[..i];
      i := i + 1;
    }
    assert row[..|row|] == row;
  }

  // ---------------------------------------------------------------------
  // One row

  /** An item key as the upload pages build it: trimmed precodice (or "") and trimmed code. */
  datatype CodeKey = CodeKey(precodice: string, code: string)

  datatype Figure = QtySold | ValueSold

  /** A message the page displays; `Text` renders it. */
  datatype Message =
    | MissingHeadersMsg(missing: seq<string>)
    | MissingCodeMsg(rowNumber: int)
    | NotANumber(rowNumber: int, code: string, figure: Figure, raw: Cell)
    | NegativeFigure(rowNumber: int, code: string, figure: Figure, raw: Cell)
    | DuplicateKeyMsg(key: CodeKey, rows: seq<int>)
    | MoreMessages(count: int, noun: string)

  function FigureLabel(f: Figure): string {
    match f
    case QtySold => "'QUANTITA VENDUTA'"
    case ValueSold => "'VALORE VENDUTO'"
  }

  function JoinNumbers(rows: seq<int>): string {
    if |rows| == 0 then ""
    else if |rows| == 1 then IntToString(rows[0])
    else IntToString(rows[0]) + ", " + JoinNumbers(rows[1..])
  }

  /** The text the page shows for a message. */
  function Render(m: Message): (t: string)
    ensures m.MissingHeadersMsg? ==> t == "Intestazioni di colonna mancanti: " + Join(m.missing, ", ")
  {
    match m
    case MissingHeadersMsg(missing) => "Intestazioni di colonna mancanti: " + Join(missing, ", ")
    case MissingCodeMsg(n) => "Riga " + IntToString(n) + ": il 'CODICE' è obbligatorio."
    case NotANumber(n, code, f, raw) =>
      "Riga " + IntToString(n) + " (Codice: " + code + "): " + FigureLabel(f) + " non è un numero. Valore: " + Str(raw)
    case NegativeFigure(n, code, f, raw) =>
      "Riga " + IntToString(n) + " (Codice: " + code + "): " + FigureLabel(f) + " non è un numero valido (>= 0). Valore: " + Str(raw)
    case DuplicateKeyMsg(key, rows) =>
      var identifier :=
        if key.precodice != "" then "la combinazione PRECODICE '" + key.precodice + "' e CODICE '" + key.code + "'"
        else "il 'CODICE' '" + key.code + "'";
      identifier + " è duplicata all'interno del file. Si trova nelle righe: " + JoinNumbers(rows) + "."
    case MoreMessages(count, noun) => "... e altri " + IntToString(count) + " " + noun + "."
  }

  datatype NumberCheck = NumberCheck(value: int, errors: seq<Message>, warnings: seq<Message>)

  /** A figure that is not a number is a blocking error and counts as 0; a negative one is only a warning. */
  function CheckNumber(cell: Cell, rowNumber: int, code: string, figure: Figure): (r: NumberCheck)
    ensures JsNumber(cell).None? ==> r.value == 0 && r.errors == [NotANumber(rowNumber, code, figure, cell)] && r.warnings == []
    ensures JsNumber(cell).Some? ==> r.value == JsNumber(cell).value && r.errors == []
    ensures r.warnings == (if JsNumber(cell).Some? && JsNumber(cell).value < 0 then [NegativeFigure(rowNumber, code, figure, cell)] else [])
  {
    match JsNumber(cell)
    case None => NumberCheck(0, [NotANumber(rowNumber, code, figure, cell)], [])
    case Some(n) => NumberCheck(n, [], if n < 0 then [NegativeFigure(rowNumber, code, figure, cell)] else [])
  }

  datatype RowCheck =
    | MissingCode
    | Checked(key: CodeKey, errors: seq<Message>, warnings: seq<Message>, row: ImportRow)

  function TrimmedOrNone(c: Cell): Option<string> {
    if Falsy(c) then None else Some(Trim(Str(c)))
  }

  /** The checks on one data row; `index` is its position among the data rows, so it is
      reported as spreadsheet row `index + 2` (after the header row). */
  function CheckRow(fields: map<string, Cell>, index: nat): RowCheck
  {
    var rowIndex := index + 2;
    var code := Lookup(fields, "code");
    if Falsy(code) then MissingCode
    else
      var codeStr := Trim(Str(code));
      var precodice := Lookup(fields, "precodice");
      var precodiceStr := if Falsy(precodice) then "" else Trim(Str(precodice));
      var qty := CheckNumber(Lookup(fields, "qty_sold_365"), rowIndex, codeStr, QtySold);
      var value := CheckNumber(Lookup(fields, "value_sold_365"), rowIndex, codeStr, ValueSold);
      Checked(
        CodeKey(precodiceStr, codeStr),
        qty.errors + value.errors,
        qty.warnings + value.warnings,
        ImportRow(
          code := codeStr,
          precodice := if precodiceStr == "" then None else Some(precodiceStr),
          description := TrimmedOrNone(Lookup(fields, "description")),
          qtySold365 := qty.value,
          valueSold365 := value.value,
          lastSaleDate := ExcelDate(Lookup(fields, "last_sale_date")),
          lastPurchaseDate := ExcelDate(Lookup(fields, "last_purchase_date")),
          ubicazione := TrimmedOrNone(Lookup(fields, "ubicazione"))))
  }

  /** The checked form of a row with a code, spelled out field by field. */
  lemma CheckRowShape(fields: map<string, Cell>, index: nat)
    requires !Falsy(Lookup(fields, "code"))
    ensures
      var codeStr := Trim(Str(Lookup(fields, "code")));
      var precodiceStr := if Falsy(Lookup(fields, "precodice")) then "" else Trim(Str(Lookup(fields, "precodice")));
      var q := CheckNumber(Lookup(fields, "qty_sold_365"), index + 2, codeStr, QtySold);
      var v := CheckNumber(Lookup(fields, "value_sold_365"), index + 2, codeStr, ValueSold);
      CheckRow(fields, index) == Checked(CodeKey(precodiceStr, codeStr), q.errors + v.errors, q.warnings + v.warnings,
        ImportRow(
          code := codeStr,
          precodice := if precodiceStr == "" then None else Some(precodiceStr),
          description := TrimmedOrNone(Lookup(fields, "description")),
          qtySold365 := q.value,
          valueSold365 := v.value,
          lastSaleDate := ExcelDate(Lookup(fields, "last_sale_date")),
          lastPurchaseDate := ExcelDate(Lookup(fields, "last_purchase_date")),
          ubicazione := TrimmedOrNone(Lookup(fields, "ubicazione"))))
  {
  }

  /** What one row's check yields: the key, one blocking error per non-numeric figure,
      figures that are not numbers taken as 0, and a warning iff a figure is negative. */
  lemma CheckRowFacts(fields: map<string, Cell>, index: nat)
    ensures CheckRow(fields, index).MissingCode? <==> Falsy(Lookup(fields, "code"))
    ensures var r := CheckRow(fields, index);
      var qty := JsNumber(Lookup(fields, "qty_sold_365"));
      var value := JsNumber(Lookup(fields, "value_sold_365"));
      r.Checked? ==>
        && r.key == CodeKey(if Falsy(Lookup(fields, "precodice")) then "" else Trim(Str(Lookup(fields, "precodice"))), Trim(Str(Lookup(fields, "code"))))
        && r.row.code == r.key.code
        && (r.row.precodice.Some? <==> r.key.precodice != "")
        && r.errors == (if qty.None? then [NotANumber(index + 2, r.key.code, QtySold, Lookup(fields, "qty_sold_365"))] else [])
                     + (if value.None? then [NotANumber(index + 2, r.key.code, ValueSold, Lookup(fields, "value_sold_365"))] else [])
        && r.row.qtySold365 == (if qty.Some? then qty.value else 0)
        && r.row.valueSold365 == (if value.Some? then value.value else 0)
        && (|r.warnings| > 0 <==> (qty.Some? && qty.value < 0) || (value.Some? && value.value < 0))
  {
  }

  // ---------------------------------------------------------------------
  // Row numbers per key (an insertion-ordered map)

  type Positions = seq<(CodeKey, seq<int>)>

  function KeyIndex(ps: Positions, key: CodeKey): (r: Option<nat>)
    ensures r.Some? ==> r.value < |ps| && ps[r.value].0 == key
    ensures r.None? ==> forall j :: 0 <= j < |ps| ==> ps[j].0 != key
  {
    if |ps| == 0 then None
    else if ps[0].0 == key then Some(0)
    else match KeyIndex(ps[1..], key)
      case None => None
      case Some(k) => Some(k + 1)
  }

  /** `if (!has(key)) set(key, []); get(key).push(rowNumber)`. */
  function AddPosition(ps: Positions, key: CodeKey, rowNumber: int): Positions {
    match KeyIndex(ps, key)
    case None => ps + [(key, [rowNumber])]
    case Some(k) => ps[k := (key, ps[k].1 + [rowNumber])]
  }

  predicate DistinctKeys(ps: Positions) {
    forall i, j :: 0 <= i < j < |ps| ==> ps[i].0 != ps[j].0
  }

  // ---------------------------------------------------------------------
  // The row loop

  datatype Scan = Scan(errors: seq<Message>, warnings: seq<Message>, data: seq<ImportRow>, positions: Positions)

  function StepScan(s: Scan, row: SheetRow, index: nat): Scan {
    match CheckRow(MappedRow(row), index)
    case MissingCode => s.(errors := s.errors + [MissingCodeMsg(index + 2)])
    case Checked(key, es, ws, r) =>
      Scan(s.errors + es, s.warnings + ws, s.data + [r], AddPosition(s.positions, key, index + 2))
  }

  /** The state after the `json.forEach` over the data rows. */
  function ScanRows(sheet: seq<SheetRow>): Scan
    decreases |sheet|
  {
    if |sheet| == 0 then Scan([], [], [], [])
    else StepScan(ScanRows(sheet[..|sheet| - 1]), sheet[|sheet| - 1], |sheet| - 1)
  }

  /** The row loop of the validator. */
  method ScanSheet(sheet: seq<SheetRow>) returns (errors: seq<Message>, warnings: seq<Message>, data: seq<ImportRow>, positions: Positions)
    ensures Scan(errors, warnings, data, positions) == ScanRows(sheet)
  {
    errors, warnings, data, positions := [], [], [], [];
    var index := 0;
    while index < |sheet|
      invariant 0 <= index <= |sheet|
      invariant Scan(errors, warnings, data, positions) == ScanRows(sheet[..index])
    {
      errors, warnings, data, positions := ScanOneRow(sheet[index], index, errors, warnings, data, positions);
      assert sheet[..index + 1][..index] == sheet[..index];
      index := index + 1;
    }
    assert sheet[..|sheet|] == sheet;
  }

  /** Reads one figure of a row: a value that is not a number is reported and taken as 0,
      a negative one is reported as a warning. */
  method CheckFigure(cell: Cell, rowNumber: int, code: string, figure: Figure, errors: seq<Message>, warnings: seq<Message>)
    returns (value: int, errors': seq<Message>, warnings': seq<Message>)
    ensures var c := CheckNumber(cell, rowNumber, code, figure);
      value == c.value && errors' == errors + c.errors && warnings' == warnings + c.warnings
  {
    errors', warnings' := errors, warnings;
    var n := JsNumber(cell);
    if n.None? {
      errors' := errors' + [NotANumber(rowNumber, code, figure, cell)];
      value := 0;
    } else {
      value := n.value;
      if value < 0 {
        warnings' := warnings' + [NegativeFigure(rowNumber, code, figure, cell)];
      }
    }
  }

  /** The body of the row loop: checks one row and appends to the accumulators. */
  method ScanOneRow(row: SheetRow, index: nat, errors: seq<Message>, warnings: seq<Message>, data: seq<ImportRow>, positions: Positions)
    returns (errors': seq<Message>, warnings': seq<Message>, data': seq<ImportRow>, positions': Positions)
    ensures Scan(errors', warnings', data', positions') == StepScan(Scan(errors, warnings, data, positions), row, index)
  {
    errors', warnings', data', positions' := errors, warnings, data, positions;
    var mapped := MapRow(row);
    var code := Lookup(mapped, "code");
    var rowIndex := index + 2;
    if Falsy(code) {
      errors' := errors' + [MissingCodeMsg(rowIndex)];
      assert CheckRow(mapped, index) == MissingCode;
      return;
    }
    var codeStr := Trim(Str(code));
    var precodice := Lookup(mapped, "precodice");
    var precodiceStr := if Falsy(precodice) then "" else Trim(Str(precodice));
    var key := CodeKey(precodiceStr, codeStr);
    var existing := KeyIndex(positions', key);
    if existing.None? {
      positions' := positions' + [(key, [rowIndex])];
    } else {
      positions' := positions'[existing.value := (key, positions'[existing.value].1 + [rowIndex])];
    }

    var qtyCell := Lookup(mapped, "qty_sold_365");
    var valueCell := Lookup(mapped, "value_sold_365");
    var qtyValue, valueValue;
    qtyValue, errors', warnings' := CheckFigure(qtyCell, rowIndex, codeStr, QtySold, errors', warnings');
    valueValue, errors', warnings' := CheckFigure(valueCell, rowIndex, codeStr, ValueSold, errors', warnings');
    var imported := ImportRow(
      code := codeStr,
      precodice := if precodiceStr == "" then None else Some(precodiceStr),
      description := TrimmedOrNone(Lookup(mapped, "description")),
      qtySold365 := qtyValue,
      valueSold365 := valueValue,
      lastSaleDate := ExcelDate(Lookup(mapped, "last_sale_date")),
      lastPurchaseDate := ExcelDate(Lookup(mapped, "last_purchase_date")),
      ubicazione := TrimmedOrNone(Lookup(mapped, "ubicazione")));
    data' := data' + [imported];

    ghost var q := CheckNumber(qtyCell, rowIndex, codeStr, QtySold);
    ghost var v := CheckNumber(valueCell, rowIndex, codeStr, ValueSold);
    assert positions' == AddPosition(positions, key, rowIndex);
    CheckRowShape(mapped, index);
    assert CheckRow(mapped, index) == Checked(key, q.errors + v.errors, q.warnings + v.warnings, imported);
    AppendAssoc(errors, q.errors, v.errors);
    AppendAssoc(warnings, q.warnings, v.warnings);
  }

  lemma AppendAssoc(a: seq<Message>, b: seq<Message>, c: seq<Message>)
    ensures a + (b + c) == (a + b) + c
  {
  }

  // ---------------------------------------------------------------------
  // Duplicates

  /** One message per entry with more than one row, in key order. */
  function DuplicateErrors(ps: Positions): (r: seq<Message>)
    ensures |r| <= |ps|
    decreases |ps|
  {
    if |ps| == 0 then []
    else
      var last := ps[|ps| - 1];
      DuplicateErrors(ps[..|ps| - 1]) + (if |last.1| > 1 then [DuplicateKeyMsg(last.0, last.1)] else [])
  }

  lemma DuplicateErrorsSnoc(ps: Positions, i: nat)
    requires i < |ps|
    ensures DuplicateErrors(ps[..i + 1]) ==
      DuplicateErrors(ps[..i]) + (if |ps[i].1| > 1 then [DuplicateKeyMsg(ps[i].0, ps[i].1)] else [])
  {
    assert ps[..i + 1][..i] == ps[..i];
  }

  /** The `itemPositions.forEach` appending duplicate errors. */
  method AppendDuplicateErrors(ps: Positions, errors: seq<Message>) returns (errors': seq<Message>)
    ensures errors' == errors + DuplicateErrors(ps)
  {
    errors' := errors;
    var i := 0;
    while i < |ps|
      invariant 0 <= i <= |ps|
      invariant errors' == errors + DuplicateErrors(ps[..i])
    {
      if |ps[i].1| > 1 {
        errors' := errors' + [DuplicateKeyMsg(ps[i].0, ps[i].1)];
      }
      DuplicateErrorsSnoc(ps, i);
      i := i + 1;
    }
    assert ps[..|ps|] == ps;
  }

  // ---------------------------------------------------------------------
  // Display cap and outcome

  const DisplayLimit := 10

  /** displayAndSet: the first ten messages, then one summary line if there were more. */
  function Limit(msgs: seq<Message>, noun: string): (r: seq<Message>)
    ensures |msgs| <= DisplayLimit ==> r == msgs
    ensures |msgs| > DisplayLimit ==> |r| == DisplayLimit + 1 && r[..DisplayLimit] == msgs[..DisplayLimit]
    ensures |msgs| > DisplayLimit ==> r[DisplayLimit] == MoreMessages(|msgs| - DisplayLimit, noun)
  {
    if |msgs| > DisplayLimit
    then msgs[..DisplayLimit] + [MoreMessages(|msgs| - DisplayLimit, noun)]
    else msgs
  }

  datatype Status = Failed | ValidatedWithWarnings | Validated

  /** The state the page ends in: status, displayed errors and warnings, rows ready to import. */
  datatype Validation = Validation(status: Status, errors: seq<Message>, warnings: seq<Message>, parsedData: seq<ImportRow>)

  /** The validator's outcome for a sheet. */
  function Validate(sheet: seq<SheetRow>): (r: Validation)
    ensures |MissingHeaders(Headers(sheet))| > 0 ==>
      r == Validation(Failed, [MissingHeadersMsg(MissingHeaders(Headers(sheet)))], [], [])
    ensures r.status == Failed <==>
      |MissingHeaders(Headers(sheet))| > 0 || |ScanRows(sheet).errors + DuplicateErrors(ScanRows(sheet).positions)| > 0
    ensures r.status == Failed ==> r.parsedData == [] && r.warnings == []
    ensures r.status != Failed ==> r.parsedData == ScanRows(sheet).data && r.errors == []
    ensures r.status == ValidatedWithWarnings <==> r.status != Failed && |ScanRows(sheet).warnings| > 0
    ensures |MissingHeaders(Headers(sheet))| == 0 && r.status == Failed ==>
      r.errors == Limit(ScanRows(sheet).errors + DuplicateErrors(ScanRows(sheet).positions), "errori")
    ensures r.status == ValidatedWithWarnings ==> r.warnings == Limit(ScanRows(sheet).warnings, "avvisi")
    ensures r.status == Validated ==> r.warnings == []
  {
    var missing := MissingHeaders(Headers(sheet));
    if |missing| > 0 then Validation(Failed, [MissingHeadersMsg(missing)], [], [])
    else
      var scan := ScanRows(sheet);
      var blocking := scan.errors + DuplicateErrors(scan.positions);
      if |blocking| > 0 then Validation(Failed, Limit(blocking, "errori"), [], [])
      else if |scan.warnings| > 0 then Validation(ValidatedWithWarnings, [], Limit(scan.warnings, "avvisi"), scan.data)
      else Validation(Validated, [], [], scan.data)
  }

  /** parseAndValidateFile, from the already-read rows to the page's final state. */
  method ParseAndValidate(sheet: seq<SheetRow>) returns (result: Validation)
    ensures result == Validate(sheet)
  {
    var headers := Headers(sheet);
    var missing := MissingHeaders(headers);
    if |missing| > 0 {
      return Validation(Failed, [MissingHeadersMsg(missing)], [], []);
    }
    var blockingErrors, rowLevelWarnings, dataToImport, itemPositions := ScanSheet(sheet);
    blockingErrors := AppendDuplicateErrors(itemPositions, blockingErrors);
    if |blockingErrors| > 0 {
      result := Validation(Failed, Limit(blockingErrors, "errori"), [], []);
    } else if |rowLevelWarnings| > 0 {
      result := Validation(ValidatedWithWarnings, [], Limit(rowLevelWarnings, "avvisi"), dataToImport);
    } else {
      result := Validation(Validated, [], [], dataToImport);
    }
  }

  // ---------------------------------------------------------------------
  // Properties

  /** An empty sheet has no headers, so it always fails the header check. */
  lemma EmptySheetFails()
    ensures Validate([]) == Validation(Failed, [MissingHeadersMsg(RequiredHeaders)], [], [])
  {
    assert MissingHeaders([]) == RequiredHeaders by {
      FilterAll(RequiredHeaders, IsMissingFrom([]));
    }
  }

  /** A row without a code is reported once and contributes no data and no key. */
  lemma MissingCodeRowSkipped(s: Scan, row: SheetRow, index: nat)
    requires Falsy(Lookup(MappedRow(row), "code"))
    ensures StepScan(s, row, index) ==
      s.(errors := s.errors + [MissingCodeMsg(index + 2)])
  {
  }

  /** The row numbers, in order, of the rows with a code whose key is `key`. */
  function RowNumbers(sheet: seq<SheetRow>, key: CodeKey): seq<int>
    decreases |sheet|
  {
    if |sheet| == 0 then []
    else
      var n := |sheet| - 1;
      var c := CheckRow(MappedRow(sheet[n]), n);
      RowNumbers(sheet[..n], key) + (if c.Checked? && c.key == key then [n + 2] else [])
  }

  /** Adding a row number keeps keys distinct and extends exactly that key's list. */
  lemma AddPositionFacts(ps: Positions, key: CodeKey, rowNumber: int)
    requires DistinctKeys(ps)
    ensures var r := AddPosition(ps, key, rowNumber);
      && DistinctKeys(r)
      && (forall k :: (KeyIndex(r, k).Some? <==> KeyIndex(ps, k).Some? || k == key))
      && (forall k :: k != key && KeyIndex(ps, k).Some? ==> r[KeyIndex(r, k).value].1 == ps[KeyIndex(ps, k).value].1)
      && r[KeyIndex(r, key).value].1 == (if KeyIndex(ps, key).Some? then ps[KeyIndex(ps, key).value].1 else []) + [rowNumber]
  {
    var r := AddPosition(ps, key, rowNumber);
    forall k ensures KeyIndex(r, k).Some? ==> KeyIndex(r, k).value < |r| {
    }
    match KeyIndex(ps, key) {
      case None =>
        assert r == ps + [(key, [rowNumber])];
        forall k | KeyIndex(ps, k).Some? ensures KeyIndex(r, k) == KeyIndex(ps, k) {
          KeyIndexUnique(r, k, KeyIndex(ps, k).value);
        }
        KeyIndexUnique(r, key, |ps|);
      case Some(i) =>
        assert r == ps[i := (key, ps[i].1 + [rowNumber])];
        forall k | KeyIndex(ps, k).Some? ensures KeyIndex(r, k) == KeyIndex(ps, k) {
          KeyIndexUnique(r, k, KeyIndex(ps, k).value);
        }
        forall k | KeyIndex(ps, k).None? ensures KeyIndex(r, k).Some? <==> k == key {
          if k == key {
            KeyIndexUnique(r, key, i);
          }
        }
    }
  }

  lemma KeyIndexUnique(ps: Positions, key: CodeKey, i: nat)
    requires DistinctKeys(ps) && i < |ps| && ps[i].0 == key
    ensures KeyIndex(ps, key) == Some(i)
  {
    assert KeyIndex(ps, key).Some?;
  }

  /** `ps` holds, for every key, exactly the numbers of the sheet's rows with that key, one
      entry per key. */
  ghost predicate TracksRows(ps: Positions, sheet: seq<SheetRow>) {
    && DistinctKeys(ps)
    && (forall key :: KeyIndex(ps, key).Some? <==> |RowNumbers(sheet, key)| > 0)
    && (forall key :: KeyIndex(ps, key).Some? ==> ps[KeyIndex(ps, key).value].1 == RowNumbers(sheet, key))
  }

  /** After the row loop every key has one entry, holding exactly its rows' numbers in order,
      and a key appears iff some row with a code carries it. */
  lemma {:induction false} PositionsExact(sheet: seq<SheetRow>)
    ensures TracksRows(ScanRows(sheet).positions, sheet)
  {
    if |sheet| > 0 {
      PositionsExact(sheet[..|sheet| - 1]);
      PositionsStep(sheet);
    }
  }

  /** The last row extends the tracking of the rows before it. */
  lemma PositionsStep(sheet: seq<SheetRow>)
    requires |sheet| > 0
    requires TracksRows(ScanRows(sheet[..|sheet| - 1]).positions, sheet[..|sheet| - 1])
    ensures TracksRows(ScanRows(sheet).positions, sheet)
  {
    var n := |sheet| - 1;
    var key := LastRow(sheet);
    TracksStep(ScanRows(sheet[..n]).positions, ScanRows(sheet).positions, sheet[..n], sheet, key, n + 2);
  }

  /** The last row of a sheet, when it has a code, adds its number under its key both to the
      loop's position lists and to the key's row numbers; without a code it adds nothing. */
  lemma LastRow(sheet: seq<SheetRow>) returns (key: Option<CodeKey>)
    requires |sheet| > 0
    ensures var n := |sheet| - 1;
      ScanRows(sheet).positions ==
        if key.Some? then AddPosition(ScanRows(sheet[..n]).positions, key.value, n + 2) else ScanRows(sheet[..n]).positions
    ensures var n := |sheet| - 1;
      forall k :: RowNumbers(sheet, k) == RowNumbers(sheet[..n], k) + (if key == Some(k) then [n + 2] else [])
  {
    key := LastKey(sheet);
    LastRowPositions(sheet, key);
    LastRowNumbers(sheet, key);
  }

  /** The key the last row's check yields, if it has a code. */
  function LastKey(sheet: seq<SheetRow>): Option<CodeKey>
    requires |sheet| > 0
  {
    var c := CheckRow(MappedRow(sheet[|sheet| - 1]), |sheet| - 1);
    if c.Checked? then Some(c.key) else None
  }

  lemma LastRowPositions(sheet: seq<SheetRow>, key: Option<CodeKey>)
    requires |sheet| > 0 && key == LastKey(sheet)
    ensures var n := |sheet| - 1;
      ScanRows(sheet).positions ==
        if key.Some? then AddPosition(ScanRows(sheet[..n]).positions, key.value, n + 2) else ScanRows(sheet[..n]).positions
  {
  }

  lemma LastRowNumbers(sheet: seq<SheetRow>, key: Option<CodeKey>)
    requires |sheet| > 0 && key == LastKey(sheet)
    ensures var n := |sheet| - 1;
      forall k :: RowNumbers(sheet, k) == RowNumbers(sheet[..n], k) + (if key == Some(k) then [n + 2] else [])
  {
  }

  /** Recording the new row number, if any, keeps the position lists exact. */
  lemma TracksStep(ps: Positions, ps': Positions, before: seq<SheetRow>, after: seq<SheetRow>, key: Option<CodeKey>, rowNumber: int)
    requires TracksRows(ps, before)
    requires ps' == if key.Some? then AddPosition(ps, key.value, rowNumber) else ps
    requires forall k :: RowNumbers(after, k) == RowNumbers(before, k) + (if key == Some(k) then [rowNumber] else [])
    ensures TracksRows(ps', after)
  {
    if key.Some? {
      AddPositionFacts(ps, key.value, rowNumber);
    }
  }

  /** Every key found on more than one row gives exactly one blocking error, listing all its rows in order. */
  lemma DuplicateReportedOnce(sheet: seq<SheetRow>, key: CodeKey)
    requires |RowNumbers(sheet, key)| > 1
    ensures DuplicateKeyMsg(key, RowNumbers(sheet, key)) in DuplicateErrors(ScanRows(sheet).positions)
    ensures forall i, j :: 0 <= i < j < |DuplicateErrors(ScanRows(sheet).positions)| ==>
      DuplicateErrors(ScanRows(sheet).positions)[i] != DuplicateErrors(ScanRows(sheet).positions)[j]
  {
    PositionsExact(sheet);
    var ps := ScanRows(sheet).positions;
    assert KeyIndex(ps, key).Some?;
    DuplicateErrorsHas(ps, KeyIndex(ps, key).value);
    DuplicateErrorsDistinct(ps);
  }

  /** A key found on a single row (or none) gives no duplicate error. */
  lemma SingleRowNotReported(sheet: seq<SheetRow>, key: CodeKey)
    requires |RowNumbers(sheet, key)| <= 1
    ensures forall m :: m in DuplicateErrors(ScanRows(sheet).positions) ==> !(m.DuplicateKeyMsg? && m.key == key)
  {
    PositionsExact(sheet);
    var ps := ScanRows(sheet).positions;
    DuplicateErrorsFrom(ps);
    forall m | m in DuplicateErrors(ps) && m.DuplicateKeyMsg? && m.key == key
      ensures false
    {
      var i :| 0 <= i < |ps| && ps[i] == (m.key, m.rows);
      KeyIndexUnique(ps, key, i);
    }
  }

  lemma {:induction false} DuplicateErrorsHas(ps: Positions, i: nat)
    requires i < |ps| && |ps[i].1| > 1
    ensures DuplicateKeyMsg(ps[i].0, ps[i].1) in DuplicateErrors(ps)
  {
    var n := |ps| - 1;
    if i < n {
      DuplicateErrorsHas(ps[..n], i);
    }
  }

  /** Every duplicate error comes from an entry with more than one row. */
  lemma {:induction false} DuplicateErrorsFrom(ps: Positions)
    ensures forall m :: m in DuplicateErrors(ps) ==>
      m.DuplicateKeyMsg? && |m.rows| > 1 && exists i :: 0 <= i < |ps| && ps[i] == (m.key, m.rows)
  {
    if |ps| > 0 {
      var n := |ps| - 1;
      DuplicateErrorsFrom(ps[..n]);
      forall m | m in DuplicateErrors(ps)
        ensures m.DuplicateKeyMsg? && |m.rows| > 1 && exists i :: 0 <= i < |ps| && ps[i] == (m.key, m.rows)
      {
        if m in DuplicateErrors(ps[..n]) {
          var i :| 0 <= i < n && ps[..n][i] == (m.key, m.rows);
          assert ps[i] == (m.key, m.rows);
        } else {
          assert ps[n] == (m.key, m.rows);
        }
      }
    }
  }

  /** With distinct keys, no duplicate error is repeated. */
  lemma {:induction false} DuplicateErrorsDistinct(ps: Positions)
    requires DistinctKeys(ps)
    ensures forall i, j :: 0 <= i < j < |DuplicateErrors(ps)| ==> DuplicateErrors(ps)[i] != DuplicateErrors(ps)[j]
  {
    if |ps| > 0 {
      var n := |ps| - 1;
      var prev := DuplicateErrors(ps[..n]);
      DuplicateErrorsDistinct(ps[..n]);
      DuplicateErrorsFrom(ps[..n]);
      if |ps[n].1| > 1 {
        assert DuplicateErrors(ps) == prev + [DuplicateKeyMsg(ps[n].0, ps[n].1)];
        forall i | 0 <= i < |prev| ensures prev[i].key != ps[n].0 {
          assert prev[i] in prev;
          var k :| 0 <= k < n && ps[..n][k] == (prev[i].key, prev[i].rows);
        }
      }
    }
  }
}
