/** The TBL8 table file: the writer and reader of table_format.py and the loader of the query
    firmware (network_tasks.c). */
module TableFormat {
  import opened Machine
  import opened FeedLoop
  import SqlText

  const MAX_COLUMNS := 4
  const CELL_SIZE := 1
  const ROW_WIDTH := MAX_COLUMNS * CELL_SIZE
  const HEADER_SIZE := 24 + ROW_WIDTH
  const VERSION := 1
  const MAGIC: seq<Byte> := [0x54, 0x42, 0x4C, 0x38]

  datatype Result<T> = Ok(value: T) | Err

  // ---------- cells ----------

  predicate Latin1(text: string) {
    forall k :: 0 <= k < |text| ==> text[k] as int < 256
  }

  predicate Encodable(text: string) {
    Latin1(text) && |text| <= CELL_SIZE
  }

  function Codes(text: string): (r: seq<Byte>)
    requires Latin1(text)
    ensures |r| == |text|
  {
    seq(|text|, k requires 0 <= k < |text| => text[k] as int)
  }

  /** _encode_fixed; Python's encoding error and the length check both reject the cell. */
  function EncodeFixed(text: string): (r: Result<seq<Byte>>)
    ensures r.Ok? <==> Encodable(text)
    ensures r.Ok? ==> r.value == Fixed(text)
  {
    if !Latin1(text) then Err
    else if |text| > CELL_SIZE then Err
    else Ok(Codes(text) + seq(CELL_SIZE - |text|, k => 0x20))
  }

  function Fixed(text: string): (r: seq<Byte>)
    requires Encodable(text)
    ensures |r| == CELL_SIZE
  {
    Codes(text) + seq(CELL_SIZE - |text|, k => 0x20)
  }

  /** _decode_fixed. */
  function DecodeFixed(raw: seq<Byte>): string {
    if raw == [] then ""
    else if raw[|raw| - 1] == 0x20 || raw[|raw| - 1] == 0x00 then DecodeFixed(raw[..|raw| - 1])
    else seq(|raw|, k requires 0 <= k < |raw| => raw[k] as char)
  }

  /** A cell without its trailing blanks and NULs: all that survives the file. */
  function Stripped(text: string): string {
    if text != "" && (text[|text| - 1] == ' ' || text[|text| - 1] == '\0') then Stripped(text[..|text| - 1]) else text
  }

  lemma {:induction false} DecodesStripped(text: string, pad: nat)
    requires Latin1(text)
    ensures DecodeFixed(Codes(text) + seq(pad, k => 0x20)) == Stripped(text)
    decreases |text| + pad
  {
    var raw := Codes(text) + seq(pad, k => 0x20);
    if pad > 0 {
      assert raw[..|raw| - 1] == Codes(text) + seq(pad - 1, k => 0x20);
      DecodesStripped(text, pad - 1);
    } else if text != "" {
      assert raw == Codes(text);
      var n := |text| - 1;
      if text[n] == ' ' || text[n] == '\0' {
        assert raw[..n] == Codes(text[..n]) + seq(0, k => 0x20);
        DecodesStripped(text[..n], 0);
      } else {
        assert DecodeFixed(raw) == text;
      }
    } else {
      assert raw == [];
    }
  }

  /** A cell comes back unchanged exactly when it is empty or one character that is neither a
      blank nor NUL. */
  lemma CellSurvivesIff(text: string)
    requires Encodable(text)
    ensures DecodeFixed(Fixed(text)) == text <==> text == "" || (text != " " && text != "\0")
  {
    DecodesStripped(text, CELL_SIZE - |text|);
    if text != "" {
      assert text == [text[0]] && text[..0] == "";
    }
  }

  // ---------- the file as a value ----------

  type Row = seq<string>

  predicate AllEncodable(cells: seq<string>) {
    forall k :: 0 <= k < |cells| ==> Encodable(cells[k])
  }

  function Cells(cells: seq<string>): (r: seq<Byte>)
    requires AllEncodable(cells)
    ensures |r| == CELL_SIZE * |cells|
  {
    if cells == [] then [] else Cells(cells[..|cells| - 1]) + Fixed(cells[|cells| - 1])
  }

  function PadRow(row: Row): (r: Row)
    requires |row| <= MAX_COLUMNS
    ensures |r| == MAX_COLUMNS && (AllEncodable(row) ==> AllEncodable(r))
  {
    row + seq(MAX_COLUMNS - |row|, k => "")
  }

  predicate RowOk(row: Row, width: nat) {
    |row| == width && AllEncodable(row)
  }

  predicate Writable(columns: seq<string>, rows: seq<Row>) {
    0 < |columns| <= MAX_COLUMNS && AllEncodable(columns) && |rows| < WRAP
    && forall k :: 0 <= k < |rows| ==> RowOk(rows[k], |columns|)
  }

  function RowBytes(rows: seq<Row>, width: nat): (r: seq<Byte>)
    requires width <= MAX_COLUMNS && forall k :: 0 <= k < |rows| ==> RowOk(rows[k], width)
    ensures |r| == ROW_WIDTH * |rows|
  {
    if rows == [] then []
    else
      assert RowOk(rows[|rows| - 1], width);
      RowBytes(rows[..|rows| - 1], width) + Cells(PadRow(rows[|rows| - 1]))
  }

  function Header(columns: U32, rows: U32): (r: seq<Byte>)
    ensures |r| == 24
  {
    MAGIC + BytesOf(VERSION) + BytesOf(columns) + BytesOf(rows) + BytesOf(ROW_WIDTH) + BytesOf(0)
  }

  function Names(columns: seq<string>): (r: seq<Byte>)
    requires |columns| <= MAX_COLUMNS && AllEncodable(columns)
    ensures |r| == ROW_WIDTH
  {
    Cells(columns) + seq((MAX_COLUMNS - |columns|) * CELL_SIZE, k => 0x00)
  }

  function FileOf(columns: seq<string>, rows: seq<Row>): (r: seq<Byte>)
    requires Writable(columns, rows)
    ensures |r| == HEADER_SIZE + ROW_WIDTH * |rows|
  {
    Header(|columns|, |rows|) + Names(columns) + RowBytes(rows, |columns|)
  }

  // ---------- write_table ----------

  method EncodeCells(cells: seq<string>) returns (r: Result<seq<Byte>>)
    ensures r.Ok? <==> AllEncodable(cells)
    ensures r.Ok? ==> r.value == Cells(cells)
  {
    var out, i := [], 0;
    while i < |cells|
      invariant 0 <= i <= |cells| && AllEncodable(cells[..i]) && out == Cells(cells[..i])
    {
      var e := EncodeFixed(cells[i]);
      if e.Err? {
        assert !Encodable(cells[i]);
        return Err;
      }
      assert cells[..i + 1][..i] == cells[..i];
      out := out + e.value;
      i := i + 1;
    }
    assert cells[..i] == cells;
    return Ok(out);
  }

  method WriteTable(columns: seq<string>, rows: seq<Row>) returns (r: Result<seq<Byte>>)
    ensures r.Ok? <==> Writable(columns, rows)
    ensures r.Ok? ==> r.value == FileOf(columns, rows)
  {
    if columns == [] || |columns| > MAX_COLUMNS {
      return Err;
    }
    var body, i := [], 0;
    while i < |rows|
      invariant 0 <= i <= |rows| && forall k :: 0 <= k < i ==> RowOk(rows[k], |columns|)
      invariant body == RowBytes(rows[..i], |columns|)
    {
      if |rows[i]| != |columns| {
        assert !RowOk(rows[i], |columns|);
        return Err;
      }
      var e := EncodeCells(PadRow(rows[i]));
      if e.Err? {
        assert !RowOk(rows[i], |columns|);
        return Err;
      }
      PaddedOk(rows[i]);
      assert rows[..i + 1][..i] == rows[..i];
      body := body + e.value;
      i := i + 1;
    }
    assert rows[..i] == rows;
    if |rows| >= WRAP {
      return Err;
    }
    var header := Header(|columns|, |rows|);
    var names := EncodeCells(columns);
    if names.Err? {
      return Err;
    }
    return Ok(header + (names.value + seq((MAX_COLUMNS - |columns|) * CELL_SIZE, k => 0x00)) + body);
  }

  lemma PaddedOk(row: Row)
    requires |row| <= MAX_COLUMNS && AllEncodable(PadRow(row))
    ensures AllEncodable(row)
  {
    forall k | 0 <= k < |row| ensures Encodable(row[k]) {
      assert PadRow(row)[k] == row[k];
    }
  }

  // ---------- read_table ----------

  datatype Table = Table(columns: seq<string>, rows: seq<Row>, rowCount: nat, rowWidth: nat)

  /** The first n cells of a blob. */
  function DecodeCells(blob: seq<Byte>, n: nat): (r: seq<string>)
    requires CELL_SIZE * n <= |blob|
    ensures |r| == n
  {
    if n == 0 then [] else DecodeCells(blob, n - 1) + [DecodeFixed(blob[CELL_SIZE * (n - 1)..CELL_SIZE * n])]
  }

  function Slice(s: seq<Byte>, i: nat, len: nat): (r: seq<Byte>)
    requires i + len <= |s|
    ensures |r| == len
  {
    s[i..i + len]
  }

  /** The first n rows after a place in the file. */
  function DecodeRows(file: seq<Byte>, at: nat, n: nat, width: nat): (r: seq<Row>)
    requires at + ROW_WIDTH * n <= |file| && width <= MAX_COLUMNS
    ensures |r| == n
  {
    if n == 0 then []
    else DecodeRows(file, at, n - 1, width) + [DecodeCells(Slice(file, at + ROW_WIDTH * (n - 1), ROW_WIDTH), width)]
  }

  predicate HeaderOk(file: seq<Byte>) {
    && |file| >= HEADER_SIZE && file[..4] == MAGIC && ReadLe32(file, 4) == VERSION
    && 0 < ReadLe32(file, 8) <= MAX_COLUMNS && ReadLe32(file, 16) == ROW_WIDTH
  }

  datatype Limit = All | AtMost(n: int)

  function RowsToRead(count: nat, limit: Limit): nat {
    match limit
    case All => count
    case AtMost(n) => if n < 0 then 0 else if n < count then n else count
  }

  method ReadTable(file: seq<Byte>, limit: Limit) returns (r: Result<Table>)
    ensures r.Ok? <==> HeaderOk(file) && HEADER_SIZE + ROW_WIDTH * RowsToRead(ReadLe32(file, 12), limit) <= |file|
    ensures r.Ok? ==> r.value == Table(DecodeCells(Slice(file, 24, ROW_WIDTH), ReadLe32(file, 8)),
                                       DecodeRows(file, HEADER_SIZE, RowsToRead(ReadLe32(file, 12), limit), ReadLe32(file, 8)),
                                       ReadLe32(file, 12), ROW_WIDTH)
  {
    if |file| < HEADER_SIZE {
      return Err;
    }
    var columnCount, rowCount, rowWidth := ReadLe32(file, 8), ReadLe32(file, 12), ReadLe32(file, 16);
    if file[..4] != MAGIC || ReadLe32(file, 4) != VERSION {
      return Err;
    }
    if columnCount == 0 || columnCount > MAX_COLUMNS || rowWidth != ROW_WIDTH {
      return Err;
    }
    var columns := ReadCells(Slice(file, 24, ROW_WIDTH), columnCount);
    var toRead := RowsToRead(rowCount, limit);
    var rows, at := [], HEADER_SIZE;
    while |rows| < toRead
      invariant |rows| <= toRead && at == HEADER_SIZE + ROW_WIDTH * |rows| <= |file|
      invariant rows == DecodeRows(file, HEADER_SIZE, |rows|, columnCount)
    {
      if at + rowWidth > |file| {
        return Err;
      }
      var row := ReadCells(Slice(file, at, ROW_WIDTH), columnCount);
      rows, at := rows + [row], at + rowWidth;
    }
    return Ok(Table(columns, rows, rowCount, rowWidth));
  }

  method ReadCells(blob: seq<Byte>, n: nat) returns (cells: seq<string>)
    requires CELL_SIZE * n <= |blob|
    ensures cells == DecodeCells(blob, n)
  {
    cells := [];
    while |cells| < n
      invariant |cells| <= n && cells == DecodeCells(blob, |cells|)
    {
      var begin := |cells| * CELL_SIZE;
      cells := cells + [DecodeFixed(blob[begin..begin + CELL_SIZE])];
    }
  }

  // ---------- writer and reader together ----------

  function StrippedAll(cells: seq<string>): (r: seq<string>)
    ensures |r| == |cells|
  {
    seq(|cells|, k requires 0 <= k < |cells| => Stripped(cells[k]))
  }

  lemma {:induction false} CellsDecode(cells: seq<string>, rest: seq<Byte>, n: nat)
    requires AllEncodable(cells) && n <= |cells|
    ensures DecodeCells(Cells(cells) + rest, n) == StrippedAll(cells[..n])
    decreases n
  {
    if n != 0 {
      var blob := Cells(cells) + rest;
      CellsDecode(cells, rest, n - 1);
      CellAt(cells, n - 1);
      assert blob[CELL_SIZE * (n - 1)..CELL_SIZE * n] == Cells(cells)[CELL_SIZE * (n - 1)..CELL_SIZE * n];
      DecodesStripped(cells[n - 1], CELL_SIZE - |cells[n - 1]|);
      assert StrippedAll(cells[..n]) == StrippedAll(cells[..n - 1]) + [Stripped(cells[n - 1])];
    }
  }

  lemma {:induction false} CellAt(cells: seq<string>, k: nat)
    requires AllEncodable(cells) && k < |cells|
    ensures Cells(cells)[CELL_SIZE * k..CELL_SIZE * (k + 1)] == Fixed(cells[k])
  {
    var n := |cells| - 1;
    if k < n {
      CellAt(cells[..n], k);
      assert Cells(cells)[CELL_SIZE * k..CELL_SIZE * (k + 1)] == Cells(cells[..n])[CELL_SIZE * k..CELL_SIZE * (k + 1)];
    }
  }

  lemma {:induction false} RowAt(rows: seq<Row>, width: nat, k: nat)
    requires width <= MAX_COLUMNS && (forall j :: 0 <= j < |rows| ==> RowOk(rows[j], width)) && k < |rows|
    ensures RowOk(rows[k], width)
    ensures Slice(RowBytes(rows, width), ROW_WIDTH * k, ROW_WIDTH) == Cells(PadRow(rows[k]))
  {
    var n := |rows| - 1;
    assert RowOk(rows[n], width);
    if k < n {
      RowAt(rows[..n], width, k);
      assert Slice(RowBytes(rows, width), ROW_WIDTH * k, ROW_WIDTH) == Slice(RowBytes(rows[..n], width), ROW_WIDTH * k, ROW_WIDTH);
    }
  }

  /** Where a written file holds its row k. */
  lemma FileRow(columns: seq<string>, rows: seq<Row>, k: nat)
    requires Writable(columns, rows) && k < |rows|
    ensures RowOk(rows[k], |columns|)
    ensures Slice(FileOf(columns, rows), HEADER_SIZE + ROW_WIDTH * k, ROW_WIDTH) == Cells(PadRow(rows[k]))
  {
    RowAt(rows, |columns|, k);
    var head := Header(|columns|, |rows|) + Names(columns);
    var body := RowBytes(rows, |columns|);
    assert |head| == HEADER_SIZE;
    assert Slice(head + body, HEADER_SIZE + ROW_WIDTH * k, ROW_WIDTH) == Slice(body, ROW_WIDTH * k, ROW_WIDTH);
  }

  function StrippedRows(rows: seq<Row>): (r: seq<Row>)
    ensures |r| == |rows|
  {
    seq(|rows|, k requires 0 <= k < |rows| => StrippedAll(rows[k]))
  }

  lemma {:induction false} RowsDecode(columns: seq<string>, rows: seq<Row>, n: nat)
    requires Writable(columns, rows) && n <= |rows|
    ensures DecodeRows(FileOf(columns, rows), HEADER_SIZE, n, |columns|) == StrippedRows(rows[..n])
    decreases n
  {
    if n != 0 {
      RowsDecode(columns, rows, n - 1);
      FileRow(columns, rows, n - 1);
      OneRowDecodes(rows[n - 1]);
      OneMoreStripped(rows, n);
    }
  }

  lemma OneMoreStripped(rows: seq<Row>, n: nat)
    requires 0 < n <= |rows|
    ensures StrippedRows(rows[..n]) == StrippedRows(rows[..n - 1]) + [StrippedAll(rows[n - 1])]
  {
  }

  lemma OneRowDecodes(row: Row)
    requires |row| <= MAX_COLUMNS && AllEncodable(row)
    ensures DecodeCells(Cells(PadRow(row)), |row|) == StrippedAll(row)
  {
    CellsDecode(PadRow(row), [], |row|);
    assert Cells(PadRow(row)) + [] == Cells(PadRow(row));
    assert PadRow(row)[..|row|] == row;
  }

  lemma HeaderFields(columns: seq<string>, rows: seq<Row>)
    requires Writable(columns, rows)
    ensures var file := FileOf(columns, rows);
            && HeaderOk(file) && ReadLe32(file, 8) == |columns| && ReadLe32(file, 12) == |rows|
            && Slice(file, 24, ROW_WIDTH) == Names(columns)
  {
    var file := FileOf(columns, rows);
    var rest := Names(columns) + RowBytes(rows, |columns|);
    assert file == Header(|columns|, |rows|) + rest;
    FieldAt(MAGIC, VERSION, BytesOf(|columns|) + BytesOf(|rows|) + BytesOf(ROW_WIDTH) + BytesOf(0) + rest, file);
    FieldAt(MAGIC + BytesOf(VERSION), |columns|, BytesOf(|rows|) + BytesOf(ROW_WIDTH) + BytesOf(0) + rest, file);
    FieldAt(MAGIC + BytesOf(VERSION) + BytesOf(|columns|), |rows|, BytesOf(ROW_WIDTH) + BytesOf(0) + rest, file);
    FieldAt(MAGIC + BytesOf(VERSION) + BytesOf(|columns|) + BytesOf(|rows|), ROW_WIDTH, BytesOf(0) + rest, file);
    assert file[..4] == MAGIC;
  }

  lemma FieldAt(before: seq<Byte>, w: U32, after: seq<Byte>, file: seq<Byte>)
    requires file == before + BytesOf(w) + after
    ensures |before| + 4 <= |file| && ReadLe32(file, |before|) == w
  {
    WordBytes(w);
    assert forall d :: 0 <= d < 4 ==> file[|before| + d] == BytesOf(w)[d];
    assert file[|before| + 0] == BytesOf(w)[0];
  }

  /** What read_table makes of any table write_table accepts: the columns and a prefix of the
      rows, each cell without its trailing blanks and NULs. */
  lemma WrittenTableReads(columns: seq<string>, rows: seq<Row>, limit: Limit)
    requires Writable(columns, rows)
    ensures var file, n := FileOf(columns, rows), RowsToRead(|rows|, limit);
            && HeaderOk(file) && HEADER_SIZE + ROW_WIDTH * n <= |file|
            && DecodeCells(Slice(file, 24, ROW_WIDTH), |columns|) == StrippedAll(columns)
            && DecodeRows(file, HEADER_SIZE, n, |columns|) == StrippedRows(rows[..n])
            && ReadLe32(file, 8) == |columns| && ReadLe32(file, 12) == |rows|
  {
    HeaderFields(columns, rows);
    CellsDecode(columns, seq((MAX_COLUMNS - |columns|) * CELL_SIZE, k => 0x00), |columns|);
    assert columns[..|columns|] == columns;
    RowsDecode(columns, rows, RowsToRead(|rows|, limit));
  }

  /** Cells the format keeps. */
  predicate Keeps(cells: seq<string>) {
    forall k :: 0 <= k < |cells| ==> cells[k] != " " && cells[k] != "\0"
  }

  lemma StrippedAllSameIff(cells: seq<string>)
    requires AllEncodable(cells)
    ensures StrippedAll(cells) == cells <==> Keeps(cells)
  {
    forall k | 0 <= k < |cells| ensures Stripped(cells[k]) == cells[k] <==> cells[k] != " " && cells[k] != "\0" {
      CellSurvivesIff(cells[k]);
      DecodesStripped(cells[k], CELL_SIZE - |cells[k]|);
    }
    if StrippedAll(cells) == cells {
      forall k | 0 <= k < |cells| ensures cells[k] != " " && cells[k] != "\0" {
        assert StrippedAll(cells)[k] == cells[k];
      }
    }
  }

  /** A table is read back unchanged exactly when none of its cells and names is a single blank
      or NUL. */
  lemma TableSurvivesIff(columns: seq<string>, rows: seq<Row>)
    requires Writable(columns, rows)
    ensures StrippedAll(columns) == columns && StrippedRows(rows) == rows
            <==> Keeps(columns) && forall k :: 0 <= k < |rows| ==> Keeps(rows[k])
  {
    StrippedAllSameIff(columns);
    forall k | 0 <= k < |rows| ensures StrippedAll(rows[k]) == rows[k] <==> Keeps(rows[k]) {
      assert RowOk(rows[k], |columns|);
      StrippedAllSameIff(rows[k]);
    }
    if StrippedRows(rows) == rows {
      forall k | 0 <= k < |rows| ensures Keeps(rows[k]) {
        assert StrippedRows(rows)[k] == rows[k];
      }
    }
  }

  // ---------- the firmware's loader ----------

  const SD_FILE_MAX_SIZE := 262144

  datatype Loaded = Loaded(columns: seq<string>, rowCount: nat, source: seq<Byte>)

  /** A column name as trim_copy leaves it in its two-character field. */
  function LoaderName(b: Byte): string {
    SqlText.Trimmed([b as char], CELL_SIZE + 1)
  }

  function LoaderNames(buf: seq<Byte>, n: nat): (r: seq<string>)
    requires n <= MAX_COLUMNS && |buf| >= HEADER_SIZE
    ensures |r| == n
  {
    seq(n, k requires 0 <= k < n => LoaderName(buf[24 + k * CELL_SIZE]))
  }

  function AvailableRows(buf: seq<Byte>): nat
    requires |buf| >= HEADER_SIZE
  {
    (|buf| - HEADER_SIZE) / ROW_WIDTH
  }

  function LoadedRows(buf: seq<Byte>): nat
    requires |buf| >= HEADER_SIZE
  {
    if AvailableRows(buf) < ReadLe32(buf, 12) then AvailableRows(buf) else ReadLe32(buf, 12)
  }

  /** load_table_schema_from_buf and the rest of load_table_from_sd, on the bytes read. */
  method LoadTable(buf: seq<Byte>) returns (r: Result<Loaded>)
    ensures r.Ok? <==> HeaderOk(buf) && AvailableRows(buf) > 0
    ensures r.Ok? ==> r.value == Loaded(LoaderNames(buf, ReadLe32(buf, 8)), LoadedRows(buf),
                                        Slice(buf, HEADER_SIZE, ROW_WIDTH * LoadedRows(buf)))
  {
    if |buf| < HEADER_SIZE {
      return Err;
    }
    if buf[..4] != MAGIC {
      return Err;
    }
    var version, columnCount, rowCount, rowWidth := ReadLe32(buf, 4), ReadLe32(buf, 8), ReadLe32(buf, 12), ReadLe32(buf, 16);
    if version != VERSION {
      return Err;
    }
    if columnCount == 0 || columnCount > MAX_COLUMNS {
      return Err;
    }
    if rowWidth != MAX_COLUMNS * CELL_SIZE {
      return Err;
    }
    var columns := [];
    while |columns| < columnCount
      invariant |columns| <= columnCount && columns == LoaderNames(buf, |columns|)
    {
      var at := 24 + |columns| * CELL_SIZE;
      var name := SqlText.TrimCopy([buf[at] as char], CELL_SIZE + 1);
      columns := columns + [name];
    }
    var available := (|buf| - HEADER_SIZE) / rowWidth;
    if available == 0 {
      return Err;
    }
    if available < rowCount {
      rowCount := available;
    }
    return Ok(Loaded(columns, rowCount, Slice(buf, HEADER_SIZE, rowCount * rowWidth)));
  }

  /** The loader keeps a name as the reader does exactly when it is no other white space. */
  lemma NamesAgreeIff(name: string)
    requires Encodable(name)
    ensures LoaderName(Fixed(name)[0]) == Stripped(name) <==> name == "" || !(9 <= name[0] as int <= 13)
  {
    var c := Fixed(name)[0] as char;
    OneCharTrimmed(c);
    if name == "" {
      assert c == ' ';
    } else {
      assert name == [name[0]] && name[..0] == "" && c == name[0];
    }
  }

  lemma OneCharTrimmed(c: char)
    ensures SqlText.Trimmed([c], 2) == if SqlText.IsSpace(c) || SqlText.EndTrimmed(c) then "" else [c]
  {
    var t := SqlText.TrimFront([c]);
    if SqlText.IsSpace(c) {
      assert [c][1..] == "" && t == SqlText.TrimFront("");
    } else {
      assert t == [c] && [c][..0] == "" && [c][..1] == [c];
      assert SqlText.TrimEnd([c]) == if SqlText.EndTrimmed(c) then SqlText.TrimEnd("") else [c];
    }
  }

  /** What the loader receives of a file: as much as its buffer holds. */
  function Received(file: seq<Byte>): seq<Byte> {
    First(file, SD_FILE_MAX_SIZE)
  }

  lemma ReceivedHeader(file: seq<Byte>)
    requires HeaderOk(file)
    ensures HeaderOk(Received(file)) && Slice(Received(file), 0, HEADER_SIZE) == Slice(file, 0, HEADER_SIZE)
    ensures ReadLe32(Received(file), 8) == ReadLe32(file, 8) && ReadLe32(Received(file), 12) == ReadLe32(file, 12)
  {
    assert Received(file)[..4] == file[..4];
  }

  lemma {:induction false} WordAt(s: seq<Byte>, n: nat, k: nat)
    requires WORD * n <= |s| && k < n
    ensures Words(s, n)[k] == ReadLe32(s, WORD * k)
  {
    if k < n - 1 {
      WordAt(s, n - 1, k);
    }
  }

  /** The loader accepts a written table exactly when it has a row, although the reader accepts
      an empty one; it then sees the same number of columns, as many rows as its buffer holds,
      and feeds the rows' bytes in order, one word a row. */
  lemma LoaderAgrees(columns: seq<string>, rows: seq<Row>)
    requires Writable(columns, rows)
    ensures var buf := Received(FileOf(columns, rows));
            var fit := (SD_FILE_MAX_SIZE - HEADER_SIZE) / ROW_WIDTH;
            && HeaderOk(buf) && ReadLe32(buf, 8) == |columns|
            && (AvailableRows(buf) > 0 <==> rows != [])
            && LoadedRows(buf) == (if |rows| < fit then |rows| else fit)
            && forall k :: 0 <= k < LoadedRows(buf) ==>
                 Words(Slice(buf, HEADER_SIZE, ROW_WIDTH * LoadedRows(buf)), LoadedRows(buf))[k]
                 == ReadLe32(Cells(PadRow(rows[k])), 0)
  {
    var file := FileOf(columns, rows);
    var buf := Received(file);
    HeaderFields(columns, rows);
    ReceivedHeader(file);
    var n := LoadedRows(buf);
    forall k | 0 <= k < n ensures Words(Slice(buf, HEADER_SIZE, ROW_WIDTH * n), n)[k] == ReadLe32(Cells(PadRow(rows[k])), 0) {
      SourceWord(columns, rows, n, k);
    }
  }

  lemma SourceWord(columns: seq<string>, rows: seq<Row>, n: nat, k: nat)
    requires Writable(columns, rows) && k < n <= |rows| && HEADER_SIZE + ROW_WIDTH * n <= |Received(FileOf(columns, rows))|
    ensures Words(Slice(Received(FileOf(columns, rows)), HEADER_SIZE, ROW_WIDTH * n), n)[k] == ReadLe32(Cells(PadRow(rows[k])), 0)
  {
    var file := FileOf(columns, rows);
    var source := Slice(Received(file), HEADER_SIZE, ROW_WIDTH * n);
    WordAt(source, n, k);
    FileRow(columns, rows, k);
    var row := Slice(file, HEADER_SIZE + ROW_WIDTH * k, ROW_WIDTH);
    assert forall d :: 0 <= d < 4 ==> source[WORD * k + d] == file[HEADER_SIZE + ROW_WIDTH * k + d] == row[d];
    assert source[WORD * k + 0] == row[0];
  }

  /** The names the loader sees, name by name. */
  lemma LoaderNamesOf(columns: seq<string>, rows: seq<Row>, k: nat)
    requires Writable(columns, rows) && k < |columns|
    ensures LoaderNames(Received(FileOf(columns, rows)), |columns|)[k] == LoaderName(Fixed(columns[k])[0])
  {
    var file := FileOf(columns, rows);
    HeaderFields(columns, rows);
    ReceivedHeader(file);
    CellAt(columns, k);
    assert Slice(file, 24, ROW_WIDTH)[k] == file[24 + k];
    assert Names(columns)[k] == Cells(columns)[k] == Cells(columns)[CELL_SIZE * k..CELL_SIZE * (k + 1)][0];
  }
}
