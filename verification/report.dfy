/**
 The report stage (`create_excel` / `create_excel_report`): every collected
 record becomes one row of eight fixed columns, the rows are written under
 a header row to `open_prs_report.xlsx`, and any failure on the way (a
 missing key, a write error) is re-raised to `main`.
 */
module Report {
  import opened Wrappers
  import opened PullRequests

  /** One spreadsheet row, in column order. */
  datatype Row = Row(
    repository: Json,
    number: Json,
    title: Json,
    author: Json,
    url: Json,
    createdAt: Json,
    updatedAt: Json,
    state: Json)

  /** The header row: the keys of the dictionary each row is built as. */
  const Columns: seq<string> :=
    ["Repository", "PR Number", "Title", "Author", "URL", "Created At", "Updated At", "State"]

  /** For each column, the chain of subscripts that reads its cell out of a record. */
  const ColumnPaths: seq<seq<string>> :=
    [["repo"], ["number"], ["title"], ["user", "login"], ["html_url"], ["created_at"], ["updated_at"], ["state"]]

  /** The default `filename` argument of the report function. */
  const DefaultFilename: string := "open_prs_report.xlsx"

  /** The cells of a row, in header order. */
  function Cells(row: Row): (cells: seq<Json>)
    ensures |cells| == |Columns| == |ColumnPaths|
  {
    [row.repository, row.number, row.title, row.author, row.url, row.createdAt, row.updatedAt, row.state]
  }

  /**
   Python subscripting `v[path[0]][path[1]]...`: each step needs a JSON object
   holding the key; a missing key raises `KeyError`, subscripting anything
   else (null, a string, a list) with a string raises `TypeError`.
   */
  function Lookup(v: Json, path: seq<string>): Option<Json>
    decreases |path|
  {
    if path == [] then Some(v)
    else match v
      case JObject(fields) =>
        if path[0] in fields then Lookup(fields[path[0]], path[1..]) else None
      case _ => None
  }

  /** `pr['user']['login']`. */
  function Author(pr: Record): Option<Json>
  {
    if "user" in pr && pr["user"].JObject? && "login" in pr["user"].fields
    then Some(pr["user"].fields["login"])
    else None
  }

  /** The dictionary literal built for one record; `None` when one of its subscripts raises. */
  function ProjectRow(pr: Record): Option<Row>
  {
    if && "repo" in pr && "number" in pr && "title" in pr && Author(pr).Some?
       && "html_url" in pr && "created_at" in pr && "updated_at" in pr && "state" in pr
    then Some(Row(pr["repo"], pr["number"], pr["title"], Author(pr).value,
                  pr["html_url"], pr["created_at"], pr["updated_at"], pr["state"]))
    else None
  }

  lemma LookupKey(pr: Record, key: string)
    ensures Lookup(JObject(pr), [key]) == if key in pr then Some(pr[key]) else None
  {
    if key in pr {
      assert [key][1..] == [];
    }
  }

  lemma LookupAuthor(pr: Record)
    ensures Lookup(JObject(pr), ["user", "login"]) == Author(pr)
  {
    var path := ["user", "login"];
    assert path[0] == "user" && path[1..] == ["login"];
    if "user" in pr {
      match pr["user"]
      case JObject(fields) =>
        LookupKey(fields, "login");
      case _ =>
    }
  }

  /**
   Row projection agrees with the column table: a record projects exactly
   when every column's subscript chain succeeds, and then cell j is what
   column j's chain reads (so Author is `user.login`).
   */
  lemma ProjectRowFollowsColumns(pr: Record)
    ensures ProjectRow(pr).Some? <==>
              forall j :: 0 <= j < |ColumnPaths| ==> Lookup(JObject(pr), ColumnPaths[j]).Some?
    ensures ProjectRow(pr).Some? ==>
              forall j :: 0 <= j < |ColumnPaths| ==> Lookup(JObject(pr), ColumnPaths[j]) == Some(Cells(ProjectRow(pr).value)[j])
  {
    LookupKey(pr, "repo");
    LookupKey(pr, "number");
    LookupKey(pr, "title");
    LookupAuthor(pr);
    LookupKey(pr, "html_url");
    LookupKey(pr, "created_at");
    LookupKey(pr, "updated_at");
    LookupKey(pr, "state");
    assert ColumnPaths[0] == ["repo"] && ColumnPaths[1] == ["number"] && ColumnPaths[2] == ["title"];
    assert ColumnPaths[3] == ["user", "login"] && ColumnPaths[4] == ["html_url"];
    assert ColumnPaths[5] == ["created_at"] && ColumnPaths[6] == ["updated_at"] && ColumnPaths[7] == ["state"];
  }

  /** The loop building `data`: one row per record, in order; `None` as soon as one record lacks a field. */
  function ProjectRows(prs: seq<Record>): (r: Option<seq<Row>>)
    ensures r.Some? <==> forall i :: 0 <= i < |prs| ==> ProjectRow(prs[i]).Some?
    ensures r.Some? ==> |r.value| == |prs|
    ensures r.Some? ==> forall i :: 0 <= i < |prs| ==> ProjectRow(prs[i]) == Some(r.value[i])
  {
    if prs == [] then Some([])
    else
      match ProjectRow(prs[0])
      case None => None
      case Some(row) =>
        match ProjectRows(prs[1..])
        case None =>
          assert exists i :: 1 <= i < |prs| && ProjectRow(prs[i]).None? by {
            var i :| 0 <= i < |prs[1..]| && ProjectRow(prs[1..][i]).None?;
            assert prs[1..][i] == prs[i + 1];
          }
          None
        case Some(rest) =>
          assert forall i :: 1 <= i < |prs| ==> prs[i] == prs[1..][i - 1];
          Some([row] + rest)
  }

  /** The header cells. */
  function Header(): (h: seq<Json>)
    ensures |h| == |Columns|
  {
    seq(|Columns|, j requires 0 <= j < |Columns| => JString(Columns[j]))
  }

  /**
   The sheet `to_excel(index=False)` writes: the header row, then the cells of
   each row. A frame built from no rows has no columns, so nothing is written,
   not even the header.
   */
  function Sheet(rows: seq<Row>): (sheet: seq<seq<Json>>)
    ensures |sheet| == if rows == [] then 0 else |rows| + 1
  {
    if rows == [] then []
    else [Header()] + seq(|rows|, i requires 0 <= i < |rows| => Cells(rows[i]))
  }

  /** A row read back from eight cells. */
  function RowOf(cells: seq<Json>): Option<Row>
  {
    if |cells| == |Columns|
    then Some(Row(cells[0], cells[1], cells[2], cells[3], cells[4], cells[5], cells[6], cells[7]))
    else None
  }

  /** Reading data rows back from a sheet body. */
  function ReadBody(body: seq<seq<Json>>): Option<seq<Row>>
  {
    if body == [] then Some([])
    else
      match (RowOf(body[0]), ReadBody(body[1..]))
      case (Some(row), Some(rest)) => Some([row] + rest)
      case _ => None
  }

  /**
   Reading a sheet back: an empty sheet holds no rows; otherwise the header
   must match, then every data row must have eight cells.
   */
  function ReadSheet(sheet: seq<seq<Json>>): Option<seq<Row>>
  {
    if sheet == [] then Some([])
    else if sheet[0] == Header() then ReadBody(sheet[1..])
    else None
  }

  /** Round trip: reading a written sheet gives back the same rows, in the same order. */
  lemma {:induction false} ReadSheetRoundTrip(rows: seq<Row>)
    ensures ReadSheet(Sheet(rows)) == Some(rows)
  {
    if rows != [] {
      var body := seq(|rows|, i requires 0 <= i < |rows| => Cells(rows[i]));
      assert Sheet(rows)[1..] == body;
      ReadBodyCells(rows);
    }
  }

  lemma {:induction false} ReadBodyCells(rows: seq<Row>)
    ensures ReadBody(seq(|rows|, i requires 0 <= i < |rows| => Cells(rows[i]))) == Some(rows)
    decreases |rows|
  {
    var body := seq(|rows|, i requires 0 <= i < |rows| => Cells(rows[i]));
    if rows != [] {
      ReadBodyCells(rows[1..]);
      assert body[1..] == seq(|rows[1..]|, i requires 0 <= i < |rows[1..]| => Cells(rows[1..][i]));
      assert RowOf(body[0]) == Some(rows[0]);
      assert [rows[0]] + rows[1..] == rows;
    }
  }

  /** Why a report could not be created; both are re-raised to `main`. */
  datatype ReportError = MissingField | WriteFailed

  /** A report file as written: its name and the sheet it holds. */
  datatype ReportFile = ReportFile(filename: string, sheet: seq<seq<Json>>)

  /**
   `create_excel`: project the rows, then write them (the write's success is
   supplied from outside the model). A report exists only when every record
   projected and the write succeeded; it then holds exactly the projected rows.
   */
  function CreateReport(prs: seq<Record>, writeOk: bool): (r: Result<ReportFile, ReportError>)
    ensures r.Success? <==> writeOk && forall i :: 0 <= i < |prs| ==> ProjectRow(prs[i]).Some?
    ensures r.Failure? ==> (r.error == MissingField <==> exists i :: 0 <= i < |prs| && ProjectRow(prs[i]).None?)
    ensures r.Success? ==> r.value.filename == DefaultFilename
    ensures r.Success? ==> |r.value.sheet| == (if prs == [] then 0 else |prs| + 1)
    ensures r.Success? ==> ReadSheet(r.value.sheet) == ProjectRows(prs)
  {
    match ProjectRows(prs)
    case None => Failure(MissingField)
    case Some(rows) =>
      if writeOk then
        ReadSheetRoundTrip(rows);
        Success(ReportFile(DefaultFilename, Sheet(rows)))
      else Failure(WriteFailed)
  }
}
