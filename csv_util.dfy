/**
 * utils/CsvUtil.java: turns the lines of a CSV file into FormData records.
 *
 * Reading the file is left out; the input is the sequence of lines `readLine()` returns.
 * The first line is a header and is discarded. Each remaining line is split on every
 * comma with `String.split(",")` (no quoting: a comma inside quotes still separates
 * fields, and empty fields at the end of the line are dropped), must yield at least
 * eleven fields, has every field trimmed and a byte order mark removed from the front of
 * its first field, and becomes one FormData whose fields are taken by position.
 */
module Csv {
  import opened Wrappers
  import opened JavaText
  import opened Models

  /** The number of FormData fields a row must supply. */
  const ExpectedColumns: nat := 11

  /** U+FEFF, the byte order mark a UTF-8 file may start with. */
  const Bom: char := '\U{FEFF}'

  /** `IllegalArgumentException` raised for a short row: the field count, the line, the fields. */
  datatype CsvError = TooFewColumns(found: nat, rawLine: string, columns: seq<string>)

  /** `Arrays.toString` of a string array. */
  function ArrayToString(items: seq<string>): string {
    "[" + Join(items, ", ") + "]"
  }

  const ShortRowPrefix := "Invalid CSV row \U{2013} expected 11 columns but found "
  const RawLineLabel := "\nRaw line: "
  const ColumnsLabel := "\nColumns parsed: "

  /** The exception's message: the field count in decimal, the line, and the fields. */
  function ErrorMessage(e: CsvError): string {
    ShortRowPrefix + NatToString(e.found) + RawLineLabel + e.rawLine + ColumnsLabel + ArrayToString(e.columns)
  }

  /** The fields of a line, as `line.split(",")` returns them. */
  function Fields(line: string): seq<string> {
    JavaSplit(line, ',')
  }

  /** Field `i` after the clean-up loop: trimmed, and for field 0 one leading BOM removed
      from the trimmed text. */
  function CleanField(i: nat, field: string): string {
    var t := Trim(field);
    if i == 0 && StartsWith(t, [Bom]) then t[1..] else t
  }

  /** The fields after the clean-up loop. */
  function CleanedRow(data: seq<string>): seq<string> {
    seq(|data|, i requires 0 <= i < |data| => CleanField(i, data[i]))
  }

  /** The clean-up loop, run on the split array in place. */
  method CleanRow(data: array<string>)
    modifies data
    ensures data[..] == CleanedRow(old(data[..]))
  {
    for i := 0 to data.Length
      invariant forall k :: 0 <= k < i ==> data[k] == CleanField(k, old(data[k]))
      invariant forall k :: i <= k < data.Length ==> data[k] == old(data[k])
    {
      CleanAt(data, i);
    }
    assert forall k :: 0 <= k < data.Length ==> data[..][k] == CleanedRow(old(data[..]))[k];
  }

  /** One turn of the clean-up loop: field `i` is trimmed, and field 0 loses a leading BOM. */
  method CleanAt(data: array<string>, i: nat)
    requires i < data.Length
    modifies data
    ensures data[i] == CleanField(i, old(data[i]))
    ensures forall k :: 0 <= k < data.Length && k != i ==> data[k] == old(data[k])
  {
    data[i] := Trim(data[i]);
    if i == 0 && StartsWith(data[i], [Bom]) {
      data[i] := data[i][1..];
    }
  }

  /** The FormData constructor call: field i is the i-th argument, fields past 10 unused. */
  function ToFormData(c: seq<string>): FormData
    requires |c| >= ExpectedColumns
  {
    FormData(c[0], c[1], c[2], c[3], c[4], c[5], c[6], c[7], c[8], c[9], c[10])
  }

  /** One data line: rejected when it splits into fewer than eleven fields. */
  function ParseRow(line: string): Result<FormData, CsvError> {
    var data := Fields(line);
    if |data| < ExpectedColumns then Err(TooFewColumns(|data|, line, data))
    else Ok(ToFormData(CleanedRow(data)))
  }

  /** Applies `parse` to each item in order; the first failure ends the run with its error. */
  function MapUntilError<X, T, E>(items: seq<X>, parse: X -> Result<T, E>): Result<seq<T>, E> {
    if items == [] then Ok([])
    else
      match MapUntilError(items[..|items| - 1], parse)
      case Err(e) => Err(e)
      case Ok(done) =>
        match parse(items[|items| - 1])
        case Err(e) => Err(e)
        case Ok(x) => Ok(done + [x])
  }

  /** The data lines in order; the first rejected line ends the parse with its error. */
  function ParseRows(lines: seq<string>): Result<seq<FormData>, CsvError> {
    MapUntilError(lines, ParseRow)
  }

  /** The whole file: the header line is skipped, an empty file gives no rows. */
  function FormDataFromLines(lines: seq<string>): Result<seq<FormData>, CsvError> {
    if lines == [] then Ok([]) else ParseRows(lines[1..])
  }

  /** The body of the read loop for one line: split, check the count, clean the fields in
      place, build the record. */
  method ReadRow(line: string) returns (r: Result<FormData, CsvError>)
    ensures r == ParseRow(line)
  {
    var fields := Fields(line);
    if |fields| < ExpectedColumns {
      return Err(TooFewColumns(|fields|, line, fields));
    }
    var data := new string[|fields|](i requires 0 <= i < |fields| => fields[i]);
    assert data[..] == fields;
    CleanRow(data);
    return Ok(ToFormData(data[..]));
  }

  /** `getFormDataFromCsv`, from the lines of the file. */
  method GetFormDataFromCsv(lines: seq<string>) returns (r: Result<seq<FormData>, CsvError>)
    ensures r == FormDataFromLines(lines)
  {
    if lines == [] {
      return Ok([]);
    }
    var dataList: seq<FormData> := [];
    var next := 1;
    while next < |lines|
      invariant 1 <= next <= |lines|
      invariant MapUntilError(lines[1..next], ParseRow) == Ok(dataList)
    {
      var row := ReadRow(lines[next]);
      RunStep(lines, ParseRow, next);
      match row
      case Err(e) =>
        return Err(e);
      case Ok(formData) =>
        dataList := dataList + [formData];
        next := next + 1;
    }
    AllDataLines(lines);
    return Ok(dataList);
  }

  /** When the loop ends it has read every data line. */
  lemma AllDataLines<X>(lines: seq<X>)
    requires lines != []
    ensures lines[1..|lines|] == lines[1..]
  {
  }

  /** The data lines before line `next`, and line `next`, seen from the slices the loop uses. */
  lemma DataLinesSplit<X>(lines: seq<X>, next: nat)
    requires 1 <= next < |lines|
    ensures lines[1..][..next - 1] == lines[1..next] && lines[1..][next - 1] == lines[next]
    ensures lines[1..next + 1][..next - 1] == lines[1..next] && lines[1..next + 1][next - 1] == lines[next]
  {
  }

  /** One turn of the read loop, for any item parser: a failing item ends the whole run
      with its error, a successful one extends the run so far by its result. */
  lemma RunStep<X, T, E>(items: seq<X>, parse: X -> Result<T, E>, next: nat)
    requires 1 <= next < |items|
    requires MapUntilError(items[1..next], parse).Ok?
    ensures parse(items[next]).Err? ==> MapUntilError(items[1..], parse) == Err(parse(items[next]).error)
    ensures parse(items[next]).Ok? ==>
      MapUntilError(items[1..next + 1], parse) ==
      Ok(MapUntilError(items[1..next], parse).value + [parse(items[next]).value])
  {
    DataLinesSplit(items, next);
    if parse(items[next]).Err? {
      StopsAtError(items[1..], parse, next - 1);
    } else {
      Extend(items[1..next + 1], parse, MapUntilError(items[1..next], parse).value, parse(items[next]).value);
    }
  }

  // ---------------------------------------------------------------------------
  // Properties
  // ---------------------------------------------------------------------------

  /** Once a prefix of the items fails, the whole run fails with that error. */
  lemma {:induction false} StopsAtError<X, T, E>(items: seq<X>, parse: X -> Result<T, E>, k: nat)
    requires k < |items|
    requires MapUntilError(items[..k], parse).Ok? && parse(items[k]).Err?
    ensures MapUntilError(items, parse) == Err(parse(items[k]).error)
  {
    if k + 1 == |items| {
      assert items[..|items| - 1] == items[..k];
    } else {
      var init := items[..|items| - 1];
      assert init[..k] == items[..k];
      StopsAtError(init, parse, k);
    }
  }

  /** One more successful item extends a successful run by its result. */
  lemma Extend<X, T, E>(items: seq<X>, parse: X -> Result<T, E>, done: seq<T>, x: T)
    requires items != []
    requires MapUntilError(items[..|items| - 1], parse) == Ok(done)
    requires parse(items[|items| - 1]) == Ok(x)
    ensures MapUntilError(items, parse) == Ok(done + [x])
  {
  }

  /** A successful run has one result per item, in order, each the item's own result. */
  lemma {:induction false} AllOk<X, T, E>(items: seq<X>, parse: X -> Result<T, E>)
    requires MapUntilError(items, parse).Ok?
    ensures |MapUntilError(items, parse).value| == |items|
    ensures forall i :: 0 <= i < |items| ==> parse(items[i]) == Ok(MapUntilError(items, parse).value[i])
  {
    if items != [] {
      var init := items[..|items| - 1];
      AllOk(init, parse);
      forall i | 0 <= i < |init| ensures items[i] == init[i] { }
    }
  }

  /** A run fails exactly when some item fails, and then with the error of the first one. */
  lemma {:induction false} FirstError<X, T, E>(items: seq<X>, parse: X -> Result<T, E>)
    ensures MapUntilError(items, parse).Err? <==> exists i :: 0 <= i < |items| && parse(items[i]).Err?
    ensures MapUntilError(items, parse).Err? ==>
      exists i :: 0 <= i < |items| &&
        parse(items[i]) == Err(MapUntilError(items, parse).error) &&
        forall j :: 0 <= j < i ==> parse(items[j]).Ok?
  {
    if items != [] {
      var init := items[..|items| - 1];
      var last := |items| - 1;
      FirstError(init, parse);
      forall i | 0 <= i < |init| ensures items[i] == init[i] { }
      if MapUntilError(init, parse).Ok? {
        AllOk(init, parse);
        if parse(items[last]).Err? {
          assert forall j :: 0 <= j < last ==> parse(items[j]).Ok?;
        }
      }
    }
  }

  /** The header line is always discarded: an empty file and a file holding only a header
      both give no rows, and the header is never checked. */
  lemma HeaderDiscarded(header: string, data: seq<string>)
    ensures FormDataFromLines([]) == Ok([])
    ensures FormDataFromLines([header]) == Ok([])
    ensures FormDataFromLines([header] + data) == ParseRows(data)
  {
    assert ([header] + data)[1..] == data;
  }

  /** After skipping the first item, a run succeeds exactly when every later item does,
      and then holds item i's result at position i - 1. */
  lemma {:induction false} SkipFirst<X, T, E>(items: seq<X>, parse: X -> Result<T, E>)
    requires items != []
    ensures MapUntilError(items[1..], parse).Ok? <==>
      forall i :: 1 <= i < |items| ==> parse(items[i]).Ok?
    ensures MapUntilError(items[1..], parse).Ok? ==>
      |MapUntilError(items[1..], parse).value| == |items| - 1 &&
      forall i :: 1 <= i < |items| ==> parse(items[i]) == Ok(MapUntilError(items[1..], parse).value[i - 1])
  {
    var rest := items[1..];
    FirstError(rest, parse);
    forall i | 1 <= i < |items| ensures items[i] == rest[i - 1] { }
    if MapUntilError(rest, parse).Ok? {
      AllOk(rest, parse);
    } else {
      var i :| 0 <= i < |rest| && parse(rest[i]).Err?;
      assert parse(items[i + 1]).Err?;
    }
  }

  /** A file is accepted exactly when every data line is, and then yields one record per
      data line, in file order, each the record of its line. */
  lemma {:induction false} FileRows(lines: seq<string>)
    requires lines != []
    ensures FormDataFromLines(lines).Ok? <==>
      forall i :: 1 <= i < |lines| ==> ParseRow(lines[i]).Ok?
    ensures FormDataFromLines(lines).Ok? ==>
      |FormDataFromLines(lines).value| == |lines| - 1 &&
      forall i :: 1 <= i < |lines| ==> ParseRow(lines[i]) == Ok(FormDataFromLines(lines).value[i - 1])
  {
    SkipFirst(lines, ParseRow);
  }

  /** A line is accepted exactly when its split has at least eleven fields. */
  lemma RowAccepted(line: string)
    ensures ParseRow(line).Ok? <==> |Fields(line)| >= ExpectedColumns
  {
  }

  /** A rejected row reports the number of fields the split produced, the line and the fields. */
  lemma ShortRowError(line: string)
    requires |Fields(line)| < ExpectedColumns
    ensures ParseRow(line) == Err(TooFewColumns(|Fields(line)|, line, Fields(line)))
    ensures var digits := NatToString(|Fields(line)|);
      ErrorMessage(ParseRow(line).error) ==
        ShortRowPrefix + digits + RawLineLabel + line + ColumnsLabel + ArrayToString(Fields(line)) &&
      DecimalValue(digits) == |Fields(line)| && (digits[0] == '0' <==> |Fields(line)| == 0)
  {
  }

  /** A blank line splits into one empty field and is rejected. */
  lemma BlankLineRejected()
    ensures ParseRow("") == Err(TooFewColumns(1, "", [""]))
  {
  }

  /** The fields are mapped by position: field i of the cleaned row is the i-th FormData
      field, every field but the first is exactly its trimmed text, and fields beyond the
      eleventh do not matter. */
  lemma {:induction false} PositionalMapping(line: string)
    requires |Fields(line)| >= ExpectedColumns
    ensures var f := Fields(line);
      ParseRow(line) == Ok(FormData(CleanField(0, f[0]), Trim(f[1]), Trim(f[2]), Trim(f[3]),
        Trim(f[4]), Trim(f[5]), Trim(f[6]), Trim(f[7]), Trim(f[8]), Trim(f[9]), Trim(f[10])))
  {
  }

  /** Two lines whose first eleven fields agree give the same record. */
  lemma {:induction false} ExtraFieldsIgnored(a: string, b: string)
    requires |Fields(a)| >= ExpectedColumns && |Fields(b)| >= ExpectedColumns
    requires Fields(a)[..ExpectedColumns] == Fields(b)[..ExpectedColumns]
    ensures ParseRow(a) == ParseRow(b)
  {
    var fa, fb := Fields(a), Fields(b);
    assert forall i :: 0 <= i < ExpectedColumns ==> fa[i] == fa[..ExpectedColumns][i];
    assert forall i :: 0 <= i < ExpectedColumns ==> fb[i] == fb[..ExpectedColumns][i];
    PositionalMapping(a);
    PositionalMapping(b);
  }

  /** The BOM is removed once, only from the first field, only after trimming: a second
      BOM stays, and the same text in another field keeps its BOM. */
  lemma BomRemovedOnce(rest: string)
    requires rest == Trim(rest)
    ensures CleanField(0, [Bom] + rest) == rest
    ensures CleanField(0, [Bom, Bom] + rest) == [Bom] + rest
    ensures CleanField(1, [Bom] + rest) == [Bom] + rest
  {
    assert Trim([Bom] + rest) == [Bom] + rest by {
      TrimOfTrimmed([Bom] + rest);
    }
    assert Trim([Bom, Bom] + rest) == [Bom, Bom] + rest by {
      TrimOfTrimmed([Bom, Bom] + rest);
    }
    assert ([Bom, Bom] + rest)[1..] == [Bom] + rest;
    assert ([Bom] + rest)[1..] == rest;
  }

  /** A row written as comma-free fields, the last of them non-empty, splits back into
      exactly those fields: with eleven or more of them it is read as their cleaned values. */
  lemma WrittenRowReadBack(fields: seq<string>)
    requires |fields| >= ExpectedColumns
    requires forall f | f in fields :: ',' !in f
    requires fields[|fields| - 1] != []
    ensures Fields(Join(fields, ",")) == fields
    ensures ParseRow(Join(fields, ",")) == Ok(ToFormData(CleanedRow(fields)))
  {
    JavaSplitOfJoin(fields, ',');
  }

  /** A row written as eleven comma-free fields whose last one is empty loses that field to
      the split and is rejected, although its text holds eleven columns. */
  lemma EmptyLastFieldRejected(fields: seq<string>)
    requires |fields| == ExpectedColumns
    requires forall f | f in fields :: ',' !in f
    requires fields[10] == []
    ensures |Fields(Join(fields, ","))| < ExpectedColumns
    ensures ParseRow(Join(fields, ",")).Err?
  {
    var line := Join(fields, ",");
    JoinSplitAll(fields, ',');
    assert line == fields[0] + "," + Join(fields[1..], ",");
    assert line[|fields[0]|] == ',';
  }
}
