/** `read_data(folder)`: every directory entry whose name ends in ".csv" is read
    in text mode; its first line, stripped and cut at every ",", gives the
    headers, and each later line, stripped and cut the same way, gives one row
    dict that pairs header i with field i. There is no quoting: a "," inside a
    field splits it. The directory is a given sequence of (name, text) pairs in
    listing order. */
module NaiveCsv {
  import opened Builtins

  /** Text mode with universal newlines: "\r\n" and a lone "\r" both read as "\n". */
  function Universal(s: string): (r: string)
    ensures '\r' !in r
    ensures |r| <= |s| && (r == [] <==> s == [])
    decreases |s|
  {
    if s == [] then []
    else if s[0] == '\r' then "\n" + Universal(if |s| > 1 && s[1] == '\n' then s[2..] else s[1..])
    else [s[0]] + Universal(s[1..])
  }

  lemma {:induction false} UniversalPlain(s: string)
    requires '\r' !in s
    ensures Universal(s) == s
    decreases |s|
  {
    if s != [] {
      UniversalPlain(s[1..]);
    }
  }

  /** The text cut after every "\n"; each line keeps its "\n", the last one
      may lack it. */
  function SplitLines(s: string): (r: seq<string>)
    ensures (r == []) == (s == [])
    ensures forall i :: 0 <= i < |r| ==> r[i] != [] && '\n' !in r[i][..|r[i]| - 1]
    ensures forall i :: 0 <= i < |r| - 1 ==> r[i][|r[i]| - 1] == '\n'
    decreases |s|
  {
    if s == [] then []
    else
      var rest := SplitLines(s[1..]);
      if s[0] == '\n' then ["\n"] + rest
      else if rest == [] then [[s[0]]]
      else
        assert [s[0]] + rest[0] != [];
        assert ([s[0]] + rest[0])[..|[s[0]] + rest[0]| - 1] == [s[0]] + rest[0][..|rest[0]| - 1];
        [[s[0]] + rest[0]] + rest[1..]
  }

  function Concat(ls: seq<string>): string {
    if ls == [] then [] else ls[0] + Concat(ls[1..])
  }

  /** Cutting into lines loses no character. */
  lemma {:induction false} SplitLinesConcat(s: string)
    ensures Concat(SplitLines(s)) == s
    decreases |s|
  {
    if s != [] {
      SplitLinesConcat(s[1..]);
      var rest := SplitLines(s[1..]);
      if s[0] != '\n' && rest != [] {
        assert Concat(rest) == rest[0] + Concat(rest[1..]);
        assert Concat(SplitLines(s)) == ([s[0]] + rest[0]) + Concat(rest[1..]);
      }
      assert s == [s[0]] + s[1..];
    }
  }

  /** file.readlines() */
  function ReadLines(text: string): seq<string> {
    SplitLines(Universal(text))
  }

  /** line.strip().split(',') */
  function Fields(line: string): seq<string> {
    Split(Strip(line), ',')
  }

  /** {header: values[i] for i, header in enumerate(headers)}, the later of two
      equal headers winning. */
  function Zip(headers: seq<string>, values: seq<string>): (r: Record)
    requires |headers| <= |values|
    ensures r.Keys == set h | h in headers
    decreases |headers|
  {
    if headers == [] then map[]
    else
      var n := |headers| - 1;
      assert headers == headers[..n] + [headers[n]];
      Zip(headers[..n], values)[headers[n] := values[n]]
  }

  lemma {:induction false} ZipAt(headers: seq<string>, values: seq<string>, i: nat)
    requires |headers| <= |values| && i < |headers| && headers[i] !in headers[i + 1..]
    ensures Zip(headers, values)[headers[i]] == values[i]
    decreases |headers|
  {
    var n := |headers| - 1;
    if i < n {
      assert headers[n] in headers[i + 1..];
      assert headers[..n][i + 1..] == headers[i + 1..n];
      ZipAt(headers[..n], values, i);
    }
  }

  /** The row dict of one data line; values[i] past the end raises IndexError. */
  function RowOf(headers: seq<string>, values: seq<string>): Result<Record> {
    if |values| < |headers| then Err(IndexError) else Ok(Zip(headers, values))
  }

  /** A row has exactly the header columns, the last field under a repeated
      header wins, fields past the headers are dropped, and a short line raises
      IndexError. */
  lemma RowOfFields(headers: seq<string>, values: seq<string>)
    ensures RowOf(headers, values).Ok? <==> |headers| <= |values|
    ensures RowOf(headers, values).Err? ==> RowOf(headers, values).error == IndexError
    ensures RowOf(headers, values).Ok? ==>
      && RowOf(headers, values).value.Keys == set h | h in headers
      && forall i :: 0 <= i < |headers| && headers[i] !in headers[i + 1..] ==>
           RowOf(headers, values).value[headers[i]] == values[i]
  {
    if |headers| <= |values| {
      forall i | 0 <= i < |headers| && headers[i] !in headers[i + 1..]
        ensures Zip(headers, values)[headers[i]] == values[i]
      {
        ZipAt(headers, values, i);
      }
    }
  }

  function RowOfLine(headers: seq<string>, line: string): Result<Option<Record>> {
    match RowOf(headers, Fields(line))
    case Ok(row) => Ok(Some(row))
    case Err(e) => Err(e)
  }

  /** The loop body of `for line in lines[1:]`. */
  function LineRow(headers: seq<string>): string -> Result<Option<Record>> {
    line => RowOfLine(headers, line)
  }

  /** The rows of a file already split into lines: the header line and the
      data lines after it; lines[0] of an empty file raises IndexError. */
  function LinesRows(lines: seq<string>): Result<seq<Record>> {
    if lines == [] then Err(IndexError) else Collect(lines[1..], LineRow(Fields(lines[0])))
  }

  /** The rows of one file. */
  function FileRows(text: string): Result<seq<Record>> {
    LinesRows(ReadLines(text))
  }

  /** name.endswith('.csv') */
  predicate IsCsv(name: string) {
    |name| >= 4 && name[|name| - 4..] == ".csv"
  }

  /** What read_data returns for the directory: the rows of its .csv files in
      listing order, or the first error. */
  function ReadDataSpec(files: seq<(string, string)>): Result<seq<Record>> {
    if files == [] then Ok([])
    else if !IsCsv(files[0].0) then ReadDataSpec(files[1..])
    else match FileRows(files[0].1)
      case Err(e) => Err(e)
      case Ok(rows) => Prepend(rows, ReadDataSpec(files[1..]))
  }

  /** The body of the `with open(...)` block: one file's rows. */
  method ReadFile(text: string) returns (r: Result<seq<Record>>)
    ensures r == FileRows(text)
  {
    var lines := ReadLines(text);
    r := RowsOfLines(lines);
  }

  /** `headers = lines[0]...` and the loop over `lines[1:]`. */
  method RowsOfLines(lines: seq<string>) returns (r: Result<seq<Record>>)
    ensures r == LinesRows(lines)
  {
    if lines == [] {
      return Err(IndexError);
    }
    var headers := Fields(lines[0]);
    var rows: seq<Record> := [];
    PrependNothing(LinesRows(lines));
    var j := 1;
    while j < |lines|
      invariant 1 <= j <= |lines|
      invariant LinesRows(lines) == Prepend(rows, Collect(lines[j..], LineRow(headers)))
    {
      assert lines[j..][0] == lines[j] && lines[j..][1..] == lines[j + 1..];
      var values := Fields(lines[j]);
      assert LineRow(headers)(lines[j]) == RowOfLine(headers, lines[j]);
      if |values| < |headers| {
        assert Collect(lines[j..], LineRow(headers)) == Err(IndexError);
        return Err(IndexError);
      }
      var row := Zip(headers, values);
      assert LineRow(headers)(lines[j]) == Ok(Some(row));
      CollectStep(lines[j..], LineRow(headers));
      PrependAssoc(rows, [row], Collect(lines[j + 1..], LineRow(headers)));
      rows := rows + [row];
      j := j + 1;
    }
    assert rows + [] == rows;
    return Ok(rows);
  }

  method ReadData(files: seq<(string, string)>) returns (r: Result<seq<Record>>)
    ensures r == ReadDataSpec(files)
  {
    var data: seq<Record> := [];
    PrependNothing(ReadDataSpec(files));
    var i := 0;
    while i < |files|
      invariant 0 <= i <= |files|
      invariant ReadDataSpec(files) == Prepend(data, ReadDataSpec(files[i..]))
    {
      assert files[i..][0] == files[i] && files[i..][1..] == files[i + 1..];
      if IsCsv(files[i].0) {
        var rows := ReadFile(files[i].1);
        if rows.Err? {
          return Err(rows.error);
        }
        PrependAssoc(data, rows.value, ReadDataSpec(files[i + 1..]));
        data := data + rows.value;
      }
      i := i + 1;
    }
    assert data + [] == data;
    return Ok(data);
  }

  // ---------------------------------------------------------------------------
  // What read_data promises

  lemma LineRowsErr(tail: seq<string>, headers: seq<string>)
    ensures Collect(tail, LineRow(headers)).Err? <==> exists k :: 0 <= k < |tail| && |Fields(tail[k])| < |headers|
    ensures Collect(tail, LineRow(headers)).Err? ==> Collect(tail, LineRow(headers)).error == IndexError
  {
    var f := LineRow(headers);
    CollectErr(tail, f);
    forall k | 0 <= k < |tail| ensures f(tail[k]).Err? <==> |Fields(tail[k])| < |headers| { }
    if Collect(tail, f).Err? {
      var k :| 0 <= k < |tail| && f(tail[k]) == Err(Collect(tail, f).error) && forall j :: 0 <= j < k ==> f(tail[j]).Ok?;
    }
  }

  /** A short data line at j makes the whole file fail. */
  lemma ShortLineErr(lines: seq<string>, j: int)
    requires 1 <= j < |lines| && |Fields(lines[j])| < |Fields(lines[0])|
    ensures LinesRows(lines).Err?
  {
    var tail, headers := lines[1..], Fields(lines[0]);
    assert tail[j - 1] == lines[j];
    LineRowsErr(tail, headers);
  }

  lemma LinesRowsErr(lines: seq<string>)
    ensures LinesRows(lines).Err? ==> LinesRows(lines).error == IndexError
    ensures LinesRows(lines).Err? <==>
      lines == [] || exists j :: 1 <= j < |lines| && |Fields(lines[j])| < |Fields(lines[0])|
  {
    if lines != [] {
      var tail, headers := lines[1..], Fields(lines[0]);
      LineRowsErr(tail, headers);
      if LinesRows(lines).Err? {
        var k :| 0 <= k < |tail| && |Fields(tail[k])| < |headers|;
        assert tail[k] == lines[k + 1];
      }
      forall j | 1 <= j < |lines| && |Fields(lines[j])| < |headers|
        ensures LinesRows(lines).Err?
      {
        ShortLineErr(lines, j);
      }
    }
  }

  /** A file fails exactly when it is empty or one of its data lines has fewer
      fields than there are headers, and then with IndexError. */
  lemma FileRowsErr(text: string)
    ensures text == [] ==> FileRows(text) == Err(IndexError)
    ensures FileRows(text).Err? ==> FileRows(text).error == IndexError
    ensures var lines := ReadLines(text);
      FileRows(text).Err? <==>
        lines == [] || exists j :: 1 <= j < |lines| && |Fields(lines[j])| < |Fields(lines[0])|
  {
    LinesRowsErr(ReadLines(text));
  }

  /** Every data line of a file becomes one row, in order. */
  lemma FileRowsOk(text: string)
    requires FileRows(text).Ok?
    ensures var lines := ReadLines(text);
      && lines != []
      && |FileRows(text).value| == |lines| - 1
      && forall j :: 1 <= j < |lines| ==> RowOf(Fields(lines[0]), Fields(lines[j])) == Ok(FileRows(text).value[j - 1])
  {
    var lines := ReadLines(text);
    var tail, f := lines[1..], LineRow(Fields(lines[0]));
    CollectMap(tail, f);
    forall j | 1 <= j < |lines| ensures RowOf(Fields(lines[0]), Fields(lines[j])) == Ok(FileRows(text).value[j - 1]) {
      assert tail[j - 1] == lines[j];
    }
  }

  /** The .csv entries of the directory listing, in order. */
  function CsvFiles(files: seq<(string, string)>): (r: seq<(string, string)>)
    ensures forall i :: 0 <= i < |r| ==> IsCsv(r[i].0) && r[i] in files
  {
    if files == [] then []
    else if IsCsv(files[0].0) then [files[0]] + CsvFiles(files[1..])
    else CsvFiles(files[1..])
  }

  /** Entries whose names do not end in ".csv" contribute nothing. */
  lemma {:induction false} ReadDataCsvOnly(files: seq<(string, string)>)
    ensures ReadDataSpec(files) == ReadDataSpec(CsvFiles(files))
  {
    if files != [] {
      ReadDataCsvOnly(files[1..]);
      if IsCsv(files[0].0) {
        var c := CsvFiles(files);
        assert c[0] == files[0] && c[1..] == CsvFiles(files[1..]);
      }
    }
  }

  /** The number of data lines over the .csv entries. */
  function DataLines(files: seq<(string, string)>): int {
    if files == [] then 0
    else (if IsCsv(files[0].0) then |ReadLines(files[0].1)| - 1 else 0) + DataLines(files[1..])
  }

  /** read_data yields one row per data line of every .csv entry. */
  lemma {:induction false} ReadDataCount(files: seq<(string, string)>)
    ensures ReadDataSpec(files).Ok? ==> |ReadDataSpec(files).value| == DataLines(files)
  {
    if files != [] {
      ReadDataCount(files[1..]);
      if IsCsv(files[0].0) && FileRows(files[0].1).Ok? {
        FileRowsOk(files[0].1);
      }
    }
  }
}
