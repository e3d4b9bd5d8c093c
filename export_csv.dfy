/** The row generation of the command-result CSV export
    (exportSystemUsersToCSV.go, `writeResultsToCSV`): a fixed header, then
    one row per non-blank line of each result's output. Rows are modelled as
    the records handed to the CSV writer, not as encoded bytes. */
module ExportCsv {
  import opened GoStrings

  /** A command result: the system it ran on, when it was requested, and
      its output text. */
  datatype JCCommandResult = JCCommandResult(system: string, requestTime: string, output: string)

  const Header: seq<string> := ["SYSTEM ID", "USERNAME", "JUMPCLOUD USERNAME", "COMMAND REQUEST TIME"]

  /** The rows for the given output lines of `res`, in line order: each line
      is trimmed, and each non-empty trimmed line gives
      `[system, line, "", requestTime]`. */
  function LineRows(res: JCCommandResult, lines: seq<string>): seq<seq<string>>
  {
    if lines == [] then []
    else
      var line := TrimSpace(lines[|lines| - 1]);
      LineRows(res, lines[..|lines| - 1])
        + (if line != "" then [[res.system, line, "", res.requestTime]] else [])
  }

  /** The rows for one result: its output split on line feeds. */
  function ResultRows(res: JCCommandResult): seq<seq<string>>
  {
    LineRows(res, Split(res.output, '\n'))
  }

  /** The data rows for all results, in result order. */
  function DataRows(results: seq<JCCommandResult>): seq<seq<string>>
  {
    if results == [] then []
    else DataRows(results[..|results| - 1]) + ResultRows(results[|results| - 1])
  }

  /** Everything the export writes: the header, then the data rows. */
  function CsvRows(results: seq<JCCommandResult>): (rows: seq<seq<string>>)
    ensures |rows| >= 1 && rows[0] == Header
    ensures rows[1..] == DataRows(results)
  {
    [Header] + DataRows(results)
  }

  /** A data row written for `res`: four fields, the result's system, a
      non-empty trimmed line, an empty placeholder, the request time. */
  ghost predicate IsDataRowOf(row: seq<string>, res: JCCommandResult)
  {
    && |row| == 4
    && row[0] == res.system
    && row[1] != ""
    && !IsSpace(row[1][0]) && !IsSpace(row[1][|row[1]| - 1])
    && row[2] == ""
    && row[3] == res.requestTime
  }

  /** The number of lines that are not blank once trimmed. */
  function NonBlankCount(lines: seq<string>): nat
  {
    if lines == [] then 0
    else NonBlankCount(lines[..|lines| - 1]) + (if AnyNonSpace(lines[|lines| - 1]) then 1 else 0)
  }

  /** `s` holds a character that is not white space. */
  predicate AnyNonSpace(s: string)
  {
    exists k :: 0 <= k < |s| && !IsSpace(s[k])
  }

  function TotalNonBlank(results: seq<JCCommandResult>): nat
  {
    if results == [] then 0
    else TotalNonBlank(results[..|results| - 1]) + NonBlankCount(Split(results[|results| - 1].output, '\n'))
  }

  /** Every row for a result has the shape of a data row of that result. */
  lemma {:induction false} LineRowsShape(res: JCCommandResult, lines: seq<string>)
    ensures forall k :: 0 <= k < |LineRows(res, lines)| ==> IsDataRowOf(LineRows(res, lines)[k], res)
  {
    if lines != [] {
      LineRowsShape(res, lines[..|lines| - 1]);
    }
  }

  /** One row per line that is not blank. */
  lemma {:induction false} LineRowsCount(res: JCCommandResult, lines: seq<string>)
    ensures |LineRows(res, lines)| == NonBlankCount(lines)
  {
    if lines != [] {
      LineRowsCount(res, lines[..|lines| - 1]);
      TrimSpaceEmpty(lines[|lines| - 1]);
    }
  }

  /** Every data row belongs to one of the results. */
  lemma {:induction false} DataRowsShape(results: seq<JCCommandResult>, k: nat)
    requires k < |DataRows(results)|
    ensures exists i :: 0 <= i < |results| && IsDataRowOf(DataRows(results)[k], results[i])
  {
    var init, last := results[..|results| - 1], results[|results| - 1];
    if k < |DataRows(init)| {
      DataRowsShape(init, k);
      var i :| 0 <= i < |init| && IsDataRowOf(DataRows(init)[k], init[i]);
      assert init[i] == results[i];
    } else {
      LineRowsShape(last, Split(last.output, '\n'));
      assert DataRows(results)[k] == ResultRows(last)[k - |DataRows(init)|];
    }
  }

  /** There are as many data rows as non-blank lines over all outputs. */
  lemma {:induction false} DataRowsCount(results: seq<JCCommandResult>)
    ensures |DataRows(results)| == TotalNonBlank(results)
  {
    if results != [] {
      var last := results[|results| - 1];
      DataRowsCount(results[..|results| - 1]);
      LineRowsCount(last, Split(last.output, '\n'));
    }
  }

  /** Rows follow result order: the rows of a concatenation of result lists
      are the rows of the first list, then those of the second. */
  lemma {:induction false} DataRowsAppend(a: seq<JCCommandResult>, b: seq<JCCommandResult>)
    ensures DataRows(a + b) == DataRows(a) + DataRows(b)
    decreases |b|
  {
    if b == [] {
      assert a + b == a;
    } else {
      var b' := b[..|b| - 1];
      var last := b[|b| - 1];
      assert (a + b)[..|a + b| - 1] == a + b';
      assert (a + b)[|a + b| - 1] == last;
      assert DataRows(a + b) == DataRows(a + b') + ResultRows(last);
      assert DataRows(b) == DataRows(b') + ResultRows(last);
      DataRowsAppend(a, b');
    }
  }

  /** One more result adds its rows at the end. */
  lemma CsvRowsSnoc(results: seq<JCCommandResult>, i: nat)
    requires i < |results|
    ensures CsvRows(results[..i + 1]) == CsvRows(results[..i]) + ResultRows(results[i])
  {
    assert results[..i + 1][..i] == results[..i];
  }

  /** Rows follow line order within a result. */
  lemma {:induction false} LineRowsAppend(res: JCCommandResult, a: seq<string>, b: seq<string>)
    ensures LineRows(res, a + b) == LineRows(res, a) + LineRows(res, b)
    decreases |b|
  {
    if b == [] {
      assert a + b == a;
    } else {
      var b' := b[..|b| - 1];
      assert (a + b)[..|a + b| - 1] == a + b';
      LineRowsAppend(res, a, b');
    }
  }

  /** A result contributes no rows exactly when its output is empty or all
      white space. */
  lemma ResultRowsEmpty(res: JCCommandResult)
    ensures ResultRows(res) == [] <==> AllSpace(res.output)
  {
    var lines := Split(res.output, '\n');
    LineRowsEmpty(res, lines);
    SplitAllSpace(res.output, '\n');
  }

  lemma {:induction false} LineRowsEmpty(res: JCCommandResult, lines: seq<string>)
    ensures LineRows(res, lines) == [] <==> AllPiecesSpace(lines)
  {
    if lines != [] {
      var init, last := lines[..|lines| - 1], lines[|lines| - 1];
      LineRowsEmpty(res, init);
      TrimSpaceEmpty(last);
      assert AllPiecesSpace(lines) <==> AllPiecesSpace(init) && AllSpace(last) by {
        assert lines == init + [last];
        assert forall k :: 0 <= k < |init| ==> lines[k] == init[k];
      }
    }
  }

  /** One result with output "line1\n\nline2  \n" gives the header and two
      rows: the blank line is skipped and the trailing spaces are trimmed. */
  lemma ExportExample()
    ensures var res := JCCommandResult("S1", "2024-01-01T00:00:00Z", "line1\n\nline2  \n");
      CsvRows([res]) == [Header, ["S1", "line1", "", "2024-01-01T00:00:00Z"],
                                 ["S1", "line2", "", "2024-01-01T00:00:00Z"]]
  {
    var res := JCCommandResult("S1", "2024-01-01T00:00:00Z", "line1\n\nline2  \n");
    var rows := [[res.system, "line1", "", res.requestTime], [res.system, "line2", "", res.requestTime]];
    ExampleSplit();
    ExampleLineRows(res);
    assert ResultRows(res) == rows;
    assert [res][..0] == [];
    assert DataRows([res]) == DataRows([]) + ResultRows(res);
  }

  lemma ExampleSplit()
    ensures Split("line1\n\nline2  \n", '\n') == ["line1", "", "line2  ", ""]
  {
    var pieces := ["line1", "", "line2  ", ""];
    assert pieces[1..] == ["", "line2  ", ""];
    assert pieces[1..][1..] == ["line2  ", ""];
    assert pieces[1..][1..][1..] == [""];
    assert Join(pieces, '\n') == "line1\n\nline2  \n";
    SplitJoin(pieces, '\n');
  }

  lemma ExampleTrim()
    ensures TrimSpace("line1") == "line1"
    ensures TrimSpace("") == ""
    ensures TrimSpace("line2  ") == "line2"
  {
    assert TrimRight("line2  ") == "line2";
  }

  lemma ExampleLineRows(res: JCCommandResult)
    ensures LineRows(res, ["line1", "", "line2  ", ""])
         == [[res.system, "line1", "", res.requestTime], [res.system, "line2", "", res.requestTime]]
  {
    var pieces := ["line1", "", "line2  ", ""];
    ExampleTrim();
    assert pieces[..3] == ["line1", "", "line2  "];
    assert pieces[..3][..2] == ["line1", ""];
    assert pieces[..3][..2][..1] == ["line1"];
    assert pieces[..3][..2][..1][..0] == [];
    var row1 := [res.system, "line1", "", res.requestTime];
    var row2 := [res.system, "line2", "", res.requestTime];
    assert LineRows(res, ["line1"]) == [row1];
    assert LineRows(res, ["line1", ""]) == [row1];
    assert LineRows(res, ["line1", "", "line2  "]) == [row1, row2];
  }

  /** A buffered CSV writer over an initially empty destination: `Write`
      adds a record to the buffer, `Flush` passes the buffer on to the
      destination. `flushMarks` records how many records the destination
      held after each flush. */
  class CsvWriter {
    var written: seq<seq<string>>
    var buffer: seq<seq<string>>
    ghost var flushMarks: seq<nat>

    constructor ()
      ensures written == [] && buffer == [] && flushMarks == []
    {
      written, buffer := [], [];
      flushMarks := [];
    }

    /** All records handed to the writer so far, flushed or not. */
    function Records(): seq<seq<string>>
      reads this
    {
      written + buffer
    }

    method Write(record: seq<string>)
      modifies this`buffer
      ensures buffer == old(buffer) + [record]
    {
      buffer := buffer + [record];
    }

    method Flush()
      modifies this`written, this`buffer, this`flushMarks
      ensures written == old(written) + old(buffer) && buffer == []
      ensures flushMarks == old(flushMarks) + [|written|]
    {
      written := written + buffer;
      buffer := [];
      flushMarks := flushMarks + [|written|];
    }
  }

  /** Writes the header and flushes, then for each result writes one row per
      non-blank trimmed line of its output and flushes. Afterwards the
      destination holds exactly CsvRows(results), nothing is left buffered,
      and the flushes happened after the header and after each result. */
  method WriteResultsToCSV(results: seq<JCCommandResult>) returns (w: CsvWriter)
    ensures fresh(w)
    ensures w.written == CsvRows(results) && w.buffer == []
    ensures |w.flushMarks| == |results| + 1
    ensures forall i :: 0 <= i <= |results| ==> w.flushMarks[i] == |CsvRows(results[..i])|
  {
    w := new CsvWriter();
    w.Write(Header);
    w.Flush();
    assert results[..0] == [];
    for i := 0 to |results|
      invariant w.written == CsvRows(results[..i]) && w.buffer == []
      invariant |w.flushMarks| == i + 1
      invariant forall m :: 0 <= m <= i ==> w.flushMarks[m] == |CsvRows(results[..m])|
    {
      var result := results[i];
      var lines := Split(result.output, '\n');
      for j := 0 to |lines|
        invariant w.written == CsvRows(results[..i])
        invariant w.buffer == LineRows(result, lines[..j])
        invariant |w.flushMarks| == i + 1
        invariant forall m :: 0 <= m <= i ==> w.flushMarks[m] == |CsvRows(results[..m])|
      {
        var line := lines[j];
        line := TrimSpace(line);
        if line != "" {
          w.Write([result.system, line, "", result.requestTime]);
        }
        assert lines[..j + 1][..j] == lines[..j];
      }
      assert lines[..|lines|] == lines;
      CsvRowsSnoc(results, i);
      w.Flush();
    }
    assert results[..|results|] == results;
  }
}
