/**
 * What the two CSV importers accept, as functions of their input: the
 * streaming importer (ImportDescriptionsFromCsvStreamAsync) over the lines
 * its reader yields, and the string importer (ImportDescriptionsFromCsvAsync)
 * over the whole text. Both skip one header line, split each line, take one
 * column and filter its trimmed value.
 */
module Import {
  import opened Wrappers
  import opened Text
  import opened Csv

  /** The streaming importer keeps only values longer than this. */
  const MinContentLength: nat := 10

  /** The failures the importers report (each wrapped by the source in
      "Error importing CSV: ..."); `column` is the 1-based column number, as
      ReportedColumn computes it. */
  datatype ImportError =
    | NoLongDescriptions(column: int)   // streaming: nothing longer than 10 characters was found
    | NoValidDescriptions(column: int)  // string: nothing non-blank was found
    | CsvEmpty                          // string: no non-empty line at all
    | IndexOutOfRange                   // string: a negative column index reached columns[columnIndex]

  /** The column number an error reports: `columnIndex + 1` in C#'s 32-bit
      `int` arithmetic, which wraps around past int.MaxValue. */
  function ReportedColumn(columnIndex: int): (c: int)
    ensures -0x8000_0000 <= c < 0x8000_0000
    ensures (c - (columnIndex + 1)) % 0x1_0000_0000 == 0
  {
    (columnIndex + 1 + 0x8000_0000) % 0x1_0000_0000 - 0x8000_0000
  }

  /** Within the range of `int` the reported number is the 1-based column. */
  lemma ReportedColumnInRange(columnIndex: int)
    requires -0x8000_0000 <= columnIndex < 0x7FFF_FFFF
    ensures ReportedColumn(columnIndex) == columnIndex + 1
  {
  }

  /** At int.MaxValue the addition wraps to int.MinValue. */
  lemma ReportedColumnWraps()
    ensures ReportedColumn(0x7FFF_FFFF) == -0x8000_0000
  {
  }

  /** The lines after the header; an empty input has no header either. */
  function DataLines(lines: seq<string>): (r: seq<string>)
    ensures |r| == if lines == [] then 0 else |lines| - 1
    ensures forall j :: 0 <= j < |r| ==> r[j] == lines[j + 1]
  {
    if lines == [] then [] else lines[1..]
  }

  /** The value one line contributes to the streaming import, if any: blank
      lines, lines with too few columns and values of 10 characters or fewer
      contribute nothing, and so does every line when the column index is
      negative (columns[columnIndex] throws and the per-line handler skips
      the line). */
  function StreamLineValue(line: string, columnIndex: int): (r: seq<string>)
    ensures |r| <= 1
    ensures r != [] ==>
              && !IsNullOrWhiteSpace(line) && 0 <= columnIndex < |Columns(line)|
              && r[0] == Trim(Columns(line)[columnIndex])
              && !IsNullOrWhiteSpace(r[0]) && |r[0]| > MinContentLength
  {
    if IsNullOrWhiteSpace(line) then []
    else
      var columns := Columns(line);
      if |columns| <= columnIndex || columnIndex < 0 then []
      else
        QuoteTrimIsNoOp(line, columnIndex);
        var content := TrimChar(Trim(columns[columnIndex]), '"');
        if !IsNullOrWhiteSpace(content) && |content| > MinContentLength then [content] else []
  }

  /** The value each line contributes to the streaming import, line by line. */
  function StreamLineValues(lines: seq<string>, columnIndex: int): (r: seq<seq<string>>)
    ensures |r| == |lines|
  {
    if lines == [] then [] else [StreamLineValue(lines[0], columnIndex)] + StreamLineValues(lines[1..], columnIndex)
  }

  /** Entry `j` is the value of line `j`. */
  lemma {:induction false} StreamLineValuesAt(lines: seq<string>, columnIndex: int, j: nat)
    requires j < |lines|
    ensures StreamLineValues(lines, columnIndex)[j] == StreamLineValue(lines[j], columnIndex)
  {
    if j > 0 {
      StreamLineValuesAt(lines[1..], columnIndex, j - 1);
    }
  }

  /** The values the data lines contribute, in line order, without a limit. */
  function StreamValues(lines: seq<string>, columnIndex: int): seq<string>
  {
    Concat(StreamLineValues(lines, columnIndex))
  }

  /** The first `maxRecords` values when `maxRecords` is positive, all of
      them otherwise. */
  function Limit(values: seq<string>, maxRecords: int): (r: seq<string>)
    ensures |r| <= |values| && r == values[..|r|]
    ensures maxRecords > 0 ==> |r| == if |values| < maxRecords then |values| else maxRecords
    ensures maxRecords <= 0 ==> r == values
  {
    if maxRecords > 0 && |values| > maxRecords then values[..maxRecords] else values
  }

  /** Once `maxRecords` values are collected from the front of `all`, they
      are what the limit keeps. */
  lemma LimitReached(all: seq<string>, collected: seq<string>, rest: seq<string>, maxRecords: int)
    requires all == collected + rest && maxRecords > 0 && |collected| == maxRecords
    ensures Limit(all, maxRecords) == collected
  {
    assert all[..maxRecords] == collected;
  }

  /** The values the streaming importer accepts from the lines of its input. */
  function StreamImport(lines: seq<string>, columnIndex: int, maxRecords: int): (r: seq<string>)
    ensures |r| <= |StreamValues(DataLines(lines), columnIndex)|
    ensures r == StreamValues(DataLines(lines), columnIndex)[..|r|]
    ensures maxRecords > 0 ==> |r| <= maxRecords
  {
    Limit(StreamValues(DataLines(lines), columnIndex), maxRecords)
  }

  /** Every value the streaming importer accepts comes from a non-blank line
      after the header that has more than `columnIndex` columns; it is that
      column, trimmed, non-blank and longer than 10 characters. */
  lemma StreamValueOrigin(lines: seq<string>, columnIndex: int, maxRecords: int, k: nat)
    requires k < |StreamImport(lines, columnIndex, maxRecords)|
    ensures var v := StreamImport(lines, columnIndex, maxRecords)[k];
            && !IsNullOrWhiteSpace(v) && |v| > MinContentLength
            && exists j :: 1 <= j < |lines| && !IsNullOrWhiteSpace(lines[j])
                 && 0 <= columnIndex < |Columns(lines[j])| && v == Trim(Columns(lines[j])[columnIndex])
  {
    var data := DataLines(lines);
    var parts := StreamLineValues(data, columnIndex);
    var all := Concat(parts);
    assert StreamImport(lines, columnIndex, maxRecords)[k] == all[k];
    ConcatOrigin(parts, k);
    var j :| 0 <= j < |parts| && all[k] in parts[j];
    StreamLineValuesAt(data, columnIndex, j);
    var line := data[j];
    assert line == lines[j + 1];
    assert !IsNullOrWhiteSpace(line) && 0 <= columnIndex < |Columns(line)|;
    var column := Columns(line)[columnIndex];
    assert all[k] == TrimChar(Trim(column), '"');
    QuoteTrimIsNoOp(line, columnIndex);
  }

  /** With `maxRecords` positive the import stops at exactly that many
      values, or takes everything if there are fewer. */
  lemma StreamImportLimit(lines: seq<string>, columnIndex: int, maxRecords: int)
    requires maxRecords > 0
    ensures |StreamImport(lines, columnIndex, maxRecords)| <= maxRecords
    ensures |StreamValues(DataLines(lines), columnIndex)| >= maxRecords ==>
              |StreamImport(lines, columnIndex, maxRecords)| == maxRecords
  {
  }

  lemma {:induction false} NegativeColumnValues(lines: seq<string>, columnIndex: int)
    requires columnIndex < 0
    ensures StreamValues(lines, columnIndex) == []
  {
    if lines != [] {
      NegativeColumnValues(lines[1..], columnIndex);
      var parts := StreamLineValues(lines, columnIndex);
      assert parts[1..] == StreamLineValues(lines[1..], columnIndex);
    }
  }

  /** A negative column index imports nothing in the streaming importer. */
  lemma NegativeColumnImportsNothing(lines: seq<string>, columnIndex: int, maxRecords: int)
    requires columnIndex < 0
    ensures StreamImport(lines, columnIndex, maxRecords) == []
  {
    NegativeColumnValues(DataLines(lines), columnIndex);
  }

  /** The value one data line contributes to the string import: the line is
      trimmed first, blank values are dropped, there is no length filter,
      and a negative column index is an error that ends the import. */
  function StringLineValue(line: string, columnIndex: int): (r: Result<seq<string>, ImportError>)
    ensures r.Success? ==> |r.value| <= 1
    ensures r.Failure? ==> r.error == IndexOutOfRange
  {
    var trimmed := Trim(line);
    if IsNullOrWhiteSpace(trimmed) then Success([])
    else
      var columns := Columns(trimmed);
      if |columns| <= columnIndex then Success([])
      else if columnIndex < 0 then Failure(IndexOutOfRange)
      else
        var content := TrimChar(Trim(columns[columnIndex]), '"');
        if !IsNullOrWhiteSpace(content) then Success([content]) else Success([])
  }

  /** The result each line gives the string import, line by line. */
  function StringLineResults(lines: seq<string>, columnIndex: int): (r: seq<Result<seq<string>, ImportError>>)
    ensures |r| == |lines|
  {
    if lines == [] then [] else [StringLineValue(lines[0], columnIndex)] + StringLineResults(lines[1..], columnIndex)
  }

  /** Entry `j` is the result of line `j`. */
  lemma {:induction false} StringLineResultsAt(lines: seq<string>, columnIndex: int, j: nat)
    requires j < |lines|
    ensures StringLineResults(lines, columnIndex)[j] == StringLineValue(lines[j], columnIndex)
  {
    if j > 0 {
      StringLineResultsAt(lines[1..], columnIndex, j - 1);
    }
  }

  /** `r` with `prefix` in front of its values; a failure stays as it is. */
  function Prepend(prefix: seq<string>, r: Result<seq<string>, ImportError>): (p: Result<seq<string>, ImportError>)
    ensures p.Failure? <==> r.Failure?
    ensures r.Failure? ==> p == r
    ensures r.Success? ==> p.value == prefix + r.value
  {
    match r
    case Failure(e) => Failure(e)
    case Success(values) => Success(prefix + values)
  }

  /** The values of the results concatenated in order, or the first failure. */
  function Gather(results: seq<Result<seq<string>, ImportError>>): Result<seq<string>, ImportError>
  {
    if results == [] then Success([])
    else match results[0]
      case Failure(e) => Failure(e)
      case Success(head) => Prepend(head, Gather(results[1..]))
  }

  /** Gathering fails exactly when some result is a failure, and then with
      the error of one that fails. */
  lemma {:induction false} GatherFailure(results: seq<Result<seq<string>, ImportError>>)
    ensures Gather(results).Failure? <==> exists j :: 0 <= j < |results| && results[j].Failure?
    ensures Gather(results).Failure? ==>
              exists j :: 0 <= j < |results| && results[j] == Failure(Gather(results).error)
  {
    if results != [] {
      var rest := results[1..];
      GatherFailure(rest);
      if exists j :: 0 <= j < |rest| && rest[j].Failure? {
        var j :| 0 <= j < |rest| && rest[j].Failure?;
        assert rest[j] == results[j + 1];
      }
      if results[0].Success? && Gather(rest).Failure? {
        var j :| 0 <= j < |rest| && rest[j] == Failure(Gather(rest).error);
        assert rest[j] == results[j + 1];
      }
      if exists j :: 0 <= j < |results| && results[j].Failure? {
        var j :| 0 <= j < |results| && results[j].Failure?;
        if j > 0 {
          assert rest[j - 1] == results[j];
        }
      }
    }
  }

  /** Each gathered value comes from a successful result. */
  lemma {:induction false} GatherOrigin(results: seq<Result<seq<string>, ImportError>>, k: nat)
    requires Gather(results).Success?
    requires k < |Gather(results).value|
    ensures exists j :: 0 <= j < |results| && results[j].Success? && Gather(results).value[k] in results[j].value
  {
    var head := results[0].value;
    var rest := results[1..];
    if k >= |head| {
      GatherOrigin(rest, k - |head|);
      var j :| 0 <= j < |rest| && rest[j].Success? && Gather(rest).value[k - |head|] in rest[j].value;
      assert rest[j] == results[j + 1];
    } else {
      assert Gather(results).value[k] == head[k];
    }
  }

  /** Gathering from result `i` on: a failure there is the outcome,
      otherwise its values come first. */
  lemma GatherStep(results: seq<Result<seq<string>, ImportError>>, i: nat)
    requires i < |results|
    ensures results[i].Failure? ==> Gather(results[i..]) == results[i]
    ensures results[i].Success? ==> Gather(results[i..]) == Prepend(results[i].value, Gather(results[i + 1..]))
  {
    assert results[i..][0] == results[i];
    assert results[i..][1..] == results[i + 1..];
  }

  /** One step of gathering from the left: with `done` gathered so far, a
      failing result `i` is the outcome, and a successful one joins `done`. */
  lemma GatherAdvance(results: seq<Result<seq<string>, ImportError>>, done: seq<string>, i: nat)
    requires i < |results|
    ensures results[i].Failure? ==> Prepend(done, Gather(results[i..])) == results[i]
    ensures results[i].Success? ==>
              Prepend(done, Gather(results[i..])) == Prepend(done + results[i].value, Gather(results[i + 1..]))
  {
    GatherStep(results, i);
    var rest := Gather(results[i + 1..]);
    if results[i].Success? && rest.Success? {
      assert done + (results[i].value + rest.value) == (done + results[i].value) + rest.value;
    }
  }

  /** Gathering all results from none done, and from all done. */
  lemma GatherEnds(results: seq<Result<seq<string>, ImportError>>, done: seq<string>)
    ensures Prepend([], Gather(results[0..])) == Gather(results)
    ensures Prepend(done, Gather(results[|results|..])) == Success(done)
  {
    assert results[0..] == results;
    assert results[|results|..] == [];
    assert done + [] == done;
    var all := Gather(results);
    if all.Success? {
      assert [] + all.value == all.value;
    }
  }

  /** The values of each result: its values when it succeeds, none when it fails. */
  function ValuesOf(results: seq<Result<seq<string>, ImportError>>): seq<seq<string>>
  {
    seq(|results|, j requires 0 <= j < |results| => if results[j].Success? then results[j].value else [])
  }

  /** A successful gather is the values of the results concatenated in
      result order. */
  lemma {:induction false} GatherConcat(results: seq<Result<seq<string>, ImportError>>)
    requires Gather(results).Success?
    ensures Gather(results).value == Concat(ValuesOf(results))
  {
    if results != [] {
      GatherConcat(results[1..]);
      assert ValuesOf(results)[1..] == ValuesOf(results[1..]);
    }
  }

  /** The values the data lines contribute, or the first line's error. A
      success holds the lines' values in line order. */
  function StringValues(lines: seq<string>, columnIndex: int): (r: Result<seq<string>, ImportError>)
    ensures r.Success? ==> r.value == Concat(ValuesOf(StringLineResults(lines, columnIndex)))
  {
    var results := StringLineResults(lines, columnIndex);
    if Gather(results).Success? then GatherConcat(results); Gather(results)
    else Gather(results)
  }

  /** A data line makes the string import fail exactly when the column index
      is negative and the trimmed line is not blank. */
  lemma StringLineFailsIff(line: string, columnIndex: int)
    ensures StringLineValue(line, columnIndex).Failure? <==> columnIndex < 0 && !IsNullOrWhiteSpace(Trim(line))
  {
  }

  /** What a kept value is: the chosen column of the trimmed line, trimmed. */
  lemma StringLineValueMeaning(line: string, columnIndex: int, v: string)
    requires StringLineValue(line, columnIndex).Success? && v in StringLineValue(line, columnIndex).value
    ensures !IsNullOrWhiteSpace(v) && !IsNullOrWhiteSpace(Trim(line))
    ensures 0 <= columnIndex < |Columns(Trim(line))| && v == Trim(Columns(Trim(line))[columnIndex])
  {
    var trimmed := Trim(line);
    assert !IsNullOrWhiteSpace(trimmed) && 0 <= columnIndex < |Columns(trimmed)|;
    var column := Columns(trimmed)[columnIndex];
    assert v == TrimChar(Trim(column), '"');
    QuoteTrimIsNoOp(trimmed, columnIndex);
  }

  /** The data lines make the string import fail exactly when the column
      index is negative and some trimmed line is not blank; the error is then
      the out-of-range index. */
  lemma StringValuesFailIff(lines: seq<string>, columnIndex: int)
    ensures StringValues(lines, columnIndex).Failure? <==>
              columnIndex < 0 && exists j :: 0 <= j < |lines| && !IsNullOrWhiteSpace(Trim(lines[j]))
    ensures StringValues(lines, columnIndex).Failure? ==> StringValues(lines, columnIndex).error == IndexOutOfRange
  {
    var results := StringLineResults(lines, columnIndex);
    GatherFailure(results);
    forall j | 0 <= j < |lines|
      ensures results[j].Failure? <==> columnIndex < 0 && !IsNullOrWhiteSpace(Trim(lines[j]))
      ensures results[j].Failure? ==> results[j] == Failure(IndexOutOfRange)
    {
      StringLineResultsAt(lines, columnIndex, j);
      StringLineFailsIff(lines[j], columnIndex);
    }
  }

  /** The outcome of the string importer: the values to store, or its error. */
  function StringImport(csvContent: string, columnIndex: int): (r: Result<seq<string>, ImportError>)
    ensures r.Success? ==> r.value != []
    ensures r == Failure(CsvEmpty) <==> SplitLines(csvContent) == []
  {
    var lines := SplitLines(csvContent);
    if lines == [] then Failure(CsvEmpty)
    else
      StringValuesFailIff(lines[1..], columnIndex);
      match StringValues(lines[1..], columnIndex)
      case Failure(e) => Failure(e)
      case Success(values) =>
        if values == [] then Failure(NoValidDescriptions(ReportedColumn(columnIndex))) else Success(values)
  }

  /** The string importer reports an empty file exactly when the text holds
      nothing but line feeds. */
  lemma StringImportEmptyIff(csvContent: string, columnIndex: int)
    ensures StringImport(csvContent, columnIndex) == Failure(CsvEmpty) <==>
            forall i :: 0 <= i < |csvContent| ==> csvContent[i] == '\n'
  {
    SplitLinesEmptyIff(csvContent);
    var lines := SplitLines(csvContent);
    if lines != [] {
      StringValuesFailIff(lines[1..], columnIndex);
    }
  }

  /** Every value the data lines contribute is the chosen column of some
      trimmed data line, trimmed and non-blank. */
  lemma StringValuesOrigin(lines: seq<string>, columnIndex: int, k: nat)
    requires StringValues(lines, columnIndex).Success?
    requires k < |StringValues(lines, columnIndex).value|
    ensures var v := StringValues(lines, columnIndex).value[k];
            && !IsNullOrWhiteSpace(v)
            && exists j :: 0 <= j < |lines| && !IsNullOrWhiteSpace(Trim(lines[j]))
                 && 0 <= columnIndex < |Columns(Trim(lines[j]))| && v == Trim(Columns(Trim(lines[j]))[columnIndex])
  {
    var results := StringLineResults(lines, columnIndex);
    var values := Gather(results).value;
    GatherOrigin(results, k);
    var j :| 0 <= j < |results| && results[j].Success? && values[k] in results[j].value;
    StringLineResultsAt(lines, columnIndex, j);
    StringLineValueMeaning(lines[j], columnIndex, values[k]);
  }

  /** Every value the string importer stores comes from a line after the
      header of the text split on line feeds; it is the chosen column of the
      trimmed line, trimmed and non-blank, whatever its length. */
  lemma StringValueOrigin(csvContent: string, columnIndex: int, k: nat)
    requires StringImport(csvContent, columnIndex).Success?
    requires k < |StringImport(csvContent, columnIndex).value|
    ensures var v := StringImport(csvContent, columnIndex).value[k];
            var lines := SplitLines(csvContent);
            && !IsNullOrWhiteSpace(v)
            && exists j :: 1 <= j < |lines| && !IsNullOrWhiteSpace(Trim(lines[j]))
                 && 0 <= columnIndex < |Columns(Trim(lines[j]))| && v == Trim(Columns(Trim(lines[j]))[columnIndex])
  {
    var lines := SplitLines(csvContent);
    assert lines != [];
    var data := lines[1..];
    assert StringValues(data, columnIndex).Success?;
    var v := StringValues(data, columnIndex).value[k];
    assert StringImport(csvContent, columnIndex).value[k] == v;
    StringValuesOrigin(data, columnIndex, k);
    var j :| 0 <= j < |data| && !IsNullOrWhiteSpace(Trim(data[j]))
                 && 0 <= columnIndex < |Columns(Trim(data[j]))| && v == Trim(Columns(Trim(data[j]))[columnIndex]);
    assert data[j] == lines[j + 1];
  }

  /** A short value (10 characters or fewer, no blanks, commas or quotes) in
      a one-column file: the streaming importer drops it, the string importer
      keeps it. */
  lemma ShortValueDivergence(header: string, v: string)
    requires 0 < |v| <= MinContentLength
    requires forall i :: 0 <= i < |v| ==> !IsWhiteSpace(v[i]) && v[i] != ',' && v[i] != '"'
    ensures StreamImport([header, v], 0, 0) == []
    ensures StringValues([v], 0) == Success([v])
  {
    TrimNothingToDrop(v, IsWhiteSpace);
    PlainSpan(v, []);
    assert v + [] == v;
    assert Columns(v) == [v] by { assert Glue(v, [[]]) == [v + []]; }
    TrimCharAbsent(v, '"');
    assert StreamLineValue(v, 0) == [];
    assert DataLines([header, v]) == [v];
    assert StreamValues([v], 0) == [] + StreamValues([], 0);
    assert StringLineValue(v, 0) == Success([v]);
    assert StringValues([v], 0) == Success([v] + []) by {
      assert [v][1..] == [];
      var results := StringLineResults([v], 0);
      assert results == [Success([v])];
      assert results[1..] == [];
      assert Gather(results) == Prepend([v], Gather([]));
    }
  }

  /** The same short value read end to end from a two-line text (the header,
      a line feed, the value): the string importer stores exactly that value. */
  lemma ShortValueImportedWhole(header: string, v: string)
    requires header != [] && forall i :: 0 <= i < |header| ==> header[i] != '\n'
    requires 0 < |v| <= MinContentLength
    requires forall i :: 0 <= i < |v| ==> !IsWhiteSpace(v[i]) && v[i] != ',' && v[i] != '"'
    ensures StringImport(header + "\n" + v, 0) == Success([v])
  {
    ShortValueDivergence(header, v);
    assert forall i :: 0 <= i < |v| ==> v[i] != '\n' by {
      forall i | 0 <= i < |v| ensures v[i] != '\n' { assert !IsWhiteSpace(v[i]); }
    }
    SplitTwoLines(header, v);
    assert SplitLines(header + "\n" + v)[1..] == [v];
  }
}
