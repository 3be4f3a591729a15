/**
 * The CSV line splitter of the importers (MatchingService.ParseCsvLine): a
 * comma outside quotes ends a column, every '"' toggles the quoted state and
 * is dropped, and every other character goes into the current column. There
 * is no escaped-quote form.
 */
module Csv {
  import opened Text

  /** The line with every '"' removed. */
  function RemoveQuotes(s: string): (r: string)
    ensures |r| <= |s|
  {
    if s == [] then []
    else if s[0] == '"' then RemoveQuotes(s[1..])
    else [s[0]] + RemoveQuotes(s[1..])
  }

  /** The number of commas met while not inside quotes, reading `s` from a
      state that is inside quotes when `inQuotes` holds. */
  function UnquotedCommas(s: string, inQuotes: bool): nat
  {
    if s == [] then 0
    else if s[0] == '"' then UnquotedCommas(s[1..], !inQuotes)
    else if s[0] == ',' && !inQuotes then 1 + UnquotedCommas(s[1..], inQuotes)
    else UnquotedCommas(s[1..], inQuotes)
  }

  /** Reference definition of the splitter, read from the right: the columns
      of `s` when reading starts in the given quoted state. The first column
      returned is the one that the first characters of `s` continue. */
  function ParseFrom(s: string, inQuotes: bool): (r: seq<string>)
    ensures |r| >= 1
  {
    if s == [] then [[]]
    else if s[0] == '"' then ParseFrom(s[1..], !inQuotes)
    else if s[0] == ',' && !inQuotes then [[]] + ParseFrom(s[1..], inQuotes)
    else Glue([s[0]], ParseFrom(s[1..], inQuotes))
  }

  /** The columns of a whole line, which starts outside quotes: one more
      than the commas outside quotes, joining back to the line without its
      quotes, and free of quotes themselves. */
  function Columns(line: string): (r: seq<string>)
    ensures |r| == 1 + UnquotedCommas(line, false)
    ensures Join(r, ",") == RemoveQuotes(line)
    ensures forall k, i :: 0 <= k < |r| && 0 <= i < |r[k]| ==> r[k][i] != '"'
  {
    ColumnCount(line, false);
    ColumnsJoin(line, false);
    ColumnsQuoteFree(line, false);
    ParseFrom(line, false)
  }

  /** ParseCsvLine, as the source writes it: one pass with the quoted state,
      the column being built and the finished columns. */
  method ParseCsvLine(line: string) returns (columns: seq<string>)
    ensures columns == Columns(line)
  {
    columns := [];
    var inQuotes := false;
    var currentColumn: string := [];
    GlueNothing(Columns(line));
    for i := 0 to |line|
      invariant columns + Glue(currentColumn, ParseFrom(line[i..], inQuotes)) == Columns(line)
    {
      var c := line[i];
      var rest := line[i + 1..];
      assert line[i..] == [c] + rest;
      if c == '"' {
        inQuotes := !inQuotes;
      } else if c == ',' && !inQuotes {
        var parts := ParseFrom(rest, inQuotes);
        assert Glue(currentColumn, [[]] + parts) == [currentColumn] + parts by {
          assert currentColumn + [] == currentColumn;
        }
        GlueNothing(parts);
        columns := columns + [currentColumn];
        currentColumn := [];
      } else {
        GlueGlue(currentColumn, [c], ParseFrom(rest, inQuotes));
        currentColumn := currentColumn + [c];
      }
    }
    assert line[|line|..] == [];
    assert Glue(currentColumn, [[]]) == [currentColumn] by {
      assert currentColumn + [] == currentColumn;
    }
    columns := columns + [currentColumn];
  }

  /** A line always yields at least one column, and exactly one more than the
      commas met outside quotes. */
  lemma {:induction false} ColumnCount(s: string, inQuotes: bool)
    ensures |ParseFrom(s, inQuotes)| == 1 + UnquotedCommas(s, inQuotes)
  {
    if s != [] {
      ColumnCount(s[1..], if s[0] == '"' then !inQuotes else inQuotes);
    }
  }

  /** Joining the columns with "," gives back the line without its quotes:
      the separators are exactly the commas outside quotes, and nothing else
      is lost or added. */
  lemma {:induction false} ColumnsJoin(s: string, inQuotes: bool)
    ensures Join(ParseFrom(s, inQuotes), ",") == RemoveQuotes(s)
  {
    if s == [] {
    } else if s[0] == '"' {
      ColumnsJoin(s[1..], !inQuotes);
    } else if s[0] == ',' && !inQuotes {
      ColumnsJoin(s[1..], inQuotes);
      var rest := ParseFrom(s[1..], inQuotes);
      assert ([[]] + rest)[1..] == rest;
    } else {
      ColumnsJoin(s[1..], inQuotes);
      JoinGlue([s[0]], ParseFrom(s[1..], inQuotes), ",");
    }
  }

  /** No column contains a '"'. */
  lemma {:induction false} ColumnsQuoteFree(s: string, inQuotes: bool)
    ensures forall k, i :: 0 <= k < |ParseFrom(s, inQuotes)| && 0 <= i < |ParseFrom(s, inQuotes)[k]| ==>
              ParseFrom(s, inQuotes)[k][i] != '"'
  {
    if s == [] {
    } else if s[0] == '"' {
      ColumnsQuoteFree(s[1..], !inQuotes);
    } else if s[0] == ',' && !inQuotes {
      ColumnsQuoteFree(s[1..], inQuotes);
      var rest := ParseFrom(s[1..], inQuotes);
      assert forall k :: 1 <= k < |rest| + 1 ==> ([[]] + rest)[k] == rest[k - 1];
    } else {
      ColumnsQuoteFree(s[1..], inQuotes);
      var rest := ParseFrom(s[1..], inQuotes);
      var g := Glue([s[0]], rest);
      assert forall k :: 1 <= k < |g| ==> g[k] == rest[k];
      assert forall i :: 1 <= i < |g[0]| ==> g[0][i] == rest[0][i - 1];
    }
  }

  /** The importers strip quotes from each trimmed column value; since no
      column holds a '"', that second trim never changes the value. */
  lemma QuoteTrimIsNoOp(line: string, k: nat)
    requires k < |Columns(line)|
    ensures TrimChar(Trim(Columns(line)[k]), '"') == Trim(Columns(line)[k])
  {
    ColumnsQuoteFree(line, false);
    var column := Columns(line)[k];
    TrimKeepsAbsent(column, '"');
    TrimCharAbsent(Trim(column), '"');
  }

  /** Inside quotes every character but '"' is copied into the current
      column, commas included; the closing '"' returns to the unquoted state. */
  lemma {:induction false} QuotedSpan(w: string, t: string)
    requires forall i :: 0 <= i < |w| ==> w[i] != '"'
    ensures ParseFrom(w + ['"'] + t, true) == Glue(w, ParseFrom(t, false))
  {
    if w == [] {
      assert w + ['"'] + t == ['"'] + t;
      GlueNothing(ParseFrom(t, false));
    } else {
      var s := w + ['"'] + t;
      assert s[0] == w[0] && s[1..] == w[1..] + ['"'] + t;
      QuotedSpan(w[1..], t);
      GlueGlue([w[0]], w[1..], ParseFrom(t, false));
      assert [w[0]] + w[1..] == w;
    }
  }

  /** Outside quotes, characters other than ',' and '"' are copied into the
      current column. */
  lemma {:induction false} PlainSpan(k: string, t: string)
    requires forall i :: 0 <= i < |k| ==> k[i] != ',' && k[i] != '"'
    ensures ParseFrom(k + t, false) == Glue(k, ParseFrom(t, false))
  {
    if k == [] {
      assert k + t == t;
      GlueNothing(ParseFrom(t, false));
    } else {
      var s := k + t;
      assert s[0] == k[0] && s[1..] == k[1..] + t;
      PlainSpan(k[1..], t);
      GlueGlue([k[0]], k[1..], ParseFrom(t, false));
      assert [k[0]] + k[1..] == k;
    }
  }

  /** A plain first column followed by a quoted second one: the quoted value
      keeps its embedded commas and loses its quotes, and the line has two
      columns, not more. */
  lemma QuotedCommaKept(k: string, w: string)
    requires forall i :: 0 <= i < |k| ==> k[i] != ',' && k[i] != '"'
    requires forall i :: 0 <= i < |w| ==> w[i] != '"'
    ensures Columns(k + [','] + ['"'] + w + ['"']) == [k, w]
  {
    var quoted := ['"'] + w + ['"'];
    assert quoted[1..] == w + ['"'] + [];
    QuotedSpan(w, []);
    assert Glue(w, [[]]) == [w] by { assert w + [] == w; }
    assert ParseFrom(quoted, false) == [w];
    var tail := [','] + quoted;
    assert tail[1..] == quoted;
    assert ParseFrom(tail, false) == [[], w];
    PlainSpan(k, tail);
    var g := Glue(k, [[], w]);
    assert g[0] == k && g[1..] == [w] by { assert k + [] == k; }
    assert g == [g[0]] + g[1..];
    assert k + [','] + ['"'] + w + ['"'] == k + tail;
  }
}
