/**
 * The .NET string operations the importers rely on: Char.IsWhiteSpace,
 * String.IsNullOrWhiteSpace, String.Trim(), String.Trim(char), String.Join and
 * String.Split(char, StringSplitOptions.RemoveEmptyEntries).
 */
module Text {

  /** Char.IsWhiteSpace: the Unicode space separators, line and paragraph
      separators, U+0009..U+000D, U+0085 and U+00A0. */
  predicate IsWhiteSpace(c: char)
  {
    c == ' ' || ('\t' <= c <= '\r') || c == '\U{85}' || c == '\U{A0}' || c == '\U{1680}'
    || ('\U{2000}' <= c <= '\U{200A}') || c == '\U{2028}' || c == '\U{2029}'
    || c == '\U{202F}' || c == '\U{205F}' || c == '\U{3000}'
  }

  /** String.IsNullOrWhiteSpace: empty, or white space only. */
  predicate IsNullOrWhiteSpace(s: string)
  {
    forall i :: 0 <= i < |s| ==> IsWhiteSpace(s[i])
  }

  /** Removes the leading characters that satisfy `drop`: the result is the
      longest suffix of `s` that does not start with such a character. */
  function TrimStart(s: string, drop: char -> bool): (r: string)
    ensures |r| <= |s|
    ensures forall i :: 0 <= i < |s| - |r| ==> drop(s[i])
    ensures r != [] ==> !drop(r[0])
  {
    if s != [] && drop(s[0]) then TrimStart(s[1..], drop) else s
  }

  /** Removes the trailing characters that satisfy `drop`: the result is the
      longest prefix of `s` that does not end with such a character. */
  function TrimEnd(s: string, drop: char -> bool): (r: string)
    ensures |r| <= |s|
    ensures forall i :: |r| <= i < |s| ==> drop(s[i])
    ensures r != [] ==> !drop(r[|r| - 1])
  {
    if s != [] && drop(s[|s| - 1]) then TrimEnd(s[..|s| - 1], drop) else s
  }

  /** What TrimStart keeps is a suffix of the string. */
  lemma {:induction false} TrimStartIsSuffix(s: string, drop: char -> bool)
    ensures TrimStart(s, drop) == s[|s| - |TrimStart(s, drop)|..]
  {
    if s != [] && drop(s[0]) {
      TrimStartIsSuffix(s[1..], drop);
      assert s[1..][|s[1..]| - |TrimStart(s[1..], drop)|..] == s[|s| - |TrimStart(s, drop)|..];
    }
  }

  /** What TrimEnd keeps is a prefix of the string. */
  lemma {:induction false} TrimEndIsPrefix(s: string, drop: char -> bool)
    ensures TrimEnd(s, drop) == s[..|TrimEnd(s, drop)|]
  {
    if s != [] && drop(s[|s| - 1]) {
      TrimEndIsPrefix(s[..|s| - 1], drop);
      assert s[..|s| - 1][..|TrimEnd(s, drop)|] == s[..|TrimEnd(s, drop)|];
    }
  }

  /** String.Trim(): strips white space at both ends. */
  function Trim(s: string): string
  {
    TrimEnd(TrimStart(s, IsWhiteSpace), IsWhiteSpace)
  }

  /** String.Trim(c): strips every occurrence of `c` at both ends. */
  function TrimChar(s: string, c: char): string
  {
    TrimEnd(TrimStart(s, x => x == c), x => x == c)
  }

  /** Trimming white space introduces no character: one absent from the
      original is absent from the result. */
  lemma TrimKeepsAbsent(s: string, c: char)
    requires forall i :: 0 <= i < |s| ==> s[i] != c
    ensures forall i :: 0 <= i < |Trim(s)| ==> Trim(s)[i] != c
  {
    var t := TrimStart(s, IsWhiteSpace);
    var r := TrimEnd(t, IsWhiteSpace);
    TrimStartIsSuffix(s, IsWhiteSpace);
    TrimEndIsPrefix(t, IsWhiteSpace);
    forall i | 0 <= i < |r| ensures r[i] != c {
      assert r[i] == t[i] == s[|s| - |t| + i];
    }
  }

  /** A string is blank exactly when trimming it leaves nothing. */
  lemma BlankIffTrimEmpty(s: string)
    ensures IsNullOrWhiteSpace(s) <==> Trim(s) == []
  {
    var t := TrimStart(s, IsWhiteSpace);
    TrimStartIsSuffix(s, IsWhiteSpace);
    assert forall i :: 0 <= i < |t| ==> t[i] == s[|s| - |t| + i];
  }

  /** Trimming changes nothing when no character is to be dropped. */
  lemma TrimNothingToDrop(s: string, drop: char -> bool)
    requires forall i :: 0 <= i < |s| ==> !drop(s[i])
    ensures TrimEnd(TrimStart(s, drop), drop) == s
  {
    var t := TrimStart(s, drop);
    TrimStartIsSuffix(s, drop);
    TrimEndIsPrefix(t, drop);
    assert |t| == |s|;
  }

  /** Trimming a character that does not occur changes nothing. */
  lemma TrimCharAbsent(s: string, c: char)
    requires forall i :: 0 <= i < |s| ==> s[i] != c
    ensures TrimChar(s, c) == s
  {
    TrimNothingToDrop(s, x => x == c);
  }

  /** String.Join: the parts with `sep` between neighbours. */
  function Join(parts: seq<string>, sep: string): string
  {
    if |parts| == 0 then []
    else if |parts| == 1 then parts[0]
    else parts[0] + sep + Join(parts[1..], sep)
  }

  /** The parts, concatenated in order. */
  function Concat<T>(parts: seq<seq<T>>): seq<T>
  {
    if parts == [] then [] else parts[0] + Concat(parts[1..])
  }

  /** Each element of the concatenation comes from some part. */
  lemma {:induction false} ConcatOrigin<T>(parts: seq<seq<T>>, k: nat)
    requires k < |Concat(parts)|
    ensures exists j :: 0 <= j < |parts| && Concat(parts)[k] in parts[j]
  {
    if k >= |parts[0]| {
      ConcatOrigin(parts[1..], k - |parts[0]|);
      var j :| 0 <= j < |parts[1..]| && Concat(parts[1..])[k - |parts[0]|] in parts[1..][j];
      assert parts[1..][j] == parts[j + 1];
    } else {
      assert Concat(parts)[k] == parts[0][k];
    }
  }

  /** Concatenating from part `i` on: part `i`, then the parts after it. */
  lemma ConcatStep<T>(parts: seq<seq<T>>, i: nat)
    requires i < |parts|
    ensures Concat(parts[i..]) == parts[i] + Concat(parts[i + 1..])
  {
    assert parts[i..][1..] == parts[i + 1..];
  }

  /** Moving part `i` from the parts still to come to the parts done. */
  lemma ConcatAdvance<T>(parts: seq<seq<T>>, done: seq<T>, i: nat)
    requires i < |parts|
    ensures done + Concat(parts[i..]) == (done + parts[i]) + Concat(parts[i + 1..])
  {
    ConcatStep(parts, i);
  }

  /** No part done, and all parts done. */
  lemma ConcatEnds<T>(parts: seq<seq<T>>)
    ensures Concat(parts[0..]) == Concat(parts)
    ensures Concat(parts[|parts|..]) == []
  {
    assert parts[0..] == parts;
    assert parts[|parts|..] == [];
  }

  /** Extends the first part of a non-empty list of parts on the left. */
  function Glue(prefix: string, parts: seq<string>): (r: seq<string>)
    requires |parts| >= 1
    ensures |r| == |parts| && r[0] == prefix + parts[0] && r[1..] == parts[1..]
  {
    [prefix + parts[0]] + parts[1..]
  }

  lemma GlueNothing(parts: seq<string>)
    requires |parts| >= 1
    ensures Glue([], parts) == parts
  {
    assert [] + parts[0] == parts[0];
    assert parts == [parts[0]] + parts[1..];
  }

  lemma GlueGlue(a: string, b: string, parts: seq<string>)
    requires |parts| >= 1
    ensures Glue(a, Glue(b, parts)) == Glue(a + b, parts)
  {
    assert a + (b + parts[0]) == (a + b) + parts[0];
  }

  lemma JoinGlue(prefix: string, parts: seq<string>, sep: string)
    requires |parts| >= 1
    ensures Join(Glue(prefix, parts), sep) == prefix + Join(parts, sep)
  {
    var g := Glue(prefix, parts);
    if |parts| > 1 {
      assert g[1..] == parts[1..];
      assert Join(g, sep) == g[0] + sep + Join(parts[1..], sep);
    }
  }

  /** The pieces of `s` between occurrences of `sep`, empty pieces included
      (String.Split without options). */
  function SplitOn(s: string, sep: char): (r: seq<string>)
    ensures |r| >= 1
  {
    if s == [] then [[]]
    else if s[0] == sep then [[]] + SplitOn(s[1..], sep)
    else Glue([s[0]], SplitOn(s[1..], sep))
  }

  /** The pieces that are not empty (StringSplitOptions.RemoveEmptyEntries). */
  function NonEmpty(pieces: seq<string>): (r: seq<string>)
    ensures |r| <= |pieces|
    ensures forall k :: 0 <= k < |r| ==> r[k] != []
  {
    if pieces == [] then []
    else if pieces[0] == [] then NonEmpty(pieces[1..])
    else [pieces[0]] + NonEmpty(pieces[1..])
  }

  /** String.Split('\n', StringSplitOptions.RemoveEmptyEntries). */
  function SplitLines(s: string): seq<string>
  {
    NonEmpty(SplitOn(s, '\n'))
  }

  /** Splitting round-trips: joining the pieces with the separator gives back
      the string, and no piece holds the separator. */
  lemma {:induction false} SplitJoin(s: string, sep: char)
    ensures Join(SplitOn(s, sep), [sep]) == s
    ensures forall k, i :: 0 <= k < |SplitOn(s, sep)| && 0 <= i < |SplitOn(s, sep)[k]| ==>
              SplitOn(s, sep)[k][i] != sep
  {
    if s == [] {
    } else if s[0] == sep {
      SplitJoin(s[1..], sep);
      var rest := SplitOn(s[1..], sep);
      assert SplitOn(s, sep)[1..] == rest;
      assert s == [sep] + s[1..];
    } else {
      SplitJoin(s[1..], sep);
      var rest := SplitOn(s[1..], sep);
      JoinGlue([s[0]], rest, [sep]);
      assert s == [s[0]] + s[1..];
    }
  }

  /** A piece without the separator continues the first piece of what follows. */
  lemma {:induction false} SplitOnPlain(a: string, rest: string, sep: char)
    requires forall i :: 0 <= i < |a| ==> a[i] != sep
    ensures SplitOn(a + rest, sep) == Glue(a, SplitOn(rest, sep))
  {
    if a == [] {
      assert a + rest == rest;
      GlueNothing(SplitOn(rest, sep));
    } else {
      var s := a + rest;
      assert s[0] == a[0] && s[1..] == a[1..] + rest;
      SplitOnPlain(a[1..], rest, sep);
      GlueGlue([a[0]], a[1..], SplitOn(rest, sep));
      assert [a[0]] + a[1..] == a;
    }
  }

  /** Two non-empty lines without line feeds, joined by one, split back
      into exactly those two lines. */
  lemma SplitTwoLines(a: string, b: string)
    requires a != [] && forall i :: 0 <= i < |a| ==> a[i] != '\n'
    requires b != [] && forall i :: 0 <= i < |b| ==> b[i] != '\n'
    ensures SplitLines(a + "\n" + b) == [a, b]
  {
    SplitOnPlain(b, [], '\n');
    assert b + [] == b;
    assert SplitOn(b, '\n') == [b] by { assert Glue(b, [[]]) == [b + []]; }
    var tail := "\n" + b;
    assert tail[0] == '\n' && tail[1..] == b;
    assert SplitOn(tail, '\n') == [[], b];
    SplitOnPlain(a, tail, '\n');
    assert SplitOn(a + tail, '\n') == [a, b] by { assert a + [] == a; }
    assert a + "\n" + b == a + tail;
    assert [a, b][1..] == [b] && [b][1..] == [];
    assert NonEmpty([b]) == [b] + NonEmpty([]);
    assert NonEmpty([a, b]) == [a] + NonEmpty([b]);
  }

  /** Removing the empty pieces leaves nothing exactly when the string
      consists of separators only. */
  lemma {:induction false} SplitOnNothingLeft(s: string, sep: char)
    ensures NonEmpty(SplitOn(s, sep)) == [] <==> forall i :: 0 <= i < |s| ==> s[i] == sep
  {
    if s == [] {
    } else if s[0] == sep {
      SplitOnNothingLeft(s[1..], sep);
      var r := SplitOn(s, sep);
      assert r[0] == [] && r[1..] == SplitOn(s[1..], sep);
      assert NonEmpty(r) == NonEmpty(SplitOn(s[1..], sep));
      assert forall i :: 1 <= i < |s| ==> s[i] == s[1..][i - 1];
    } else {
      assert SplitOn(s, sep)[0] != [];
    }
  }

  /** Splitting on line feeds with empty entries removed yields nothing
      exactly when the text is made of line feeds only (the empty text included). */
  lemma SplitLinesEmptyIff(s: string)
    ensures SplitLines(s) == [] <==> forall i :: 0 <= i < |s| ==> s[i] == '\n'
  {
    SplitOnNothingLeft(s, '\n');
  }
}
