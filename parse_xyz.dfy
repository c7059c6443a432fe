/**
 * The text processing of `parse_xyz` in kabsch_algorithm.py: the file's
 * contents are split on '\n', every line is split on a separator of six
 * spaces, and each line that gives exactly four pieces contributes the
 * row of pieces 1, 2 and 3, each converted by `float`.  Reading the file is
 * left out; `float` is the parameter `toFloat`, which answers None where
 * `float` raises ValueError.
 */
module Xyz {
  import opened Wrappers

  const Newline: string := "\n"
  const Separator: string := "      "

  datatype ParseError = BadNumber(token: string)  // ValueError raised by float(token)

  /** `sep` occurs in `s` starting at index `i`. */
  predicate MatchAt(s: string, sep: string, i: nat) {
    i + |sep| <= |s| && s[i..i + |sep|] == sep
  }

  /** No occurrence of `sep` in `s` starts before index `n`. */
  predicate NoMatchBefore(s: string, sep: string, n: nat) {
    forall j: nat | j < n :: !MatchAt(s, sep, j)
  }

  /** `sep` does not occur in `s` at all. */
  ghost predicate NoMatch(s: string, sep: string) {
    forall j: nat :: !MatchAt(s, sep, j)
  }

  lemma MatchShift(s: string, sep: string, j: nat)
    requires |s| > 0
    ensures MatchAt(s[1..], sep, j) <==> MatchAt(s, sep, j + 1)
  {
    if j + 1 + |sep| <= |s| {
      assert s[1..][j..j + |sep|] == s[j + 1..j + 1 + |sep|];
    }
  }

  /** The leftmost occurrence of `sep` in `s`, as `str.find` gives it. */
  function Find(s: string, sep: string): (r: Option<nat>)
    requires |sep| > 0
    ensures r.Some? ==> MatchAt(s, sep, r.value) && NoMatchBefore(s, sep, r.value)
    ensures r.None? ==> NoMatch(s, sep)
    decreases |s|
  {
    if |s| < |sep| then None
    else if s[..|sep|] == sep then Some(0)
    else
      match Find(s[1..], sep)
      case None =>
        assert NoMatch(s, sep) by {
          forall j: nat ensures !MatchAt(s, sep, j) {
            if j > 0 { MatchShift(s, sep, j - 1); }
          }
        }
        None
      case Some(i) =>
        assert MatchAt(s, sep, i + 1) by { MatchShift(s, sep, i); }
        assert NoMatchBefore(s, sep, i + 1) by {
          forall j: nat | j < i + 1 ensures !MatchAt(s, sep, j) {
            if j > 0 { MatchShift(s, sep, j - 1); }
          }
        }
        Some(i + 1)
  }

  /** Python's `s.split(sep)`: non-overlapping matches from left to right, empty pieces kept. */
  function Split(s: string, sep: string): (pieces: seq<string>)
    requires |sep| > 0
    ensures |pieces| >= 1
    decreases |s|
  {
    match Find(s, sep)
    case None => [s]
    case Some(i) => [s[..i]] + Split(s[i + |sep|..], sep)
  }

  /** `sep.join(pieces)`. */
  function Join(pieces: seq<string>, sep: string): string
    requires |pieces| >= 1
  {
    if |pieces| == 1 then pieces[0] else pieces[0] + sep + Join(pieces[1..], sep)
  }

  /**
   * `pieces` is what a left-to-right, non-overlapping split of `s` on `sep`
   * gives: they join back to `s`, every piece but the last is followed by the
   * leftmost occurrence of `sep` from its own start, and the last piece holds
   * no occurrence at all.
   */
  ghost predicate IsSplit(s: string, sep: string, pieces: seq<string>) {
    && |pieces| >= 1
    && Join(pieces, sep) == s
    && (forall k | 0 <= k < |pieces| - 1 :: NoMatchBefore(pieces[k] + sep, sep, |pieces[k]|))
    && NoMatch(Last(pieces), sep)
  }

  function Last(pieces: seq<string>): string
    requires |pieces| >= 1
  {
    pieces[|pieces| - 1]
  }

  /** Joining a head piece onto the join of the rest. */
  lemma JoinCons(head: string, tail: seq<string>, sep: string)
    requires |tail| >= 1
    ensures Join([head] + tail, sep) == head + sep + Join(tail, sep)
  {
    assert ([head] + tail)[1..] == tail;
  }

  lemma {:induction false} SplitJoins(s: string, sep: string)
    requires |sep| > 0
    ensures Join(Split(s, sep), sep) == s
    decreases |s|
  {
    var f := Find(s, sep);
    if f.Some? {
      var i := f.value;
      var head, rest := s[..i], s[i + |sep|..];
      assert s == head + sep + rest by {
        assert s[i..i + |sep|] == sep;
        assert s == s[..i] + s[i..i + |sep|] + s[i + |sep|..];
      }
      SplitJoins(rest, sep);
      var tail := Split(rest, sep);
      assert Split(s, sep) == [head] + tail;
      JoinCons(head, tail, sep);
    } else {
      assert Split(s, sep) == [s];
    }
  }

  lemma {:induction false} SplitPiecesLeftmost(s: string, sep: string)
    requires |sep| > 0
    ensures var pieces := Split(s, sep);
      && (forall k | 0 <= k < |pieces| - 1 :: NoMatchBefore(pieces[k] + sep, sep, |pieces[k]|))
      && NoMatch(Last(pieces), sep)
    decreases |s|
  {
    var f := Find(s, sep);
    if f.Some? {
      var i := f.value;
      var head, rest := s[..i], s[i + |sep|..];
      SplitPiecesLeftmost(rest, sep);
      var tail := Split(rest, sep);
      var pieces := Split(s, sep);
      assert pieces == [head] + tail;
      assert Last(pieces) == Last(tail);
      assert NoMatchBefore(head + sep, sep, |head|) by {
        assert head + sep == s[..i + |sep|] by {
          assert s[i..i + |sep|] == sep;
        }
        forall j: nat | j < |head|
          ensures !MatchAt(head + sep, sep, j)
        {
          assert !MatchAt(s, sep, j);
          assert (head + sep)[j..j + |sep|] == s[j..j + |sep|];
        }
      }
      forall k | 0 <= k < |pieces| - 1
        ensures NoMatchBefore(pieces[k] + sep, sep, |pieces[k]|)
      {
        if k > 0 {
          assert pieces[k] == tail[k - 1];
        }
      }
    }
  }

  /** `Split` meets the definition of a Python split. */
  lemma SplitIsSplit(s: string, sep: string)
    requires |sep| > 0
    ensures IsSplit(s, sep, Split(s, sep))
  {
    SplitJoins(s, sep);
    SplitPiecesLeftmost(s, sep);
  }

  /** A text made of a head piece, the separator and a rest, where the head holds no occurrence, splits at that separator first. */
  lemma SplitHead(s: string, sep: string, head: string, rest: string)
    requires |sep| > 0
    requires s == head + sep + rest
    requires NoMatchBefore(head + sep, sep, |head|)
    ensures Split(s, sep) == [head] + Split(rest, sep)
  {
    var i := |head|;
    assert MatchAt(s, sep, i) by {
      assert s[i..i + |sep|] == sep;
    }
    assert NoMatchBefore(s, sep, i) by {
      forall j: nat | j < i
        ensures !MatchAt(s, sep, j)
      {
        assert !MatchAt(head + sep, sep, j);
        assert s[j..j + |sep|] == (head + sep)[j..j + |sep|];
      }
    }
    assert Find(s, sep) == Some(i);
    assert s[..i] == head;
    assert s[i + |sep|..] == rest;
  }

  /** A Python split is unique: every decomposition with the properties of `IsSplit` is `Split`. */
  lemma {:induction false} SplitUnique(s: string, sep: string, pieces: seq<string>)
    requires |sep| > 0
    requires IsSplit(s, sep, pieces)
    ensures pieces == Split(s, sep)
    decreases |pieces|
  {
    if |pieces| == 1 {
      assert s == pieces[0];
    } else {
      var head, tail := pieces[0], pieces[1..];
      var rest := Join(tail, sep);
      assert s == head + sep + rest;
      SplitHead(s, sep, head, rest);
      assert IsSplit(rest, sep, tail) by {
        assert Last(tail) == Last(pieces);
        forall k | 0 <= k < |tail| - 1
          ensures NoMatchBefore(tail[k] + sep, sep, |tail[k]|)
        {
          assert tail[k] == pieces[k + 1];
        }
      }
      SplitUnique(rest, sep, tail);
      assert pieces == [head] + tail;
    }
  }

  /** Every line split on the six-space separator, in line order. */
  function SplitLines(lines: seq<string>): (fields: seq<seq<string>>)
    ensures |fields| == |lines|
    ensures forall i | 0 <= i < |lines| :: fields[i] == Split(lines[i], Separator)
  {
    seq(|lines|, i requires 0 <= i < |lines| => Split(lines[i], Separator))
  }

  /** A line contributes a row exactly when it splits into four pieces. */
  predicate Fits(pieces: seq<string>) {
    |pieces| == 4
  }

  /** The three coordinate tokens of a fitting line: pieces 1 to 3, the label (piece 0) dropped. */
  function RowTokens(pieces: seq<string>): (tokens: seq<string>)
    requires Fits(pieces)
    ensures |tokens| == 3
  {
    pieces[1..4]
  }

  /** The coordinate tokens of the fitting lines, in line order, from the split lines. */
  function Tokens(fields: seq<seq<string>>): (rows: seq<seq<string>>)
    ensures |rows| <= |fields|
    ensures forall k | 0 <= k < |rows| :: |rows[k]| == 3
  {
    if fields == [] then []
    else
      var last := fields[|fields| - 1];
      Tokens(fields[..|fields| - 1]) + (if Fits(last) then [RowTokens(last)] else [])
  }

  /** Indices of the lines that fit, in increasing order. */
  function Kept(fields: seq<seq<string>>): (idx: seq<nat>)
    ensures forall k | 0 <= k < |idx| :: idx[k] < |fields| && Fits(fields[idx[k]])
    ensures forall k, l | 0 <= k < l < |idx| :: idx[k] < idx[l]
    ensures forall i | 0 <= i < |fields| && Fits(fields[i]) :: i in idx
  {
    if fields == [] then []
    else
      var n := |fields| - 1;
      var front := Kept(fields[..n]);
      assert forall k | 0 <= k < |front| :: fields[..n][front[k]] == fields[front[k]];
      assert forall i | 0 <= i < n :: fields[..n][i] == fields[i];
      front + (if Fits(fields[n]) then [n] else [])
  }

  /**
   * The rows are, in order, the tokens of exactly the fitting lines: one row
   * per fitting line, none for any other line.
   */
  lemma {:induction false} TokensOfKept(fields: seq<seq<string>>)
    ensures |Tokens(fields)| == |Kept(fields)|
    ensures forall k | 0 <= k < |Kept(fields)| :: Tokens(fields)[k] == RowTokens(fields[Kept(fields)[k]])
  {
    if fields != [] {
      var n := |fields| - 1;
      var init := fields[..n];
      TokensOfKept(init);
      var front := Kept(init);
      var extra := if Fits(fields[n]) then [RowTokens(fields[n])] else [];
      assert Kept(fields) == front + (if Fits(fields[n]) then [n] else []);
      assert Tokens(fields) == Tokens(init) + extra;
      forall k | 0 <= k < |Kept(fields)|
        ensures Tokens(fields)[k] == RowTokens(fields[Kept(fields)[k]])
      {
        if k < |front| {
          assert init[front[k]] == fields[front[k]];
        }
      }
    }
  }

  /** `float` applied to the tokens of one row, stopping at the first failure. */
  function ConvertRow(tokens: seq<string>, toFloat: string -> Option<real>): Result<seq<real>, ParseError> {
    if tokens == [] then Success([])
    else
      match ConvertRow(tokens[..|tokens| - 1], toFloat)
      case Failure(e) => Failure(e)
      case Success(front) =>
        var t := tokens[|tokens| - 1];
        match toFloat(t)
        case None => Failure(BadNumber(t))
        case Some(x) => Success(front + [x])
  }

  /** What the loops of `parse_xyz` produce from the split lines of a file. */
  function ParseLines(fields: seq<seq<string>>, toFloat: string -> Option<real>): Result<seq<seq<real>>, ParseError> {
    if fields == [] then Success([])
    else
      var last := fields[|fields| - 1];
      match ParseLines(fields[..|fields| - 1], toFloat)
      case Failure(e) => Failure(e)
      case Success(rows) =>
        if !Fits(last) then Success(rows)
        else
          match ConvertRow(RowTokens(last), toFloat)
          case Failure(e) => Failure(e)
          case Success(row) => Success(rows + [row])
  }

  lemma {:induction false} ConvertRowFailureSticks(tokens: seq<string>, m: nat, toFloat: string -> Option<real>)
    requires m <= |tokens| && ConvertRow(tokens[..m], toFloat).Failure?
    ensures ConvertRow(tokens, toFloat) == ConvertRow(tokens[..m], toFloat)
    decreases |tokens| - m
  {
    if m < |tokens| {
      assert tokens[..m + 1][..m] == tokens[..m];
      ConvertRowFailureSticks(tokens, m + 1, toFloat);
    } else {
      assert tokens[..m] == tokens;
    }
  }

  lemma {:induction false} ParseLinesFailureSticks(lines: seq<seq<string>>, m: nat, toFloat: string -> Option<real>)
    requires m <= |lines| && ParseLines(lines[..m], toFloat).Failure?
    ensures ParseLines(lines, toFloat) == ParseLines(lines[..m], toFloat)
    decreases |lines| - m
  {
    if m < |lines| {
      assert lines[..m + 1][..m] == lines[..m];
      ParseLinesFailureSticks(lines, m + 1, toFloat);
    } else {
      assert lines[..m] == lines;
    }
  }

  /** Converting a row succeeds exactly when every token converts, and then gives the converted tokens in order. */
  lemma {:induction false} ConvertRowConverts(tokens: seq<string>, toFloat: string -> Option<real>)
    ensures var r := ConvertRow(tokens, toFloat);
      && (r.Success? <==> forall c | 0 <= c < |tokens| :: toFloat(tokens[c]).Some?)
      && (r.Success? ==> |r.value| == |tokens| && forall c | 0 <= c < |tokens| :: r.value[c] == toFloat(tokens[c]).value)
      && (r.Failure? ==> r.error.token in tokens && toFloat(r.error.token).None?)
  {
    if tokens != [] {
      var n := |tokens| - 1;
      ConvertRowConverts(tokens[..n], toFloat);
      assert forall c | 0 <= c < n :: tokens[..n][c] == tokens[c];
    }
  }

  /** A failed row names its first token that does not convert: every token before it converts. */
  lemma {:induction false} ConvertRowFirstFailure(tokens: seq<string>, toFloat: string -> Option<real>)
    requires ConvertRow(tokens, toFloat).Failure?
    ensures exists c | 0 <= c < |tokens| ::
      && ConvertRow(tokens, toFloat).error == BadNumber(tokens[c])
      && toFloat(tokens[c]).None?
      && forall c' | 0 <= c' < c :: toFloat(tokens[c']).Some?
  {
    var n := |tokens| - 1;
    var init := tokens[..n];
    if ConvertRow(init, toFloat).Failure? {
      ConvertRowFirstFailure(init, toFloat);
      var e := ConvertRow(init, toFloat).error;
      assert ConvertRow(tokens, toFloat).error == e;
      var c :| 0 <= c < n && e == BadNumber(init[c]) && toFloat(init[c]).None? && forall c' | 0 <= c' < c :: toFloat(init[c']).Some?;
      assert forall c' | 0 <= c' <= c :: init[c'] == tokens[c'];
      assert e == BadNumber(tokens[c]);
    } else {
      ConvertRowConverts(init, toFloat);
      assert ConvertRow(tokens, toFloat).error == BadNumber(tokens[n]);
      assert forall c' | 0 <= c' < n :: init[c'] == tokens[c'];
    }
  }

  /** Every coordinate token of every row converts. */
  predicate AllConvert(toks: seq<seq<string>>, toFloat: string -> Option<real>)
    requires forall k | 0 <= k < |toks| :: |toks[k]| == 3
  {
    forall k, c | 0 <= k < |toks| && 0 <= c < 3 :: toFloat(toks[k][c]).Some?
  }

  lemma {:induction false} ParseLinesSucceeds(lines: seq<seq<string>>, toFloat: string -> Option<real>)
    ensures ParseLines(lines, toFloat).Success? <==> AllConvert(Tokens(lines), toFloat)
  {
    if lines != [] {
      var n := |lines| - 1;
      ParseLinesSucceeds(lines[..n], toFloat);
      var front, toks := Tokens(lines[..n]), Tokens(lines);
      if Fits(lines[n]) {
        var row := RowTokens(lines[n]);
        ConvertRowConverts(row, toFloat);
        assert toks == front + [row];
        assert AllConvert(toks, toFloat) <==> AllConvert(front, toFloat) && forall c | 0 <= c < 3 :: toFloat(row[c]).Some? by {
          assert forall k | 0 <= k < |front| :: toks[k] == front[k];
          assert toks[|front|] == row;
        }
      } else {
        assert toks == front;
      }
    }
  }

  lemma {:induction false} ParseLinesValues(lines: seq<seq<string>>, toFloat: string -> Option<real>)
    requires ParseLines(lines, toFloat).Success?
    ensures var toks, rows := Tokens(lines), ParseLines(lines, toFloat).value;
      |rows| == |toks| && forall k | 0 <= k < |toks| ::
        |rows[k]| == 3 && forall c | 0 <= c < 3 :: toFloat(toks[k][c]) == Some(rows[k][c])
  {
    if lines != [] {
      var n := |lines| - 1;
      ParseLinesValues(lines[..n], toFloat);
      var front, toks := Tokens(lines[..n]), Tokens(lines);
      var rows := ParseLines(lines[..n], toFloat).value;
      if Fits(lines[n]) {
        var row := RowTokens(lines[n]);
        ConvertRowConverts(row, toFloat);
        var row' := ConvertRow(row, toFloat).value;
        var all := rows + [row'];
        assert toks == front + [row];
        assert ParseLines(lines, toFloat).value == all;
        forall k | 0 <= k < |toks|
          ensures |all[k]| == 3 && forall c | 0 <= c < 3 :: toFloat(toks[k][c]) == Some(all[k][c])
        {
          if k < |front| {
            assert all[k] == rows[k] && toks[k] == front[k];
          } else {
            assert all[k] == row' && toks[k] == row;
          }
        }
      } else {
        assert toks == front;
      }
    }
  }

  lemma {:induction false} ParseLinesFailure(lines: seq<seq<string>>, toFloat: string -> Option<real>)
    requires ParseLines(lines, toFloat).Failure?
    ensures toFloat(ParseLines(lines, toFloat).error.token).None?
    ensures exists k | 0 <= k < |Tokens(lines)| :: ParseLines(lines, toFloat).error.token in Tokens(lines)[k]
  {
    var n := |lines| - 1;
    var front, toks := Tokens(lines[..n]), Tokens(lines);
    if Fits(lines[n]) {
      var row := RowTokens(lines[n]);
      assert toks == front + [row];
      if ParseLines(lines[..n], toFloat).Failure? {
        ParseLinesFailure(lines[..n], toFloat);
        var e := ParseLines(lines[..n], toFloat).error;
        assert ParseLines(lines, toFloat).error == e;
        var k :| 0 <= k < |front| && e.token in front[k];
        assert toks[k] == front[k];
        assert e.token in toks[k];
      } else {
        ConvertRowConverts(row, toFloat);
        var e := ConvertRow(row, toFloat).error;
        assert ParseLines(lines, toFloat).error == e;
        assert toks[|front|] == row;
        assert e.token in toks[|front|];
      }
    } else {
      assert toks == front;
      ParseLinesFailure(lines[..n], toFloat);
    }
  }

  /**
   * A failed parse names the first coordinate token, in line order and then
   * field order, that does not convert: every token before it converts.
   */
  lemma {:induction false} ParseLinesFirstFailure(lines: seq<seq<string>>, toFloat: string -> Option<real>)
    requires ParseLines(lines, toFloat).Failure?
    ensures exists k, c | 0 <= k < |Tokens(lines)| && 0 <= c < 3 ::
      && ParseLines(lines, toFloat).error == BadNumber(Tokens(lines)[k][c])
      && toFloat(Tokens(lines)[k][c]).None?
      && forall k', c' | 0 <= k' < |Tokens(lines)| && 0 <= c' < 3 && (k' < k || (k' == k && c' < c)) ::
           toFloat(Tokens(lines)[k'][c']).Some?
  {
    var n := |lines| - 1;
    var front, toks := Tokens(lines[..n]), Tokens(lines);
    if Fits(lines[n]) {
      var row := RowTokens(lines[n]);
      assert toks == front + [row];
      assert forall k' | 0 <= k' < |front| :: toks[k'] == front[k'];
      assert toks[|front|] == row;
      if ParseLines(lines[..n], toFloat).Failure? {
        ParseLinesFirstFailure(lines[..n], toFloat);
        var e := ParseLines(lines[..n], toFloat).error;
        assert ParseLines(lines, toFloat).error == e;
        var k, c :| 0 <= k < |front| && 0 <= c < 3 && e == BadNumber(front[k][c]) && toFloat(front[k][c]).None?
          && forall k', c' | 0 <= k' < |front| && 0 <= c' < 3 && (k' < k || (k' == k && c' < c)) :: toFloat(front[k'][c']).Some?;
        assert e == BadNumber(toks[k][c]);
      } else {
        ParseLinesSucceeds(lines[..n], toFloat);
        ConvertRowFirstFailure(row, toFloat);
        var e := ConvertRow(row, toFloat).error;
        assert ParseLines(lines, toFloat).error == e;
        var c :| 0 <= c < 3 && e == BadNumber(row[c]) && toFloat(row[c]).None? && forall c' | 0 <= c' < c :: toFloat(row[c']).Some?;
        assert e == BadNumber(toks[|front|][c]);
        assert forall k', c' | 0 <= k' < |toks| && 0 <= c' < 3 && (k' < |front| || (k' == |front| && c' < c)) :: toFloat(toks[k'][c']).Some?;
      }
    } else {
      assert toks == front;
      ParseLinesFirstFailure(lines[..n], toFloat);
    }
  }

  /**
   * `parse_xyz` succeeds exactly when every coordinate token of every
   * fitting line converts; its rows are then the converted tokens, three
   * per row.  A failure names the first coordinate token, in line and
   * field order, that does not convert.
   */
  lemma ParseLinesConverts(lines: seq<seq<string>>, toFloat: string -> Option<real>)
    ensures var toks := Tokens(lines); var r := ParseLines(lines, toFloat);
      && (r.Success? <==> forall k, c | 0 <= k < |toks| && 0 <= c < 3 :: toFloat(toks[k][c]).Some?)
      && (r.Success? ==> |r.value| == |toks| && forall k | 0 <= k < |toks| ::
            |r.value[k]| == 3 && forall c | 0 <= c < 3 :: r.value[k][c] == toFloat(toks[k][c]).value)
      && (r.Failure? ==> toFloat(r.error.token).None? && exists k | 0 <= k < |toks| :: r.error.token in toks[k])
    ensures ParseLines(lines, toFloat).Failure? ==> exists k, c | 0 <= k < |Tokens(lines)| && 0 <= c < 3 ::
      && ParseLines(lines, toFloat).error == BadNumber(Tokens(lines)[k][c])
      && toFloat(Tokens(lines)[k][c]).None?
      && forall k', c' | 0 <= k' < |Tokens(lines)| && 0 <= c' < 3 && (k' < k || (k' == k && c' < c)) ::
           toFloat(Tokens(lines)[k'][c']).Some?
  {
    ParseLinesSucceeds(lines, toFloat);
    if ParseLines(lines, toFloat).Success? {
      ParseLinesValues(lines, toFloat);
    } else {
      ParseLinesFailure(lines, toFloat);
      ParseLinesFirstFailure(lines, toFloat);
    }
  }

  /** The inner loop of `parse_xyz`: converts fields 1 to 3 of a fitting line, stopping at the first that is not a number. */
  method ReadRow(splitted: seq<string>, toFloat: string -> Option<real>) returns (r: Result<seq<real>, ParseError>)
    requires Fits(splitted)
    ensures r == ConvertRow(RowTokens(splitted), toFloat)
  {
    var row: seq<real> := [];
    for i := 1 to 4
      invariant ConvertRow(splitted[1..i], toFloat) == Success(row)
    {
      assert splitted[1..i + 1][..i - 1] == splitted[1..i];
      var x := toFloat(splitted[i]);
      if x.None? {
        ConvertRowFailureSticks(splitted[1..4], i, toFloat);
        assert splitted[1..4][..i] == splitted[1..i + 1];
        return Failure(BadNumber(splitted[i]));
      }
      row := row + [x.value];
    }
    return Success(row);
  }

  /** The outer loop of `parse_xyz` over the already-read contents `data` of a file. */
  method ParseXyz(data: string, toFloat: string -> Option<real>) returns (r: Result<seq<seq<real>>, ParseError>)
    ensures r == ParseLines(SplitLines(Split(data, Newline)), toFloat)
  {
    var lines := Split(data, Newline);
    ghost var fields := SplitLines(lines);
    var molData: seq<seq<real>> := [];
    var n := 0;
    while n < |lines|
      invariant 0 <= n <= |lines|
      invariant ParseLines(fields[..n], toFloat) == Success(molData)
    {
      var splitted := Split(lines[n], Separator);
      assert fields[..n + 1][..n] == fields[..n] && fields[..n + 1][n] == splitted;
      if |splitted| == 4 {
        var row := ReadRow(splitted, toFloat);
        if row.Failure? {
          ParseLinesFailureSticks(fields, n + 1, toFloat);
          return Failure(row.error);
        }
        molData := molData + [row.value];
      }
      n := n + 1;
    }
    assert fields[..n] == fields;
    return Success(molData);
  }
}
