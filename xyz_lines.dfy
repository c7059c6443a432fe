/**
 * General facts about how the XYZ reader splits its input: lines free of
 * '\n' survive a join-and-split round trip, a record line of four
 * space-free fields yields exactly its coordinates.
 */
module XyzLines {
  import opened Xyz

  /** `c` does not occur in `s`. */
  predicate Free(s: string, c: char) {
    forall k | 0 <= k < |s| :: s[k] != c
  }

  /** When `p` does not contain the first character of `sep`, no occurrence of `sep` starts inside `p`, so the first one in `p + sep` is the appended one. */
  lemma FreeBeforeSeparator(p: string, sep: string)
    requires |sep| > 0 && Free(p, sep[0])
    ensures NoMatchBefore(p + sep, sep, |p|)
    ensures NoMatch(p, sep)
  {
    forall j: nat | j < |p|
      ensures !MatchAt(p + sep, sep, j) && !MatchAt(p, sep, j)
    {
      assert (p + sep)[j] == p[j];
      if j + |sep| <= |p| {
        assert p[j..j + |sep|][0] == p[j];
      }
      assert (p + sep)[j..j + |sep|][0] == p[j];
    }
  }

  /** Lines that hold no '\n' come back unchanged from joining them with '\n' and splitting on it. */
  lemma SplitJoinedLines(lines: seq<string>)
    requires |lines| >= 1
    requires forall i | 0 <= i < |lines| :: Free(lines[i], '\n')
    ensures Split(Join(lines, Newline), Newline) == lines
  {
    forall k | 0 <= k < |lines| - 1
      ensures NoMatchBefore(lines[k] + Newline, Newline, |lines[k]|)
    {
      FreeBeforeSeparator(lines[k], Newline);
    }
    FreeBeforeSeparator(Last(lines), Newline);
    SplitUnique(Join(lines, Newline), Newline, lines);
  }

  /**
   * A record line `element + six spaces + x + six spaces + y + six spaces + z`
   * whose four fields hold no space splits into exactly those four fields,
   * so it fits and its row is [x, y, z].
   */
  lemma RecordLine(element: string, x: string, y: string, z: string)
    requires Free(element, ' ') && Free(x, ' ') && Free(y, ' ') && Free(z, ' ')
    ensures var line := element + Separator + x + Separator + y + Separator + z;
      Split(line, Separator) == [element, x, y, z] && Fits(Split(line, Separator)) && RowTokens(Split(line, Separator)) == [x, y, z]
  {
    var pieces := [element, x, y, z];
    var line := element + Separator + x + Separator + y + Separator + z;
    assert Join(pieces, Separator) == line by {
      JoinCons(y, [z], Separator);
      assert [y] + [z] == [y, z];
      JoinCons(x, [y, z], Separator);
      assert [x] + [y, z] == [x, y, z];
      JoinCons(element, [x, y, z], Separator);
      assert [element] + [x, y, z] == pieces;
    }
    forall k | 0 <= k < 3
      ensures NoMatchBefore(pieces[k] + Separator, Separator, |pieces[k]|)
    {
      FreeBeforeSeparator(pieces[k], Separator);
    }
    FreeBeforeSeparator(z, Separator);
    assert Last(pieces) == z;
    SplitUnique(line, Separator, pieces);
  }
}
