/**
 * The two splitting helpers of Go's `strings` package that the contributor
 * tally uses: `strings.Split(s, "\n")` and `strings.SplitN(s, " ", 2)`.
 */
module Strings {

  /** `lines` glued back together with a newline between neighbours. */
  function JoinLines(lines: seq<string>): string
    requires |lines| >= 1
  {
    if |lines| == 1 then lines[0] else lines[0] + "\n" + JoinLines(lines[1..])
  }

  /**
   * `strings.Split(s, "\n")`: the pieces of `s` between its newlines. There is
   * always one more piece than there are newlines, so "" gives [""].
   */
  function SplitLines(s: string): (lines: seq<string>)
    ensures |lines| >= 1
    ensures forall i :: 0 <= i < |lines| ==> '\n' !in lines[i]
  {
    if s == [] then [""]
    else
      var rest := SplitLines(s[1..]);
      if s[0] == '\n' then [""] + rest
      else [[s[0]] + rest[0]] + rest[1..]
  }

  /** Joining the lines with newlines gives back the text split. */
  lemma {:induction false} JoinLinesOfSplit(s: string)
    ensures JoinLines(SplitLines(s)) == s
  {
    if s != [] {
      var rest := SplitLines(s[1..]);
      JoinLinesOfSplit(s[1..]);
      if s[0] == '\n' {
        assert [""] + rest == SplitLines(s);
        assert ([""] + rest)[1..] == rest;
      } else {
        var lines := [[s[0]] + rest[0]] + rest[1..];
        assert lines == SplitLines(s);
        assert lines[1..] == rest[1..];
        if |rest| > 1 {
          assert JoinLines(rest) == rest[0] + "\n" + JoinLines(rest[1..]);
        }
      }
    }
  }

  /** Splitting a newline-free join gives back exactly the pieces joined. */
  lemma {:induction false} SplitLinesOfJoin(lines: seq<string>)
    requires |lines| >= 1
    requires forall i :: 0 <= i < |lines| ==> '\n' !in lines[i]
    ensures SplitLines(JoinLines(lines)) == lines
  {
    SplitLinesAfterPiece(lines[0], if |lines| == 1 then "" else "\n" + JoinLines(lines[1..]));
    if |lines| == 1 {
      assert lines[0] + "" == lines[0];
    } else {
      SplitLinesOfJoin(lines[1..]);
      var t := "\n" + JoinLines(lines[1..]);
      SplitLinesAfterNewline(JoinLines(lines[1..]));
      assert lines[0] + "\n" + JoinLines(lines[1..]) == lines[0] + t;
      assert lines[0] + "" == lines[0];
    }
  }

  /** A newline in front starts an empty first line. */
  lemma SplitLinesAfterNewline(u: string)
    ensures SplitLines("\n" + u) == [""] + SplitLines(u)
  {
    assert ("\n" + u)[1..] == u;
  }

  /** A newline-free piece in front of more text joins the first line. */
  lemma {:induction false} SplitLinesAfterPiece(piece: string, t: string)
    requires '\n' !in piece
    ensures SplitLines(piece + t) == [piece + SplitLines(t)[0]] + SplitLines(t)[1..]
  {
    if piece == [] {
      assert piece + t == t && piece + SplitLines(t)[0] == SplitLines(t)[0];
      assert SplitLines(t) == [SplitLines(t)[0]] + SplitLines(t)[1..];
    } else {
      assert (piece + t)[0] == piece[0] && (piece + t)[1..] == piece[1..] + t;
      SplitLinesAfterPiece(piece[1..], t);
      var rest := SplitLines(piece[1..] + t);
      assert SplitLines(piece + t) == [[piece[0]] + rest[0]] + rest[1..];
      assert [piece[0]] + (piece[1..] + SplitLines(t)[0]) == piece + SplitLines(t)[0];
    }
  }

  /**
   * `strings.SplitN(s, " ", 2)`: `[s]` when `s` has no space, otherwise the
   * text before the first space and the text after it.
   */
  function SplitAtFirstSpace(s: string): (fields: seq<string>)
    ensures ' ' !in s ==> fields == [s]
    ensures ' ' in s ==> |fields| == 2 && ' ' !in fields[0] && s == fields[0] + " " + fields[1]
  {
    if s == [] then [s]
    else if s[0] == ' ' then ["", s[1..]]
    else
      var rest := SplitAtFirstSpace(s[1..]);
      if |rest| == 1 then [s] else [[s[0]] + rest[0], rest[1]]
  }

  /**
   * The two fields are determined: whenever `s` is a space-free `head`, one
   * space and any `tail`, SplitN gives exactly `[head, tail]`.
   */
  lemma {:induction false} SplitAtFirstSpaceOf(head: string, tail: string)
    requires ' ' !in head
    ensures SplitAtFirstSpace(head + " " + tail) == [head, tail]
  {
    var s := head + " " + tail;
    assert s[|head|] == ' ';
    var f := SplitAtFirstSpace(s);
    assert s[|f[0]|] == ' ';
    assert forall k :: 0 <= k < |head| ==> s[k] == head[k] != ' ';
    assert forall k :: 0 <= k < |f[0]| ==> s[k] == f[0][k] != ' ';
    assert s[..|head|] == head && s[..|f[0]|] == f[0];
    assert s[|head| + 1..] == tail && s[|f[0]| + 1..] == f[1];
  }
}
