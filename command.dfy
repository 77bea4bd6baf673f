/**
 * The two pure string steps of `RunCommand`: splitting the command line into
 * arguments on runs of whitespace (Go's `regexp` `\s+` with `Split(s, -1)`),
 * and trimming the command's output with `strings.Trim(s, "\r\n\t ")`.
 */
module CommandLine {

  // ---------------------------------------------------------------------
  // Trimming the output
  // ---------------------------------------------------------------------

  /** The cutset of the trim: carriage return, line feed, tab and space. */
  predicate InCutset(c: char) {
    c == '\r' || c == '\n' || c == '\t' || c == ' '
  }

  /** The first index from `lo` on that holds no cutset character, or `|s|`: where Go's `strings.TrimLeft` stops. */
  function FrontEnd(s: string, lo: nat): (k: nat)
    requires lo <= |s|
    ensures lo <= k <= |s|
    ensures forall i :: lo <= i < k ==> InCutset(s[i])
    ensures k < |s| ==> !InCutset(s[k])
    decreases |s| - lo
  {
    if lo < |s| && InCutset(s[lo]) then FrontEnd(s, lo + 1) else lo
  }

  /** The end, going back from `hi` but not below `lo`, of the last character not in the cutset: where Go's `strings.TrimRight` stops. */
  function BackEnd(s: string, lo: nat, hi: nat): (k: nat)
    requires lo <= hi <= |s|
    ensures lo <= k <= hi
    ensures forall i :: k <= i < hi ==> InCutset(s[i])
    ensures lo < k ==> !InCutset(s[k - 1])
  {
    if lo < hi && InCutset(s[hi - 1]) then BackEnd(s, lo, hi - 1) else hi
  }

  /**
   * `s[lo..hi]` is what is left of `s` once the cutset characters are removed
   * from both ends: everything outside it is in the cutset, and if it is not
   * empty it neither starts nor ends with a cutset character.
   */
  predicate TrimsTo(s: string, lo: int, hi: int) {
    && 0 <= lo <= hi <= |s|
    && (forall i :: 0 <= i < lo ==> InCutset(s[i]))
    && (forall i :: hi <= i < |s| ==> InCutset(s[i]))
    && (lo < hi ==> !InCutset(s[lo]) && !InCutset(s[hi - 1]))
  }

  /**
   * `strings.Trim(output, "\r\n\t ")`: the output with only cutset characters
   * removed, and only from its two ends; the result is empty exactly when the
   * output is made of cutset characters alone.
   */
  function Trim(s: string): (r: string)
    ensures exists lo, hi :: TrimsTo(s, lo, hi) && r == s[lo..hi]
    ensures r == [] <==> forall i :: 0 <= i < |s| ==> InCutset(s[i])
    ensures r != [] ==> !InCutset(r[0]) && !InCutset(r[|r| - 1])
  {
    var lo := FrontEnd(s, 0);
    var hi := BackEnd(s, lo, |s|);
    assert TrimsTo(s, lo, hi);
    s[lo..hi]
  }

  /** The ends `TrimsTo` describes are unique, so `Trim` is the only function with its contract. */
  lemma TrimUnique(s: string, lo: int, hi: int)
    requires TrimsTo(s, lo, hi)
    ensures Trim(s) == s[lo..hi]
  {
    var lo', hi' :| TrimsTo(s, lo', hi') && Trim(s) == s[lo'..hi'];
    assert TrimsTo(s, lo', hi');
  }

  /** Trimming twice is trimming once. */
  lemma TrimIdempotent(s: string)
    ensures Trim(Trim(s)) == Trim(s)
  {
    var r := Trim(s);
    assert TrimsTo(r, 0, |r|);
    TrimUnique(r, 0, |r|);
    assert r[0..|r|] == r;
  }

  /** A version string with a line ending and a leading space is trimmed to the bare version. */
  lemma TrimVersionLine()
    ensures Trim(" v1.0\r\n") == "v1.0"
  {
    var s := " v1.0\r\n";
    assert TrimsTo(s, 1, 5);
    TrimUnique(s, 1, 5);
  }

  // ---------------------------------------------------------------------
  // Splitting the command line
  // ---------------------------------------------------------------------

  /** `\s` in Go's regular expressions: tab, line feed, form feed, carriage return, space. */
  predicate IsSpace(c: char) {
    c == '\t' || c == '\n' || c == '\U{000C}' || c == '\r' || c == ' '
  }

  predicate NoSpace(s: string) {
    forall i :: 0 <= i < |s| ==> !IsSpace(s[i])
  }

  /** A separator: one or more whitespace characters. */
  predicate IsRun(w: string) {
    |w| >= 1 && forall i :: 0 <= i < |w| ==> IsSpace(w[i])
  }

  /**
   * `regexp.MustCompile(`\s+`).Split(cmdLine, -1)`: the pieces between maximal
   * runs of whitespace. A run at the very start or end gives an empty first or
   * last piece, and the empty line gives one empty piece.
   */
  function SplitWhitespace(s: string): (pieces: seq<string>)
    ensures |pieces| >= 1
    ensures forall j :: 0 <= j < |pieces| ==> NoSpace(pieces[j])
    ensures forall j :: 0 < j < |pieces| - 1 ==> pieces[j] != []
    ensures s != [] && IsSpace(s[0]) ==> pieces[0] == []
    ensures s != [] && !IsSpace(s[0]) ==> pieces[0] != [] && pieces[0][0] == s[0]
  {
    if s == [] then [""]
    else
      var rest := SplitWhitespace(s[1..]);
      if !IsSpace(s[0]) then [[s[0]] + rest[0]] + rest[1..]
      else if |s| > 1 && IsSpace(s[1]) then rest
      else [""] + rest
  }

  /** The pieces with the separators put back between them. */
  function Interleave(pieces: seq<string>, seps: seq<string>): string
    requires |pieces| >= 1 && |seps| == |pieces| - 1
  {
    if |pieces| == 1 then pieces[0]
    else pieces[0] + seps[0] + Interleave(pieces[1..], seps[1..])
  }

  /** `s` is `pieces` separated by the whitespace runs `seps`, and no run is cut in two. */
  predicate IsRunSplit(s: string, pieces: seq<string>, seps: seq<string>) {
    && |pieces| >= 1 && |seps| == |pieces| - 1
    && (forall j :: 0 <= j < |pieces| ==> NoSpace(pieces[j]))
    && (forall j :: 0 < j < |pieces| - 1 ==> pieces[j] != [])
    && (forall j :: 0 <= j < |seps| ==> IsRun(seps[j]))
    && Interleave(pieces, seps) == s
  }

  /** Nothing is lost: putting the runs back between the pieces gives the command line. */
  lemma {:induction false} SplitWhitespaceRebuilds(s: string)
    ensures exists seps :: IsRunSplit(s, SplitWhitespace(s), seps)
    decreases |s|
  {
    if s == [] {
      assert SplitWhitespace(s) == [""] && Interleave([""], []) == s;
      assert IsRunSplit(s, [""], []);
    } else {
      var rest := SplitWhitespace(s[1..]);
      SplitWhitespaceRebuilds(s[1..]);
      var seps :| IsRunSplit(s[1..], rest, seps);
      assert s == [s[0]] + s[1..];
      if !IsSpace(s[0]) {
        WordGrows(s[0], s[1..], rest, seps);
        assert IsRunSplit(s, SplitWhitespace(s), seps);
      } else if |s| > 1 && IsSpace(s[1]) {
        RunGrows(s[0], s[1..], rest, seps);
        assert IsRunSplit(s, SplitWhitespace(s), [[s[0]] + seps[0]] + seps[1..]);
      } else {
        RunStarts(s[0], s[1..], rest, seps);
        assert IsRunSplit(s, SplitWhitespace(s), [[s[0]]] + seps);
      }
    }
  }

  /** A non-whitespace character in front joins the first piece. */
  lemma WordGrows(c: char, t: string, pieces: seq<string>, seps: seq<string>)
    requires !IsSpace(c) && IsRunSplit(t, pieces, seps)
    ensures IsRunSplit([c] + t, [[c] + pieces[0]] + pieces[1..], seps)
  {
    var pieces' := [[c] + pieces[0]] + pieces[1..];
    assert pieces'[1..] == pieces[1..];
    assert NoSpace(pieces'[0]) by {
      assert forall i :: 0 < i < |pieces'[0]| ==> pieces'[0][i] == pieces[0][i - 1];
    }
    if |pieces| > 1 {
      assert Interleave(pieces, seps) == pieces[0] + seps[0] + Interleave(pieces[1..], seps[1..]);
      assert Interleave(pieces', seps) == [c] + Interleave(pieces, seps);
    }
  }

  /** A whitespace character in front of a run that starts the text joins that run. */
  lemma RunGrows(c: char, t: string, pieces: seq<string>, seps: seq<string>)
    requires IsSpace(c) && IsRunSplit(t, pieces, seps)
    requires t != [] && pieces[0] == []
    ensures IsRunSplit([c] + t, pieces, [[c] + seps[0]] + seps[1..])
  {
    assert |pieces| > 1;
    var seps' := [[c] + seps[0]] + seps[1..];
    assert seps'[1..] == seps[1..];
    assert IsRun(seps'[0]) by {
      assert forall i :: 0 < i < |seps'[0]| ==> seps'[0][i] == seps[0][i - 1];
    }
    assert Interleave(pieces, seps) == seps[0] + Interleave(pieces[1..], seps[1..]);
    assert Interleave(pieces, seps') == [c] + Interleave(pieces, seps);
  }

  /** A whitespace character in front of a word, or alone, is a run of its own after an empty piece. */
  lemma RunStarts(c: char, t: string, pieces: seq<string>, seps: seq<string>)
    requires IsSpace(c) && IsRunSplit(t, pieces, seps)
    requires |pieces| == 1 || pieces[0] != []
    ensures IsRunSplit([c] + t, [""] + pieces, [[c]] + seps)
  {
    var pieces' := [""] + pieces;
    var seps' := [[c]] + seps;
    assert pieces'[1..] == pieces && seps'[1..] == seps;
    assert Interleave(pieces', seps') == [c] + Interleave(pieces, seps);
  }

  /** A word without whitespace in front of more text joins the first piece. */
  lemma {:induction false} SplitWhitespaceAfterWord(p: string, t: string)
    requires NoSpace(p)
    ensures SplitWhitespace(p + t) == [p + SplitWhitespace(t)[0]] + SplitWhitespace(t)[1..]
  {
    if p != [] {
      assert (p + t)[0] == p[0] && !IsSpace(p[0]);
      assert (p + t)[1..] == p[1..] + t;
      assert NoSpace(p[1..]) by {
        assert forall i :: 0 <= i < |p| - 1 ==> p[1..][i] == p[i + 1];
      }
      SplitWhitespaceAfterWord(p[1..], t);
      var rest := SplitWhitespace(p[1..] + t);
      assert SplitWhitespace(p + t) == [[p[0]] + rest[0]] + rest[1..];
      assert rest[1..] == SplitWhitespace(t)[1..];
      assert [p[0]] + (p[1..] + SplitWhitespace(t)[0]) == p + SplitWhitespace(t)[0];
    } else {
      assert p + t == t && p + SplitWhitespace(t)[0] == SplitWhitespace(t)[0];
      assert SplitWhitespace(t) == [SplitWhitespace(t)[0]] + SplitWhitespace(t)[1..];
    }
  }

  /** A whole run of whitespace in front of text that does not start with whitespace ends a piece. */
  lemma {:induction false} SplitWhitespaceAfterRun(w: string, t: string)
    requires IsRun(w)
    requires t == [] || !IsSpace(t[0])
    ensures SplitWhitespace(w + t) == [""] + SplitWhitespace(t)
    decreases |w|
  {
    assert (w + t)[1..] == w[1..] + t;
    if |w| > 1 {
      SplitWhitespaceAfterRun(w[1..], t);
    } else {
      assert w[1..] + t == t;
    }
  }

  /**
   * The split is the only one: any way of writing the command line as
   * whitespace-free pieces (non-empty inside) separated by whitespace runs is
   * what `SplitWhitespace` returns.
   */
  lemma {:induction false} SplitWhitespaceUnique(s: string, pieces: seq<string>, seps: seq<string>)
    requires IsRunSplit(s, pieces, seps)
    ensures SplitWhitespace(s) == pieces
    decreases |pieces|
  {
    if |pieces| == 1 {
      SplitWhitespaceAfterWord(pieces[0], []);
      assert pieces[0] + [] == pieces[0];
    } else {
      var t := Interleave(pieces[1..], seps[1..]);
      assert IsRunSplit(t, pieces[1..], seps[1..]);
      SplitWhitespaceUnique(t, pieces[1..], seps[1..]);
      if |pieces| > 2 {
        assert pieces[1] != [];
        assert t == pieces[1] + seps[1] + Interleave(pieces[2..], seps[2..]);
      } else {
        assert t == pieces[1];
      }
      SplitWhitespaceAfterRun(seps[0], t);
      assert s == pieces[0] + (seps[0] + t);
      SplitWhitespaceAfterWord(pieces[0], seps[0] + t);
      assert pieces[0] + "" == pieces[0];
      assert pieces == [pieces[0]] + pieces[1..];
    }
  }

  /** The log command splits into the program name and its two arguments. */
  lemma GitLogArguments()
    ensures SplitWhitespace("git log --stat") == ["git", "log", "--stat"]
  {
    var pieces := ["git", "log", "--stat"];
    var seps := [" ", " "];
    assert Interleave(pieces[2..], seps[2..]) == "--stat";
    assert Interleave(pieces[1..], seps[1..]) == "log --stat";
    assert Interleave(pieces, seps) == "git log --stat";
    assert IsRunSplit("git log --stat", pieces, seps);
    SplitWhitespaceUnique("git log --stat", pieces, seps);
  }
}
