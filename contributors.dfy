/**
 * `parseContributors`: the per-author tally of inserted lines over the text of
 * `git log --stat`, and the contributor list built from it.
 *
 * `Step` and `Scan` give the meaning of the loop over the lines; the method
 * `ParseContributors` is proved to compute it. `CurrentAuthor`, `CreditedTo`
 * and `CreditSum` describe the same tally a second way, line by line, and
 * `TallyMatchesReference` proves the two agree.
 */
module Contributors {
  import opened Wrappers
  import opened Strings
  import opened InsertionPattern
  import opened Sorting

  /** The first field of an author line. */
  const AuthorField: string := "Author:"

  /** How an author line begins: the field and the space after it. */
  const AuthorPrefix: string := "Author: "

  /**
   * The source reads `fields[1]` of every line whose first field is `Author:`;
   * for the line "Author:" alone that index does not exist and Go panics.
   * Logs the tally accepts contain no such line.
   */
  predicate WellFormedLines(lines: seq<string>) {
    forall i :: 0 <= i < |lines| ==> lines[i] != AuthorField
  }

  /** The first field, split on the first single space, is exactly `Author:`. */
  predicate IsAuthorLine(line: string) {
    SplitAtFirstSpace(line)[0] == AuthorField
  }

  /** The author an author line names: everything after its first space, verbatim. */
  function AuthorOf(line: string): string
    requires IsAuthorLine(line) && line != AuthorField
  {
    SplitAtFirstSpace(line)[1]
  }

  /** `line` begins with "Author: ". */
  predicate StartsWithAuthor(line: string) {
    |AuthorPrefix| <= |line| && line[..|AuthorPrefix|] == AuthorPrefix
  }

  /**
   * The field test is a prefix test: apart from a bare "Author:", a line's
   * first field is `Author:` exactly when it begins with "Author: ", and the
   * author is then the rest of the line after that prefix.
   */
  lemma AuthorLineIsPrefixed(line: string)
    requires line != AuthorField
    ensures IsAuthorLine(line) <==> StartsWithAuthor(line)
    ensures IsAuthorLine(line) ==> AuthorOf(line) == line[|AuthorPrefix|..]
  {
    if StartsWithAuthor(line) {
      assert line == AuthorField + " " + line[|AuthorPrefix|..];
      SplitAtFirstSpaceOf(AuthorField, line[|AuthorPrefix|..]);
    }
    if IsAuthorLine(line) {
      var fields := SplitAtFirstSpace(line);
      assert line == AuthorField + " " + fields[1];
      assert line[..|AuthorPrefix|] == AuthorPrefix;
    }
  }

  /** The loop's two variables: the current author and `authorDict`. */
  datatype Tally = Tally(author: string, totals: map<string, nat>)

  /** A Go map read: a missing key reads as zero. */
  function Lookup(m: map<string, nat>, key: string): (v: nat)
    ensures key in m ==> v == m[key]
    ensures key !in m ==> v == 0
  {
    if key in m then m[key] else 0
  }

  /**
   * What one line does to the tally (one pass of the loop body). An author
   * line is recognised by its "Author: " prefix, which `AuthorLineIsPrefixed`
   * shows is the loop's own test on the first field.
   */
  function Step(t: Tally, line: string): Tally
  {
    if StartsWithAuthor(line) then Tally(line[|AuthorPrefix|..], t.totals)
    else
      match InsertionCount(line)
      case None => t
      case Some(n) => Tally(t.author, t.totals[t.author := Lookup(t.totals, t.author) + n])
  }

  /** A line that is not an author line adds its count, if it has one, to the current author. */
  lemma CountStep(t: Tally, line: string)
    requires !StartsWithAuthor(line)
    ensures InsertionCount(line).None? ==> Step(t, line) == t
    ensures InsertionCount(line).Some? ==>
      Step(t, line) == Tally(t.author, t.totals[t.author := Lookup(t.totals, t.author) + InsertionCount(line).value])
  {
  }

  /** The tally after the given lines, starting from the empty author and an empty map. */
  function Scan(lines: seq<string>): Tally
  {
    if lines == [] then Tally("", map[])
    else Step(Scan(lines[..|lines| - 1]), lines[|lines| - 1])
  }

  /** The tally of some lines followed by one more is one more step. */
  lemma ScanSnoc(init: seq<string>, line: string)
    ensures Scan(init + [line]) == Step(Scan(init), line)
  {
    assert (init + [line])[..|init|] == init;
  }

  /** The totals of a whole log. */
  function Totals(gitLog: string): map<string, nat>
  {
    Scan(SplitLines(gitLog)).totals
  }

  /**
   * The contributor list of `totals`: one entry per map entry and no other,
   * no name twice, ordered by non-increasing line count. Ties may come in
   * any order, because the list is filled in Go's unspecified map order.
   */
  ghost predicate IsContributorTable(list: seq<Contributor>, totals: map<string, nat>) {
    && |list| == |totals|
    && DistinctNames(list)
    && (forall c :: c in list <==> c.name in totals && totals[c.name] == c.lines)
    && SortedByLines(list)
  }

  /** An author line replaces the current author verbatim and adds nothing, even if it matches the pattern. */
  lemma AuthorLineSetsAuthor(t: Tally, rest: string)
    ensures Step(t, AuthorPrefix + rest) == Tally(rest, t.totals)
  {
    var line := AuthorPrefix + rest;
    assert line[..|AuthorPrefix|] == AuthorPrefix && line[|AuthorPrefix|..] == rest;
  }

  /** Any other line where the pattern does not occur changes nothing. */
  lemma UnmatchedLineIgnored(t: Tally, line: string)
    requires !StartsWithAuthor(line)
    requires forall i, k :: !MatchAt(line, i, k)
    ensures Step(t, line) == t
  {
    InsertionCountSpec(line);
    CountStep(t, line);
  }

  /**
   * Any other line where the pattern occurs adds the value of the digit group
   * of its leftmost match to the current author's total (a missing total
   * counting as zero) and changes nothing else.
   */
  lemma MatchedLineAdds(t: Tally, line: string, i: int, k: int)
    requires !StartsWithAuthor(line)
    requires LeftmostMatch(line, i, k)
    ensures Step(t, line) == Tally(t.author, t.totals[t.author := Lookup(t.totals, t.author) + DecimalValue(line[i + 1..k])])
  {
    InsertionCountOfLeftmost(line, i, k);
    CountStep(t, line);
  }

  /**
   * Go's `+=` on a missing map key starts from the zero value: the first
   * count credited to an author becomes their total as it is.
   */
  lemma FirstCountStartsTotal(t: Tally, line: string, n: nat)
    requires !StartsWithAuthor(line) && InsertionCount(line) == Some(n)
    requires t.author !in t.totals
    ensures Step(t, line).author == t.author
    ensures Step(t, line).totals == t.totals[t.author := n]
  {
    CountStep(t, line);
  }

  /** The author named by the last line of `lines` that begins with "Author: ", or "" if none does. */
  function CurrentAuthor(lines: seq<string>): string
  {
    if lines == [] then ""
    else if StartsWithAuthor(lines[|lines| - 1]) then lines[|lines| - 1][|AuthorPrefix|..]
    else CurrentAuthor(lines[..|lines| - 1])
  }

  /** With no author line yet, the current author is the empty string. */
  lemma {:induction false} NoAuthorYet(lines: seq<string>)
    requires forall j :: 0 <= j < |lines| ==> !StartsWithAuthor(lines[j])
    ensures CurrentAuthor(lines) == ""
  {
    if lines != [] {
      NoAuthorYet(lines[..|lines| - 1]);
    }
  }

  /** The current author is the one named by the last author line. */
  lemma {:induction false} LastAuthorLine(lines: seq<string>, j: nat)
    requires j < |lines| && StartsWithAuthor(lines[j])
    requires forall m :: j < m < |lines| ==> !StartsWithAuthor(lines[m])
    ensures CurrentAuthor(lines) == lines[j][|AuthorPrefix|..]
  {
    if j < |lines| - 1 {
      LastAuthorLine(lines[..|lines| - 1], j);
    }
  }

  /** Line `i` is an insertion line and the author current just before it is `name`. */
  predicate CreditedTo(lines: seq<string>, i: int, name: string) {
    && 0 <= i < |lines|
    && !StartsWithAuthor(lines[i])
    && InsertionCount(lines[i]).Some?
    && CurrentAuthor(lines[..i]) == name
  }

  /** The sum of the counts of all the lines credited to `name`. */
  function CreditSum(lines: seq<string>, name: string): nat
  {
    if lines == [] then 0
    else
      var last := |lines| - 1;
      CreditSum(lines[..last], name) + (if CreditedTo(lines, last, name) then InsertionCount(lines[last]).value else 0)
  }

  /**
   * The tally agrees with the line-by-line description: after any lines the
   * current author is the one named last; an author has a total exactly when
   * some insertion line was credited to them (a count of 0 included), and
   * the total is the sum over every stretch in which they were current.
   */
  lemma {:induction false} TallyMatchesReference(lines: seq<string>)
    ensures Scan(lines).author == CurrentAuthor(lines)
    ensures forall name :: name in Scan(lines).totals <==> exists i :: CreditedTo(lines, i, name)
    ensures forall name :: Lookup(Scan(lines).totals, name) == CreditSum(lines, name)
  {
    if lines != [] {
      var init := lines[..|lines| - 1];
      TallyMatchesReference(init);
      assert lines == init + [lines[|lines| - 1]];
      forall name
        ensures (name in Scan(lines).totals <==> exists i :: CreditedTo(lines, i, name))
        ensures Lookup(Scan(lines).totals, name) == CreditSum(lines, name)
      {
        StepAgreesForName(init, lines[|lines| - 1], name);
      }
    }
  }

  /** One more line keeps the tally and the reference in step for one name. */
  lemma StepAgreesForName(init: seq<string>, line: string, name: string)
    requires Scan(init).author == CurrentAuthor(init)
    requires name in Scan(init).totals <==> exists i :: CreditedTo(init, i, name)
    requires Lookup(Scan(init).totals, name) == CreditSum(init, name)
    ensures name in Scan(init + [line]).totals <==> exists i :: CreditedTo(init + [line], i, name)
    ensures Lookup(Scan(init + [line]).totals, name) == CreditSum(init + [line], name)
  {
    var lines := init + [line];
    var last := |init|;
    assert lines[..last] == init && lines[last] == line;
    var t := Scan(init);
    assert Scan(lines) == Step(t, line);
    var gained := CreditedTo(lines, last, name);
    CreditedOfPrefix(lines, name);
    if exists i :: CreditedTo(init, i, name) {
      var i :| CreditedTo(init, i, name);
      assert CreditedTo(lines, i, name);
    }
    if exists i :: CreditedTo(lines, i, name) {
      var i :| CreditedTo(lines, i, name);
      assert i < last ==> CreditedTo(init, i, name);
    }
    assert CreditSum(lines, name) == CreditSum(lines[..last], name) + (if gained then InsertionCount(lines[last]).value else 0);
    if StartsWithAuthor(line) {
      assert !gained;
    } else {
      CountStep(t, line);
      assert gained <==> InsertionCount(line).Some? && name == t.author;
    }
  }

  /** Extending the lines does not change what the earlier lines are credited with. */
  lemma CreditedOfPrefix(lines: seq<string>, name: string)
    requires lines != []
    ensures forall i :: 0 <= i < |lines| - 1 ==>
      (CreditedTo(lines, i, name) <==> CreditedTo(lines[..|lines| - 1], i, name))
  {
    forall i | 0 <= i < |lines| - 1
      ensures CreditedTo(lines, i, name) <==> CreditedTo(lines[..|lines| - 1], i, name)
    {
      assert lines[..|lines| - 1][..i] == lines[..i];
    }
  }

  /** An insertion line before every author line is credited to the empty-string author. */
  lemma OrphanLineCreditedToEmptyAuthor(lines: seq<string>, i: nat)
    requires i < |lines| && InsertionCount(lines[i]).Some?
    requires forall j :: 0 <= j <= i ==> !StartsWithAuthor(lines[j])
    ensures CreditedTo(lines, i, "")
    ensures "" in Scan(lines).totals
  {
    var before := lines[..i];
    assert forall j :: 0 <= j < |before| ==> before[j] == lines[j];
    NoAuthorYet(before);
    assert CreditedTo(lines, i, "");
    TallyMatchesReference(lines);
  }

  /** A log without a single insertion line yields no totals at all. */
  lemma {:induction false} NoInsertionLinesNoTotals(lines: seq<string>)
    requires forall i :: 0 <= i < |lines| ==> InsertionCount(lines[i]).None?
    ensures Scan(lines).totals == map[]
  {
    if lines != [] {
      var last := |lines| - 1;
      NoInsertionLinesNoTotals(lines[..last]);
      if !StartsWithAuthor(lines[last]) {
        CountStep(Scan(lines[..last]), lines[last]);
      }
    }
  }

  /** The empty log has no contributors. */
  lemma EmptyLogNoContributors(list: seq<Contributor>)
    requires IsContributorTable(list, Totals(""))
    ensures list == []
  {
    assert SplitLines("") == [""];
    NoInsertionLinesNoTotals([""]);
  }

  /** An author line followed by one line counting `n`: `n` more for that author. */
  lemma StretchStep(t: Tally, name: string, s: string, n: nat)
    requires !StartsWithAuthor(s) && InsertionCount(s) == Some(n)
    ensures Step(Step(t, AuthorPrefix + name), s) == Tally(name, t.totals[name := Lookup(t.totals, name) + n])
  {
    AuthorLineSetsAuthor(t, name);
    CountStep(Tally(name, t.totals), s);
  }

  /** The tally after two more lines is two more steps. */
  lemma ScanSnocTwo(init: seq<string>, a: string, b: string)
    ensures Scan(init + [a] + [b]) == Step(Step(Scan(init), a), b)
  {
    ScanSnoc(init, a);
    ScanSnoc(init + [a], b);
  }

  lemma RaiseTotal(alice: string, bob: string, t: map<string, nat>)
    requires alice != bob && t == map[alice := 10, bob := 3]
    ensures t[alice := 15] == map[alice := 15, bob := 3]
  {
  }

  /**
   * Alternating stretches: Alice 10, then Bob 3, then Alice again 5 gives
   * Alice 15 and Bob 3.
   */
  lemma AlternatingAuthors(alice: string, bob: string, s1: string, s2: string, s3: string)
    requires alice != bob
    requires !StartsWithAuthor(s1) && !StartsWithAuthor(s2) && !StartsWithAuthor(s3)
    requires InsertionCount(s1) == Some(10) && InsertionCount(s2) == Some(3) && InsertionCount(s3) == Some(5)
    ensures var lines := [AuthorPrefix + alice] + [s1] + [AuthorPrefix + bob] + [s2] + [AuthorPrefix + alice] + [s3];
      Scan(lines).totals == map[alice := 15, bob := 3]
  {
    var p0: seq<string> := [];
    var p2 := p0 + [AuthorPrefix + alice] + [s1];
    var p4 := p2 + [AuthorPrefix + bob] + [s2];
    var p6 := p4 + [AuthorPrefix + alice] + [s3];
    assert p6 == [AuthorPrefix + alice] + [s1] + [AuthorPrefix + bob] + [s2] + [AuthorPrefix + alice] + [s3];
    ScanSnocTwo(p0, AuthorPrefix + alice, s1);
    StretchStep(Scan(p0), alice, s1, 10);
    assert Scan(p2).totals == map[alice := 10];
    ScanSnocTwo(p2, AuthorPrefix + bob, s2);
    StretchStep(Scan(p2), bob, s2, 3);
    var t4 := Scan(p4).totals;
    assert t4 == map[alice := 10, bob := 3];
    assert Lookup(t4, alice) == 10;
    ScanSnocTwo(p4, AuthorPrefix + alice, s3);
    StretchStep(Scan(p4), alice, s3, 5);
    RaiseTotal(alice, bob, t4);
  }

  /** The only contributor list for Alice 15 and Bob 3 is [Alice 15, Bob 3]. */
  lemma AlternatingAuthorsList(alice: string, bob: string, list: seq<Contributor>)
    requires alice != bob
    requires IsContributorTable(list, map[alice := 15, bob := 3])
    ensures list == [Contributor(alice, 15), Contributor(bob, 3)]
  {
    assert |list| == 2;
    assert Contributor(alice, 15) in list && Contributor(bob, 3) in list;
  }

  /**
   * `parseContributors(gitLog)`: tally the log line by line, copy the map's
   * entries into a list in an unspecified order, and sort it stably by
   * descending line count.
   */
  method ParseContributors(gitLog: string) returns (authorList: seq<Contributor>)
    requires WellFormedLines(SplitLines(gitLog))
    ensures IsContributorTable(authorList, Totals(gitLog))
  {
    var author := "";
    var authorDict: map<string, nat> := map[];
    var lines := SplitLines(gitLog);

    for i := 0 to |lines|
      invariant Tally(author, authorDict) == Scan(lines[..i])
    {
      var line := lines[i];
      assert lines[..i + 1][..i] == lines[..i];
      assert Scan(lines[..i + 1]) == Step(Tally(author, authorDict), line);
      AuthorLineIsPrefixed(line);
      var fields := SplitAtFirstSpace(line);
      if fields[0] == AuthorField {
        author := fields[1];
        continue;
      }
      var count := InsertionCount(line);
      CountStep(Tally(author, authorDict), line);
      if count.Some? {
        authorDict := authorDict[author := Lookup(authorDict, author) + count.value];
      }
    }
    assert lines[..|lines|] == lines;
    assert Totals(gitLog) == authorDict;

    authorList := ContributorList(authorDict);
  }

  /**
   * The end of `parseContributors` (app/gen.go:73-86): the map's entries appended to a list in
   * Go's map iteration order, which is unspecified (modelled as any remaining
   * key coming next), then sorted in place by descending line count.
   */
  method ContributorList(authorDict: map<string, nat>) returns (authorList: seq<Contributor>)
    ensures IsContributorTable(authorList, authorDict)
  {
    var list: seq<Contributor> := [];
    var remaining := authorDict.Keys;
    while remaining != {}
      invariant remaining <= authorDict.Keys
      invariant |list| + |remaining| == |authorDict|
      invariant DistinctNames(list)
      invariant forall c :: c in list <==> c.name in authorDict && c.name !in remaining && authorDict[c.name] == c.lines
      decreases |remaining|
    {
      var k :| k in remaining;
      list := list + [Contributor(k, authorDict[k])];
      remaining := remaining - {k};
    }

    var a := new Contributor[|list|](i requires 0 <= i < |list| => list[i]);
    assert a[..] == list;
    SortInPlace(a);
    authorList := a[..];
    SortByLinesCorrect(list);
    SortByLinesDistinct(list);
    forall c ensures c in authorList <==> c in list {
      assert c in authorList <==> c in multiset(authorList);
    }
  }
}
