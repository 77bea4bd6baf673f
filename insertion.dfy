/**
 * The fixed regular expression ` (\d+) insertion` of the tally, as
 * `FindStringSubmatch` applies it, followed by `strconv.Atoi` on the group.
 * Go's `\d` is the ASCII digits only, and every character the pattern names is
 * ASCII, so matching on characters agrees with Go's matching on UTF-8 bytes.
 */
module InsertionPattern {
  import opened Wrappers

  /** The literal that must follow the digits. */
  const Suffix: string := " insertion"

  predicate IsDigit(c: char) {
    '0' <= c <= '9'
  }

  predicate AllDigits(s: string) {
    forall i :: 0 <= i < |s| ==> IsDigit(s[i])
  }

  /**
   * The pattern matches `line` starting at `i` with its digit group spanning
   * `line[i + 1..k]`: a space, one or more digits, then " insertion".
   */
  predicate MatchAt(line: string, i: int, k: int) {
    0 <= i && i + 1 < k && k + |Suffix| <= |line|
    && line[i] == ' '
    && AllDigits(line[i + 1..k])
    && line[k..k + |Suffix|] == Suffix
  }

  /** A match at `i`, and no match starts further left. */
  ghost predicate LeftmostMatch(line: string, i: int, k: int) {
    MatchAt(line, i, k) && forall j, k' :: 0 <= j < i ==> !MatchAt(line, j, k')
  }

  /** Where a match begins and where its digit group ends. */
  datatype Match = Match(start: nat, digitsEnd: nat)

  /** The end of the longest run of digits beginning at `j`. */
  function DigitRunEnd(line: string, j: nat): (k: nat)
    requires j <= |line|
    ensures j <= k <= |line|
    ensures AllDigits(line[j..k])
    ensures k == |line| || !IsDigit(line[k])
    decreases |line| - j
  {
    if j == |line| || !IsDigit(line[j]) then j else DigitRunEnd(line, j + 1)
  }

  /**
   * Greedy matching has no alternative to try: a match starting at `i` always
   * takes the whole run of digits after the space, because the character
   * after the group must be a space and a shorter group is followed by a digit.
   */
  lemma {:induction false} GroupIsWholeDigitRun(line: string, i: int, k: int)
    requires MatchAt(line, i, k)
    ensures k == DigitRunEnd(line, i + 1)
  {
    var e := DigitRunEnd(line, i + 1);
    assert line[k] == Suffix[0] == ' ';
    assert forall m :: i + 1 <= m < e ==> line[m] == line[i + 1..e][m - (i + 1)];
    assert forall m :: i + 1 <= m < k ==> line[m] == line[i + 1..k][m - (i + 1)];
  }

  /** A match starting at `line[i]` has only one possible digit group. */
  lemma MatchAtUnique(line: string, i: int, k1: int, k2: int)
    requires MatchAt(line, i, k1) && MatchAt(line, i, k2)
    ensures k1 == k2
  {
    GroupIsWholeDigitRun(line, i, k1);
    GroupIsWholeDigitRun(line, i, k2);
  }

  /** The leftmost match that starts at or after `p`, if any. */
  function FindFrom(line: string, p: nat): (r: Option<Match>)
    requires p <= |line|
    ensures r.Some? ==> p <= r.value.start && MatchAt(line, r.value.start, r.value.digitsEnd)
    ensures r.Some? ==> forall i, k :: p <= i < r.value.start ==> !MatchAt(line, i, k)
    ensures r.None? ==> forall i, k :: p <= i ==> !MatchAt(line, i, k)
    decreases |line| - p
  {
    if p == |line| then None
    else if line[p] == ' ' && p + 1 < DigitRunEnd(line, p + 1) && MatchAt(line, p, DigitRunEnd(line, p + 1)) then
      Some(Match(p, DigitRunEnd(line, p + 1)))
    else
      assert forall k :: !MatchAt(line, p, k) by {
        forall k | MatchAt(line, p, k) ensures false {
          GroupIsWholeDigitRun(line, p, k);
        }
      }
      FindFrom(line, p + 1)
  }

  /** `FindStringSubmatch`: the leftmost match of the pattern in `line`. */
  function FindInsertion(line: string): (r: Option<Match>)
    ensures r.Some? ==> LeftmostMatch(line, r.value.start, r.value.digitsEnd)
    ensures r.None? <==> forall i, k :: !MatchAt(line, i, k)
  {
    FindFrom(line, 0)
  }

  function DigitValue(c: char): nat
    requires IsDigit(c)
  {
    (c as int - '0' as int) as nat
  }

  /** `strconv.Atoi` on a string of ASCII digits (leading zeros allowed). */
  function DecimalValue(s: string): nat
    requires AllDigits(s)
  {
    if s == [] then 0 else DecimalValue(s[..|s| - 1]) * 10 + DigitValue(s[|s| - 1])
  }

  /** The decimal numeral of `n`, as `%d` prints it. */
  function Decimal(n: nat): (s: string)
    ensures |s| >= 1 && AllDigits(s)
  {
    var last := [('0' as int + n % 10) as char];
    if n < 10 then last else Decimal(n / 10) + last
  }

  /** Reading the numeral back gives the number: Atoi inverts `%d`. */
  lemma {:induction false} DecimalValueOfDecimal(n: nat)
    ensures DecimalValue(Decimal(n)) == n
  {
    var s := Decimal(n);
    if n >= 10 {
      DecimalValueOfDecimal(n / 10);
      assert s[..|s| - 1] == Decimal(n / 10);
    }
  }

  /**
   * The number a line contributes to the tally: the value of the digit group
   * of the leftmost match, or nothing when the pattern does not occur.
   */
  function InsertionCount(line: string): Option<nat>
  {
    match FindInsertion(line)
    case None => None
    case Some(m) => Some(DecimalValue(line[m.start + 1..m.digitsEnd]))
  }

  /**
   * A line has a count exactly when the pattern occurs in it, and the count
   * is the value of the digit group of a leftmost match.
   */
  lemma InsertionCountSpec(line: string)
    ensures InsertionCount(line).None? <==> forall i, k :: !MatchAt(line, i, k)
    ensures InsertionCount(line).Some? ==>
      exists i, k :: LeftmostMatch(line, i, k) && InsertionCount(line).value == DecimalValue(line[i + 1..k])
  {
    var r := FindInsertion(line);
    if r.Some? {
      assert LeftmostMatch(line, r.value.start, r.value.digitsEnd);
    }
  }

  /** The count is that of the leftmost match, whatever digit group is named. */
  lemma InsertionCountOfLeftmost(line: string, i: int, k: int)
    requires LeftmostMatch(line, i, k)
    ensures InsertionCount(line) == Some(DecimalValue(line[i + 1..k]))
  {
    var m := FindInsertion(line).value;
    MatchAtUnique(line, i, m.digitsEnd, k);
  }
}
