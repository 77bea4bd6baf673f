# Contributor tally of the go-mud build generator

`app/gen.go` is a `go generate` program. It runs `git log --stat`, credits
every inserted line to the commit's author, and writes a Go file listing the
contributors with the most inserted lines first. This project models the
pure core of that program in Dafny and proves properties of the model:

- `parseContributors` (module `Contributors`):
  - it splits the log into lines;
  - it tracks the current author from `Author:` lines;
  - it adds the number of each ` N insertion` line to that author's total in a map;
  - it copies the map into a list and sorts the list stably by descending line count.

  The method `ParseContributors` is a loop over the lines that updates the
  current author and the map. It is proved to compute `Scan`, the fold of
  `Step` over the lines. `TallyMatchesReference` proves that `Scan` agrees
  with an independent, line-by-line description of the totals
  (`CurrentAuthor`, `CreditedTo`, `CreditSum`).
- The Go library behaviour the tally relies on:
  - `strings.Split` on newlines and `strings.SplitN` on the first space (module `Strings`);
  - the fixed regular expression `` (\d+) insertion`` with `strconv.Atoi` on its group (module `InsertionPattern`);
  - `sort.SliceStable` with the comparator `Lines >` (module `Sorting`). It is run in place on an array by straight insertion and specified by a functional stable insertion sort.
- The two pure string steps of `RunCommand` (module `CommandLine`):
  - splitting the command line on `\s+`;
  - trimming the command's output with the cutset `"\r\n\t "`.

**Ties.** `sort.SliceStable` keeps equal counts in the order the list was built. The list is built by ranging over a Go map (app/gen.go:75), whose iteration order is unspecified, so the order among equal counts is not determined. `ContributorList` picks the next key nondeterministically, and `IsContributorTable` leaves tie order free.

## Model

| member | source | states |
|---|---|---|
| Strings.SplitLines | app/gen.go:56 | `strings.Split(gitLog, "\n")` yields at least one piece, and no piece contains a newline |
| Strings.JoinLinesOfSplit | app/gen.go:56 | joining the pieces with newlines gives back the log: no character is lost |
| Strings.SplitLinesOfJoin | app/gen.go:56 | splitting newline-free pieces that were joined with newlines gives exactly those pieces, so the split is determined |
| Strings.SplitAtFirstSpace | app/gen.go:59 | `strings.SplitN(line, " ", 2)`. With no space it gives `[line]`. Otherwise it gives two fields: the first has no space, and first + " " + second is the line |
| Strings.SplitAtFirstSpaceOf | app/gen.go:59-61 | a space-free head, one space and any tail always split into exactly `[head, tail]`. The tail is kept verbatim, further spaces included |
| InsertionPattern.InsertionCount | app/gen.go:65-68 | the count a line contributes: the Atoi value of the leftmost match's digit group, or none. It is specified by InsertionCountSpec and InsertionCountOfLeftmost |
| InsertionPattern.DecimalValue | app/gen.go:68 | `strconv.Atoi` on a run of ASCII digits, leading zeros allowed. DecimalValueOfDecimal proves it inverts the decimal numeral |
| InsertionPattern.GroupIsWholeDigitRun | app/gen.go:65-66 | a match starting at a given space takes the whole digit run after it, so greedy backtracking has no other match to find |
| InsertionPattern.MatchAtUnique | app/gen.go:65-66 | a match starting at a given position has exactly one digit group |
| InsertionPattern.FindInsertion | app/gen.go:65-67 | `FindStringSubmatch`: a result is a leftmost match, and there is no result exactly when the pattern occurs nowhere in the line |
| InsertionPattern.DecimalValueOfDecimal | app/gen.go:68 | `strconv.Atoi` of the decimal numeral of `n` is `n` |
| InsertionPattern.InsertionCountSpec | app/gen.go:65-68 | a line has a count exactly when the pattern occurs in it, and the count is the Atoi value of a leftmost match's digit group |
| InsertionPattern.InsertionCountOfLeftmost | app/gen.go:65-68 | for any leftmost match, the line's count is the value of that match's digit group |
| Sorting.InsertByLines | app/gen.go:82-84 | one element placed before the first element with strictly fewer lines. It is specified by InsertByLinesElements, InsertByLinesSorted and InsertByLinesStable |
| Sorting.SortByLines | app/gen.go:82-84 | the stable descending sort, each element inserted in turn into the sorted prefix. It is specified by SortByLinesCorrect and SortByLinesDistinct |
| Sorting.InsertByLinesElements | app/gen.go:82-84 | inserting adds the element once and changes nothing else in the multiset |
| Sorting.InsertByLinesSorted | app/gen.go:82-84 | inserting into a list sorted by descending count keeps it sorted |
| Sorting.InsertByLinesStable | app/gen.go:82-84 | inserting into a sorted list puts the new element after every element with the same count |
| Sorting.SortByLinesCorrect | app/gen.go:82-84 | the stable sort gives a list that is non-increasing by `Lines` and a permutation of its input, and for every count it keeps the entries with that count in their input order |
| Sorting.SortByLinesDistinct | app/gen.go:82-84 | sorting a list with distinct names keeps the names distinct |
| Sorting.InsertLast | app/gen.go:82-84 | one pass of straight insertion over the array: the prefix up to `i` becomes the insertion of `a[i]` into the sorted prefix, and the rest of the array is untouched |
| Sorting.SortInPlace | app/gen.go:82-84 | after the in-place sort the array holds the stable descending sort of its old contents |
| Contributors.AuthorLineIsPrefixed | app/gen.go:59-61 | except for a bare `Author:`, a line's first field is `Author:` exactly when the line starts with "Author: ", and the author is then the rest of the line |
| Contributors.FirstCountStartsTotal | app/gen.go:69 | `+=` on an author not yet in the map starts from Go's zero value: after a line counting `n`, that author's total is exactly `n` and nothing else changes |
| Contributors.Step | app/gen.go:59-70 | one pass of the loop body over the tally (current author, map). It is specified by AuthorLineSetsAuthor, UnmatchedLineIgnored, MatchedLineAdds and FirstCountStartsTotal. AuthorLineIsPrefixed shows its prefix test is the loop's field test |
| Contributors.Scan | app/gen.go:56-71 | the loop over the lines, from the empty author and an empty map. TallyMatchesReference proves it agrees with the line-by-line description of the totals |
| Contributors.Totals | app/gen.go:56-71 | the map after the loop over the log's lines. ParseContributors returns the contributor table of exactly this map |
| Contributors.AuthorLineSetsAuthor | app/gen.go:59-63 | an author line sets the current author to the text after "Author: " verbatim and adds nothing, even when it contains ` N insertion` |
| Contributors.UnmatchedLineIgnored | app/gen.go:65-70 | any other line in which the pattern does not occur changes neither the author nor the totals |
| Contributors.MatchedLineAdds | app/gen.go:65-70 | any other line with a leftmost match adds that match's value to the current author's total and changes nothing else |
| Contributors.NoAuthorYet | app/gen.go:53 | before any author line, the current author is the empty string |
| Contributors.LastAuthorLine | app/gen.go:58-63 | the current author is the one named by the last author line so far |
| Contributors.TallyMatchesReference | app/gen.go:52-71 | after any lines, the tally's author is the last one named. An author has an entry exactly when some insertion line was credited to them, a zero count included. Their total is the sum of the counts of every line credited to them, across all their stretches |
| Contributors.OrphanLineCreditedToEmptyAuthor | app/gen.go:53-69 | an insertion line before every author line is credited to the empty-string author, which then has an entry |
| Contributors.NoInsertionLinesNoTotals | app/gen.go:56-71 | a log in which no line has a count leaves the map empty |
| Contributors.EmptyLogNoContributors | app/gen.go:56-86 | the empty log yields the empty contributor list |
| Contributors.StretchStep | app/gen.go:58-70 | an author line followed by a line counting `n` makes that author current and raises their total by `n` |
| Contributors.AlternatingAuthors | app/gen.go:55-70 | Alice with 10, then Bob with 3, then Alice again with 5 gives Alice 15 and Bob 3 |
| Contributors.AlternatingAuthorsList | app/gen.go:73-84 | for the totals Alice 15 and Bob 3, the only possible contributor list is [Alice 15, Bob 3] |
| Contributors.ParseContributors | app/gen.go:52-87 | the result is the contributor table of the log's totals. It has one entry per map entry with that entry's total, no name twice, and is ordered by non-increasing line count |
| Contributors.ContributorList | app/gen.go:73-84 | the map's entries copied into a list in any order and then sorted form the contributor table of the map |
| CommandLine.FrontEnd | app/gen.go:98 | the first index from `lo` on that is not in the cutset; everything before it is in the cutset |
| CommandLine.BackEnd | app/gen.go:98 | the end of the last character below `hi` that is not in the cutset; everything after it is in the cutset |
| CommandLine.Trim | app/gen.go:98 | the trimmed output is a slice of the output with only cutset characters outside it. A non-empty result neither starts nor ends with `\r`, `\n`, `\t` or space. The result is empty exactly when the output is all cutset |
| CommandLine.TrimUnique | app/gen.go:98 | any slice with those properties is the trimmed output, so the trim is determined |
| CommandLine.TrimIdempotent | app/gen.go:98 | trimming twice is trimming once |
| CommandLine.TrimVersionLine | app/gen.go:98 | `" v1.0\r\n"` trims to `"v1.0"` |
| CommandLine.SplitWhitespace | app/gen.go:90 | `Split(cmdLine, -1)` on `\s+` yields at least one piece, so `args[0]` exists. No piece contains whitespace, and pieces other than the first and last are non-empty |
| CommandLine.SplitWhitespaceRebuilds | app/gen.go:90 | the pieces, with runs of whitespace put back between them, give the command line |
| CommandLine.SplitWhitespaceAfterWord | app/gen.go:90 | a whitespace-free word in front of more text joins the first piece |
| CommandLine.SplitWhitespaceAfterRun | app/gen.go:90 | a whole whitespace run in front of a word or of nothing ends a piece |
| CommandLine.SplitWhitespaceUnique | app/gen.go:90 | any decomposition into whitespace-free pieces, non-empty inside, separated by whitespace runs, is the split |
| CommandLine.GitLogArguments | app/gen.go:24 | the command line `git log --stat` splits into `git`, `log` and `--stat` |

## Left out

- Running the commands (`exec.Command`, `cmd.Output`), including the three metadata commands `git describe`, `hostname` and `go version`, and the fatal exit through `log.Fatal` (app/gen.go:25-27, 91-96): process execution and termination are outside a pure model.
- Creating and writing the output file, the `text/template` rendering, Go's `%q` quoting and the `time.Now` timestamp (app/gen.go:29-49, 101-121): file I/O, library formatting and the wall clock.
- The general regular-expression engine: only the two fixed patterns are modelled, each by a direct matcher with the same leftmost, greedy meaning.
- ParseContributors: requires that no line is exactly `Author:`. For such a line the source indexes `fields[1]`, which does not exist, and the program panics.
- ParseContributors: line counts and totals are unbounded naturals. `strconv.Atoi` overflow on huge digit runs, whose error the source ignores, and `int` overflow of the totals are not modelled.
- ContributorList: the Go map's iteration order is modelled as an arbitrary choice of the next key. The order among equal counts is therefore not stated.
- SortInPlace: Go's `sort.SliceStable` algorithm (insertion sort on blocks followed by in-place merging) is replaced by straight insertion sort with the same stable contract. The calls to the comparator are not modelled.
- AlternatingAuthors: stated for any three non-author lines with the counts 10, 3 and 5, not for literal `git log --stat` text, because evaluating the matcher on literal stat lines is too costly for the solver.
- Strings are modelled as sequences of characters, not UTF-8 bytes. Every character the patterns, the cutset and the separators name is ASCII, so splitting, matching and trimming come out the same.
