# talent_sorter, modelled in Dafny

`talent_sorter.py` merges several ranking pages into one weighted leaderboard.
For each page, `parse_ranking` finds the single table of class `table-ranking`. It skips header rows and, from every
other row, takes the stripped text of the one `user-cell` cell and the second non-blank `text-right` cell read as an
integer. The main block then folds the (name, points) pairs of source `i` into a `defaultdict`. Each row adds
`points * multiplier[i]` to the person's total and writes `points` into slot `i` of the person's breakdown tuple.
Finally it sorts the names by total, highest first, and decides whether every total is a whole number.

The model, module by module:

- `Wrappers` (wrappers.dfy): `Option` and `Result`.
- `Text` (text.dfy): Python's `str.strip()`, over the full `str.isspace()` character set, and `int()` on a string.
  `int()` accepts an optional sign and ASCII digits, with single underscores between digits, surrounded by whitespace.
  The whitespace `int()` skips is the `str.isspace()` set without the separators U+001C..U+001F. A cell holding
  "\x1c42" is therefore not blank to `strip()` but is a ValueError to `int()` (`Text.SeparatorCharRejected`).
- `Extract` (extract.dfy): `parse_ranking` as a pure function from a parsed page (a sequence of tables of rows of
  cells) to `Result<seq<Entry>, Error>`. Every place where Python raises becomes a `Failure`:
  - `KeyError` on an element without a `class` attribute;
  - `ValueError` from `ranking, = …`, from `name, = …`, from `_, points, *_ = …` or from `int()`.
- `Aggregate` (aggregate.dfy):
  - The dictionary as the functions `FoldRow`, `FoldSource` and `FoldAll` over a `Board`. A `Board` holds a map plus
    the keys in insertion order, since a Python dict iterates in insertion order.
  - The `Scoreboard` class, whose methods update that dictionary in place as lines 64-68 do and are proved equal to
    those functions.
  - Lemmas on what the fold leaves for each person.
- `Rank` (rank.dfy): the stable descending sort of line 74 and `all_integer` of line 70.
- `TalentSorter` (tally.dfy): the main block as the method `Tally`. It checks that there is one multiplier per page,
  then parses and folds page after page in a loop over a `Scoreboard`, and returns the ranking.
- `TalentSorterExamples` (tally.dfy): a worked example with tied totals.

Three readings of the program that the code does not bear out, and what the model shows instead:

- **Repeated name within one source.** One might expect a later row to overwrite an earlier one for the same name,
  so that every total stays equal to Σ breakdown[i] × multiplier[i]. Line 68 instead adds `score * multiplier` for
  every row, while the breakdown slot keeps only the last score. The total therefore counts both rows
  (`RepeatedNameCountsTwice`). The weighted-sum equality is proved only for sources without repeated names
  (`TotalIsWeightedSum`).
- **Order of sources.** One might expect folding the sources in any order to give the same ranking. The totals and
  breakdowns do not depend on the order (not proved here). The ranking, however, breaks ties by first-seen order, which does depend on
  the order of the sources (`TieFollowsFirstSeen`).
- **Score cells.** One might expect a row to need only two parseable numeric cells. The code converts every
  non-blank `text-right` cell with `int()` before taking the second. A row therefore fails when any candidate cell,
  even the third, is not an integer (`Extract.ParseRowSpec`).

## Model

| member | source | states |
|---|---|---|
| Text.TrimStartSpec | talent_sorter.py:37 | `lstrip()` removes a whitespace-only prefix, and what remains is empty or starts with a non-whitespace character |
| Text.TrimEndSpec | talent_sorter.py:37 | `rstrip()` removes a whitespace-only suffix, and what remains is empty or ends with a non-whitespace character |
| Text.StripSplit | talent_sorter.py:37 | stripping whitespace around a text that neither starts nor ends with whitespace gives that text back |
| Text.StripIsInfix | talent_sorter.py:37 | `strip()` always splits its input into whitespace, a trimmed middle, and whitespace |
| Text.ParseShowInt | talent_sorter.py:38 | `int()` reads every integer's decimal text back, surrounded by any whitespace `int()` skips |
| Text.ParseIntSpec | talent_sorter.py:38 | after stripping the whitespace `int()` skips, a digit run gives the value of its digits, a sign followed by a digit run gives the signed value, and anything else is a ValueError |
| Text.ParseDigitsShape | talent_sorter.py:38 | a digit run has a value only if it starts and ends with a digit and every underscore sits between two digits |
| Text.ParseDigitsComplete | talent_sorter.py:38 | every digit run of that shape has a value: the decimal value of its digits, underscores ignored |
| Text.SeparatedInt | talent_sorter.py:38 | "1_000" reads as 1000 |
| Text.PaddedInt | talent_sorter.py:38 | " 007\n" reads as 7: leading zeros and surrounding whitespace are accepted |
| Text.SeparatorCharRejected | talent_sorter.py:38-39 | a text starting with U+001C strips to a non-blank candidate, yet `int()` rejects it |
| Extract.RankingTablesSpec | talent_sorter.py:33 | the candidate tables are exactly the page's tables whose class list contains `table-ranking` |
| Extract.RankingTablesCount | talent_sorter.py:33 | there are as many candidate tables as positions on the page holding a marked table, so a marked table that occurs twice counts twice |
| Extract.SelectTable | talent_sorter.py:33 | selection succeeds exactly when every table has a class attribute and exactly one is a ranking table; a table without a class attribute fails with `MissingClass`; otherwise it fails with the number of ranking tables found |
| Extract.SelectTableUnique | talent_sorter.py:33 | the selected table is on the page, is marked `table-ranking`, and every table so marked equals it |
| Extract.TwoRankingTablesFail | talent_sorter.py:33 | a page with two ranking tables is rejected rather than one of them being picked |
| Extract.ScoreValuesSpec | talent_sorter.py:38-39 | converting the candidate cells succeeds exactly when every one is an integer, and then gives each cell's value in order |
| Extract.ParseRowSpec | talent_sorter.py:37-40 | a row yields a pair exactly when its data cells all have classes, exactly one is a `user-cell`, at least two are non-blank `text-right` cells and all of those are integers; the name is the stripped user-cell text and the score the second candidate's value |
| Extract.TwoNameCellsFail | talent_sorter.py:37 | a row with two `user-cell` cells fails |
| Extract.OutcomesSucceed | talent_sorter.py:34-40 | every row outcome succeeds exactly when every non-header row yields a pair |
| Extract.CollectSpec | talent_sorter.py:34-40 | draining the row outcomes gives every value in order when all succeed, and otherwise the first failure, after which no row's value is used |
| Extract.ParseRowsSpec | talent_sorter.py:34-40 | one pair per non-header row, in row order, exactly when every non-header row yields one; otherwise the error of the first non-header row that fails |
| Extract.ParseRanking | talent_sorter.py:30-40 | a page parses only when it has exactly one ranking table, fails with the count otherwise, and then yields that table's rows |
| Extract.ExampleRowParses | talent_sorter.py:37-40 | a row (position 1, name " Ala\n", points 42) yields ("Ala", 42) |
| Extract.HeaderSkippedAndSecondNumberTaken | talent_sorter.py:33-40 | on a page with a menu table and a ranking table with a header row, only the data row's pair is produced, and its score is the second number |
| Aggregate.FoldRow | talent_sorter.py:67-68 | one row: a new name gets the record (0, zeros) and joins the key order; its total grows by score × multiplier; slot i becomes the score; other slots and other people are unchanged |
| Aggregate.FoldRowEffect | talent_sorter.py:67-68 | after one row, a person has a record exactly when they had one or are the row's name, and anyone else's record is unchanged |
| Aggregate.FoldSourceEffect | talent_sorter.py:66-68 | after one source, a person has a record exactly when they had one or the source names them; slot i holds their last score in the source, or is unchanged when the source does not name them; all other slots are unchanged |
| Aggregate.FoldSourceTotal | talent_sorter.py:66-68 | after one source, a total has grown by score × multiplier for every row naming that person, repeated rows included |
| Aggregate.ContributionScaled | talent_sorter.py:68 | a source adds to a total the sum of the person's scores in it, times its multiplier |
| Aggregate.AbsentAddsNothing | talent_sorter.py:66-68 | a source that never names a person adds nothing to their total |
| Aggregate.UniqueSum | talent_sorter.py:66-68 | without repeated names, a source's score sum for a person is the single score it leaves in their slot |
| Aggregate.NotNamed | talent_sorter.py:66-68 | a source with no row naming a person has no last score for them |
| Aggregate.FoldAllMembers | talent_sorter.py:64-68 | after all sources, a person has a record exactly when some source names them |
| Aggregate.FoldAllSlots | talent_sorter.py:64-68 | after all sources, slot j of a person's breakdown is their last score in source j, or 0 when source j does not name them (the defaultdict's zero fill) |
| Aggregate.FoldAllTotal | talent_sorter.py:64-68 | after all sources, each total is the sum over sources of the weighted scores of every row naming that person |
| Aggregate.WeightedScoreIsWSum | talent_sorter.py:64-68 | when each source's contribution is its slot times its multiplier, the summed contributions equal the weighted breakdown |
| Aggregate.TotalIsWeightedSum | talent_sorter.py:64-68 | when no source names anyone twice, every total equals Σ breakdown[j] × multiplier[j] |
| Aggregate.RepeatedNameCountsTwice | talent_sorter.py:67-68 | a source naming "Ala" with 1 and then 2 leaves total 3 and breakdown [2], which breaks the weighted-sum equality |
| Aggregate.Scoreboard.constructor | talent_sorter.py:64 | the dictionary starts empty, with one breakdown slot per multiplier |
| Aggregate.Scoreboard.Add | talent_sorter.py:67-68 | updating the dictionary in place for one row has the effect of `FoldRow` and keeps the dictionary well formed |
| Aggregate.Scoreboard.AddSource | talent_sorter.py:66-68 | the loop over one source's rows has the effect of `FoldSource` |
| Rank.InsertPermutes | talent_sorter.py:74 | inserting a name adds exactly that name |
| Rank.InsertSorted | talent_sorter.py:74 | inserting into a list sorted highest first keeps it sorted |
| Rank.InsertStable | talent_sorter.py:74 | the inserted name lands before every name with the same total |
| Rank.SortDescSpec | talent_sorter.py:74 | the sort returns a permutation of its input, ordered by non-increasing total |
| Rank.SortDescStable | talent_sorter.py:74 | for every total, the names with that total appear in the same order as in the input (Python's sort is stable, also with reverse=True) |
| Rank.RankingSpec | talent_sorter.py:74 | the ranking lists every key exactly once and nothing else, highest total first, with ties in first-seen order |
| Rank.Trunc | talent_sorter.py:70 | `int()` on a float truncates toward zero |
| Rank.TruncExact | talent_sorter.py:70 | a total survives truncation exactly when it is a whole number |
| Rank.AllIntegerSpec | talent_sorter.py:70 | `all_integer` holds exactly when every total is a whole number |
| Rank.WholeMultipliersAllInteger | talent_sorter.py:70 | with whole multipliers, such as the default 3 and 1, `all_integer` holds after any fold |
| TalentSorter.GatherSuccess | talent_sorter.py:65-66 | reading all pages succeeds exactly when every page parses, and then keeps each page's rows in page order |
| TalentSorter.GatherFailure | talent_sorter.py:65-66 | a failed run names a page that fails, with its error, and every earlier page parses |
| TalentSorter.GatherStop | talent_sorter.py:65-66 | the first page that fails decides the run's error |
| TalentSorter.ParseAllSpec | talent_sorter.py:65-66 | the same two facts stated on the pages: success exactly when all parse, with each page's rows; otherwise the first failing page and its error |
| TalentSorter.Tally | talent_sorter.py:59-74 | fewer or more multipliers than pages fail the run; otherwise the first page that does not parse fails it; otherwise the result is the folded dictionary, its ranking and `all_integer` |
| TalentSorterExamples.TieFollowsFirstSeen | talent_sorter.py:64-74 | two people with equal totals are ranked in the order they were first seen, so swapping the two sources swaps them |

## Left out

- Fetching and caching pages (`get_page`, lines 17-27) is I/O. `Tally` takes the pages as already parsed.
- BeautifulSoup's HTML parsing is not modelled. A page is given as the tree of tables, rows and cells it would
  produce, with text already extracted. `find_all` also searches nested tables and rows, and the model treats rows and
  cells as the direct children only.
- The command line (argparse, the default URLs, `--fresh`) is not modelled; the multipliers are a parameter.
- Printing is left out: colorama, `max_surname`, `round(total, 2)` and column widths. So is `max()` failing on an
  empty dictionary (line 71), which happens only after the ranking is already determined.
- Rank.Trunc: totals are exact reals rather than IEEE doubles. Rounding error and `int()` overflowing on an infinite
  total are not modelled.
- Text.ParseIntSpec: `int()` also accepts non-ASCII Unicode decimal digits; the model accepts ASCII digits only.
  CPython versions with the integer string conversion limit (3.11 on, and the security releases 3.10.7, 3.9.14,
  3.8.14 and 3.7.14) also raise ValueError on a text of more than 4300 digits; the model reads digit runs of any
  length.
- Text.ParseShowInt: for the same reason, on those CPython versions the round trip holds only for integers of at
  most 4300 digits.
- TalentSorter.Tally: Python folds a page's rows while the generator still yields them, so a page that fails halfway
  has already changed the dictionary. The program then ends with the exception and prints nothing, so the model
  returns only the error.
- The claim that the ranking does not depend on the order of the sources is not modelled, because for tied totals it
  does not hold (see `TieFollowsFirstSeen`).
