# buildit: the table behind the Last.fm listening chart

LFMScraper reads a Last.fm user's artist library. It takes two sequences scraped from the page:

- the artist names (`data[0]`);
- the play-count texts (`data[1]`). Each count is printed with thousands separators and surrounded by newlines.

`buildit(data, limit)` turns them into a pandas frame indexed by artist. The frame has a single `plays` column: the first `limit` artists by name, then a row labelled `Other`.

This project models `buildit` in Dafny, with its count parser and the part of pandas it relies on:

- `wrappers.dfy` (module `Wrappers`): `Option` and `Result`.
- `play_count.dfy` (module `PlayCount`): the count expression `int(re.search(r'[0-9].*', s).group(0).replace(',', ''))` as the pure function `ParseCount`, with each step written out:
  - `FirstDigit` and `LineEnd`: where the leftmost match of `[0-9].*` starts and where it stops. `.` does not match a newline.
  - `DropCommas`: `.replace(',', '')`.
  - `PyInt`: Python's `int()` on a `str`. It strips whitespace, accepts an optional sign, and accepts digits separated by single underscores, as in PEP 515.
  - Whitespace (`IsIntSpace`) is what CPython's `int()` skips. CPython keeps ASCII characters as they are and turns every other `str.isspace` character into a space. It then strips only tab, line feed, vertical tab, form feed, carriage return and space. So U+00A0 or U+3000 around the digits is skipped, but U+001C to U+001F are not, although `str.isspace` holds for them.
  - `Grouped` and `Decimal`: reference renderings of a count, with and without thousands separators.
- `data_frame.dfy` (module `DataFrame`): the frame as a class `Frame` whose field `rows` is the sequence of `(artist, plays)` rows in index order.
  - `Assign` is `frame.loc[key] = [plays]`. An existing key is overwritten in place; a new key is appended. `AssignLabels` and `AssignLookup` state this.
  - `Frame.SetRow` performs that assignment on the object.
- `buildit.dfy` (module `Buildit`): `Build`, the imperative original with its two counter loops and the frame it fills in place. It is proved against the specification function `Table`.
  - `Table` is stated over `ParsedCounts(counts)`, the outcome of parsing each count text. Its properties are the `Table…` lemmas.
  - `AssignAll` is the second loop's effect on the frame. `AssignAllLabels`, `AssignAllLookup` and `AssignAllDistinct` state it.
  - An exception ends `buildit` early. It is modelled as a `Failure`:
    - `BadCount(u, NoDigit)`: the count has no digit, so `.group` is called on `None`.
    - `BadCount(u, NotAnInteger)`: `int()` raises `ValueError`.
    - `MissingCount(u)`: `data[1][u]` raises `IndexError`.

The model follows the code as written. The first loop runs `len(data[1][limit:])` times, but it reads `data[1][u]` with `u` counted from 0. So `Other` holds the plays of the first `max(0, len(counts) - limit)` counts, not the plays of the counts past `limit`. `Table` and `Build` state this behaviour. `IntendedTable` is the corrected definition; see "Findings".

## Model

| member | source | states |
|---|---|---|
| PlayCount.FirstDigit | LFMScraper.py:55 | The match starts at the first ASCII digit of the text. There is none exactly when no character is a digit. |
| PlayCount.LineEnd | LFMScraper.py:55 | The greedy `.*` stops at the first newline after the digit, or at the end of the text. |
| PlayCount.MatchedText | LFMScraper.py:55 | `re.search` finds nothing exactly when the text has no digit. A match starts with a digit. |
| PlayCount.MatchedLine | LFMScraper.py:55 | The match is the text from the first digit up to the next newline or the end, and it holds no newline. |
| PlayCount.DropCommas | LFMScraper.py:55 | No comma is left. A first character that is not a comma stays first. |
| PlayCount.Strip | LFMScraper.py:55 | What `int()` reads neither starts nor ends with whitespace. A text that starts with a digit keeps that digit first. |
| PlayCount.StripAround | LFMScraper.py:55 | Whitespace on both sides of a digit run is removed, and the digit run is kept whole. |
| PlayCount.IsUnderscoredDigits | LFMScraper.py:55 | An accepted literal starts and ends with a digit. |
| PlayCount.UnderscoredDigitsChars | LFMScraper.py:55 | An accepted literal holds only digits and underscores. |
| PlayCount.UnderscoreBeforeDigit | LFMScraper.py:55 | In an accepted literal every underscore is followed by a digit. |
| PlayCount.DecimalValue | LFMScraper.py:55 | `DigitsValue` reads a decimal rendering back as its number. |
| PlayCount.DigitsValueSkipsUnderscore | LFMScraper.py:55 | An underscore between digits does not change their value, so `1_234` is 1234. |
| PlayCount.PyInt | LFMScraper.py:55 | `int()` raises only `ValueError` (NotAnInteger). A text that starts with a digit never reads as negative. |
| PlayCount.PyIntOfDigits | LFMScraper.py:55 | An underscored digit run with any whitespace on either side reads as the number its digits spell. |
| PlayCount.PyIntShape | LFMScraper.py:55 | A digit-led text that `int()` accepts is an underscored digit run followed by whitespace only, and its value is that run's. |
| PlayCount.ParseCount | LFMScraper.py:55 | Fails with NoDigit exactly when the text holds no digit. A successful count is never negative. |
| PlayCount.ParseCountShape | LFMScraper.py:55 | A count parses only when its matched line, without commas, is an underscored digit run and then whitespace. The count is the run's value. |
| PlayCount.ParsesUnderscoredLine | LFMScraper.py:55 | Conversely, every such line parses to its digit run's value. |
| PlayCount.SkipsDigitFreePrefix | LFMScraper.py:55 | Text before the first digit does not change the count. |
| PlayCount.StopsAtNewline | LFMScraper.py:55 | Text after the newline that ends the first digit's line does not change the count. |
| PlayCount.GroupedRoundTrip | LFMScraper.py:46 | A count printed with thousands separators parses back to that count. This holds with digit-free text before it and with whitespace and a newline or the end after it. |
| PlayCount.DecimalRoundTrip | LFMScraper.py:46 | A count printed without separators parses back to that count. |
| PlayCount.RejectsForeignCharacter | LFMScraper.py:55 | A character on the matched line that is not a digit, comma, underscore or whitespace makes the parse fail with NotAnInteger. |
| PlayCount.RejectsInteriorBlank | LFMScraper.py:55 | Whitespace on the matched line followed later by a digit makes the parse fail, as in `"1 234\n"`. |
| PlayCount.RejectsMisplacedUnderscore | LFMScraper.py:55 | With the commas gone, an underscore that ends the line or is not followed by a digit makes the parse fail, as in `"12_"` and `"1__2"`. |
| PlayCount.RejectsBlankLiteral | LFMScraper.py:55 | `int("1 234")` raises. |
| PlayCount.RejectsUnderscoreLiterals | LFMScraper.py:55 | `int("12_")` and `int("1__2")` raise. |
| PlayCount.RejectsSeparatorControl | LFMScraper.py:55 | `int("5\x1c\xa0")` raises: U+001C is not skipped, though U+00A0 would be. |
| DataFrame.IndexOf | LFMScraper.py:63 | Finds the first row with the key. It returns None exactly when the key is not a label. |
| DataFrame.AssignLabels | LFMScraper.py:63 | Assigning an existing key keeps the labels and the row count. A new key is appended as the last row. |
| DataFrame.AssignLookup | LFMScraper.py:63 | After the assignment the key maps to the new plays, and every other key maps to what it did before. |
| DataFrame.AssignKeepsDistinct | LFMScraper.py:58-63 | Assignment keeps the labels of the index distinct. |
| DataFrame.Frame.constructor | LFMScraper.py:58-59 | The new frame is empty and its labels are distinct. |
| DataFrame.Frame.SetRow | LFMScraper.py:63 | The rows become `Assign` of the old rows, and the labels stay distinct. |
| Buildit.OtherSpan | LFMScraper.py:54 | The first loop runs `max(0, len(counts) - limit)` times, which is 0 exactly when `limit >= len(counts)`. |
| Buildit.KeptSpan | LFMScraper.py:62 | The second loop runs `min(limit, len(names))` times. |
| Buildit.Collect | LFMScraper.py:54-56 | A loop over the counts succeeds exactly when every count parses, and yields their plays in order. On failure it reports the first count that fails, and every earlier count parses. |
| Buildit.Parse | LFMScraper.py:63 | Yields the parse outcome of `counts[u]`. |
| Buildit.Build | LFMScraper.py:51-67 | The two loops and the frame return exactly `Table` of the names, the parsed counts and the limit. The returned frame's labels are distinct, as the frame object keeps them. The inputs are values and the method modifies nothing else. |
| Buildit.TableSucceedsIff | LFMScraper.py:51-67 | `buildit` returns normally exactly when both of these hold: `data[1]` is long enough for every kept name, and every count either loop reads parses. |
| Buildit.TableFailure | LFMScraper.py:54-64 | The exception names a count one of the loops reads. That count fails, and every count before it parses. Otherwise it names the first kept position past the end of `data[1]`, when every count parses. |
| Buildit.TableRows | LFMScraper.py:58-66 | On success the frame is the kept names assigned in turn, then `Other` with the plays of the first loop. |
| Buildit.TableOther | LFMScraper.py:52-56 | `Other` maps to the sum of the counts at positions `0 .. max(0, len(counts) - limit) - 1`. That sum is 0 when `limit >= len(counts)`. Both hold even when an artist is called `Other`. |
| Buildit.TableLabels | LFMScraper.py:58-66 | The labels are the kept names and then `Other`. Each label appears once, in the order of its first assignment, and nothing is sorted. |
| Buildit.TableLookup | LFMScraper.py:61-66 | Every label other than `Other` maps to the plays of the last kept position with that name. A name never kept has no row. |
| Buildit.TableWithDistinctNames | LFMScraper.py:58-66 | With distinct kept names, none of them `Other`, there are `min(limit, len(names)) + 1` rows. Row i is `names[i]` with the plays of `counts[i]`, and the last row is `Other`. |
| Buildit.AssignAllLabels | LFMScraper.py:61-64 | Assigning the names in turn gives one row per distinct name, in first-occurrence order. |
| Buildit.AssignAllLookup | LFMScraper.py:61-64 | After the second loop each name maps to the plays of its last occurrence. |
| Buildit.AssignAllDistinct | LFMScraper.py:61-64 | With distinct names, row i is the i-th name with the i-th plays. |
| Buildit.GroupedTextsParse | LFMScraper.py:55 | Count texts printed with thousands separators parse to their numbers, position by position. |
| Buildit.AsWrittenMiscountsOther | LFMScraper.py:54-55 | With plays x, y, z and limit 2, the code as written gives `{A: x, B: y, Other: x}`. |
| Buildit.AsWrittenLosesPlays | LFMScraper.py:54-55 | That frame adds up to 2x + y, which differs from the listing's x + y + z whenever x != z. |
| Buildit.TableTotal | LFMScraper.py:52-66 | With distinct kept names, none of them `Other`, the frame adds up to the kept counts plus the first `max(0, len(counts) - limit)` counts. |
| Buildit.AsWrittenTotal | LFMScraper.py:52-66 | With one count per distinct name, the frame as written adds up to the listing's total exactly when the first `len(counts) - limit` counts add up to the same as the counts past `limit`. |
| Buildit.IntendedSucceedsIff | LFMScraper.py:7 | The corrected `buildit` returns normally exactly when `data[1]` holds a count for every kept name, and every kept count and every count past `limit` parses. |
| Buildit.IntendedConservesPlays | LFMScraper.py:7 | In the corrected frame `Other` holds the counts past `limit`. With one count per distinct name and no artist called `Other`, the rows add up to the total of all counts. |
| Buildit.IntendedCountsOther | LFMScraper.py:7 | On the same three artists the corrected frame is `{A: x, B: y, Other: z}`. |

## Left out

- `scrapeit` (LFMScraper.py:35-41) is not part of this model. It fetches a page over the network and parses HTML with BeautifulSoup. The model starts from the text of the scraped elements, `x.contents[0]`.
- `plotit` (LFMScraper.py:77-79), `plt.style.use` (LFMScraper.py:23) and the example call (LFMScraper.py:89) are not modelled. They are rendering, global style state and network glue.
- `limit` is a `nat`. Python's slice semantics for a negative `limit` are not modelled.
- Pandas is modelled only as the ordered "assign a label's row" behaviour. Column dtypes and the rest of the frame's behaviour are outside the model.
- Python's exception types are folded into `BuildError`. The model does not distinguish `AttributeError` from `ValueError` beyond `NoDigit` and `NotAnInteger`.
- PlayCount.PyInt: rejects the non-ASCII decimal digits that `int()` accepts, such as Arabic-Indic digits.
- PlayCount.PyInt: does not model the default 4300-digit limit of CPython 3.11 and later. That check is a configurable interpreter setting, not part of `int()`'s grammar.
- PlayCount.ParseCount: concrete successful instances such as `"1,234\n"` are not stated as lemmas. The general round trips `GroupedRoundTrip` and `DecimalRoundTrip` cover them, with `Grouped(1234)` as the text. The rejected examples are stated on `PyInt`.
- The comment at LFMScraper.py:7 says the artists past the limit "are grouped into Other". The code sums the counts from position 0. The model follows the code and records the difference under "Findings".

## Findings

| source | as written | input that shows it | evidently intended | confidence | as-written member | corrected member |
|---|---|---|---|---|---|---|
| LFMScraper.py:54-55 | The loop over `data[1][limit:]` adds `data[1][u]` with `u` from 0. So `otherSum` is the sum of the first `len(data[1]) - limit` counts. | Artists A, B, C with counts 300, 200, 100 and limit 2. The frame is `{A: 300, B: 200, Other: 300}`, which totals 800 plays out of 600. | `Other` holds the plays of the artists past `limit` (comment at LFMScraper.py:7): `{A: 300, B: 200, Other: 100}`. | not executed | Buildit.AsWrittenMiscountsOther | Buildit.IntendedConservesPlays |

`Build` and `Table` keep the behaviour as written. `IntendedTable` is the corrected definition: its first loop reads `data[1][limit:]`. `IntendedConservesPlays` proves that it accounts for every play, and `IntendedCountsOther` gives its frame on the same listing.
