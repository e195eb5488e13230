# bhs-calendar schedule model

A Dafny model of the schedule builder of bhs-calendar (`src/schedule.py`).
The builder reads a grid of strings. Row 0 holds the schedule name and one
heading per column, such as "Monday A RED". Every later row holds a time
label ("7:30 AM") and one block name per column. The model covers:

- the column heading parser (`Heading`);
- the time-label parser (`_minute`);
- the block record (`Block`): its duration, its name tests and its clock text;
- the extraction of each column into blocks (the column loop of `_init`): the pre-scan for passings between the buildings, the run-length decoding of the cells, and the placement of each block (BHS, OLS or the passing token itself);
- the ordered dictionary of columns keyed by heading;
- the lunch merge (`_merge`);
- the per-cohort totals (`_totals`), with the `eval` of a '+'-joined string modelled as the sum of its parts;
- the indentation helper (`_wrap` with a width of 0), the pixel scale (`_scale`) and the CSS class rule of passing blocks.

The grid is taken as already read from its CSV file.

Modules, one per part of the source:

| file | module | part of `src/schedule.py` |
|---|---|---|
| results.dfy | Results | the errors the source raises (failed asserts, `IndexError`, `strptime` errors) as values |
| text.dfy | Text | Python's whitespace, `upper`, `in` on strings, `split`, `strip` |
| heading.dfy | Headings | `Heading` |
| times.dfy | Times | `_minute`, and the `%I:%M` clock text |
| block.dfy | Blocks | `Block` |
| scan.dfy | Scanning | the pre-scan of a column |
| extract.dfy | Extraction | the block extraction of a column |
| merge.dfy | Merging | `_merge` for one column |
| totals.dfy | Totals | `_totals` |
| page.dfy | Page | `_wrap`, `_scale`, the passing-block class rule |
| schedule.dfy | Schedules | the column loop of `_init`, the ordered dictionary, `_merge` over it, and the `Schedule` object |

The code is written as the source is. The loops of the source are methods:
the column loop, the pre-scan, the extraction loop, the merge loop, the
totals loops and the indentation loop. Each method is proved equal to a
function that states its result directly. Properties are proved about those
functions. The `Schedule` object is a class whose table field is updated in
place by `Init` and `Merge`. Python errors become `Failure` values carrying
an `Error`: a non-rectangular grid, a missing row, a heading that does not
parse, a time label that does not parse, or a lunch in the last position of
a column.

The quirks of the source are modelled as written, and lemmas pin each one
down:

- a first sighting at minute 0 of a passing token is forgotten (`Scanning.TrackForgetsMidnight`);
- placement tests `BLUE` while the cohort test is `BLU` (`Extraction.BluIsNotBlue`);
- the run still open at the last row makes no block (`Extraction.TrailingRunDropped`);
- a lunch in the last position indexes past the end of the column (`Merging.MergeFails`);
- the merge deletes neighbours that are not passing times (`Merging.MergeDeletesClasses`);
- only the last lunch's neighbours are deleted (`Merging.MergeOnlyLastLunch`);
- a lunch named "L1" counts under "L" twice (`Totals.LunchCountedTwice`).

The comment above the placement at `src/schedule.py:401-405` puts a RED
cohort at OLS above PB2O and a BLUE cohort below PO2B. The comparisons at
lines 407-411 do the opposite: a RED block is at OLS when it starts after the
last PB2O, and a BLUE block when it ends before the first PO2B. The model
follows the comparisons (`Extraction.RedSchool`, `Extraction.BlueSchool`).

## Model

| member | source | states |
|---|---|---|
| Headings.ParseWords | src/schedule.py:30-42 | A heading parses exactly when it starts with a non-blank character and has at least three whitespace-separated words. Weekday, week and cohort are then the first three words. Lunch is the fourth word if there is one, otherwise the default lunch. |
| Headings.ParseJoin | src/schedule.py:30-42 | Round trip: words joined by single spaces parse back into the first three words and the fourth word, or the default lunch when there are only three words. |
| Headings.WordsOfJoin | src/schedule.py:30-31 | Splitting words joined by single spaces at whitespace gives the words back. |
| Headings.CohortTestIgnoresCase | src/schedule.py:59-65 | The cohort tests ignore the case of the cohort and the tag. A tag found in a cohort is still found when the cohort is extended on either side. |
| Headings.KeyShape | src/schedule.py:72-75 | Documents the shape of the key rather than deriving a property: it starts with the cohort, and is cohort, "-" and the lunch's first character when the lunch is present and non-empty. The one derived fact is that the key is the cohort alone exactly when the lunch is missing or empty. |
| Times.Minute | src/schedule.py:432-435 | A parsed label is a minute of the day, 0..1439. A label that does not parse is the error naming that label. |
| Times.MinuteOfDigits | src/schedule.py:432-435 | "HH:MM AM/PM" parses exactly when the hour is 1..12 and the minute is 0..59. Its value is the 24-hour hour times 60 plus the minute, with 12 AM as hour 0 and 12 PM as hour 12. |
| Times.MinuteOfDigit | src/schedule.py:432-435 | The same for a one-digit hour, "H:MM AM/PM". |
| Times.MinuteOfDayStart | src/schedule.py:432-434 | "7:30 AM" is minute 450. |
| Times.MinuteAfterMidnight | src/schedule.py:432-435 | "12:05 AM" is minute 5: 12 AM is hour 0. |
| Times.MinuteAfterNoon | src/schedule.py:432-435 | "12:15 pm" is minute 735: 12 PM is hour 12, and the half of the day may be in any case. |
| Times.MinuteRejectsHour13 | src/schedule.py:432-435 | "13:00 PM" is not a 12-hour time. |
| Times.Clock | src/schedule.py:177-184 | The `%I:%M` text of a minute exists exactly for minutes of the day. It is five characters with a colon in the middle. |
| Times.ClockRoundTrip | src/schedule.py:177-184 | Round trip: the clock text of a minute, followed by its half of the day, parses back to that minute. |
| Times.ClockLabel | src/schedule.py:177-184 | The clock text carries the 12-hour hour (12 for hour 0 and hour 12). Parsing gives back the 24-hour hour and the minute. |
| Blocks.Block.DurationText | src/schedule.py:177-184 | The text exists exactly when the first minute and the minute after the last are minutes of the day. It is "HH:MM-HH:MM". |
| Blocks.DurationTextRoundTrip | src/schedule.py:177-184 | Whenever the text exists (start and end plus one are minutes of the day, in either order), each half parses back to the block's start and to its end plus one. |
| Blocks.FirstLetterTests | src/schedule.py:142-170 | Passing and lunch look only at the first character of the name, ignoring case: P or ?, and L. |
| Blocks.WholeNameTests | src/schedule.py:142-165 | Split and passing between buildings compare the whole name, ignoring case, with PS and with PB2O or PO2B. The question test accepts only "?". |
| Blocks.NameTestsRelate | src/schedule.py:142-170 | An empty name passes no test. Split, question and passings between buildings are passing times. No passing time is a lunch. |
| Scanning.Minutes | src/schedule.py:394-416 | Parsing the labels in order gives one minute per label, or the error of the first label that does not parse. |
| Scanning.MinutesEach | src/schedule.py:394-416 | When all labels parse, each minute is its own label's parse. |
| Scanning.MinutesFailurePersists | src/schedule.py:394-416 | A label that fails to parse is the error of every longer list of labels. |
| Scanning.ScanPassing | src/schedule.py:379-391 | The pre-scan loop computes the specified pre-scan: for each token, its first and last sighting. A label is parsed only in rows where the cell holds the token, and the first such parse failure is the error. |
| Scanning.ScanFailurePersists | src/schedule.py:379-391 | A failed pre-scan of the first rows is the result of the whole pre-scan. |
| Scanning.ScanTracks | src/schedule.py:379-391 | When every label parses, each token's window is the window tracked over the minutes of the rows whose cell holds that token, in row order. |
| Scanning.TrackLast | src/schedule.py:384-391 | The last minute of a window is the last sighting. |
| Scanning.TrackFirst | src/schedule.py:383-389 | The first minute of a window is one of the sightings. It is the first sighting unless that sighting was at minute 0. |
| Scanning.TrackForgetsMidnight | src/schedule.py:383-384 | A sighting at minute 0 counts as "unset", so the next sighting replaces it as the first. |
| Scanning.TrackOrdered | src/schedule.py:379-391 | With ascending sightings, a window never starts after it ends. |
| Scanning.HitsFrom | src/schedule.py:382-391 | Every sighting is the minute of a row whose cell holds the token. |
| Scanning.HitsTo | src/schedule.py:382-391 | Every row whose cell holds the token is sighted. |
| Scanning.HitsLastMax | src/schedule.py:382-391 | With ascending labels, the last sighting is the latest row that holds the token. |
| Scanning.HitsFirstMin | src/schedule.py:382-391 | With ascending labels, the first sighting is the earliest row that holds the token. |
| Scanning.HitsNone | src/schedule.py:382-391 | There is no sighting exactly when no cell holds the token. |
| Extraction.RunsSegment | src/schedule.py:394-416 | The runs cut the rows of a column into consecutive non-empty runs. Each run carries the minutes of its first and last rows. All cells of a run equal its name. Neighbouring runs have different names, so each run is maximal. |
| Extraction.ExtractBlocks | src/schedule.py:394-416 | The extraction loop gives the specified blocks: one per closed run with a non-empty name, or the error of the first label that does not parse. |
| Extraction.BlocksNamed | src/schedule.py:400-414 | No block has an empty name. Every block carries its column and its heading. |
| Extraction.TrailingRunDropped | src/schedule.py:397-416 | Only a change of cell closes a run: one more row equal to the last changes nothing. |
| Extraction.RunsChronological | src/schedule.py:394-416 | With ascending labels, no run starts after it ends, and each run ends before the next one starts. |
| Extraction.BlocksInTimeOrder | src/schedule.py:400-414 | Blocks made from runs in time order are in time order. |
| Extraction.ExtractedInTimeOrder | src/schedule.py:394-416 | With ascending labels, the blocks of a column are in time order. |
| Extraction.SchoolOfName | src/schedule.py:407-412 | A name holding PB2O or PO2B is placed at itself. Any other block is at OLS or BHS, and at BHS in a column whose heading holds neither RED nor BLUE. |
| Extraction.LastSightingTest | src/schedule.py:384-391 | With ascending labels, the last sighting of a token is missing or before a minute exactly when every row holding the token is before it. |
| Extraction.FirstSightingTest | src/schedule.py:383-389 | With ascending labels and no row holding the token at minute 0, the first sighting is missing or after a minute exactly when every row holding the token is after it. |
| Extraction.RedSchool | src/schedule.py:407-409 | On a RED day whose heading does not also hold BLUE, with ascending labels, a block is at OLS exactly when it starts after every row that holds PB2O. |
| Extraction.BlueSchool | src/schedule.py:410-411 | On a BLUE day whose heading does not also hold RED, with ascending labels (and no PO2B at minute 0), a block is at OLS exactly when it ends before every row that holds PO2B. |
| Extraction.MixedSchool | src/schedule.py:407-412 | On a day whose heading holds both RED and BLUE, with ascending labels (and no PO2B at minute 0), a block is at OLS exactly when it starts after every PB2O row or ends before every PO2B row: the two tests are joined by "or". |
| Extraction.BluIsNotBlue | src/schedule.py:65 | A "Monday A Blu" column is a BLU cohort for the heading, but its blocks are placed at BHS, because placement tests "BLUE" (line 410). |
| Merging.Widen | src/schedule.py:499-506 | Widening keeps a block's name, school, column, heading and lunch. |
| Merging.LastLunchIs | src/schedule.py:497-511 | The last lunch is found exactly when there is a lunch, and no lunch follows it. |
| Merging.MergeColumn | src/schedule.py:494-511 | The merge loop of one column gives the specified merge: every lunch is widened, then the neighbours of the last lunch are deleted, the later one first. |
| Merging.MergeWithoutLunch | src/schedule.py:494-511 | A column with no lunch is unchanged. |
| Merging.MergeFails | src/schedule.py:503-505 | The merge fails exactly when the last block is a lunch, with the error of indexing past the end. |
| Merging.MergeRemovesNeighbours | src/schedule.py:507-510 | Only the neighbours of the last lunch that are not passings between the buildings are removed. The rest is the widened column in order. At most two blocks go. |
| Merging.WidenedChanges | src/schedule.py:499-506 | Widening changes only lunches. A lunch's start moves only to the start of an ordinary passing block just before it, and its end only to the end of one just after it. |
| Merging.WidenedDuration | src/schedule.py:499-506 | In a column of adjacent blocks, a widened lunch lasts as long as itself plus the ordinary passing blocks it took over. |
| Merging.MergeDeletesClasses | src/schedule.py:507-510 | The deletions do not ask whether a neighbour is a passing time: the classes around a lunch are deleted too. |
| Merging.MergeOnlyLastLunch | src/schedule.py:497-511 | With two lunches, both are widened but only the second one's neighbours are deleted. |
| Totals.ComputeTotals | src/schedule.py:469-492 | The loops over cohorts, columns and blocks compute the specified totals, or the error of the first heading that does not parse. |
| Totals.AddBlock | src/schedule.py:476-491 | One block: its heading is parsed, and it then adds its duration to its letter group and, for a lunch, to "L". |
| Totals.CountGroup | src/schedule.py:479-491 | Adding a block appends exactly its contribution to each group. A group exists once some block has contributed to it. |
| Totals.TallyParts | src/schedule.py:469-492 | Each group of a cohort holds the contributions of all blocks in order: a block contributes only when its heading's key is the cohort. A group exists exactly when something was contributed. |
| Totals.TotalAdds | src/schedule.py:585 | The value of a group, the sum of its parts (0 when missing), grows by the sum of what a block contributes. |
| Totals.TotalsCohorts | src/schedule.py:472-474 | Every requested cohort has totals, and no other cohort does. |
| Totals.TallyFails | src/schedule.py:476-477 | The totals of a cohort fail exactly when some block's heading does not parse. |
| Totals.TotalsFail | src/schedule.py:469-492 | All totals fail exactly when some cohort is requested and some block's heading does not parse. |
| Totals.TotalsFailAt | src/schedule.py:476-477 | The first heading met that does not parse is the error of all the totals. |
| Totals.LetterCodeOf | src/schedule.py:479-481 | A name made of non-digits then digits (and at most a final line break) has the non-digits as its group. |
| Totals.LetterCodeShape | src/schedule.py:479-481 | Conversely, a name with a group is non-digits, then digits, then nothing or a final line break. |
| Totals.NoLetterCode | src/schedule.py:479-481 | "PB2O", "L" and "PS" have no group. |
| Totals.LunchCountedTwice | src/schedule.py:479-491 | A lunch named "L1" adds its duration to "L" twice. |
| Page.ScaledLunch | src/schedule.py:455-457 | In a column of blocks that follow one another minute by minute, a lunch widened by the merge is drawn exactly as tall as itself and the ordinary passing blocks it took over, stacked. |
| Page.Wrap | src/schedule.py:438-452 | The indentation loop gives the lines of the stripped text, each behind the indent, joined with line breaks. |
| Page.FramedLines | src/schedule.py:438-452 | Splitting indented lines at line breaks gives each line back behind its indent. |
| Page.LinesRoundTrip | src/schedule.py:438-452 | With no indent, joining the lines gives the text back. |
| Page.WrapKeepsLines | src/schedule.py:438-452 | The result of the indentation helper has one line per line of the stripped text, each line indented. With no indent it is the stripped text. |
| Page.PassingClassWords | src/schedule.py:537-545 | The classes of an ordinary passing block are "passing", then "split", "question" and "short" when their tests hold, in that order. |
| Page.PassingClassShort | src/schedule.py:537-545 | "short" is there exactly when the duration is under 5, and "split" exactly for a split passing. A block is never both split and question. |
| Schedules.BuildColumn | src/schedule.py:373-416 | Reading one column gives the specified column. The second row must exist. Then the heading must parse, then the pre-scan, then the extraction. |
| Schedules.ColumnsAt | src/schedule.py:373-416 | The list of column readings holds, at each place, that column's reading. |
| Schedules.Build | src/schedule.py:353-417 | The column loop gives the specified table. A grid must be rectangular. The first column that fails is the error. |
| Schedules.StoredFailurePersists | src/schedule.py:373-417 | A column that fails is the error of the whole grid. |
| Schedules.BuiltEdges | src/schedule.py:353-375 | A grid that is not rectangular (or has no row) is refused. A grid with only the label column gives an empty table. A grid with block columns and no second row fails with a missing row. |
| Schedules.InsertKeeps | src/schedule.py:370-417 | Storing under a heading keeps each heading once. A new heading goes last and a repeated one keeps its place. The heading gets the new blocks, and no other heading changes. |
| Schedules.FirstsShape | src/schedule.py:370-417 | The key order holds each heading once, and exactly the headings stored. |
| Schedules.StoredOk | src/schedule.py:373-417 | Reading the grid succeeds exactly when every column does. |
| Schedules.StoredKeys | src/schedule.py:370-417 | The table holds each heading once, in the order the headings first occur. |
| Schedules.StoredLastWins | src/schedule.py:417 | A repeated heading holds the blocks of its last column. |
| Schedules.BuiltKeys | src/schedule.py:370-417 | A grid's table holds each heading once, in the order the headings of its block columns first occur. |
| Schedules.RemappedShape | src/schedule.py:496 | Changing the columns in heading order keeps the headings. Each column visited becomes what the change gives, and the rest stay as they were. It fails exactly when the change fails on a visited column. |
| Schedules.MergedTable | src/schedule.py:494-511 | Merging the table fails exactly when some column ends with a lunch, and then with that error. Otherwise each column is replaced by its merge, under the same heading. |
| Schedules.Schedule.Init | src/schedule.py:353-421 | The table is the grid's table, merged when asked. A grid that fails gives its error. When asked to merge, the result is a pass exactly when every column merges, and otherwise the error of a lunch at the end of a column. |
| Schedules.Schedule.Merge | src/schedule.py:494-511 | The in-place merge of every column keeps the headings and each heading once. The table becomes the merged table, or the merge fails with a lunch at the end of a column. |

## Left out

- Reading the CSV file and writing the page (`_csv`, `write`): the grid is a parameter, and no page is written.
- Path handling in `_init` and its `.csv` extension assert: the file name plays no part in the model.
- The clock (`datetime.now()`) and the comment that echoes the CSV: wall-clock time and formatting.
- The HTML templates and the rest of `_webpage`, including the cohort names it passes to the totals and the `_extra` text. The model keeps only the class rule of passing blocks (537-545) and the value `eval` gives a totals string.
- `__str__`, `__repr__` and `html_str`: text formatting only.
- Debug output (`print` at 418 and 605) and the `__main__` block.
- `Page.PassingClass`: only the passing-block branch of the class rule is modelled. The class names of other blocks (546-556) are left out with the page.
- `Text.Upper`, `Text.Lower`, `Text.IsDigit`: case mapping and digits are ASCII only. Python also maps other Unicode letters and digits.
- `Times.Minute`: the grammar is the fixed "H:MM AM/PM" shape (one or two digits, a colon, one or two digits, whitespace, AM or PM in any case). `strptime`'s other accepted spellings and its locale dependence are not modelled.
- `Blocks.Block`: a value, not an object. The `start` and `end` setters are record updates inside the merge. No block is shared between lists, so no aliasing is lost.
- `Totals.Tally`: a cohort's totals are kept as lists of durations per group, not as '+'-joined strings. The value the page shows is their sum (`Totals.TotalValue`). Dictionary order of the totals is not modelled.
- `Page.Wrap`: only a width of 0 is modelled, which is the only width the source uses. The text must not start with whitespace, because the loop walks the stripped text but slices the unstripped one. The `last` variable is kept but plays no part at that width.
- `Page.Scale`: an integer multiplication. The source rounds a product that is always a whole number.
- `Extraction.BlueSchool`: stated for columns with no PO2B at minute 0, where the "not first" test cannot forget a sighting.
- `Extraction.MixedSchool`: the same restriction to columns with no PO2B at minute 0.
- `Schedules.Schedule.Init`: the table is stored only when every column is read. The source raises with a half-built dictionary, and the object is never used after that.
- `Schedules.Schedule.Merge`: after a failed merge only the headings are specified. The source has already widened some blocks when it raises, and the object is never used after that.
