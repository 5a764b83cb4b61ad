# Challenge 120 results analysis, modelled in Dafny

`Analysis.py` reads the daily results of a 120-day triathlon challenge. It keeps
the lines that report a long-distance race day (they contain `". LD"` or
`".LD"`). For each such line it fills the next row of a 120 x 9 table `T` with
these times in hours:

- Swim, T1, Bike, Lunch, T2, Run and Total, read by a chain of `str.find`,
  slicing and `int()`;
- Bike1 and Bike2, each half of Bike.

The same row of `D` gets the `DD.MM.` label of 9 May 2024 plus the row number
in days. A field that `int()` cannot read becomes NaN. An `IndexError` stops the
script in two cases: a Clock field that starts past the end of the line, or a
121st race line. The script then smooths every column with a centred 7-day
NaN-mean over the race days, and looks up the first race day without a Total
time.

The model has seven modules over a shared `Wrappers` (`wrappers.dfy`, the
`Option` and `Result` types):

- `PyText` (`py_text.dfy`): the Python primitives the scan relies on, with their
  contracts. These are `str.find` with Python's `start` handling, `s[k]`, `s[a:b]`,
  `int()` on ASCII text, `str(n)` and the two-digit `02d` format.
- `Calendar` (`calendar.dfy`): `date + timedelta(days=k)` over the proleptic
  Gregorian calendar, and the `DD.MM.` label of each race day.
- `RaceLine` (`race_line.dfy`): recognising a race line and reading its row. The
  seven blocks of the loop body are one table of fields (`Layout`), and each
  entry gives the field's opener, skip, closer and shape (Clock, Minutes, Total).
- `LineLayout` (`line_layout.dfy`) and `LineFormat` (`line_format.dfy`): lines
  laid out in the results file's format, whatever their field texts hold other
  than `|`, `h` or `m`, after a prefix without `)`, and whatever follows them. They state what any field text reads as, that a text
  `int()` rejects spoils only its own cell, and the round trip from the times
  written in a line to the row the scan reads back.
- `Smoothing` (`smoothing.dfy`): the window mask and `np.nanmean`.
- `Analysis` (`analysis.dfy`): the class `RaceTable` has the table `T` (an
  `array2`), the labels `D` (an `array`) and the row counter `i`. Its methods
  are the loop over the file, the smoothing loops and the script as a whole.
  Each method is proved against a pure description (`Run`, `Load`, `Smoothed`,
  `FirstMissing`).

Times are exact reals, and NaN is the cell `Missing`. An uncaught exception is
a `Failure` carrying the error.

## Model

| member | source | states |
|---|---|---|
| Analysis.RaceTable.constructor | Analysis.py:43-46 | the 120 x 9 table starts all zero (every row a zero row), the 120 labels start empty, and no row is used yet (`i == -1`) |
| Analysis.RaceTable.ProcessLine | Analysis.py:52-118 | a non-race line changes nothing; a race line advances `i`; past row 119 it raises `IndexError(i)` and changes nothing; otherwise it labels row `i`, and either stores exactly the parsed row there (no other row changes) or raises the line's own exception |
| Analysis.RaceTable.StoreLabel | Analysis.py:56-57 | `D[i]` becomes the label of day `i`, and no other label changes |
| Analysis.RaceTable.StoreRow | Analysis.py:66-118 | row `i` of `T` becomes the given nine cells, and no other row changes |
| Analysis.RaceTable.Advance | Analysis.py:49-118 | one pass of the file loop keeps the loop invariant `Holds`, or stops with exactly the error `Run` gives for the lines read so far |
| Analysis.RaceTable.ProcessLines | Analysis.py:49-118 | the loop ends without error exactly when `Run` succeeds, and otherwise with `Run`'s error; on success `i` has advanced by the number of race lines, and `T` and `D` hold their rows and labels from the next free row on, with nothing else changed |
| Analysis.ReadRow | Analysis.py:63-118 | the field-by-field scan of one line yields `ParseFields(line)` |
| Analysis.HoldsStep | Analysis.py:52-118 | one line keeps `Holds`: a non-race line changes nothing; a race line past the last row fails with `IndexError`, one that raises fails with that error, and any other fills the next row and label |
| Analysis.RaceLines | Analysis.py:49-52 | a file has no more race lines than lines, and every line kept passes the race-line test |
| Analysis.RaceLinesConcat | Analysis.py:49-52 | the race lines of two consecutive pieces of a file are those of the first followed by those of the second |
| Analysis.RaceLineRow | Analysis.py:52-53 | a race line is race line number `m` of the file, where `m` counts the race lines before it, so it takes the next row; a race line adds itself to the race lines so far, and a non-race line adds nothing |
| Analysis.RunIsLoad | Analysis.py:49-118 | running the loop over a file is loading the rows of its race lines in order: race line `k` goes to row `first + k` |
| Analysis.RunStops | Analysis.py:49-118 | once a line has raised, no later line changes the outcome |
| Analysis.LoadMeaning | Analysis.py:52-118 | loading succeeds exactly when every race line finds a row and parses, and then row `k` is race line `k`'s row; otherwise some race line is the first to fail, and the error is its own, or `IndexError` for a race line past row 119 |
| Analysis.LoadStep | Analysis.py:52-118 | one more race line fails with `IndexError` once the rows are used up, and otherwise adds its row or fails with its own error |
| Analysis.LoadStops | Analysis.py:52-118 | the first failure decides the outcome whatever race lines follow |
| Analysis.LoadedGrid | Analysis.py:44-118 | after loading, the table's first rows are the race days' rows, each nine cells wide, and every later row is still zero |
| Analysis.LoadedLabels | Analysis.py:45-57 | after loading, the first labels are those of race days `0..n-1`, in order, and every later label is still empty |
| Analysis.FirstMissing | Analysis.py:134 | the result succeeds exactly when some cell is missing; its value is 1 plus the index of the first missing cell, and every earlier cell has a value; otherwise it fails with `np.min`'s ValueError |
| Analysis.FirstMissingIgnoresPadding | Analysis.py:134 | appending cells that all have values (the zero rows after the race days) does not change the first missing day or the error |
| Analysis.FirstMissingOfLoaded | Analysis.py:134 | over a table whose rows after the first `n` are zero, the first missing Total is that of the first `n` rows |
| Analysis.RaceTable.ColumnsOfLoaded | Analysis.py:129-134 | on a loaded table, column `c` of the race rows is column `c` of the parsed rows, and the first missing Total of the whole column is that of the race rows |
| Analysis.RaceTable.SmoothColumn | Analysis.py:129-131 | rows `0..i` of column `c` take the smoothed values of `T[0:n, c]`, and every other cell of `S` is kept |
| Analysis.RaceTable.Smooth | Analysis.py:127-131 | `S` is a new 120 x 9 array: row `r <= i` of column `c` holds the moving average of day `r + 1` over the race days of `c`, and every later row is zero |
| Analysis.RaceTable.SmoothedOfLoaded | Analysis.py:127-131 | what `Smooth` computes on a loaded table is the smoothed columns of the parsed rows, with zeros below them |
| Analysis.Conclude | Analysis.py:121-134 | on a table loaded with the race rows and their labels, the script fails with `np.min`'s ValueError when no Total is missing; otherwise it reports the first day without a Total, the loaded table (rows and `DD.MM.` labels of the race days over zero rows and empty labels) and the smoothed table |
| Analysis.Analyse | Analysis.py:43-134 | the script either fails with the error of the first race line that raises (including `IndexError` past row 119), or goes on as `Conclude` states with the rows `Run` gives: `T` holds them on top, `D` holds the labels of days `0..n-1` on top, and the rest stay zero and empty |
| RaceLine.RaceLineIffFound | Analysis.py:52 | a line is a race line exactly when `find` locates `. LD` or `.LD` in it |
| RaceLine.Half | Analysis.py:85-86 | half a cell is missing exactly when the cell is, and the two halves add up to the cell |
| RaceLine.Locate | Analysis.py:63-114 | a field starts at least its skip minus one, and it ends at -1 or not before where it starts |
| RaceLine.Span | Analysis.py:63-114 | `j1` is never below 1, and `j2` is -1 or at least `j1` |
| RaceLine.ClockValue | Analysis.py:65-68 | the Swim, Bike and Run blocks raise only when `line[j1]` is outside the line, and then raise `IndexError(j1)` |
| RaceLine.MinutesValue | Analysis.py:71-76 | the T1, Lunch and T2 blocks never raise: a slice of digits reads as that many minutes, in hours, and a slice without a digit gives a missing cell |
| RaceLine.TotalValue | Analysis.py:113-118 | the Total block never raises: two hour digits and minute digits read as that time, and an hour or minute slice without a digit gives a missing cell |
| RaceLine.Extract | Analysis.py:63-118 | field `k` raises exactly when it is a Clock field whose start is past the end of the line, with `IndexError` at that start; every other outcome is a cell |
| RaceLine.CollectFailsAt | Analysis.py:63-118 | when field `k` is the first to fail, the block ends with its error |
| RaceLine.CollectSucceeds | Analysis.py:63-118 | running the fields succeeds exactly when no field fails, and then yields the value of each field in order |
| RaceLine.CollectFails | Analysis.py:63-118 | when running the fields fails, its error is that of a field before which every field succeeded |
| RaceLine.ParseFields | Analysis.py:63-118 | a parsed row has nine cells |
| RaceLine.ParseFieldsMeaning | Analysis.py:63-118 | a race line parses exactly when none of its seven fields raises; cells 0-6 are then the fields' cells and Bike1 and Bike2 are half of Bike; otherwise the error is `IndexError` at the start of the first Clock field that begins past the end of the line |
| RaceLine.BikeHalves | Analysis.py:85-86 | Bike1 and Bike2 are missing exactly when Bike is, and otherwise add up to Bike |
| RaceLine.ParseFieldsFailsAt | Analysis.py:63-118 | a line whose first raising field is `f` fails with that field's error |
| LineLayout.LocateComposed | Analysis.py:63-114 | in any line composed in a scannable layout, the scan locates every field exactly at its text, provided no `)` comes before the first opener and no text holds `|`, `h` or `m`, the characters the later searches look for; a `.` or `)` in a text is passed over |
| LineLayout.LocateChain | Analysis.py:63-114 | when every step of the scan lands on the given positions, so do the located spans |
| LineLayout.LayoutScannable | Analysis.py:63-114 | the script's seven fields form a scannable layout: the first opener is `.)`, the later ones are runs of `\|`, each skip passes its opener and one space, and every closer is `h` or `m` |
| LineFormat.ParseFormatLine | Analysis.py:63-118 | round trip: a results line written from seven entries, followed by anything (such as the line end `readlines()` keeps), parses back into their row (a blank field gives a missing cell), whatever precedes its `.)` as long as that holds no `)` |
| LineFormat.FieldOfFormatted | Analysis.py:63-118 | field `f` of a formatted line, followed by anything, reads back as its entry's cell |
| LineFormat.ClockOfText | Analysis.py:65-69 | a Swim, Bike or Run field whose text is followed by a non-digit reads as that text does: one hour character, then minutes from the third character on; an empty text reads the closer as its hour and is missing |
| LineFormat.MinutesOfText | Analysis.py:72-76 | a T1, Lunch or T2 field reads as its whole text does |
| LineFormat.TotalOfText | Analysis.py:114-118 | the Total field, its text followed by a character `int()` rejects, reads as that text does: two hour characters, then minutes from the fourth character on; a text shorter than two characters is missing |
| LineFormat.ExtractOfComposed | Analysis.py:63-118 | on a line laid out in the results format from any field texts without `|`, `h` or `m` (so `.` and `)` are allowed), followed by anything, field `k` never raises and gives the cell its own text reads as |
| LineFormat.ParseComposed | Analysis.py:63-118 | such a line parses, whatever its texts hold other than `|`, `h` or `m`, into the cells its texts read as, with Bike1 and Bike2 the halves of Bike; a text `int()` rejects gives a missing cell instead of stopping the script |
| LineFormat.OnlyItsOwnCell | Analysis.py:65-118 | replacing the text of one field by any other text without `|`, `h` or `m` (a decimal `3.5` or a placeholder `k.A.` included) changes no cell but that field's (and Bike1 and Bike2 when it is Bike), and the field's cell becomes what the new text reads as |
| LineFormat.NoDigitIsMissing | Analysis.py:65-118 | a field text without a digit reads as missing, whatever the field's shape |
| LineFormat.GarbledFieldIsMissing | Analysis.py:65-118 | on a laid-out line, a field whose text holds no digit gives a missing cell and the line still parses |
| LineFormat.ReadsBack | Analysis.py:63-118 | a time written in a field of its shape (one hour digit, minutes only, or two hour digits) reads back as that time in hours |
| LineFormat.TextCellOfEntry | Analysis.py:63-118 | a written entry's text reads as its time, and a blank one as missing |
| LineFormat.TenHourClockIsMissing | Analysis.py:65-69 | a Swim, Bike or Run time of ten hours or more, written with all its hour digits, reads as missing, because the minutes are read from the third character on, which runs into the `:` |
| LineFormat.OneDigitTotalIsMissing | Analysis.py:113-118 | a Total written with one hour digit reads as missing, because its first two characters take the `:` with them |
| LineFormat.SampleLineFormatted | Analysis.py:63-118 | the line `1. LD (09.05.) 1:15h \| 3m \| 6:30h \| 12m \| 4m \| 4:30h \|\| 12:31h` is the results line of its seven times |
| LineFormat.SampleParses | Analysis.py:63-118 | that line parses without raising into the row of its seven times, the row `SampleRow` spells out |
| LineFormat.SampleRow | Analysis.py:63-118 | that line stands for the row 1.25, 0.05, 6.5, 0.2, 4/60, 4.5, 12 + 31/60, with 3.25 and 3.25 as Bike1 and Bike2 |
| LineFormat.DecimalT1IsIsolated | Analysis.py:71-76 | the sample line with T1 written as `3.5m` still parses: T1 is missing because `int()` rejects the `.`, and every other cell is the sample's |
| LineFormat.DecimalMinutesIsMissing | Analysis.py:71-76 | a Minutes text `3.5` holds none of the characters the scan looks for, yet `int()` rejects it, so the field reads as missing |
| Calendar.DaysInMonth | Analysis.py:56 | every month has 28 to 31 days |
| Calendar.NextDay | Analysis.py:56 | the day after a valid date is a valid date |
| Calendar.NextDayOrdinal | Analysis.py:56 | the next day is exactly one day number later |
| Calendar.AddDays | Analysis.py:56 | adding days to a valid date gives a valid date |
| Calendar.AddDaysOrdinal | Analysis.py:56 | adding `k` days adds exactly `k` to the day number |
| Calendar.OrdinalInjective | Analysis.py:56 | distinct valid dates have distinct day numbers |
| Calendar.DateLabel | Analysis.py:57 | a label is six characters: two digits, `.`, two digits, `.` |
| Calendar.DateLabelReadsBack | Analysis.py:56-57 | the label's two number fields read back, with `int()`, as the day and the month of 9 May 2024 plus `i` days |
| Calendar.DateLabelOf | Analysis.py:56-57 | for any valid date `k` days after the start, the label of day `k` is that date's day and month, each zero-padded to two digits |
| Calendar.MayLabels | Analysis.py:56-57 | rows 0-22 are labelled 09.05. to 31.05. |
| Calendar.JuneLabels | Analysis.py:56-57 | rows 23-52 are labelled 01.06. to 30.06. |
| Calendar.JulyLabels | Analysis.py:56-57 | rows 53-83 are labelled 01.07. to 31.07. |
| Calendar.AugustLabels | Analysis.py:56-57 | rows 84-114 are labelled 01.08. to 31.08. |
| Calendar.SeptemberLabels | Analysis.py:56-57 | rows 115-119 are labelled 01.09. to 05.09. |
| PyText.FindStart | Analysis.py:63-64 | a start of 0 or more is kept; a negative start counts from the end (`len + start`), and is 0 when that is still negative |
| PyText.FindFrom | Analysis.py:63-64 | the result is the leftmost occurrence at or after `k`, or -1 when there is none |
| PyText.Find | Analysis.py:63-64 | `s.find(sub, start)` is -1 or an index at or after the normalised start |
| PyText.FindMeaning | Analysis.py:63-64 | `s.find(sub, start)` is the leftmost occurrence at or after the normalised start, or -1 exactly when there is none |
| PyText.Contains | Analysis.py:52 | `sub in s` holds exactly when `s.find(sub)` is not -1 |
| PyText.CharAt | Analysis.py:66 | `s[k]` succeeds exactly for `-len(s) <= k < len(s)`, counting negative `k` from the end, and otherwise raises `IndexError` |
| PyText.SliceBound | Analysis.py:66 | a slice bound is clamped to `0..len`, and a negative bound counts from the end |
| PyText.Slice | Analysis.py:74 | `s[a:b]` never raises: it is `s[a..b]` for in-range bounds, and empty when the clamped stop is not after the clamped start |
| PyText.ParseInt | Analysis.py:66-68 | `int(s)` succeeds exactly on optional whitespace (tab, line feed, vertical tab, form feed, carriage return, space), an optional sign, ASCII digits and optional whitespace |
| PyText.ParseIntOfDecimal | Analysis.py:74 | a run of digits reads as the number it spells |
| PyText.ParseIntOfSigned | Analysis.py:74 | a `+` or `-` followed by digits, with whitespace around it, reads as the signed number the digits spell, leading zeros allowed (a T1 field of `-5` reads as -5 minutes) |
| PyText.ParseIntOfChar | Analysis.py:66 | `int(c)` succeeds exactly on a digit, giving its value |
| PyText.ParseIntRejectsForeignChar | Analysis.py:67-68 | any character other than whitespace, a sign or a digit makes `int()` raise ValueError |
| PyText.ParseIntRejectsBlank | Analysis.py:67-68 | an empty or all-whitespace string makes `int()` raise ValueError |
| PyText.ParseIntNeedsDigit | Analysis.py:67-68 | a string without a digit makes `int()` raise ValueError, whatever else it holds |
| PyText.ParseIntOfString | Analysis.py:66 | round trip: `int(str(n))`, with tabs, line ends or spaces around it, gives back `n` |
| PyText.StripOfPadded | Analysis.py:66 | what `int()` reads is exactly the text between the surrounding whitespace |
| PyText.NatToString | Analysis.py:57 | `str(n)` is decimal digits that read back as `n`, starting with `0` only for `n == 0`; it has one digit exactly when `n < 10`, and two exactly when `10 <= n < 100` |
| PyText.Pad2 | Analysis.py:57 | the `02d` format gives digits that read back as `n`; it has exactly two digits when `n < 100`, with a leading `0` when `n < 10` |
| Smoothing.InWindowAsReals | Analysis.py:131 | the integer window test is the script's comparison of `x` with the real bounds `i - w/2` and `i + w/2` |
| Smoothing.InWindowDistance | Analysis.py:131 | for `w >= 1`, a day is in the window exactly when it is at most `(w - 1) / 2` days away |
| Smoothing.MaskedMean | Analysis.py:131 | one pass over the masked days gives the NaN-mean of the window, missing exactly when every day in the window is missing |
| Smoothing.NanMeanMissing | Analysis.py:131 | the smoothed value is missing exactly when every day in its window is missing |
| Smoothing.NanMeanWithin | Analysis.py:131 | the smoothed value lies between any lower and upper bounds of the window's values |
| Smoothing.NanMeanConstant | Analysis.py:131 | a window whose values are all `v`, with at least one value, smooths to `v` |
| Smoothing.NanMeanLocal | Analysis.py:131 | the smoothed value of a day depends on nothing outside its window |
| Smoothing.Smoothed | Analysis.py:128-131 | the smoothed column is as long as the column |
| Smoothing.SmoothedKeepsValues | Analysis.py:131 | a day with a value never smooths to missing, because it lies in its own window |
| Smoothing.SmoothedConstant | Analysis.py:128-131 | smoothing a column whose days all hold the same value leaves it unchanged |

## Left out

- Lines whose field texts hold `|`, `h` or `m`, or whose text before the first
  `.)` holds a `)`, are not described by the layout lemmas (`LocateComposed`,
  `ExtractOfComposed`, `ParseComposed`, `OnlyItsOwnCell`, `ParseFormatLine`).
  Such a character moves a later `find`, so the fields are read from other
  positions. `ParseFields` still models those lines exactly, and
  `ParseFieldsMeaning` gives their cells position by position.
- Reading `Results.txt` and everything after line 134 are left out. That is
  the plots, `dec2hm`, `dec2ms` and the `ds` tick labels (lines 123-124). The
  lines of the file are a parameter of `Analyse`.
- IEEE floating point is left out. Times, halves and means are exact reals, and
  NaN is a separate cell value. So `np.nanmean`'s rounding and summation order
  are not modelled.
- Python's `int()` is modelled on ASCII text only. Unicode digits and whitespace,
  and `_` between digits, are not modelled.
- PyText.ParseInt: digit runs of any length read exactly. CPython's limit of
  4300 digits for `int()` on a decimal string (a ValueError past it, which the
  script catches as NaN) is not modelled. Neither is the OverflowError of `/60`
  on an integer too large for a float (from about 309 digits), which the
  script does not catch. So the "never raises" of `ClockValue`, `MinutesValue`
  and `TotalValue` holds for fields of fewer than about 300 digits.
- The commented-out date extraction (lines 58-60) is left out.
- Analysis.RaceTable.ProcessLine: the row is read first and stored at the end,
  so the contract says nothing about `T` after an uncaught exception. The script
  has by then written the fields before the failing one into row `i`, but it
  stops there.
- Analysis.RaceTable.Smooth: the script reuses the global `i` as its inner loop
  variable, so after smoothing `i` is `n` when there is at least one race day,
  and stays -1 when there is none. No later line reads it, so the model keeps
  `i` as the loop over the file left it.
- Calendar.NextDay: its contract states only that the next day is a valid date.
  That it is one day number later is the separate lemma
  `Calendar.NextDayOrdinal`.
