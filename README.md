# Course export pipeline, modelled in Dafny

`main.py` reads a legacy course-enrolment database and writes one record per
course completion for a licensing-renewal service. This project models its
three core functions over in-memory tables:

- `get_course_info` (`Schedule.GetCourseInfo`) selects the `COURSESKED` rows
  whose `course` equals a key. In demo mode the key is always
  `2005-07-26 00:00:00`. It projects each row to the fields `generate` needs.
  A raised exception is swallowed, and the entries already collected are
  returned.
- `generate` (`Derive.Generate`) builds one record in four steps, and the
  first step that raises decides the error:
  - derive a missing renewal date as the completion date plus two years;
  - cut the cycle label from the renewal string;
  - split the name on its comma;
  - read the hours with `int`.
- `get_courses` (`Export.GetCourses`) works through the enrolment rows in
  order, optionally filtered by date:
  - it passes a NULL license on unchanged, normalises any other license to
    `PE` plus at least seven digits, or skips the row when the license does
    not match;
  - it looks up the row's schedule;
  - it appends one record per schedule entry, falling back to the
    enrolment's own hours, completion and renewal values when the schedule's
    are falsy.

The two functions that loop are methods with `for` loops, proved against
pure specification functions. The inner loop of `get_courses` is its own
method, `Export.GenerateEntries`.

- `Schedule.Lookup` specifies the lookup.
- `Export.CoursesResult` specifies the whole run. It is built with `Rows.Flatten`
  from one result per row and one result per schedule entry.

The remaining modules model the Python builtins the pipeline relies on:

- `PyStr`: `str.strip`, `str.split`, `int`, `str` of an int, `str.zfill`.
- `Timestamps`: `strptime`/`strftime` on `%Y-%m-%d %H:%M:%S`, `relativedelta(years=2)`.
- `License`: the one regular expression used.

Database access is a parameter:

- A `Table` is its rows plus a flag saying the query raises.
- Rows carry their column count, so a tuple unpack of the wrong arity fails
  as it does in Python.

Exceptions that escape `get_courses` are the `Rows.Error` values of a
`Result`.

The cycle label follows the code (main.py:72), not the `YYYY-YYYY` label
the output format suggests. The code takes the first five characters of
`renewal_date`, reads them with `int`, and writes that value minus two, a
`-`, then the five characters. For a renewal date of `2023-06-01 00:00:00`
the label the output format suggests is `2021-2023`, and a completion on
`2021-01-10` with no renewal date would export a record with that label. Under the code, the slice
`2023-` ends in `-`, which `int` rejects, so `generate` raises. This also
holds for every renewal date the program derives itself.

- `Export.ExportEmptyOrFails` proves that a run over tables whose renewal
  dates are all in that format either raises or exports nothing.
- `Scenario.ExampleRun` proves that the end-to-end run on such a
  completion raises `CycleNotInteger`.

The model keeps the label computation as written.

`Schedule.GetCourseInfo` also returns a `failed` flag. It tells a lookup cut
short by an exception from one that ran to the end. The program itself
discards this information, and `get_courses` uses only the entries.

## Model

| member | source | states |
|---|---|---|
| `PyStr.Strip` | main.py:73 | `str.strip()`: never longer than its input, no whitespace left at either end, and a string without surrounding whitespace is unchanged |
| `PyStr.StripTrimmed` | main.py:73 | what `strip()` removes is whitespace only, taken from the two ends: the result is a slice `s[i..j]` with only whitespace before `i` and after `j` |
| `PyStr.SplitOn` | main.py:73 | `str.split(',')`: one more part than there are separators, no part contains the separator, and joining the parts with it gives back the input |
| `PyStr.SplitAtFirst` | main.py:73 | splitting `a + sep + b` with no separator in `a` gives `a` followed by the parts of `b` |
| `PyStr.NatToDigits` | main.py:72 | the decimal digits of a natural number: nonempty, all digits, value is the number, no leading zero unless it is zero |
| `PyStr.NatDigitsCanonical` | main.py:72 | a run of digits without a leading zero is exactly what `str()` writes for its value |
| `PyStr.IntToString` | main.py:72 | `str(i)`: a canonical decimal (optional `-`, digits, no leading zero, no `-0`) whose sign is `-` exactly for negative `i` |
| `PyStr.CanonicalDecimalUnique` | main.py:72 | every canonical decimal is read by `int` and is what `str()` writes for the value read, so `str()`'s text is pinned down by the value |
| `PyStr.IntSpaceIsSpace` | main.py:72 | the whitespace `int` skips is that of `strip()` minus the separators U+001C to U+001F |
| `PyStr.ParseIntSkipsBlanks` | main.py:79 | `int(" 5\n")` is 5 |
| `PyStr.ParseIntRejectsSeparator` | main.py:79 | `int("\x1c5")` raises, though `strip()` would remove the U+001C |
| `PyStr.NatToDigitsRoundTrip` | main.py:72 | `int` reads back the decimal digits of every natural number |
| `PyStr.IntToStringRoundTrip` | main.py:72 | `int(str(i)) == i` for every integer |
| `PyStr.ParseIntRejectsTrailing` | main.py:72 | `int` raises on text whose last character is neither a digit nor whitespace (so on `YYYY-`) |
| `PyStr.ParseInt` | main.py:72-79 | `int(s)` on text: `int`'s whitespace trimmed from both ends, an optional `+` or `-`, then ASCII digits with single underscores only between digits; anything else raises (`None`); no limit on the number of digits |
| `PyStr.ZFill` | main.py:100 | `str.zfill(w)`: length `max(len, w)`; unsigned text is left-padded with zeros and kept as the suffix |
| `Timestamps.DaysInMonth` | main.py:69 | month lengths lie in 28..31, and the length is 29 exactly for February of a leap year |
| `Timestamps.ParseTimestamp` | main.py:69 | `strptime(c, '%Y-%m-%d %H:%M:%S')` succeeds only on a valid date and time |
| `Timestamps.Pad` | main.py:70 | a field written in exactly `w` digits whose value is the number |
| `Timestamps.FormatTimestamp` | main.py:68-70 | `strftime` output has the `YYYY-MM-DD HH:MM:SS` shape |
| `Timestamps.ParseFormat` | main.py:68-70 | parsing a formatted valid timestamp gives it back |
| `Timestamps.FormatParse` | main.py:68-70 | formatting a parsed timestamp gives back the original string |
| `Timestamps.LeapPlusTwo` | main.py:69 | a leap year plus two is never a leap year |
| `Timestamps.AddTwoYears` | main.py:69 | `+ relativedelta(years=2)`: defined exactly when year+2 ≤ 9999; year+2, same month and time; 29 February becomes 28 February, other days are kept; the result is a valid date |
| `Rows.Where` | main.py:47 | a `WHERE` filter keeps exactly the rows that satisfy the condition, and no more rows than the table has |
| `Rows.WhereConcat` | main.py:89 | filtering is compositional over concatenation, so table order is preserved |
| `Rows.FlattenSpec` | main.py:93-107 | an accumulation succeeds exactly when every step does, with the steps' values in order; otherwise it raises the error of the first failing step |
| `Rows.FlattenConcat` | main.py:93-107 | running `a + b` is running `a` and then `b` |
| `Rows.FlattenErrorPersists` | main.py:93-107 | once some step raises, later steps do not change the outcome |
| `Rows.FlattenMapStep` | main.py:93-107 | one more step that succeeds appends exactly its values |
| `Rows.FlattenMapStepFails` | main.py:93-107 | one more step that raises ends the run with its error, whatever the later steps are |
| `Rows.FlattenSingletons` | main.py:103-107 | a run whose steps yield one value each succeeds exactly when every step does, with one value per step in order; otherwise it raises the first step's error |
| `License.LineEnd` | main.py:96 | `.` cannot cross a newline: the first line ends at the returned position |
| `License.MatchLicense` | main.py:96 | `re.match(r'.*PE([0-9]+)', s)`: no match exactly when no `PE`+digit run starts on the first line; a match is a real match, and it is the one with the rightmost `PE` and the longest digit group |
| `License.NormalizeLicense` | main.py:95-101 | an absent license passes unchanged; a present one is skipped exactly when the pattern does not match; otherwise it becomes `PE` + the matched digits left-padded with zeros to at least seven, never truncated |
| `License.GroupDigits` | main.py:96-99 | the group of a match is a nonempty run of digits |
| `License.PadLicense` | main.py:99-101 | `PE` + zfill(7) of a digit group is `PE`, zeros, then the group, at least seven characters after `PE` |
| `License.NormalizeExample` | main.py:95-101 | `ABCPE42` becomes `PE0000042` |
| `Schedule.KeyText` | main.py:47 | the course as the f-string renders it into the query: its text, or the text `None` for a NULL course |
| `Schedule.LookupKey` | main.py:41-47 | in demo mode the key is `2005-07-26 00:00:00` whatever the course; otherwise it is the course's text, and the text `None` for a NULL course |
| `Schedule.Select` | main.py:47-48 | the rows fetched are exactly those whose `course` equals the key |
| `Schedule.Project` | main.py:50-60 | the dictionary maps title, `comments`, `instructor`, hours, `day1`, `day4`, id and course as unpacked |
| `Schedule.ProjectUntilMalformedSpec` | main.py:49-62 | the entries are the projections of the rows before the first row that is not 14 wide; `failed` holds exactly when such a row exists, and that row is the one at the index where the entries stop |
| `Schedule.ProjectUntilMalformed` | main.py:49-60 | the loop over fetched rows: the projection of each row, in order, until the first row that does not unpack into 14 names, with `failed` set exactly when such a row stops it |
| `Schedule.Lookup` | main.py:45-63 | what the lookup on a key returns: no entries and `failed` when the query raises, otherwise `ProjectUntilMalformed` of the selected rows |
| `Schedule.GetCourseInfo` | main.py:40-63 | the method's entries and flag equal `Lookup` on the effective key; in demo mode, on the demo key |
| `Schedule.LookupInOrder` | main.py:47-60 | the entries are, in order, projections of a prefix of the matching rows |
| `Schedule.LookupComplete` | main.py:45-63 | without an exception every matching row is returned; an exception occurs exactly when the query raises or a row is malformed; a failing query gives no entries, a malformed row `k` gives the first `k` |
| `Derive.FirstFive` | main.py:72 | `renewal_date[:5]`: the first five characters, or all of a shorter string |
| `Derive.ResolveRenewal` | main.py:67-71 | a nonempty renewal date is used verbatim; a missing or empty one is derived exactly when the completion date parses and year+2 ≤ 9999, and the derived string parses back to year+2 with the same month and time, 29 February clamped to 28 |
| `Derive.Cycle` | main.py:72 | the label exists exactly when `int` accepts the five-character slice, and otherwise the error is `CycleNotInteger` |
| `Derive.CycleShape` | main.py:72 | the label ends with `-` followed by the raw slice, and the text before that `-` is a canonical decimal reading as the slice's value minus two, hence `str()` of it |
| `Derive.CycleRejectsDashAtFive` | main.py:72 | a renewal string in the program's own `YYYY-...` format has no cycle |
| `Derive.SplitName` | main.py:73 | a NULL name raises `NameMissing`; any other failure is the unpack error |
| `Derive.SplitNameSpec` | main.py:73-76 | a name splits exactly when it holds one comma; the output is the stripped text after the comma, a space, then the stripped text before it |
| `Derive.SplitNameExample` | main.py:73-76 | `Smith, John` becomes `John Smith` |
| `Derive.SplitNameNoComma` | main.py:73 | `Smith John` raises the unpack error |
| `Derive.HoursValue` | main.py:79 | `int(hours)`: a number is kept, text is parsed as `int` does, NULL raises |
| `Derive.Generate` | main.py:66-82 | a record keeps the license, title, description and completion date it was given; its name is the name split's result, its hours are `int` of the hours, and its cycle is the label of the resolved renewal date; it returns a record whenever all four steps succeed, and otherwise raises the error of the first failing step in source order (renewal derivation, cycle, name split, `int(hours)`) |
| `Derive.ResolvedDateShaped` | main.py:67-72 | a resolved renewal date has `-` at index 4 when the given one was missing, empty or in `YYYY-` form |
| `Derive.GenerateRejectsDateShapedRenewal` | main.py:67-72 | `generate` raises whenever the renewal date is missing, empty, or written as `YYYY-...` |
| `Export.TruthyText` | main.py:105-106 | Python truthiness of a text column: false exactly for `None` and the empty string |
| `Export.TruthyHours` | main.py:105 | Python truthiness of an hours column: false exactly for NULL, the number 0 and the empty string |
| `Export.OrText` | main.py:105-106 | `a or b` on text: `a` when it is truthy, `b` when it is `None` or empty |
| `Export.OrHours` | main.py:105 | `a or b` on hours: the schedule's hours unless they are NULL, 0 or empty, the enrolment's otherwise |
| `Export.GenerateFor` | main.py:104-106 | the record's license, title, description are passed through and its name is the split of the enrolment's name; the completion date is the schedule's unless falsy, else the enrolment `course`; the hours are `int` of the schedule's hours unless falsy, else of the enrolment's; the cycle is that of the schedule's renewal date unless falsy, else of the enrolment's `date4`; a record is returned exactly when all four steps succeed on those fallbacks |
| `Export.SelectEnrollment` | main.py:88-92 | without a date all rows are used; with one exactly the rows whose `course` is `date + " 00:00:00"` |
| `Export.GenerateAll` | main.py:103-107 | the inner loop: `generate` on each schedule entry in order with the enrolment's fallbacks, the records in order, or the error of the first entry that raises |
| `Export.RowRecords` | main.py:94-107 | what one enrolment row contributes: the unpack error when it is not 31 wide; otherwise no records when its license does not match; otherwise `GenerateAll` on the entries of the lookup for its `course` (the demo key in demo mode), with the normalised license |
| `Export.ExportRows` | main.py:93-107 | the outer loop: the records of each enrolment row in query order, concatenated, or the error of the first row that raises |
| `Export.CoursesResult` | main.py:85-109 | the value `get_courses(date)` returns: the `COURSE` query's failure, or `ExportRows` over the enrolment rows selected by the date filter |
| `Export.GenerateEntries` | main.py:103-107 | the inner loop's result is `GenerateAll`: one record per entry in order, or the first entry's error |
| `Export.GenerateAllStep` | main.py:103-107 | each successful inner iteration appends exactly that entry's record |
| `Export.GenerateAllStepFails` | main.py:103-107 | a `generate` that raises ends the row with its error |
| `Export.ExportStep` | main.py:93-107 | each processed enrolment row appends exactly its records |
| `Export.ExportStepFails` | main.py:93-107 | an enrolment row that raises ends the run with its error |
| `Export.GetCourses` | main.py:85-109 | the method's result is `CoursesResult`: the records or the first exception |
| `Export.ExportConcat` | main.py:93-109 | records come in enrolment order: exporting `a + b` gives `a`'s records followed by `b`'s, or the first error |
| `Export.ExportRowsOutcome` | main.py:93-109 | the run succeeds exactly when every row does; otherwise its error is that of the first row that raises |
| `Export.EntryRecords` | main.py:103-107 | a processed row gives one record per schedule entry, in lookup order, exactly when every entry's `generate` succeeds; otherwise the first failing entry's error |
| `Export.SkippedLicense` | main.py:95-98 | a present license without a match contributes no records whatever the schedule table holds |
| `Export.AbsentLicense` | main.py:95-107 | an absent license still looks up and processes the row, and every record has no licensee id |
| `Export.OneRecordPerEntry` | main.py:102-107 | a processed row that succeeds has as many records as entries, record `j` being `generate` on entry `j` |
| `Export.FallbackDateShaped` | main.py:106 | the renewal fallback of two values in `YYYY-` form or missing is again such a value |
| `Export.RowRecordsEmptyOrFail` | main.py:66-107 | with renewal dates in the program's format, a row either raises or contributes nothing |
| `Export.ExportEmptyOrFails` | main.py:66-109 | with renewal dates in the program's format, `get_courses` raises or returns an empty list |
| `Scenario.CompletionParses` | main.py:69 | `2021-01-10 00:00:00` parses to that instant |
| `Scenario.EntryRaises` | main.py:66-82 | `generate` on the example entry raises the cycle error |
| `Scenario.ExampleRun` | main.py:85-109 | the run on one `ABCPE42` enrolment whose schedule entry was completed on `2021-01-10` with no renewal date raises `CycleNotInteger` |

## Left out

- The JDBC connection, driver class path and password (main.py:22-37) are foreign-library I/O. Each table is passed in as its rows plus a flag telling whether its query raises.
- Argument parsing (main.py:9-20): the date filter and the demo flag are parameters of the functions and methods.
- SQL text and string interpolation (main.py:47, 89-91) become equality filters over the rows. SQL injection through the key, Access type conversions and string/date comparison semantics in the database are not modelled.
- `print` of caught exceptions and of progress, and the JSON write (main.py:62, 113-119), are output I/O. The write follows `get_courses`' return, so it happens only when that returns normally.
- `Timestamps.ParseTimestamp`: accepts only fields of full width, ASCII digits and exactly one space between date and time. `strptime` also accepts single-digit month, day and time fields and a space-padded day; its `\d` matches other Unicode decimal digits; and the format's space matches any run of whitespace, so `2021-01-10  00:00:00` parses. Those inputs are treated as raising.
- `Timestamps.FormatTimestamp`: writes every year in four digits. glibc's `%Y` writes years below 1000 without padding, so renewal dates derived from completion years 1-997 (renewal years 3-999) are not modelled exactly. Every such date is still rejected by the cycle computation.
- `PyStr.ParseInt`: ASCII digits only; the whitespace it skips is modelled as CPython's (ASCII `\t` to `\r` and space, and non-ASCII `str.isspace()` characters). Python's `int` also accepts other Unicode decimal digits. CPython 3.11 and later (and the 2022 security releases of 3.7-3.10) also raise on text with more than 4300 digits; the model has no digit limit, so such hours text is read as a number. The cycle slices have at most five characters and are not affected. Hours of type float (truncated by `int`) and other database types are not modelled; hours are NULL, an integer or text.
- `Schedule.Project`: the schedule id keeps the database's integer type; its column type in the Access file is not known.
- `License.MatchLicense`: a hand-written search for the one pattern `.*PE([0-9]+)`, not a general regular-expression engine. `[0-9]` is taken as ASCII digits, as Python's `re` reads a literal range.
- Exceptions are distinguished only by the `Rows.Error` values. Their messages, and the partial output lost when a run raises, are not modelled.
