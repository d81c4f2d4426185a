# Dream journal: a verified model of its form handling, calendar, tags and search

The dream journal is a small web application. A user records each night's
dream as an entry:

- a date, a title and a body;
- five comma-separated attribute lists (location, people, thing, color, smell);
- four scores (sound, mood, vividness, fatigue);
- the times the user fell asleep and woke up;
- an optional picture.

The application shows the entries on a month calendar and searches them by
keyword, date range and tag. It also counts how often each attribute item
occurs, and lists every item ever used.

This project models in Dafny the rules inside `create_app` in `app.py` that
decide what is stored and shown, and proves what those rules promise.

| Module | What it models |
|---|---|
| `Numbers` | `parse_int`, Python's `int()` on decimal literals, decimal rendering |
| `Text` | `strip`, `split`, `join`, ASCII `lower`, code-point string order |
| `Items` | `split_items`, `normalize_items` (a `while` loop) and first-occurrence de-duplication |
| `Sleep` | `parse_time` (abstractly: `HH:MM`), `compute_sleep_minutes`, `format_sleep_minutes` |
| `Images` | `allowed_file` |
| `Calendar` | the Gregorian calendar, `month_bounds`, the `ym` request, the neighbouring months, the per-date grouping loop, `mood_class` |
| `Tags` | `build_tag_counts` and `build_tag_list` (methods whose loops are proved against specification functions) |
| `Search` | the condition and parameter builder of `search`, and what its WHERE clause selects |
| `Validation` | reading a posted form, the nine checks and their error list, and when that list is empty |
| `Store` | the `dreams` table as a class whose methods `NewDream`, `EditDream` and `DeleteDream` change it only as the routes do |

Imperative parts of the source are `method`s with loop invariants, each
proved equal to a function. Those parts are:

- the `normalize_items` loop;
- the counting loops of `build_tag_counts`;
- the set accumulation of `build_tag_list`;
- the list building of `search`;
- the calendar's `dreams_by_date`/`counts` loop;
- the `errors.append` sequence.

Properties are then proved about those functions. The table of rows is the
class `Store.Journal`, with a `map` from ids to rows. Its invariant says
every stored row is well formed, and each route method keeps it.

Two inputs of the routes become parameters:

- the current date and time come in as ISO texts;
- the random `uuid4` file name is a 32-digit hex token.

SQLite's `LIKE` becomes a predicate parameter.

## Model

| member | source | states |
|---|---|---|
| Numbers.ParseInt | app.py:26-37 | A missing or empty value gives none. A result is the literal's own value and lies within the inclusive bounds. A non-literal or out-of-range value gives none, never a clamped value. |
| Numbers.ParseIntOfDecimal | app.py:26-37 | Bounded parsing of a rendered integer gives it back exactly when it is within the bounds and has at most 4300 digits, and none otherwise. |
| Numbers.IntOfDecimalString | app.py:29-30 | `int(str(n)) == n` for every integer of at most 4300 digits, negative ones included. A longer one raises `ValueError`. |
| Items.NormalizeItems | app.py:39-47 | The loop's result is the distinct trimmed non-empty pieces, in first-seen order, joined by ", ". |
| Items.NormalFormItems | app.py:39-52 | Splitting the normalised text gives the de-duplicated items of the input. They are non-empty, stripped and comma-free. They are pairwise distinct. They are exactly the input's items, in the order of their first occurrences. |
| Items.NormalFormIdempotent | app.py:39-47 | Normalising twice is normalising once. |
| Items.SplitItemsAreItems | app.py:49-52 | Every item `split_items` returns is non-empty, stripped and free of commas. |
| Items.SplitItemsOfJoin | app.py:47-52 | Splitting the ", "-join of a list of items gives the list back. |
| Items.DedupFirstSeenOrder | app.py:42-46 | The kept items are items of the input, listed in the order of their first occurrences. |
| Items.DedupDistinct | app.py:45 | The `item not in items` test leaves no repetition. |
| Items.DedupElements | app.py:42-46 | De-duplication keeps every item and adds none. |
| Items.DedupOfDistinct | app.py:42-46 | A list without repetitions is left unchanged. |
| Sleep.ParseFormatTime | app.py:54-60 | Every time of day parses back from its `HH:MM` text. |
| Sleep.FormatParseTime | app.py:54-60 | A text that parses is exactly the `HH:MM` text of its time. |
| Sleep.ComputeSleepMinutes | app.py:62-69 | None exactly when either time is missing. Otherwise the result lies in [0, 1439] and equals (end − start) mod 1440. |
| Sleep.SleepMinutesLeadToEnd | app.py:62-69 | The computed duration is the one number of minutes below a day that leads from the start time to the end time. |
| Sleep.SleepMinutesExamples | app.py:62-69 | 23:30 to 00:15 gives 45 minutes. Equal times give 0. A missing time gives none. |
| Sleep.SleepDisplayRoundTrip | app.py:71-76 | Reading the displayed "H時間MM分" back as hours × 60 + minutes gives the minutes; "-" reads as none. |
| Images.LastDot | app.py:81 | The position of the last dot, or −1 when there is none; no dot comes after it. |
| Images.AllowedFile | app.py:78-82 | True exactly when the name has a last dot and the lower-cased text after it is png, jpg, jpeg or gif. |
| Images.AllowedFileIgnoresCase | app.py:78-82 | A name is accepted exactly when its lower-case form is. |
| Calendar.NextDayOrdinal | app.py:175-176 | Adding a day moves the ordinal up by one. It overflows only after 9999-12-31. |
| Calendar.PrevDayOrdinal | app.py:175 | Subtracting a day moves the ordinal down by one. It overflows only before 0001-01-01. |
| Calendar.MonthBounds | app.py:96-99 | The bounds are day 1 of the month and its last valid day; the day after that is not in the month. February has 29 days exactly in Gregorian leap years. |
| Calendar.MonthBoundsExamples | app.py:96-99 | February 2024 ends on the 29th and February 2023 on the 28th. February 1900 has 28 days, February 2000 has 29. |
| Calendar.MonthBoundsCoverMonth | app.py:96-99 | A date lies between the two bounds exactly when it is in that month. |
| Calendar.IsoDateOrder | app.py:151-161 | Comparing ISO date texts as strings compares the dates. |
| Calendar.MonthQuerySelectsMonth | app.py:151-161 | `date BETWEEN first AND last`, compared as text, selects a stored ISO date exactly when it lies in the shown month. |
| Calendar.AdjacentMonths | app.py:175-176 | The previous and next month arrows lead to the adjacent months. The year changes at January and December. The date arithmetic overflows only on either side of years 1 and 9999. |
| Calendar.ShownMonth | app.py:140-149 | The shown month is valid. It is today's month or the requested one. A requested valid month is shown. |
| Calendar.ShownMonthQuery | app.py:140-161 | The month query built from the shown month's bounds selects a stored date exactly when it lies in the shown month. |
| Calendar.ShownMonthAgrees | app.py:140-149 | Wherever the code as written shows a month, it shows the corrected rule's month. |
| Calendar.ShownMonthOverflow | app.py:143-147 | The code as written fails, with an uncaught OverflowError, for a requested year beyond the C `int` range that `int()` still reads. |
| Calendar.ShownMonthDigitLimit | app.py:143-149 | A requested year of more than 4300 digits makes `int()` raise `ValueError`, which is caught, so today's month is shown. |
| Calendar.GroupByDate | app.py:163-171 | Both maps are keyed by exactly the dates of the rows. Each date counts its rows, at least one. Its cell is the first row on that date together with that row's sleep display. |
| Calendar.MoodClass | app.py:114-122 | "mood-" followed by the mood for moods −2..2, and "mood-none" for a missing or any other mood. |
| Calendar.MoodClassDistinct | app.py:114-122 | The five moods get five different classes, none of them the class of a missing mood. |
| Tags.CountItems | app.py:103-105 | The inner loop leaves each item's count and the keys in insertion order. |
| Tags.BuildTagCounts | app.py:101-106 | The nested loops and the sort give the specification list `TagCounts`. |
| Tags.TagCountsNames | app.py:101-106 | The names are pairwise distinct and are exactly the items of the rows. |
| Tags.TagCountsCounts | app.py:101-106 | Each count is the number of occurrences of its name, and at least 1. |
| Tags.TagCountsOrder | app.py:106 | Counts never increase along the list. Equal counts keep first-seen order, as Python's stable sort leaves them. |
| Tags.TagCountsTotal | app.py:101-106 | The counts add up to the number of items over all rows. |
| Tags.SortByCountRanked | app.py:106 | Sorting keys given in first-seen order ranks them by descending count, with ties in first-seen order. The result is a permutation of the keys. |
| Tags.RankedNames | app.py:106 | Sorting the distinct items by their counts ranks them and keeps exactly the items. |
| Tags.InsertSorted | app.py:112 | Inserting into a strictly sorted list keeps it strictly sorted and adds exactly the new element. |
| Tags.SortSet | app.py:112 | `sorted(items)`: strictly increasing in code-point order, and exactly the set's elements. |
| Tags.StrictlySortedUnique | app.py:112 | Only one strictly sorted list has a given set of elements. |
| Tags.BuildTagList | app.py:108-112 | The listing is strictly increasing and holds exactly the distinct items of the rows. |
| Search.Argument | app.py:193-196 | An argument is read as stripped text: empty when absent, and the given text itself when it is already stripped. |
| Search.SearchRequest | app.py:193-227 | The four arguments are read stripped, empty when absent, and the WHERE text and parameters are those of the filters they give. |
| Search.TermClauses | app.py:213-221 | One five-column clause per term. The parameters get five copies of each term's pattern, appended. |
| Search.AddTagCondition | app.py:211-223 | The tag condition is added only when the tag has terms. Its parameters are added only when the tag is given. |
| Search.BuildSearch | app.py:198-227 | The WHERE text and the parameters are those of the specification functions for the given filters. |
| Search.WherePlaceholders | app.py:225-227 | The WHERE text holds one `?` per placeholder of its conditions. |
| Search.SearchParamCount | app.py:198-223 | The conditions take exactly as many values as the route binds. |
| Search.SearchPlaceholders | app.py:198-227 | The clause holds exactly one `?` per bound parameter. |
| Search.TermsMeaning | app.py:213-223 | The tag-term groups hold exactly when some term matches one of the five list columns. |
| Search.SearchMeaning | app.py:198-227 | With its parameters bound in order, the clause selects exactly the wanted rows. Filter kinds are AND-ed. The keyword matches title or body, and the dates bound the entry date. Tag terms are OR-ed, each over the five list columns. |
| Validation.EveryCheckMade | app.py:274-292 | Every problem is checked. |
| Validation.ReadFormReads | app.py:253-272 | Reading a form gives:<br>- the stripped title and body;<br>- the bounded scores;<br>- the stripped time texts and their parsed times, and the minutes between them;<br>- the form's stripped date when one is given, and today's otherwise;<br>- each list the normal form of its field, whose items are the field's items without repeats. |
| Validation.Report | app.py:275-292 | One `if …: errors.append(…)` adds the check's message exactly when the check fires. |
| Validation.CollectErrors | app.py:274-292 | The error list is the messages of the checks that fire, in the source's order. |
| Validation.FiredInOrder | app.py:274-292 | The message list is the concatenation of the nine checks' reports, in order. |
| Validation.FiredMembers | app.py:274-292 | A problem is reported exactly when it is among the checks and fires. |
| Validation.MessagesPointwise | app.py:274-292 | There is one message per problem fired, in the same order. |
| Validation.ScoreCheck | app.py:279-286 | A score check fires exactly when the field is given but is not an integer in range. |
| Validation.NothingFires | app.py:274-292 | No check fires exactly when: title and body are non-empty; every given score parses in range; every given time parses; the times are both given or both absent; any uploaded name passes `allowed_file`. |
| Validation.ErrorsEmptyExactly | app.py:274-292 | The error list of a posted form is empty exactly when the form is acceptable in the sense above. |
| Store.SaveImage | app.py:84-94 | A path is returned exactly when a file with a non-empty, accepted name was uploaded. The path is accepted itself and keeps the upload's lower-case extension. |
| Store.AcceptedWellFormed | app.py:294-345 | A form on which no check fires is stored as a well-formed row:<br>- title and body non-empty and stripped;<br>- scores in range;<br>- both sleep times or neither, stored minutes consistent with the times;<br>- normalised lists;<br>- an accepted image path. |
| Store.Journal.Insert | app.py:312-342 | The row is stored under a fresh id, and no other row changes. |
| Store.Journal.Update | app.py:436-464 | The row at the id is replaced, and no other row changes. |
| Store.Journal.NewDream | app.py:250-345 | With errors, the route answers them and the table is unchanged. Otherwise exactly one new row is inserted: the read form with the saved image path and the current time as both timestamps. |
| Store.Journal.EditDream | app.py:360-467 | An unknown id is not found. With errors, nothing changes. Otherwise only that row is rewritten, keeping its creation time and, when nothing is uploaded, its image path. |
| Store.Journal.DeleteDream | app.py:477-482 | The row with the id is removed, if any, and nothing else changes. |

## Left out

- The posted form is a map from the fourteen known field names to strings. Fields the routes never read are not represented.
- An uploaded file is its file name alone.
- `render_template`, `flash`, `redirect`, `url_for` and `abort(404)` are left out. So are the GET branches of the routes and the `detail` route. Re-filling the form after an error is also left out; that includes the `sleep_duration` text computed for it.
- Store.SaveImage: `uuid4`, `secure_filename` and the file write are foreign calls and I/O. The random name is a parameter required to be a 32-digit hex token. `secure_filename` leaves such a name unchanged.
- SQL execution is modelled only as far as the routes depend on it. The table is a map from ids to rows; the id a new row receives is the next counter value, which stands in for `lastrowid`. The month query's `ORDER BY` is taken as the order of the rows. SQLite's `LIKE` matching is a predicate parameter.
- The `stats` route is not modelled: its date filter, its `AVG` aggregates with float `round`, and its truncation of each tag list to ten entries. Its tag counts are those of `build_tag_counts`, which is modelled.
- `build_tag_list` returns the names in the model. The source returns `{"name": …}` dictionaries.
- `db.py` is not part of this model: connections, teardown and the schema script are I/O plumbing.
- `dt.date.today()` and `dt.datetime.now()` are the parameters `today` and `now`, passed in as ISO texts. The week layout from `calendar.monthdatescalendar` and the `strftime` of the arrows are library formatting and are left out.
- `parse_time` accepts exactly the `HH:MM` form. The other forms `time.fromisoformat` accepts, such as seconds, fractions and offsets, are left out.
- Python's `int()` is modelled for ASCII digits, an optional sign, single underscores between digits and surrounding whitespace. Its default limit of 4300 digits is modelled: a longer literal raises `ValueError`. Non-ASCII decimal digits are left out, and so is a limit changed with `sys.set_int_max_str_digits`.
- `str.lower()` is modelled for ASCII letters only; other characters are kept as they are. Python's full lowering differs from this only in ways `allowed_file` cannot observe. The Kelvin sign lowers to `k`, which no accepted extension contains. `İ` lowers to two characters, so the result cannot spell `gif`.
- The search's `ORDER BY` and the rendering of its result are left out. The query string is a map from the four argument names to their values.
- Calendar.AdjacentMonths: the arrows are not corrected. At 0001-01 and 9999-12 the date arithmetic of app.py:175-176 raises an uncaught `OverflowError`, so the calendar page fails there as well. The lemma records this as none, and the model does not pick a replacement arrow.
- Integers are unbounded. No value in the modelled rules wraps around, apart from the `date()` argument range at the overflow recorded below.

## Findings

| source | as written | input that shows it | evidently intended | confidence | as-written member | corrected member |
|---|---|---|---|---|---|---|
| app.py:143-147 | `year, month = map(int, ym.split("-"))` then `dt.date(year, month, 1)` inside `except ValueError` | `ym=2147483648-1`, or any year beyond C `int` of at most 4300 digits: `date()` raises `OverflowError`, which the handler does not catch, so the calendar page fails | an unreadable month request falls back to today's month | medium, not executed | Calendar.ShownMonthOverflow | Calendar.ShownMonth |
