# 5C Enrollify, modelled in Dafny

5C Enrollify watches the enrollment numbers of course sections in the
Claremont Colleges' course catalog and texts subscribers when a section's
numbers change. This project models its core and proves properties of it.

- **The scraper's row parser** (`portal_scraper.py`). It covers
  `remove_spaces`, `create_course_dict` and the dedup loop of
  `grab_course_info_for_dept`. These turn the cells of one catalog row into
  a course record. They also build a department's course list with no
  repeats.
- **The enrollment diff** (`portal_scraper.py`). It covers
  `find_enrollment_delta_for_dept` and the department loop of
  `update_course_info`. The loop looks up the saved list of each
  department, diffs it against the fresh one and merges the deltas. Equal
  deltas are kept once, so a cross-listed section whose listings change
  alike is reported once; listings that give different deltas are each
  reported.
- **The notification fan-out** (`send_updates`). For each delta, one notice
  goes to every confirmed subscription of the changed course.
- **The subscription table** (`app.py`):
  - `add_record_to_database` adds a pending row and asks the number for
    `YES <keycode>`;
  - `handle_message` confirms pending rows on `YES`, deletes confirmed rows
    on `STOP` and answers anything else with a fixed reply.

  The table is the class `Subscriptions.Store`. Its request handlers are
  proved against pure functions that state what each SQL statement does
  to the rows.
- **The course list of the web form** (`get_current_courses`): one string
  per course of the snapshot, equal strings kept once, in snapshot order.

Files:
- `Wrappers.dfy`: Option and Result.
- `Text.dfy`: the few Python string primitives the code relies on:
  - `str.find`;
  - slicing with a negative bound;
  - `replace(" ", "")`;
  - `str(int)`;
  - the regular-expression character classes.
- `Lists.dfy`: the append-if-absent idiom as a function, with its lemmas.
- `Catalog.dfy`: the course record.
- `RowParser.dfy`, `Deltas.dfy`, `Dispatch.dfy`, `Subscriptions.dfy`, `CourseList.dfy`: the components above.

Behaviour of the code that the model keeps, and that a reader might not expect:
- **Anomalous rows abort the scrape.** A row with a cell count other than
  6, 7, 8, 12 or 14 reaches a `print` that names the undefined `index`, so
  it raises (portal_scraper.py:101). An enrollment cell that does not match
  its pattern makes `match.group` raise (portal_scraper.py:82-83). Either
  way the department's scrape stops, and with it the whole update
  (`RowParser.Collect`, `Deltas.Refreshed`).
- **"NO" does not unsubscribe.** The notices ask for a reply `NO <keycode>`
  (portal_scraper.py:218). But `handle_message` only recognises `YES` and
  `STOP` (app.py:50, 71), so `NO` gets the "doesn't understand" reply
  (`Dispatch.NoticeReplyIgnored`).
- **The course-id pattern** accepts exactly
  `[A-Z]+[0-9]+\s[A-Z]{2}-[0-9]{2}:` followed by the rest of the line
  (app.py:105). It takes no letters after the digits.
- **A department missing from the saved snapshot** keeps the previous
  department's saved list, because `old_dept_info` is never reset
  (portal_scraper.py:179-183). Before any department has been found, the
  code raises (`Deltas.OldCourses`).
- **A list diffed against itself is not always empty.** Two records of one
  section with different enrollment counts pair with each other
  (portal_scraper.py:41-47), so each yields a delta
  (`Deltas.DiffSelfDuplicateKeys`).

## Model

| member | source | states |
|---|---|---|
| Text.FindDoubleSpace | portal_scraper.py:65-68 | `str.find("  ", start)`: the first index at or after `start` where two spaces begin, or -1 when there is none; no double space lies between `start` and the result |
| Text.PrefixUpTo | portal_scraper.py:66-68 | `s[:j]` is a prefix of `s`; a non-negative in-range `j` keeps `j` characters, a negative one drops `-j` characters from the end |
| Text.DeleteSpaces | portal_scraper.py:77 | `replace(" ", "")` keeps exactly the non-space characters and is never longer |
| Text.Decimal | portal_scraper.py:220 | `str(n)` is a non-empty digit string with no leading zero, of at least two digits from 10 on |
| Text.DecimalInjective | portal_scraper.py:220 | distinct numbers have distinct decimal texts, so the text names the number |
| Text.DeleteSpacesAppend | portal_scraper.py:77 | `replace(" ", "")` of a concatenation is the concatenation of the parts' results, so the kept characters stay in order |
| Text.DeleteSpacesNoSpace | portal_scraper.py:77 | a text without spaces is left unchanged |
| Lists.Dedup | portal_scraper.py:28-32 | the append-if-absent loop leaves a list with no duplicates that holds exactly the elements given, and is never longer |
| Lists.DedupOrder | portal_scraper.py:28-32 | the deduplicated list keeps first-occurrence order |
| Lists.DedupOfUnique | portal_scraper.py:28-32 | a list without duplicates passes through unchanged |
| Lists.DedupAbsorbs | portal_scraper.py:189-191 | appending elements that are already present changes nothing |
| RowParser.RemoveSpaces | portal_scraper.py:64-68 | the result is a prefix of the input and has no double space at or after offset 3 |
| RowParser.RemoveSpacesCutsFromOffset3 | portal_scraper.py:65-68 | both branches cut at the first double space at or after offset 3 |
| RowParser.RemoveSpacesCases | portal_scraper.py:65-68 | a first double space at `i >= 3` cuts to `s[..i]`; with no double space the last character is dropped (empty stays empty) |
| RowParser.ParseEnrollmentSound | portal_scraper.py:81-84 | a match of the enrollment pattern has its shape (digit runs separated by whitespace around `/`) and its parts make up the whole cell |
| RowParser.ParseRender | portal_scraper.py:81-84 | every cell of the pattern's shape is matched and its two digit runs are recovered |
| RowParser.CreateCourse | portal_scraper.py:71-102 | 6, 7 or 8 cells give no record; any count but 6, 7, 8, 12, 14 is the cell-count error; 12 or 14 cells give a record exactly when cell 3 matches; the record has section cell 1, campus cell 7, title the last cell, course `remove_spaces(cell 0)` with every space removed (so without spaces, drawn from cell 0), and enrolled/max the digit runs of cell 3; a 12- or 14-cell row that fails carries the unmatched cell 3 |
| RowParser.TwelveAndFourteenCells | portal_scraper.py:90-96 | a 12-cell and a 14-cell row with the same first 11 cells differ only in the title |
| RowParser.ParseEnrollment | portal_scraper.py:82 | `re.search` of the registration pattern on cell 3: the leading whitespace, the enrolled digits, the whitespace, `/`, the whitespace, the max digits and the trailing whitespace, or no match (its properties are ParseEnrollmentSound and ParseRender) |
| RowParser.CourseList | portal_scraper.py:26-34 | what `grab_course_info_for_dept` returns for the rows: the deduplicated records, or the first row's anomaly (its properties are RecordsFailure and CourseListMembers) |
| RowParser.CollectStep | portal_scraper.py:28-32 | one more row adds its record, adds nothing, or ends the scrape with its anomaly |
| RowParser.CollectErrSticks | portal_scraper.py:28-29 | once a row has raised, the rows after it do not matter |
| RowParser.CollectFailure | portal_scraper.py:28-29 | a run of row outcomes fails exactly when one of them raises, and then with the first such anomaly |
| RowParser.CollectMembers | portal_scraper.py:28-32 | on success the records collected are exactly those the outcomes carry |
| RowParser.RecordsFailure | portal_scraper.py:28-29 | a department's rows fail exactly when some row raises, and then with the first such row's anomaly |
| RowParser.CourseListMembers | portal_scraper.py:28-34 | the course list has no duplicates, and a course is in it exactly when some row of the department yields it |
| RowParser.GrabCourseInfo | portal_scraper.py:26-34 | the loop returns the deduplicated records, or the first row's error |
| Deltas.FindEnrollmentDelta | portal_scraper.py:39-52 | the nested loops return the diff in old-then-new order; a delta is there exactly when some (old, new) pair matches on (course, section, campus) and differs in enrolled or max |
| Deltas.DeltasFor | portal_scraper.py:42-50 | the inner loop: the deltas of one old record against the new list, in new-list order (its properties are DeltasForMembers and DeltasForAppend) |
| Deltas.Diff | portal_scraper.py:41-50 | the nested loops: old records in order, each against the new list (its properties are DiffMembers, DiffAppend and the lemmas below) |
| Deltas.DiffMembers | portal_scraper.py:41-50 | every delta comes from a matching changed pair and every such pair gives its delta |
| Deltas.DiffSound | portal_scraper.py:41-50 | every delta in the result comes from a saved and a new record of the same section whose counts differ |
| Deltas.DiffComplete | portal_scraper.py:41-50 | every saved and new record of the same section whose counts differ gives its delta |
| Deltas.DeltasForMembers | portal_scraper.py:42-50 | the deltas of one old record are those of the new records it matches and differs from |
| Deltas.DiffAppend | portal_scraper.py:41 | the deltas of earlier old records come first |
| Deltas.DeltasForAppend | portal_scraper.py:42 | for one old record, deltas follow the new list's order |
| Deltas.DiffEmpty | portal_scraper.py:43-47 | no matching changed pair means no delta |
| Deltas.DeltasForEmpty | portal_scraper.py:43-47 | an old record that changed against nothing gives no delta |
| Deltas.DeltasForNone | portal_scraper.py:43-45 | an old record whose key is not in the new list gives no delta |
| Deltas.DiffSelf | portal_scraper.py:41-47 | a list with unique keys diffed against itself gives no delta |
| Deltas.DiffSelfDuplicateKeys | portal_scraper.py:41-47 | two saved records of one section with different enrollments, diffed against the same list, give a delta each, so DiffSelf's unique keys are needed |
| Deltas.DiffIgnoresCancelled | portal_scraper.py:43-45 | a saved section missing from the new list contributes nothing |
| Deltas.DiffIgnoresNew | portal_scraper.py:43-45 | a new section missing from the saved list contributes nothing |
| Deltas.DeltasForIgnoresNew | portal_scraper.py:43-45 | a new record with another key does not change one old record's deltas |
| Deltas.DiffAt | portal_scraper.py:41 | the deltas of a saved list are those of the records before position i, then of record i, then of the records after it |
| Deltas.DiffSingleChange | portal_scraper.py:41-50 | when one section's numbers change in a list with unique keys, the diff is exactly that section's delta, named `course campus-section` |
| Catalog.CourseName | portal_scraper.py:48 | the section name `course campus-section` carried by a delta |
| Deltas.SavedCourses | portal_scraper.py:180-183 | the lookup finds the first saved entry of the department, or reports that there is none |
| Deltas.FindSavedCourses | portal_scraper.py:180-183 | the lookup loop returns the first saved entry of the department |
| Deltas.OldCourses | portal_scraper.py:179-183 | the value of `old_dept_info` after n departments: the saved list of the latest department found so far, none before the first (the stale lookup) |
| Deltas.Refreshed | portal_scraper.py:174-191 | after n departments the new snapshot has one entry per department, in order; when it succeeds is stated by RefreshedSucceeds, and its contents by RefreshedContents |
| Deltas.RefreshedSucceeds | portal_scraper.py:174-186 | the first n departments succeed exactly when each one's rows parse and `old_dept_info` is bound after its lookup |
| Deltas.RefreshedAllOk | portal_scraper.py:174-186 | when every department's rows parse and `old_dept_info` is bound, the loop runs to the end without raising |
| Deltas.RefreshedContents | portal_scraper.py:174-191 | when the loop succeeds, snapshot entry k holds department k's freshly scraped course list, and department k's deltas are the diff of the (possibly stale) `old_dept_info` against that list |
| Deltas.RefreshedErrSticks | portal_scraper.py:174-186 | a failing department ends the update with its error |
| Deltas.MergeDeltas | portal_scraper.py:189-191 | the cross-listing loop leaves the deduplicated concatenation of all deltas so far |
| Deltas.UpdateCourseInfo | portal_scraper.py:155-200 | the department loop returns the new snapshot and the merged deltas, or the first error |
| Deltas.UpdateMergesCrossListed | portal_scraper.py:188-191 | the merged deltas have no duplicates and hold every department's deltas |
| Deltas.FirstDeptMissing | portal_scraper.py:180-186 | if the first department is not in the saved snapshot, the update fails there |
| Dispatch.NoticeText | portal_scraper.py:218-220 | the notice: new and old enrolled / max, the section name, and the request to reply `NO <keycode>` |
| Dispatch.Notice | portal_scraper.py:218 | the notice goes to the row's number with that row's keycode |
| Dispatch.Subscribers | portal_scraper.py:214-215 | the query selects no more rows than the table holds |
| Dispatch.SubscribersCount | portal_scraper.py:214-215 | the query selects each confirmed row of the course as often as it occurs, and no other row |
| Dispatch.Fanout | portal_scraper.py:212-221 | the message loops send the notices of each delta in turn |
| Dispatch.SendUpdates | portal_scraper.py:202-224 | a run sends the notices of the merged deltas; a failing update sends nothing |
| Dispatch.NoticesMembers | portal_scraper.py:216-220 | the k-th notice goes to the k-th subscriber's number and carries that row's keycode |
| Dispatch.NotificationsAppend | portal_scraper.py:213 | the notices of earlier deltas come first |
| Dispatch.OneNoticePerSubscriber | portal_scraper.py:214-220 | one delta sends exactly one notice per selected row |
| Dispatch.NoticeToSubscriber | portal_scraper.py:214-220 | a notice of a delta goes only to a confirmed row of its course |
| Dispatch.SubscriberNoticed | portal_scraper.py:214-220 | every confirmed row of a delta's course gets that delta's notice |
| Dispatch.NotificationsSound | portal_scraper.py:213-220 | every message sent is some delta's notice to a confirmed row of that delta's course, with that row's keycode |
| Dispatch.NotificationsComplete | portal_scraper.py:213-220 | every confirmed row of a changed course is sent that delta's notice |
| Dispatch.SoleSubscriber | portal_scraper.py:214-220 | a change in a course with one confirmed subscriber sends exactly one notice, to that number |
| Dispatch.CrossListedNotifiedOnce | portal_scraper.py:189-191 | a delta repeated under another department adds no notice |
| Dispatch.NoticeReplyIgnored | app.py:86-88 | replying `NO <keycode>`, as the notice asks, is not understood and changes nothing |
| Subscriptions.RestOfLine | app.py:52 | `(.*)$` captures a text without line feeds that is the whole rest or the rest minus one final line feed |
| Subscriptions.RestOfLineComplete | app.py:52 | a single line is captured whole, with or without its final line feed |
| Subscriptions.Argument | app.py:52-53 | a captured code has no line feed, and the text is the word, a space and the code, with at most a final line feed |
| Subscriptions.ParseCommand | app.py:50-86 | a text is unrecognised exactly when it starts with neither YES nor STOP; a confirm or stop carries the code captured after its word |
| Subscriptions.ParseCommandShape | app.py:50-74 | a confirm or stop is `YES `/`STOP ` and the captured code, with at most a final line feed |
| Subscriptions.ParseCommandComplete | app.py:50-74 | `YES <code>` and `STOP <code>` are recognised with their code |
| Subscriptions.NoIsUnrecognised | app.py:50-88 | any text starting with `NO ` is unrecognised |
| Subscriptions.ParseCourseField | app.py:105-106 | `re.search` of the course-id pattern on the form field: the capital letters, the digits, one whitespace character, the two-letter campus, `-`, the two-digit section, `:` and the rest of the line, or no match (its properties are ParseCourseFieldSound and ParseRenderField) |
| Subscriptions.ParseCourseFieldSound | app.py:105-106 | a match of the course-id pattern has its shape and its parts make up the whole field |
| Subscriptions.ParseRenderField | app.py:105-106 | every field of the pattern's shape is matched and its parts are recovered |
| Subscriptions.ParseFieldTailSound | app.py:105 | the tail after the digits is whitespace, two capitals, a hyphen, two digits and a colon, then the rest |
| Subscriptions.ParseFieldTailComplete | app.py:105 | every such tail is matched |
| Subscriptions.CountWhere | app.py:56-60 | the row count is at most the table size and is zero exactly when no row matches number, keycode and state |
| Subscriptions.ConfirmRows | app.py:56-57 | the table keeps its length; pending rows of the number and keycode become confirmed at `now`; every other row is unchanged; no row changes number, course or keycode |
| Subscriptions.ConfirmRowsEffect | app.py:56-57 | after the update nothing is pending for the pair, and exactly the previously pending rows have joined the confirmed ones |
| Subscriptions.ConfirmRowsNone | app.py:56-62 | with no pending row the update changes nothing |
| Subscriptions.ConfirmRowsAppend | app.py:56-57 | the update acts row by row |
| Subscriptions.DeleteRows | app.py:77-81 | the delete removes exactly as many rows as the count of confirmed rows of the pair |
| Subscriptions.DeleteRowsMembers | app.py:77-78 | a row remains exactly when it was in the table and is not a confirmed row of the pair |
| Subscriptions.DeleteRowsEffect | app.py:77-83 | after the delete no confirmed row of the pair is left, so a second STOP fails; pending rows stay |
| Subscriptions.DeleteRowsAppend | app.py:77-78 | the remaining rows keep their order |
| Subscriptions.DeleteRowsNone | app.py:77-83 | with no confirmed row the delete changes nothing |
| Subscriptions.CountWhereAppend | app.py:56-60 | the row count adds up over the table's parts |
| Subscriptions.FirstAddressed | app.py:65-67 | `fetchone` returns the first row of the number and keycode, confirmed or not |
| Subscriptions.FirstAddressedAfter | app.py:65-67 | rows without the pair before the first match are skipped |
| Subscriptions.ConfirmedRowFound | app.py:60-67 | after a successful update the table has changed and the query finds a row |
| Subscriptions.RepliesDistinct | app.py:61-69 | the error reply differs from both success replies |
| Subscriptions.ConfirmOutcome | app.py:56-69 | the table becomes that of the UPDATE; the reply goes to the sender; it is the error exactly when the UPDATE changed nothing, and otherwise names the course of a row of the number and keycode |
| Subscriptions.StopOutcome | app.py:77-85 | the table becomes that of the DELETE; the reply goes to the sender; it confirms the removal exactly when a row went, and otherwise is the error with the table unchanged |
| Subscriptions.PromptText | app.py:127-128 | the request to confirm: the course id and `YES <keycode>`, with the tab that the backslash-newline inside the literal leaves after "to" |
| Subscriptions.Handle | app.py:41-97 | the reply, when there is one, goes to the sender |
| Subscriptions.HandleUnrecognised | app.py:86-88 | any other text gets the "doesn't understand" reply and leaves the table unchanged |
| Subscriptions.HandleNothingPending | app.py:50-62 | a YES for which the number has no pending row of that keycode, confirmed ones included, gets the error reply and leaves the table unchanged |
| Subscriptions.HandleNothingConfirmed | app.py:71-83 | a STOP for which the number has no confirmed row of that keycode, pending ones included, gets the error reply and leaves the table unchanged |
| Subscriptions.AddressedByKeycode | app.py:56-57 | the keycode text `str(k)` in a message addresses exactly the rows of the number whose keycode is k |
| Subscriptions.ConfirmTwice | app.py:56-62 | a second YES for a request already confirmed gets the error reply and changes nothing |
| Subscriptions.StopPending | app.py:77-83 | a STOP before the YES gets the error reply, and the pending request stays |
| Subscriptions.ConfirmNamesFirstRow | app.py:56-69 | the reply to YES names the first row of the pair, which can be an older confirmed request rather than the one just confirmed |
| Subscriptions.ConfirmOutcomeFresh | app.py:56-69 | the UPDATE and reply of YES on a fresh pending request confirm that row and name its course |
| Subscriptions.ConfirmFresh | app.py:50-69 | YES confirms a fresh pending request and names its course |
| Subscriptions.StopFresh | app.py:71-85 | STOP removes a fresh confirmed subscription and restores the table |
| Subscriptions.Register | app.py:100-133 | a field that matches adds one pending row with number `"1" + phone`, the captured course id and the keycode, and sends the YES request to that number; a field that does not match changes nothing and sends nothing |
| Subscriptions.Lifecycle | app.py:41-133 | register, then YES, then STOP, leaves the table as it was, with the expected reply at each step; a second STOP gets the error reply |
| Subscriptions.Store.constructor | app.py:28-33 | the table starts empty |
| Subscriptions.Store.Insert | app.py:117-118 | the INSERT appends one row |
| Subscriptions.Store.ConfirmPending | app.py:56-60 | the UPDATE turns the table into `ConfirmRows` of it and returns the count of pending rows of the pair |
| Subscriptions.Store.RemoveActive | app.py:77-81 | the DELETE turns the table into `DeleteRows` of it and returns the count of confirmed rows of the pair |
| Subscriptions.Store.LookupCourse | app.py:65-67 | the query returns the course of the first row of the pair, or nothing when there is none |
| Subscriptions.Store.HandleConfirm | app.py:50-69 | the YES branch leaves the table and the reply of the UPDATE, count check and lookup |
| Subscriptions.Store.HandleStop | app.py:71-85 | the STOP branch leaves the table and the reply of the DELETE and count check |
| Subscriptions.Store.HandleMessage | app.py:41-97 | the handler's reply and new table are those of `Handle` |
| Subscriptions.Store.AddRecord | app.py:100-133 | the handler's request message and new table are those of `Register` |
| CourseList.Listing | app.py:145 | the string of one course: `course campus-section: title` |
| CourseList.Listings | app.py:144-145 | one string per course of a department |
| CourseList.ListingsMembers | app.py:145 | the k-th string is `course campus-section: title` of the k-th course |
| CourseList.AllListingsMembers | app.py:143-145 | a string is built exactly when some department lists a section with that text |
| CourseList.GetCurrentCourses | app.py:136-151 | the department loop returns the deduplicated strings of all departments, with no duplicates |
| CourseList.AddListings | app.py:144-147 | the inner loop appends each listing of one department that is not already offered |
| CourseList.OfferedCourses | app.py:142-147 | the list has no duplicates, holds exactly the strings of the snapshot, and keeps first-occurrence order |

## Left out

- **HTTP and HTML scraping** (`requests.get`, BeautifulSoup, `get_td_tags`). A row arrives as its sequence of cell strings.
- **`construct_depts` and `construct_course_info`.** They bootstrap the department list from a web API.
- **JSON file I/O.** Reading and writing `depts.json` and `depts_courses.json` are not modelled. The department list, the saved snapshot and the scraped pages are parameters, and the new snapshot is returned.
- **SQLite.**
  - The table is a sequence of rows in insertion order.
  - Column affinity is replaced by plain equality. The number is compared as text, and the keycode text is compared with the decimal text of the stored integer. So SQLite's numeric coercion of texts such as `012345` is not modelled.
  - The `mobile_number` column is `real`, and `send_updates` passes that value on as the receiver. That float rendering is not modelled; the receiver is the stored number text.
  - A failing INSERT (the 500 response of `add_record_to_database`) is not modelled.
- **`send_message`, `log_error`, `print` and `time.sleep(2)`.** These are the SMS gateway, e-mail, console and rate limit. Sent messages are returned as (receiver, text) values in sending order.
- **Time and randomness.** `time.time()` is the parameter `now`. `randint(10000, 99999)` is a `Keycode` parameter.
- **Flask.** Routing, `render_template`, `mail_on_500`, the configuration globals and the HTTP status codes are not modelled. A handler that raises is modelled as sending no reply and leaving the table unchanged.
- **The `is "PE079"` check** (portal_scraper.py:87). It compares object identity with a freshly built string, never holds, and is not modelled.
- **Python 2 `str()`** of the scraped cell text, and its Unicode errors, is not modelled.
- Dispatch.Fanout: does not model the `ValueError` of `int(number[0])` (portal_scraper.py:217). `add_record_to_database` never validates the phone field, so a stored number can be a text that is not a numeric literal, and the conversion then raises. That abort happens after the new snapshot is written (portal_scraper.py:196-198), so the remaining notices of the run are lost. The model sends a notice to every confirmed row.
- Subscriptions.Register: does not model the `UnicodeEncodeError` of `str()` on the form fields (app.py:105, 107). Non-ASCII input makes the request fail with a 500 response, with no row inserted and no prompt sent. The model reads the fields as text and inserts the row.
- **The initial `remove_spaces` on the last cell** (in `get_td_tags`). It happens before the cells reach the model.

