# crm-demo data layer in Dafny

A model of the data layer of the crm-demo Flask application (`app.py`): a
single-operator CRM that keeps clients, their bookings and follow-up tasks
in three SQLite tables, shows a dashboard and a chart API, lists and searches
the tables, and draws a month calendar, all behind a session login.

The model strips away HTTP, templates and the database driver and keeps what
the handlers do to the data:

- `Schema` — the rows of `clients`, `bookings` and `tasks`, the submitted
  forms (a field the form does not send is `None`), and how a handler turns a
  form into a row: `.strip()` on the free-text fields, the Italian defaults
  "Lead", "Media", "Sito" and "Confermata", and a missing or empty number read
  as 0.
- `Tables` — class `Store`: the three tables as `map<int, Row>` fields, each
  with its AUTOINCREMENT counter, and one method per mutating handler
  (INSERT, UPDATE, DELETE). `Store.Valid()` is the invariant that every row is
  stored under its own id, no id exceeds its counter (so ids are never reused)
  and a task's `done` is 0 or 1.
- `Sql` — the parts of SQLite's query semantics the statements use: the order
  of NULL, numbers and text in ORDER BY/GROUP BY (BINARY collation), a WHERE
  filter, ORDER BY … LIMIT n, the distinct keys of GROUP BY … ORDER BY …
  LIMIT n, SUM, and a rowid-order scan of a table.
- `Listings` — the client search, the booking list with its LEFT JOIN, the
  client picker, the client detail page and the task list. The two search
  handlers build their `where` list term by term, as methods.
- `Overview` — the dashboard figures and the three series of
  `/api/charts/overview`.
- `Calendar` — the month query of `calendar_view` and the `by_day` loop.
- `Sessions` — the session's user and theme, and login, logout and the theme
  switch.
- `Text` — Python's `str.strip()`, `LIKE '%q%'` read as substring
  containment, and the decimal renderings `str(n)` and `f"{n:02d}"`.

Each query is a function or method of the tables; its contract states what the SQL
statement means (membership, order, the LIMIT, and that a row is left out only
when LIMIT-many rows that rank no later are listed), and the lemmas beside it
relate several operations (each listed row occurs no more often than the
table holds it, so a table keyed by its id column lists no row twice;
revenue after an insert or a delete, toggling twice, stripping twice, the dashboard's active count against the status
breakdown, logging in after a logout).

The client statuses and defaults are the Italian strings the handlers use
("Lead", "Media" and "Sito" at app.py:281-283, "Attivo" at app.py:191,
"Confermata" at app.py:427 and app.py:457). The monthly revenue series keeps
the chronologically first 12 months (`ORDER BY ym LIMIT 12`, app.py:223).

## Model

| member | source | states |
|---|---|---|
| Tables.Store.constructor | app.py:19-75 | empty tables with counters at 0 satisfy the store invariant |
| Tables.Store.CreateClient | app.py:277-295 | the client from the form, stamped `now`, is inserted under the next counter value, an id above every id in use; one more row; the other tables are unchanged; the invariant is kept |
| Tables.Store.EditClient | app.py:331-357 | found exactly when the id exists; a missing id changes nothing; otherwise the ten editable fields are overwritten from the form while id and created_at are kept; nothing else changes |
| Tables.Store.DeleteClient | app.py:369-373 | the client is gone, no booking names it, every other booking is kept unchanged, tasks are unchanged, and an unknown id is no error |
| Tables.Store.CreateBooking | app.py:422-435 | the booking from the form (client id and amount as sent or 0, status as sent or "Confermata" when none is sent) is inserted under a fresh id; the client is not checked |
| Tables.Store.DeleteBooking | app.py:447 | only booking `id` is removed |
| Tables.Store.SetBookingStatus | app.py:457-460 | only the status of booking `id` changes, to the sent status or "Confermata"; an unknown id leaves the table identical |
| Tables.Store.CreateTask | app.py:476-482 | a task is inserted exactly when the title is not all whitespace, with the stripped title, done 0, the priority as sent or "Media" when none is sent, and a fresh id; the row count grows by one or stays |
| Tables.Store.ToggleTask | app.py:496 | done of task `id` becomes 0 when it was 1 and 1 otherwise; other tasks, and the whole table for an unknown id, are unchanged |
| Tables.Store.DeleteTask | app.py:507 | only task `id` is removed |
| Tables.ToggleTaskTwice | app.py:496 | toggling a task twice restores the task table |
| Tables.ClientsInsert | app.py:293-295 | a client stored under counter + 1 keeps the clients invariant, is new and grows the table by one |
| Schema.Toggled | app.py:496 | `CASE WHEN done=1 THEN 0 ELSE 1 END` is 0 or 1, and 0 exactly when done was 1 |
| Schema.ToggleTwice | app.py:496 | toggling a 0/1 flag twice gives it back |
| Schema.ClientFromFormFields | app.py:277-289 | the row a client form gives (on create and, with the kept created_at, on edit at app.py:339-349) keeps id and creation stamp, stores each of the six text fields as the sent text stripped (empty when not sent), takes status, priority and source as sent or "Lead", "Media", "Sito", and the value as sent or 0 |
| Schema.BookingFromFormFields | app.py:422-428 | the row a booking form gives takes client id and amount as sent or 0, date and time exactly as sent or empty, service and notes as the sent text stripped, and takes the status as sent or "Confermata" |
| Schema.EmptyClientFormDefaults | app.py:277-289 | an empty client form yields "Lead", "Media", "Sito", value 0 and all six text fields empty, dates included |
| Sessions.Login | app.py:150-164 | accepted exactly when the stripped username has a stored hash that verifies the password; then the user is recorded and the theme kept or set to "light"; otherwise the session is unchanged |
| Sessions.Logout | app.py:168 | no user and no theme remain |
| Sessions.ThemeToggle | app.py:173-175 | without a login nothing changes; otherwise the user is kept and the theme becomes "dark" exactly when it was "light", always one of the two |
| Sessions.LoginKeepsTheme | app.py:161 | a login never changes the theme the visitor sees |
| Sessions.LogoutForgetsTheme | app.py:168-175 | after a logout the theme switch does nothing and the next login starts in "light" |
| Sessions.ThemeToggleTwice | app.py:175 | switching twice restores a stored "light" or "dark" session |
| Listings.ClientConditions | app.py:248-259 | one term per non-empty filter, and a client satisfies all the terms exactly when `q` is in its name, e-mail or phone and its status and priority are the ones asked for (empty filters ask nothing) |
| Listings.ClientList | app.py:241-267 | at most 200 clients, none more often than the table holds it, each matching the stripped filters, newest created_at first; a matching client is left out only when 200 clients at least as new are listed |
| Listings.JoinClient | app.py:391-395 | the LEFT JOIN gives a booking its client's name exactly when the client exists, NULL otherwise |
| Listings.Joined | app.py:391-395 | one joined row per stored booking, and every joined row is a stored booking with its join |
| Listings.JoinedScan | app.py:391-395 | the join keeps the scan order: row i is the i-th scanned booking with its client's name |
| Listings.BookingConditions | app.py:396-403 | one term per non-empty filter, and a joined row satisfies the terms exactly when `q` is in the (non-NULL) client name or the service and the status is the one asked for |
| Listings.BookingList | app.py:385-409 | at most 200 joined bookings, none more often than the join gives it, matching the stripped filters, latest date and time first; a matching booking is left out only when 200 at least as late are listed |
| Listings.ClientChoices | app.py:411 | min(count, 500) of the clients' (id, name) pairs, none more often than the clients give it, in name order; a client is left out only when 500 names sorting no later are listed |
| Listings.ClientDetail | app.py:308-322 | nothing for an unknown id; otherwise the client and at most 50 of its bookings with its name, each no more often than it is stored, latest first, a booking of the client left out only when 50 at least as late are listed |
| Listings.OwnBookings | app.py:310-318 | the client filter keeps exactly the stored bookings of that client, none more often than stored |
| Listings.DetailBookings | app.py:310-318 | the inner-joined bookings of one client: at most 50, each no more often than it is stored, latest first, all of that client, and complete up to the LIMIT |
| Listings.TaskList | app.py:485 | min(count, n) of the tasks, none more often than the table holds it, ordered by done then due date; a task is left out only when n tasks ranking no later are listed |
| Listings.TaskListOnce | app.py:485 | in a task table whose rows carry their own id, the task list shows no task twice |
| Listings.JoinedOnce | app.py:391-395 | in a booking table whose rows carry their own id, the LEFT JOIN gives no booking row twice |
| Listings.DetailOnce | app.py:310-318 | in a booking table whose rows carry their own id, the detail page lists no booking twice |
| Listings.OpenTasksFirst | app.py:485 | in the task list an open task never follows a done one |
| Overview.Revenue | app.py:194-195 | the sum of the clients' values, 0 for an empty table |
| Overview.RevenueAfterInsert | app.py:194-195 | inserting a client under a new id adds its value to the revenue |
| Overview.RevenueAfterDelete | app.py:194-195 | deleting a client takes its value off the revenue |
| Overview.NextBookings | app.py:197 | min(count, 6) bookings, none more often than the table holds it, earliest date and time first; a booking is left out only when 6 no later ones are listed |
| Overview.Dashboard | app.py:188-201 | the client count, the count of "Attivo" clients (never above the count), the revenue, the six earliest bookings by date and time (past ones included, as there is no date filter) and the first six tasks |
| Overview.StatusBreakdown | app.py:220-221 | one entry per status that occurs, holding the number of clients with it, never 0 |
| Overview.ActiveAgreesWithBreakdown | app.py:188-221 | the dashboard's active count is the breakdown's "Attivo" entry, and 0 exactly when the breakdown has none |
| Overview.MonthOf | app.py:223 | the month key of a creation stamp: its 7-character `YYYY-MM` prefix, which is what `strftime('%Y-%m', …)` gives for the `%Y-%m-%d %H:%M:%S` stamps the handlers write, and NULL for a text too short to hold one |
| Overview.MonthGroups | app.py:223 | at most 12 clients, one per month, months strictly ascending; a month is missing only when 12 earlier months are kept |
| Overview.MonthlyRevenue | app.py:223-224 | at most 12 points, months strictly ascending, each a month of creation with the sum of its clients' values; a month is missing only when 12 earlier months are listed |
| Overview.DayGroups | app.py:226 | at most 14 bookings, one per date, dates strictly descending; a date is missing only when 14 later dates are kept |
| Overview.DailyBookings | app.py:226-229 | at most 14 points, dates strictly ascending, each with its booking count (at least 1); a date with bookings is missing only when 14 later dates are listed |
| Calendar.AllRows | app.py:523-526 | one row per stored booking, with its client's name joined in, and nothing else |
| Calendar.AllRowsScan | app.py:523-526 | the join keeps the scan order: row i is that of the i-th scanned booking |
| Calendar.InMonthRows | app.py:523-527 | the month filter keeps exactly the joined rows dated in the requested year and month, none more often than joined |
| Calendar.MonthRows | app.py:523-530 | exactly the rows whose date has the requested year and zero-padded month, none more often than the bookings give it, in date and time order |
| Calendar.InMonthReadsDate | app.py:527-529 | a date the month filter accepts has the month's two digits after the year and, for a year that is not negative, the year's digits first |
| Calendar.MonthRowsOnce | app.py:523-530 | in a booking table whose rows carry their own id, the month's rows hold no booking twice |
| Calendar.GroupByDay | app.py:534-536 | one non-empty list per date that occurs, holding that date's rows in their order |
| Calendar.OnDaySub | app.py:534-536 | a day's list holds no row more often than the month's rows |
| Calendar.RowOnItsDay | app.py:534-536 | a row is listed under its own date as often as it occurs, and under no other date |
| Calendar.OnDaySorted | app.py:528-536 | each day's list keeps the date and time order |
| Calendar.CalendarView | app.py:518-539 | nothing (the request fails) exactly when the month is not one of 1..12; otherwise every list is non-empty, sorted, no row more often than the bookings give it, and holds only rows of that day in the month; every booking of the month is listed under its date and no other booking's date is a key |
| Text.Strip | app.py:152 | the stripped text neither starts nor ends with whitespace and is no longer than the input |
| Text.StripRemovesOnlySpace | app.py:152 | `strip()` removes only whitespace: the input is the stripped text with whitespace around it |
| Text.StripPadded | app.py:152 | whitespace around a trimmed text is exactly what `strip()` removes |
| Text.StripIdempotent | app.py:152 | stripping twice is stripping once |
| Text.StripEmptyIff | app.py:479 | the stripped title is empty exactly when the title is all whitespace |
| Text.MonthText | app.py:529 | `f"{m:02d}"` for a month is two digits that read back as the month |
| Text.NatTextRoundTrip | app.py:529 | the decimal text of a number reads back as the number |
| Sql.SortBy | app.py:264 | ORDER BY gives a permutation of the rows that is sorted by the key |
| Sql.OrderLimit | app.py:264 | ORDER BY … LIMIT n gives min(count, n) of the rows, sorted, and a row is left out only when n rows ranking no later are kept |
| Sql.Where | app.py:261-263 | a row is kept exactly when it is a row of the input that satisfies the condition |
| Sql.WhereSub | app.py:261-263 | a WHERE clause holds no row more often than its input |
| Sql.WhereCount | app.py:261-263 | a WHERE clause keeps every copy of a row it selects and none of one it rejects |
| Sql.TopGroups | app.py:223 | GROUP BY … ORDER BY … LIMIT n gives at most n rows with distinct keys in strict order, and a key is missing only when n keys ranking before it are kept |
| Sql.KeyLeTotal | app.py:264 | the ORDER BY order on keys is total |
| Sql.KeyLeAntisym | app.py:264 | the ORDER BY order on keys is antisymmetric |
| Sql.KeyLeTrans | app.py:264 | the ORDER BY order on keys is transitive |
| Sql.Rows | app.py:266-267 | a table scan lists each row of the table once |
| Sql.RowIdsDistinct | app.py:266-267 | a scan of a table whose rows carry their own key lists rows with different keys, so no row twice |
| Sql.SubDistinct | app.py:264 | rows taken from a list without repeats, each no more often than it holds them, have no repeats |
| Sql.SumAfterInsert | app.py:194 | SUM over a table grows by the value of a row inserted under a new id |
| Sql.SumAfterRemove | app.py:194 | SUM over a table shrinks by the value of the row deleted |

## Left out

- HTTP and UI: Flask routing, redirects, `flash` messages, `render_template`, the 401 JSON answer of the chart API, and static/app.js.
- The `require_login` gate of each handler (app.py:146-147) is not wired into the store methods; only the theme switch, which reads the session itself, models it.
- SQLite I/O: opening, committing and closing connections (app.py:14-17) and the DDL and `init_db` (app.py:19-75); the `Store` class stands for the database.
- `seed()` (app.py:77-141): random demo data.
- The `users` table is only read (by login), so it is a parameter of `Sessions.Login`, not a table of the store.
- Password hashing: werkzeug's `check_password_hash` is the `verify` parameter of `Sessions.Login`.
- The clock: `datetime.now()` is the `now` parameter of the create methods; the calendar's year and month default from the clock and are parameters of `Calendar.CalendarView`.
- `calendar.Calendar(...).monthdayscalendar` and `calendar.month_name` (app.py:538-539): the month grid itself is not modelled; the only part of them that matters to the data, that they reject a month outside 1..12 and so make the request fail, is `Calendar.CalendarView`'s `None`.
- Floating point: `value`, `amount` and SUM are exact `real`s; rounding is not modelled.
- Schema.NumberOrZero: `float()`/`int()` on text that is not a number raises in the source; the model only reads a missing or empty field as 0 and takes a sent number as already parsed.
- Listings.Like: SQLite's `LIKE` is case-insensitive for ASCII and treats `%` and `_` in `q` as wildcards; the model uses exact substring containment.
- Overview.MonthOf: SQLite's `strftime('%Y-%m', …)` is NULL for any text it cannot read as a date and reads an all-digit text as a Julian day number; the model takes the first 7 characters of any text at least that long, which agrees with SQLite on the timestamps the handlers write.
- Calendar.InMonth: `strftime` returns NULL for a date it cannot parse; the model compares the date's year and month text positions instead.
- Sql.SortBy: SQLite leaves the order of rows with equal keys unspecified; the model picks one order (an insertion sort over a rowid scan), and the contracts state only what holds for any order SQLite may choose.
- The SQL text and `params` lists themselves: the `where` builders are modelled by the conditions they mean.
- Concurrency: one request at a time.
