/**
 * The calendar page's data: the bookings of one month, with their clients'
 * names, in date and time order, grouped into one list per day.
 */
module Calendar {
  import opened Wrappers
  import opened Text
  import opened Sql
  import opened Schema
  import Listings

  /**
   * `strftime('%Y', date)=str(year) AND strftime('%m', date)=f"{month:02d}"`,
   * read on the text of the date: its four-character year and its two-character
   * month compared with the requested ones.
   */
  predicate InMonth(date: string, year: int, month: int) {
    |date| >= 7 && date[..4] == IntText(year) && date[5..7] == ZeroPad2(month)
  }

  /** A row of the calendar query: `b.id, b.date, b.time, b.service, b.status, c.name`. */
  datatype CalendarRow = CalendarRow(
    id: int, date: string, time: string, service: string, status: string, clientName: Option<string>)

  /** The calendar row of a booking, its client's name joined in (NULL when there is no such client). */
  function RowOf(clients: map<int, Client>, b: Booking): CalendarRow {
    CalendarRow(b.id, b.date, b.time, b.service, b.status, Listings.JoinClient(clients, b).clientName)
  }

  /** `ORDER BY b.date, b.time`. */
  function RowKey(x: CalendarRow): Key {
    [Text(x.date), Text(x.time)]
  }

  /** The calendar rows keep the table's scan: row `i` is that of booking `i` of the scan. */
  lemma AllRowsScan(clients: map<int, Client>, bookings: map<int, Booking>)
    ensures |AllRows(clients, bookings)| == |bookings|
    ensures forall i :: 0 <= i < |AllRows(clients, bookings)| ==>
              AllRows(clients, bookings)[i] == RowOf(clients, Rows(bookings)[i])
  {
  }

  /** Every booking's calendar row, in scan order. */
  function AllRows(clients: map<int, Client>, bookings: map<int, Booking>): (r: seq<CalendarRow>)
    ensures forall b :: b in bookings.Values ==> RowOf(clients, b) in r
    ensures forall x :: x in r ==> exists b :: b in bookings.Values && x == RowOf(clients, b)
  {
    var scan := Rows(bookings);
    var r := Project(scan, b => RowOf(clients, b));
    forall x | x in r ensures exists b :: b in bookings.Values && x == RowOf(clients, b) {
      var i :| 0 <= i < |r| && r[i] == x;
      assert scan[i] in scan;
    }
    r
  }

  /**
   * The calendar query: exactly the joined rows of the bookings dated in
   * `year`-`month`, in date and time order.
   */
  function MonthRows(clients: map<int, Client>, bookings: map<int, Booking>, year: int, month: int): (r: seq<CalendarRow>)
    ensures forall x :: x in r <==> x in AllRows(clients, bookings) && InMonth(x.date, year, month)
    ensures forall b :: b in bookings.Values ==> (RowOf(clients, b) in r <==> InMonth(b.date, year, month))
    ensures SortedBy(r, RowKey, false)
    ensures multiset(r) <= multiset(AllRows(clients, bookings))
  {
    var selected := InMonthRows(clients, bookings, year, month);
    var r := SortBy(selected, RowKey, false);
    MonthFacts(clients, bookings, year, month, AllRows(clients, bookings), selected, r);
    r
  }

  /** The calendar's `WHERE` on the year and month of `b.date`, over the joined rows in scan order. */
  function InMonthRows(clients: map<int, Client>, bookings: map<int, Booking>, year: int, month: int): (selected: seq<CalendarRow>)
    ensures forall x :: x in selected <==> x in AllRows(clients, bookings) && InMonth(x.date, year, month)
    ensures multiset(selected) <= multiset(AllRows(clients, bookings))
  {
    WhereSub(AllRows(clients, bookings), (x: CalendarRow) => InMonth(x.date, year, month));
    Where(AllRows(clients, bookings), (x: CalendarRow) => InMonth(x.date, year, month))
  }

  lemma MonthFacts(clients: map<int, Client>, bookings: map<int, Booking>, year: int, month: int,
                   all: seq<CalendarRow>, selected: seq<CalendarRow>, r: seq<CalendarRow>)
    requires forall b :: b in bookings.Values ==> RowOf(clients, b) in all
    requires forall x :: x in selected <==> x in all && InMonth(x.date, year, month)
    requires multiset(selected) <= multiset(all)
    requires multiset(r) == multiset(selected)
    ensures forall x :: x in r <==> x in all && InMonth(x.date, year, month)
    ensures forall b :: b in bookings.Values ==> (RowOf(clients, b) in r <==> InMonth(b.date, year, month))
    ensures multiset(r) <= multiset(all)
  {
    forall x ensures x in r <==> x in all && InMonth(x.date, year, month) {
      assert x in r <==> x in multiset(selected);
    }
    MonthBookings(clients, bookings, year, month, all, r);
  }

  lemma MonthBookings(clients: map<int, Client>, bookings: map<int, Booking>, year: int, month: int,
                      all: seq<CalendarRow>, r: seq<CalendarRow>)
    requires forall b :: b in bookings.Values ==> RowOf(clients, b) in all
    requires forall x :: x in r <==> x in all && InMonth(x.date, year, month)
    ensures forall b :: b in bookings.Values ==> (RowOf(clients, b) in r <==> InMonth(b.date, year, month))
  {
  }

  /** The rows of `rows` dated `d`, in their order in `rows`. */
  function OnDay(rows: seq<CalendarRow>, d: string): seq<CalendarRow> {
    Where(rows, (x: CalendarRow) => x.date == d)
  }

  /** The dates the rows fall on. */
  function Dates(rows: seq<CalendarRow>): set<string> {
    set i | 0 <= i < |rows| :: rows[i].date
  }

  lemma OnDaySnoc(rows: seq<CalendarRow>, x: CalendarRow, d: string)
    ensures OnDay(rows + [x], d) == OnDay(rows, d) + (if x.date == d then [x] else [])
  {
    WhereAppend(rows, [x], (y: CalendarRow) => y.date == d);
    assert [x][1..] == [];
  }

  /** A day's list holds no row more often than the rows do. */
  lemma OnDaySub(rows: seq<CalendarRow>, d: string)
    ensures multiset(OnDay(rows, d)) <= multiset(rows)
  {
    WhereSub(rows, (x: CalendarRow) => x.date == d);
  }

  lemma OnDayEmpty(rows: seq<CalendarRow>, d: string)
    requires d !in Dates(rows)
    ensures OnDay(rows, d) == []
  {
    forall y | y in rows ensures y.date != d {
      var i :| 0 <= i < |rows| && rows[i] == y;
      assert rows[i].date in Dates(rows);
    }
    WhereNone(rows, (x: CalendarRow) => x.date == d);
  }

  /** One more row adds its date to the dates seen so far. */
  lemma DatesSnoc(rows: seq<CalendarRow>, i: int)
    requires 0 <= i < |rows|
    ensures Dates(rows[..i + 1]) == Dates(rows[..i]) + {rows[i].date}
  {
    var a, b := rows[..i], rows[..i + 1];
    forall e | e in Dates(b) ensures e in Dates(a) + {rows[i].date} {
      var j :| 0 <= j < i + 1 && b[j].date == e;
      if j < i {
        assert a[j].date == e;
      }
    }
    forall e | e in Dates(a) ensures e in Dates(b) {
      var j :| 0 <= j < i && a[j].date == e;
      assert b[j].date == e;
    }
    assert b[i].date == rows[i].date;
  }

  /**
   * `by_day.setdefault(b["date"], []).append(b)` over the rows: one list per
   * date that occurs, holding that date's rows in their order.
   */
  method GroupByDay(rows: seq<CalendarRow>) returns (byDay: map<string, seq<CalendarRow>>)
    ensures byDay.Keys == Dates(rows)
    ensures forall d :: d in byDay ==> byDay[d] == OnDay(rows, d)
    ensures forall d :: d in byDay ==> byDay[d] != []
  {
    byDay := map[];
    var i := 0;
    while i < |rows|
      invariant 0 <= i <= |rows|
      invariant byDay.Keys == Dates(rows[..i])
      invariant forall d :: d in byDay ==> byDay[d] == OnDay(rows[..i], d)
    {
      var x := rows[i];
      assert rows[..i + 1] == rows[..i] + [x];
      if x.date in byDay {
        byDay := byDay[x.date := byDay[x.date] + [x]];
      } else {
        OnDayEmpty(rows[..i], x.date);
        byDay := byDay[x.date := [x]];
      }
      forall d | d in byDay ensures byDay[d] == OnDay(rows[..i + 1], d) {
        OnDaySnoc(rows[..i], x, d);
      }
      DatesSnoc(rows, i);
      i := i + 1;
    }
    assert rows[..i] == rows;
    forall d | d in byDay ensures byDay[d] != [] {
      var j :| 0 <= j < |rows| && rows[j].date == d;
      assert rows[j] in rows;
    }
  }

  /** A row is listed under its own date, as often as it occurs, and under no other date. */
  lemma {:induction false} RowOnItsDay(rows: seq<CalendarRow>, x: CalendarRow)
    requires x in rows
    ensures multiset(OnDay(rows, x.date))[x] == multiset(rows)[x]
    ensures forall d :: d != x.date ==> x !in OnDay(rows, d)
  {
    WhereCount(rows, (y: CalendarRow) => y.date == x.date, x);
  }

  /** Each day's list keeps the rows' date and time order. */
  lemma {:induction false} OnDaySorted(rows: seq<CalendarRow>, d: string)
    requires SortedBy(rows, RowKey, false)
    ensures SortedBy(OnDay(rows, d), RowKey, false)
  {
    WhereSorted(rows, (x: CalendarRow) => x.date == d, RowKey, false);
  }

  /**
   * `calendar_view`: the month's bookings grouped by day, or nothing when
   * `month` is not one of the twelve months (the calendar library the handler
   * calls rejects it, so the request fails). Each list is non-empty, holds only
   * rows of the month dated that day, in date and time order, no row more
   * often than the bookings give it, and every booking of the month is listed
   * under its own date.
   */
  method CalendarView(clients: map<int, Client>, bookings: map<int, Booking>, year: int, month: int)
    returns (page: Option<map<string, seq<CalendarRow>>>)
    ensures page.None? <==> !(1 <= month <= 12)
    ensures page.Some? ==> forall d :: d in page.value ==>
              page.value[d] != [] && SortedBy(page.value[d], RowKey, false) &&
              multiset(page.value[d]) <= multiset(AllRows(clients, bookings))
    ensures page.Some? ==> forall d, x :: d in page.value && x in page.value[d] ==>
              x.date == d && InMonth(d, year, month) && x in AllRows(clients, bookings)
    ensures page.Some? ==> forall b :: b in bookings.Values && InMonth(b.date, year, month) ==>
              b.date in page.value && RowOf(clients, b) in page.value[b.date]
    ensures page.Some? ==> forall b :: b in bookings.Values && !InMonth(b.date, year, month) ==> b.date !in page.value
  {
    if !(1 <= month <= 12) {
      return None;
    }
    var rows := MonthRows(clients, bookings, year, month);
    var byDay := GroupByDay(rows);
    forall d | d in byDay
      ensures SortedBy(byDay[d], RowKey, false) && multiset(byDay[d]) <= multiset(AllRows(clients, bookings))
    {
      OnDaySorted(rows, d);
      OnDaySub(rows, d);
    }
    ListedRows(clients, bookings, year, month, rows, byDay);
    MonthListed(clients, bookings, year, month, rows, byDay);
    page := Some(byDay);
  }

  lemma ListedRows(clients: map<int, Client>, bookings: map<int, Booking>, year: int, month: int,
                   rows: seq<CalendarRow>, byDay: map<string, seq<CalendarRow>>)
    requires forall x :: x in rows ==> x in AllRows(clients, bookings) && InMonth(x.date, year, month)
    requires forall d :: d in byDay ==> byDay[d] == OnDay(rows, d)
    ensures forall d, x :: d in byDay && x in byDay[d] ==>
              x.date == d && InMonth(d, year, month) && x in AllRows(clients, bookings)
  {
  }

  lemma MonthListed(clients: map<int, Client>, bookings: map<int, Booking>, year: int, month: int,
                    rows: seq<CalendarRow>, byDay: map<string, seq<CalendarRow>>)
    requires forall b :: b in bookings.Values ==> (RowOf(clients, b) in rows <==> InMonth(b.date, year, month))
    requires forall x :: x in rows ==> InMonth(x.date, year, month)
    requires byDay.Keys == Dates(rows)
    requires forall d :: d in byDay ==> byDay[d] == OnDay(rows, d)
    ensures forall b :: b in bookings.Values && InMonth(b.date, year, month) ==>
              b.date in byDay && RowOf(clients, b) in byDay[b.date]
    ensures forall b :: b in bookings.Values && !InMonth(b.date, year, month) ==> b.date !in byDay
  {
    forall b | b in bookings.Values && InMonth(b.date, year, month)
      ensures b.date in byDay && RowOf(clients, b) in byDay[b.date]
    {
      var x := RowOf(clients, b);
      var j :| 0 <= j < |rows| && rows[j] == x;
      assert rows[j].date in Dates(rows);
    }
    forall e | e in Dates(rows) ensures InMonth(e, year, month) {
      var j :| 0 <= j < |rows| && rows[j].date == e;
      assert rows[j] in rows;
    }
  }

  /** In a booking table keyed by id, the month's rows hold no booking twice. */
  lemma MonthRowsOnce(clients: map<int, Client>, bookings: map<int, Booking>, year: int, month: int)
    requires forall k :: k in bookings ==> bookings[k].id == k
    ensures NoRepeats(MonthRows(clients, bookings, year, month))
  {
    var all, scan := AllRows(clients, bookings), Rows(bookings);
    AllRowsScan(clients, bookings);
    RowIdsDistinct(bookings, (b: Booking) => b.id);
    forall i, j | 0 <= i < j < |all| ensures all[i] != all[j] {
      assert all[i].id == scan[i].id && all[j].id == scan[j].id;
    }
    SubDistinct(MonthRows(clients, bookings, year, month), all);
  }

  /**
   * The rows `InMonth` accepts name the requested month: for one of the twelve
   * months, the two characters after the year are its two digits; for a year
   * that is not negative, the first four characters are its digits.
   */
  lemma InMonthReadsDate(date: string, year: int, month: int)
    requires InMonth(date, year, month)
    ensures 1 <= month <= 12 ==> IsDigits(date[5..7]) && DigitsValue(date[5..7]) == month
    ensures year >= 0 ==> IsDigits(date[..4]) && DigitsValue(date[..4]) == year
  {
    if 1 <= month <= 12 {
      MonthText(month);
    }
    if year >= 0 {
      NatTextRoundTrip(year);
    }
  }
}
