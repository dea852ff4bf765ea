/**
 * The dashboard's figures and the three series of the overview chart API:
 * clients per status, revenue per month of creation, and bookings per day.
 */
module Overview {
  import opened Sql
  import opened Schema
  import Listings

  // ---------------- dashboard ----------------

  /** The ids of the clients whose status is `s`. */
  function WithStatus(clients: map<int, Client>, s: string): set<int> {
    set k | k in clients && clients[k].status == s
  }

  /** `COUNT(*) ... WHERE status=s`: the clients whose status is `s`. */
  function StatusCount(clients: map<int, Client>, s: string): nat {
    |WithStatus(clients, s)|
  }

  function ClientValue(c: Client): real {
    c.value
  }

  /** `float(SUM(value) or 0)`: the clients' values added up, 0 for an empty table. */
  function Revenue(clients: map<int, Client>): (r: real)
    ensures clients == map[] ==> r == 0.0
  {
    Sum(Rows(clients), ClientValue)
  }

  /** Inserting a client under a new id adds its value to the revenue. */
  lemma RevenueAfterInsert(clients: map<int, Client>, id: int, c: Client)
    requires id !in clients
    ensures Revenue(clients[id := c]) == Revenue(clients) + c.value
  {
    SumAfterInsert(clients, id, c, ClientValue);
  }

  /** Deleting client `id` takes its value off the revenue. */
  lemma RevenueAfterDelete(clients: map<int, Client>, id: int)
    requires id in clients
    ensures Revenue(clients - {id}) == Revenue(clients) - clients[id].value
  {
    SumAfterRemove(clients, id, ClientValue);
  }

  /**
   * `SELECT * FROM bookings ORDER BY date, time LIMIT 6`: the six earliest
   * bookings by date and time.
   */
  function NextBookings(bookings: map<int, Booking>): (r: seq<Booking>)
    ensures |r| == if |bookings| < 6 then |bookings| else 6
    ensures multiset(r) <= multiset(Rows(bookings))
    ensures forall b :: b in r ==> b in bookings.Values
    ensures SortedBy(r, Listings.WhenKey, false)
    ensures forall b :: b in bookings.Values && b !in r ==>
              |r| == 6 && forall e :: e in r ==> Before(Listings.WhenKey(e), Listings.WhenKey(b), false)
  {
    var scan := Rows(bookings);
    var r := OrderLimit(scan, Listings.WhenKey, false, 6);
    assert forall b :: b in r ==> b in multiset(scan);
    r
  }

  /** What the dashboard shows. */
  datatype Summary = Summary(total: nat, active: nat, revenue: real, nextBookings: seq<Booking>, nextTasks: seq<Task>)

  /**
   * `dashboard`: the number of clients, the number of them that are "Attivo",
   * the revenue, the six earliest bookings (by date and time, past ones
   * included) and the first six tasks of the task list.
   */
  function Dashboard(clients: map<int, Client>, bookings: map<int, Booking>, tasks: map<int, Task>): (d: Summary)
    ensures d.total == |clients|
    ensures d.active == StatusCount(clients, ActiveStatus) && d.active <= d.total
    ensures d.revenue == Revenue(clients)
    ensures d.nextBookings == NextBookings(bookings)
    ensures d.nextTasks == Listings.TaskList(tasks, 6)
  {
    CardinalityOfSubset(WithStatus(clients, ActiveStatus), clients.Keys);
    Summary(|clients|, StatusCount(clients, ActiveStatus), Revenue(clients), NextBookings(bookings), Listings.TaskList(tasks, 6))
  }

  lemma {:induction false} CardinalityOfSubset(a: set<int>, b: set<int>)
    requires a <= b
    ensures |a| <= |b|
    decreases |b|
  {
    if a != {} {
      var x := MemberOf(a);
      CardinalityOfSubset(a - {x}, b - {x});
    }
  }

  // ---------------- chart API: clients per status ----------------

  /** The statuses some client has. */
  function Statuses(clients: map<int, Client>): set<string> {
    set k | k in clients :: clients[k].status
  }

  /**
   * `by_status`: one entry per status that occurs, holding how many clients
   * have it (so never 0).
   */
  function StatusBreakdown(clients: map<int, Client>): (r: map<string, nat>)
    ensures r.Keys == Statuses(clients)
    ensures forall s :: s in r ==> r[s] == StatusCount(clients, s) && r[s] >= 1
  {
    var r := map s | s in Statuses(clients) :: StatusCount(clients, s);
    forall s | s in r ensures r[s] >= 1 {
      var k :| k in clients && clients[k].status == s;
      assert k in WithStatus(clients, s);
    }
    r
  }

  /** The dashboard's active count is the breakdown's "Attivo" entry, or 0 when it has none. */
  lemma ActiveAgreesWithBreakdown(clients: map<int, Client>, bookings: map<int, Booking>, tasks: map<int, Task>)
    ensures var d, r := Dashboard(clients, bookings, tasks), StatusBreakdown(clients);
      (ActiveStatus in r ==> d.active == r[ActiveStatus]) && (ActiveStatus !in r <==> d.active == 0)
  {
    var r := StatusBreakdown(clients);
    var ids := WithStatus(clients, ActiveStatus);
    forall k | k in ids ensures ActiveStatus in Statuses(clients) {
      assert clients[k].status == ActiveStatus;
    }
    if ActiveStatus !in r {
      assert ids == {};
    }
  }

  // ---------------- chart API: revenue per month ----------------

  /** `strftime('%Y-%m', created_at)`: the `YYYY-MM` prefix, NULL when there is none. */
  function MonthOf(createdAt: string): (v: Val)
    ensures v.Null? <==> |createdAt| < 7
    ensures v.Text? ==> |v.s| == 7 && v.s == createdAt[..7]
  {
    if |createdAt| >= 7 then Text(createdAt[..7]) else Null
  }

  function MonthKey(c: Client): Key {
    [MonthOf(c.createdAt)]
  }

  /** `SUM(value)` over the clients created in month `ym`. */
  function MonthTotal(clients: map<int, Client>, ym: Val): real {
    Sum(Where(Rows(clients), (c: Client) => MonthOf(c.createdAt) == ym), ClientValue)
  }

  /** A point of `rev_month`: the month (NULL or `YYYY-MM`) and its revenue. */
  datatype MonthRevenue = MonthRevenue(month: Val, revenue: real)

  /** The point for the month group `g` represents. */
  function MonthEntry(clients: map<int, Client>, g: Client): MonthRevenue {
    MonthRevenue(MonthOf(g.createdAt), MonthTotal(clients, MonthOf(g.createdAt)))
  }

  function EntryMonth(e: MonthRevenue): Val {
    e.month
  }

  /** The months in which some client was created. */
  function Months(clients: map<int, Client>): set<Val> {
    set k | k in clients :: MonthOf(clients[k].createdAt)
  }

  /**
   * `rev_month`: the months of creation in ascending order, each once, with
   * the sum of the values of its clients; it stops after 12 months, so a
   * month is missing only when 12 earlier months are listed.
   */
  function MonthlyRevenue(clients: map<int, Client>): (r: seq<MonthRevenue>)
    ensures |r| <= 12
    ensures forall i, j :: 0 <= i < j < |r| ==> ValLe(r[i].month, r[j].month) && r[i].month != r[j].month
    ensures forall i :: 0 <= i < |r| ==> r[i].month in Months(clients) && r[i].revenue == MonthTotal(clients, r[i].month)
    ensures forall c :: c in clients.Values ==>
              MonthOf(c.createdAt) in Project(r, EntryMonth) ||
              (|r| == 12 && forall i :: 0 <= i < |r| ==> ValLe(r[i].month, MonthOf(c.createdAt)) && r[i].month != MonthOf(c.createdAt))
  {
    var groups := MonthGroups(clients);
    var r := Project(groups, g => MonthEntry(clients, g));
    MonthlyFacts(clients, groups, r);
    r
  }

  lemma MonthlyFacts(clients: map<int, Client>, groups: seq<Client>, r: seq<MonthRevenue>)
    requires groups == MonthGroups(clients)
    requires r == Project(groups, g => MonthEntry(clients, g))
    ensures |r| <= 12
    ensures forall i, j :: 0 <= i < j < |r| ==> ValLe(r[i].month, r[j].month) && r[i].month != r[j].month
    ensures forall i :: 0 <= i < |r| ==> r[i].month in Months(clients) && r[i].revenue == MonthTotal(clients, r[i].month)
    ensures forall c :: c in clients.Values ==>
              MonthOf(c.createdAt) in Project(r, EntryMonth) ||
              (|r| == 12 && forall i :: 0 <= i < |r| ==> ValLe(r[i].month, MonthOf(c.createdAt)) && r[i].month != MonthOf(c.createdAt))
  {
    MonthsOrdered(clients, groups, r);
    MonthsOccur(clients, groups, r);
    MonthsComplete(clients, groups, r);
  }

  /** `GROUP BY ym ORDER BY ym LIMIT 12` over the clients: one client per month kept. */
  function MonthGroups(clients: map<int, Client>): (groups: seq<Client>)
    ensures |groups| <= 12
    ensures forall x :: x in groups ==> x in clients.Values
    ensures forall i, j :: 0 <= i < j < |groups| ==>
              Before(MonthKey(groups[i]), MonthKey(groups[j]), false) && MonthKey(groups[i]) != MonthKey(groups[j])
    ensures forall c :: c in clients.Values ==>
              MonthKey(c) in Project(groups, MonthKey) ||
              (|groups| == 12 && forall y :: y in groups ==> Before(MonthKey(y), MonthKey(c), false) && MonthKey(y) != MonthKey(c))
  {
    TopGroups(Rows(clients), MonthKey, false, 12)
  }

  /** On one-column keys, the ORDER BY order of two different values is `ValLe`. */
  lemma SingleKeyOrder(a: Val, b: Val)
    requires KeyLe([a], [b]) && a != b
    ensures ValLe(a, b)
  {
    assert [a][0] == a && [b][0] == b;
  }

  lemma MonthsOrdered(clients: map<int, Client>, groups: seq<Client>, r: seq<MonthRevenue>)
    requires forall i, j :: 0 <= i < j < |groups| ==>
               Before(MonthKey(groups[i]), MonthKey(groups[j]), false) && MonthKey(groups[i]) != MonthKey(groups[j])
    requires r == Project(groups, g => MonthEntry(clients, g))
    ensures forall i, j :: 0 <= i < j < |r| ==> ValLe(r[i].month, r[j].month) && r[i].month != r[j].month
  {
    forall i, j | 0 <= i < j < |r| ensures ValLe(r[i].month, r[j].month) && r[i].month != r[j].month {
      assert Before(MonthKey(groups[i]), MonthKey(groups[j]), false);
      SingleKeyOrder(r[i].month, r[j].month);
    }
  }

  lemma MonthsOccur(clients: map<int, Client>, groups: seq<Client>, r: seq<MonthRevenue>)
    requires forall x :: x in groups ==> x in clients.Values
    requires r == Project(groups, g => MonthEntry(clients, g))
    ensures forall i :: 0 <= i < |r| ==> r[i].month in Months(clients)
  {
    forall i | 0 <= i < |r| ensures r[i].month in Months(clients) {
      assert groups[i] in groups;
      var k := KeyOf(clients, groups[i]);
    }
  }

  lemma MonthsComplete(clients: map<int, Client>, groups: seq<Client>, r: seq<MonthRevenue>)
    requires forall c :: c in clients.Values ==>
               MonthKey(c) in Project(groups, MonthKey) ||
               (|groups| == 12 && forall y :: y in groups ==> Before(MonthKey(y), MonthKey(c), false) && MonthKey(y) != MonthKey(c))
    requires r == Project(groups, g => MonthEntry(clients, g))
    ensures forall c :: c in clients.Values ==>
              MonthOf(c.createdAt) in Project(r, EntryMonth) ||
              (|r| == 12 && forall i :: 0 <= i < |r| ==> ValLe(r[i].month, MonthOf(c.createdAt)) && r[i].month != MonthOf(c.createdAt))
  {
    var months := Project(r, EntryMonth);
    forall c | c in clients.Values
      ensures MonthOf(c.createdAt) in months ||
              (|r| == 12 && forall i :: 0 <= i < |r| ==> ValLe(r[i].month, MonthOf(c.createdAt)) && r[i].month != MonthOf(c.createdAt))
    {
      var keys := Project(groups, MonthKey);
      if MonthKey(c) in keys {
        var i :| 0 <= i < |keys| && keys[i] == MonthKey(c);
        assert months[i] == MonthOf(c.createdAt);
      } else {
        forall i | 0 <= i < |r| ensures ValLe(r[i].month, MonthOf(c.createdAt)) && r[i].month != MonthOf(c.createdAt) {
          var y := groups[i];
          assert y in groups;
          SingleKeyOrder(MonthOf(y.createdAt), MonthOf(c.createdAt));
        }
      }
    }
  }

  // ---------------- chart API: bookings per day ----------------

  /** The ids of the bookings on day `d`. */
  function OnDate(bookings: map<int, Booking>, d: string): set<int> {
    set k | k in bookings && bookings[k].date == d
  }

  /** `COUNT(*) ... GROUP BY date`: the bookings on day `d`. */
  function DayCount(bookings: map<int, Booking>, d: string): nat {
    |OnDate(bookings, d)|
  }

  /** A point of `bookings_daily`: a day and its number of bookings. */
  datatype DayBookings = DayBookings(date: string, count: nat)

  /** The point for the day booking `g` falls on. */
  function DayEntry(bookings: map<int, Booking>, g: Booking): DayBookings {
    DayBookings(g.date, DayCount(bookings, g.date))
  }

  function EntryDate(e: DayBookings): string {
    e.date
  }

  function DateKey(b: Booking): Key {
    TextKey(b.date)
  }

  /**
   * `bookings_daily`: the (at most) 14 most recent days that have bookings,
   * oldest first, each once and with its number of bookings; a day is
   * missing only when 14 later days are listed.
   */
  function DailyBookings(bookings: map<int, Booking>): (r: seq<DayBookings>)
    ensures |r| <= 14
    ensures forall i, j :: 0 <= i < j < |r| ==> TextLe(r[i].date, r[j].date) && r[i].date != r[j].date
    ensures forall i :: 0 <= i < |r| ==> r[i].count == DayCount(bookings, r[i].date) && r[i].count >= 1
    ensures forall b :: b in bookings.Values ==>
              b.date in Project(r, EntryDate) ||
              (|r| == 14 && forall i :: 0 <= i < |r| ==> TextLe(b.date, r[i].date) && r[i].date != b.date)
  {
    var latest := DayGroups(bookings);
    var days := Reverse(latest);
    var r := Project(days, g => DayEntry(bookings, g));
    ReversedEntries(bookings, latest, days, r);
    DailyFacts(bookings, latest, r);
    r
  }

  lemma ReversedEntries(bookings: map<int, Booking>, latest: seq<Booking>, days: seq<Booking>, r: seq<DayBookings>)
    requires days == Reverse(latest)
    requires r == Project(days, g => DayEntry(bookings, g))
    ensures |r| == |latest| && forall i :: 0 <= i < |r| ==> r[i] == DayEntry(bookings, latest[|latest| - 1 - i])
  {
    forall i | 0 <= i < |r| ensures r[i] == DayEntry(bookings, latest[|latest| - 1 - i]) {
      assert r[i] == DayEntry(bookings, days[i]);
    }
  }

  /** `GROUP BY date ORDER BY date DESC LIMIT 14` over the bookings: one booking per day kept. */
  function DayGroups(bookings: map<int, Booking>): (latest: seq<Booking>)
    ensures |latest| <= 14
    ensures forall x :: x in latest ==> x in bookings.Values
    ensures forall i, j :: 0 <= i < j < |latest| ==>
              Before(DateKey(latest[i]), DateKey(latest[j]), true) && DateKey(latest[i]) != DateKey(latest[j])
    ensures forall b :: b in bookings.Values ==>
              DateKey(b) in Project(latest, DateKey) ||
              (|latest| == 14 && forall y :: y in latest ==> Before(DateKey(y), DateKey(b), true) && DateKey(y) != DateKey(b))
  {
    TopGroups(Rows(bookings), DateKey, true, 14)
  }

  lemma DailyFacts(bookings: map<int, Booking>, latest: seq<Booking>, r: seq<DayBookings>)
    requires latest == DayGroups(bookings)
    requires |r| == |latest| && forall i :: 0 <= i < |r| ==> r[i] == DayEntry(bookings, latest[|latest| - 1 - i])
    ensures |r| <= 14
    ensures forall i, j :: 0 <= i < j < |r| ==> TextLe(r[i].date, r[j].date) && r[i].date != r[j].date
    ensures forall i :: 0 <= i < |r| ==> r[i].count == DayCount(bookings, r[i].date) && r[i].count >= 1
    ensures forall b :: b in bookings.Values ==>
              b.date in Project(r, EntryDate) ||
              (|r| == 14 && forall i :: 0 <= i < |r| ==> TextLe(b.date, r[i].date) && r[i].date != b.date)
  {
    DaysOrdered(bookings, latest, r);
    DaysCounted(bookings, latest, r);
    DaysComplete(bookings, latest, r);
  }

  lemma DaysOrdered(bookings: map<int, Booking>, latest: seq<Booking>, r: seq<DayBookings>)
    requires forall i, j :: 0 <= i < j < |latest| ==>
               Before(DateKey(latest[i]), DateKey(latest[j]), true) && DateKey(latest[i]) != DateKey(latest[j])
    requires |r| == |latest| && forall i :: 0 <= i < |r| ==> r[i] == DayEntry(bookings, latest[|latest| - 1 - i])
    ensures forall i, j :: 0 <= i < j < |r| ==> TextLe(r[i].date, r[j].date) && r[i].date != r[j].date
  {
    var n := |latest|;
    forall i, j | 0 <= i < j < |r| ensures TextLe(r[i].date, r[j].date) && r[i].date != r[j].date {
      assert Before(DateKey(latest[n - 1 - j]), DateKey(latest[n - 1 - i]), true);
      TextKeyOrder(r[i].date, r[j].date);
    }
  }

  lemma DaysCounted(bookings: map<int, Booking>, latest: seq<Booking>, r: seq<DayBookings>)
    requires forall x :: x in latest ==> x in bookings.Values
    requires |r| == |latest| && forall i :: 0 <= i < |r| ==> r[i] == DayEntry(bookings, latest[|latest| - 1 - i])
    ensures forall i :: 0 <= i < |r| ==> r[i].count >= 1
  {
    var n := |latest|;
    forall i | 0 <= i < |r| ensures r[i].count >= 1 {
      var g := latest[n - 1 - i];
      assert g in latest;
      var k := KeyOf(bookings, g);
      assert k in OnDate(bookings, g.date);
    }
  }

  lemma DaysComplete(bookings: map<int, Booking>, latest: seq<Booking>, r: seq<DayBookings>)
    requires forall b :: b in bookings.Values ==>
               DateKey(b) in Project(latest, DateKey) ||
               (|latest| == 14 && forall y :: y in latest ==> Before(DateKey(y), DateKey(b), true) && DateKey(y) != DateKey(b))
    requires |r| == |latest| && forall i :: 0 <= i < |r| ==> r[i] == DayEntry(bookings, latest[|latest| - 1 - i])
    ensures forall b :: b in bookings.Values ==>
              b.date in Project(r, EntryDate) ||
              (|r| == 14 && forall i :: 0 <= i < |r| ==> TextLe(b.date, r[i].date) && r[i].date != b.date)
  {
    forall b | b in bookings.Values
      ensures b.date in Project(r, EntryDate) ||
              (|r| == 14 && forall i :: 0 <= i < |r| ==> TextLe(b.date, r[i].date) && r[i].date != b.date)
    {
      if DateKey(b) in Project(latest, DateKey) {
        DayListed(bookings, latest, r, b);
      } else {
        DayOlder(bookings, latest, r, b);
      }
    }
  }

  lemma DayListed(bookings: map<int, Booking>, latest: seq<Booking>, r: seq<DayBookings>, b: Booking)
    requires DateKey(b) in Project(latest, DateKey)
    requires |r| == |latest| && forall i :: 0 <= i < |r| ==> r[i] == DayEntry(bookings, latest[|latest| - 1 - i])
    ensures b.date in Project(r, EntryDate)
  {
    var n := |latest|;
    var keys := Project(latest, DateKey);
    var i :| 0 <= i < n && keys[i] == DateKey(b);
    assert Project(r, EntryDate)[n - 1 - i] == b.date;
  }

  lemma DayOlder(bookings: map<int, Booking>, latest: seq<Booking>, r: seq<DayBookings>, b: Booking)
    requires |latest| == 14 && forall y :: y in latest ==> Before(DateKey(y), DateKey(b), true) && DateKey(y) != DateKey(b)
    requires |r| == |latest| && forall i :: 0 <= i < |r| ==> r[i] == DayEntry(bookings, latest[|latest| - 1 - i])
    ensures |r| == 14 && forall i :: 0 <= i < |r| ==> TextLe(b.date, r[i].date) && r[i].date != b.date
  {
    var n := |latest|;
    forall i | 0 <= i < |r| ensures TextLe(b.date, r[i].date) && r[i].date != b.date {
      assert latest[n - 1 - i] in latest;
      TextKeyOrder(b.date, r[i].date);
    }
  }
}
