/**
 * The list pages' queries: the client list with its search filters, the
 * booking list with the client's name joined in, the client picker, a
 * client's detail page and the task list. Each query is a function or method
 * of the tables a `Tables.Store` holds; the two search handlers build their WHERE
 * clause term by term, as the handlers append to their `where` lists.
 */
module Listings {
  import opened Wrappers
  import opened Text
  import opened Sql
  import opened Schema

  /** `col LIKE '%q%'`: the column is not NULL and contains `q`. */
  predicate Like(v: Option<string>, q: string) {
    v.Some? && Contains(v.value, q)
  }

  /**
   * One term of a WHERE clause together with its parameters:
   * `(c1 LIKE ? OR c2 LIKE ? ...)` with `%needle%` for each column, or `col=?`.
   */
  datatype Cond<C> = AnyLike(cols: seq<C>, needle: string) | Equals(col: C, value: string)

  /** Whether a row satisfies a term; `field` reads a column of the row (None is NULL). */
  predicate Holds<R, C>(cond: Cond<C>, row: R, field: (R, C) -> Option<string>) {
    match cond
    case AnyLike(cols, q) => exists i | 0 <= i < |cols| :: Like(field(row, cols[i]), q)
    case Equals(col, v) => field(row, col) == Some(v)
  }

  /** The terms joined with AND; no terms at all is no WHERE clause. */
  predicate AllHold<R, C>(conds: seq<Cond<C>>, row: R, field: (R, C) -> Option<string>) {
    forall i | 0 <= i < |conds| :: Holds(conds[i], row, field)
  }

  lemma AllHoldSnoc<R, C>(conds: seq<Cond<C>>, c: Cond<C>, row: R, field: (R, C) -> Option<string>)
    ensures AllHold(conds + [c], row, field) <==> AllHold(conds, row, field) && Holds(c, row, field)
  {
    var s := conds + [c];
    assert s[|conds|] == c;
    assert forall i | 0 <= i < |conds| :: s[i] == conds[i];
  }

  // ---------------- clients ----------------

  /** The client columns the client search tests. */
  datatype ClientColumn = Name | Email | Phone | Status | Priority

  function ClientField(c: Client, col: ClientColumn): Option<string> {
    match col
    case Name => Some(c.name)
    case Email => Some(c.email)
    case Phone => Some(c.phone)
    case Status => Some(c.status)
    case Priority => Some(c.priority)
  }

  /**
   * What the client search means: `q` occurs in the name, the e-mail or the
   * phone, and the status and the priority are the ones asked for; an empty
   * filter asks for nothing.
   */
  predicate ClientMatches(c: Client, q: string, status: string, priority: string) {
    && (q == "" || Contains(c.name, q) || Contains(c.email, q) || Contains(c.phone, q))
    && (status == "" || c.status == status)
    && (priority == "" || c.priority == priority)
  }

  /** The `where` list of the client search: one term per non-empty (stripped) filter. */
  method ClientConditions(q: string, status: string, priority: string) returns (conds: seq<Cond<ClientColumn>>)
    ensures |conds| == (if q == "" then 0 else 1) + (if status == "" then 0 else 1) + (if priority == "" then 0 else 1)
    ensures forall c :: AllHold(conds, c, ClientField) <==> ClientMatches(c, q, status, priority)
  {
    conds := [];
    if q != "" {
      var term := AnyLike([Name, Email, Phone], q);
      forall c ensures AllHold(conds + [term], c, ClientField) <==> Holds(term, c, ClientField) {
        AllHoldSnoc(conds, term, c, ClientField);
      }
      forall c ensures Holds(term, c, ClientField) <==> Contains(c.name, q) || Contains(c.email, q) || Contains(c.phone, q) {
        var cols := term.cols;
        assert cols[0] == Name && cols[1] == Email && cols[2] == Phone;
      }
      conds := conds + [term];
    }
    ghost var before := conds;
    assert forall c :: AllHold(before, c, ClientField) <==> (q == "" || Contains(c.name, q) || Contains(c.email, q) || Contains(c.phone, q));
    if status != "" {
      var term := Equals(Status, status);
      forall c ensures AllHold(conds + [term], c, ClientField) <==> AllHold(conds, c, ClientField) && c.status == status {
        AllHoldSnoc(conds, term, c, ClientField);
      }
      conds := conds + [term];
    }
    ghost var middle := conds;
    assert forall c :: AllHold(middle, c, ClientField) <==> AllHold(before, c, ClientField) && (status == "" || c.status == status);
    if priority != "" {
      var term := Equals(Priority, priority);
      forall c ensures AllHold(conds + [term], c, ClientField) <==> AllHold(conds, c, ClientField) && c.priority == priority {
        AllHoldSnoc(conds, term, c, ClientField);
      }
      conds := conds + [term];
    }
  }

  /** `ORDER BY created_at`. */
  function CreatedKey(c: Client): Key {
    TextKey(c.createdAt)
  }

  /**
   * `clients`: the stripped filters become the WHERE clause; the answer is at
   * most 200 matching clients, newest first, and a matching client is missing
   * only when 200 clients at least as new are listed.
   */
  method ClientList(clients: map<int, Client>, q: Option<string>, status: Option<string>, priority: Option<string>)
    returns (rows: seq<Client>)
    ensures |rows| <= 200 && multiset(rows) <= multiset(Rows(clients))
    ensures forall c :: c in rows ==>
              c in clients.Values && ClientMatches(c, StrippedField(q), StrippedField(status), StrippedField(priority))
    ensures SortedBy(rows, CreatedKey, true)
    ensures forall c :: c in clients.Values && ClientMatches(c, StrippedField(q), StrippedField(status), StrippedField(priority)) && c !in rows ==>
              |rows| == 200 && forall d :: d in rows ==> Before(CreatedKey(d), CreatedKey(c), true)
  {
    var qs, st, pr := StrippedField(q), StrippedField(status), StrippedField(priority);
    var conds := ClientConditions(qs, st, pr);
    var scan := Rows(clients);
    var selected := Where(scan, c => AllHold(conds, c, ClientField));
    rows := OrderLimit(selected, CreatedKey, true, 200);
    WhereSub(scan, c => AllHold(conds, c, ClientField));
    assert forall c :: c in selected <==> c in clients.Values && ClientMatches(c, qs, st, pr);
    Selected(selected, rows, CreatedKey, 200);
  }

  // ---------------- bookings ----------------

  /** A booking with the name of its client, NULL (None) when no client has its `client_id`. */
  datatype BookingRow = BookingRow(booking: Booking, clientName: Option<string>)

  /** `bookings b LEFT JOIN clients c ON c.id=b.client_id`, for one booking. */
  function JoinClient(clients: map<int, Client>, b: Booking): (v: BookingRow)
    ensures v.booking == b
    ensures v.clientName.Some? <==> b.clientId in clients
    ensures b.clientId in clients ==> v.clientName.value == clients[b.clientId].name
  {
    BookingRow(b, if b.clientId in clients then Some(clients[b.clientId].name) else None)
  }

  /** The columns the booking search tests. */
  datatype BookingColumn = ClientName | Service | BookingStatus

  function BookingField(v: BookingRow, col: BookingColumn): Option<string> {
    match col
    case ClientName => v.clientName
    case Service => Some(v.booking.service)
    case BookingStatus => Some(v.booking.status)
  }

  /**
   * What the booking search means: `q` occurs in the client's name (never
   * when there is no client) or in the service, and the status is the one
   * asked for; an empty filter asks for nothing.
   */
  predicate BookingMatches(v: BookingRow, q: string, status: string) {
    && (q == "" || Like(v.clientName, q) || Contains(v.booking.service, q))
    && (status == "" || v.booking.status == status)
  }

  /** The `where` list of the booking search. */
  method BookingConditions(q: string, status: string) returns (conds: seq<Cond<BookingColumn>>)
    ensures |conds| == (if q == "" then 0 else 1) + (if status == "" then 0 else 1)
    ensures forall v :: AllHold(conds, v, BookingField) <==> BookingMatches(v, q, status)
  {
    conds := [];
    if q != "" {
      var term := AnyLike([ClientName, Service], q);
      forall v ensures AllHold(conds + [term], v, BookingField) <==> Holds(term, v, BookingField) {
        AllHoldSnoc(conds, term, v, BookingField);
      }
      forall v ensures Holds(term, v, BookingField) <==> Like(v.clientName, q) || Contains(v.booking.service, q) {
        var cols := term.cols;
        assert cols[0] == ClientName && cols[1] == Service;
      }
      conds := conds + [term];
    }
    ghost var before := conds;
    assert forall v :: AllHold(before, v, BookingField) <==> (q == "" || Like(v.clientName, q) || Contains(v.booking.service, q));
    if status != "" {
      var term := Equals(BookingStatus, status);
      forall v ensures AllHold(conds + [term], v, BookingField) <==> AllHold(conds, v, BookingField) && v.booking.status == status {
        AllHoldSnoc(conds, term, v, BookingField);
      }
      conds := conds + [term];
    }
  }

  /** `ORDER BY date, time` on a booking. */
  function WhenKey(b: Booking): Key {
    [Text(b.date), Text(b.time)]
  }

  /** `ORDER BY b.date, b.time` on a joined row. */
  function RowWhen(v: BookingRow): Key {
    WhenKey(v.booking)
  }

  /** Every booking of the table, each with its client's name joined in. */
  function Joined(clients: map<int, Client>, bookings: map<int, Booking>): (r: seq<BookingRow>)
    ensures |r| == |bookings|
    ensures forall v :: v in r <==> v.booking in bookings.Values && v == JoinClient(clients, v.booking)
  {
    var scan := Rows(bookings);
    var r := Project(scan, b => JoinClient(clients, b));
    assert forall v :: v in r ==> v.booking in bookings.Values && v == JoinClient(clients, v.booking) by {
      forall v | v in r ensures v.booking in bookings.Values && v == JoinClient(clients, v.booking) {
        var i :| 0 <= i < |r| && r[i] == v;
        assert scan[i] in scan;
      }
    }
    r
  }

  /** The join keeps the table's scan: row `i` is booking `i` of the scan with its client's name. */
  lemma JoinedScan(clients: map<int, Client>, bookings: map<int, Booking>)
    ensures forall i :: 0 <= i < |Joined(clients, bookings)| ==>
              Joined(clients, bookings)[i] == JoinClient(clients, Rows(bookings)[i])
  {
  }

  /**
   * `bookings`: at most 200 joined bookings that match the stripped filters,
   * latest date and time first; a matching booking is missing only when 200
   * bookings at least as late are listed.
   */
  method BookingList(clients: map<int, Client>, bookings: map<int, Booking>, q: Option<string>, status: Option<string>)
    returns (rows: seq<BookingRow>)
    ensures |rows| <= 200 && multiset(rows) <= multiset(Joined(clients, bookings))
    ensures forall v :: v in rows ==>
              v.booking in bookings.Values && v == JoinClient(clients, v.booking) &&
              BookingMatches(v, StrippedField(q), StrippedField(status))
    ensures SortedBy(rows, RowWhen, true)
    ensures forall b :: b in bookings.Values && BookingMatches(JoinClient(clients, b), StrippedField(q), StrippedField(status)) &&
                        JoinClient(clients, b) !in rows ==>
              |rows| == 200 && forall v :: v in rows ==> Before(RowWhen(v), WhenKey(b), true)
  {
    var qs, st := StrippedField(q), StrippedField(status);
    var conds := BookingConditions(qs, st);
    var joined := Joined(clients, bookings);
    var selected := Where(joined, v => AllHold(conds, v, BookingField));
    rows := OrderLimit(selected, RowWhen, true, 200);
    WhereSub(joined, v => AllHold(conds, v, BookingField));
    assert forall v :: v in selected <==>
             v.booking in bookings.Values && v == JoinClient(clients, v.booking) && BookingMatches(v, qs, st);
    Selected(selected, rows, RowWhen, 200);
    forall b | b in bookings.Values && BookingMatches(JoinClient(clients, b), qs, st) && JoinClient(clients, b) !in rows
      ensures |rows| == 200 && forall v :: v in rows ==> Before(RowWhen(v), WhenKey(b), true)
    {
      var v := JoinClient(clients, b);
      assert v in selected;
      assert RowWhen(v) == WhenKey(b);
    }
  }

  /** A client as the booking form's picker lists it. */
  datatype Choice = Choice(id: int, name: string)

  function ChoiceOf(c: Client): Choice {
    Choice(c.id, c.name)
  }

  /** `ORDER BY name`. */
  function ChoiceKey(x: Choice): Key {
    TextKey(x.name)
  }

  /**
   * `SELECT id, name FROM clients ORDER BY name LIMIT 500`: up to 500 clients'
   * ids and names, alphabetically; a client is missing only when 500 names
   * that sort no later are listed.
   */
  function ClientChoices(clients: map<int, Client>): (r: seq<Choice>)
    ensures |r| == if |clients| < 500 then |clients| else 500
    ensures multiset(r) <= multiset(Project(Rows(clients), ChoiceOf))
    ensures forall x :: x in r ==> x in Project(Rows(clients), ChoiceOf)
    ensures SortedBy(r, ChoiceKey, false)
    ensures forall c :: c in clients.Values && ChoiceOf(c) !in r ==>
              |r| == 500 && forall x :: x in r ==> TextLe(x.name, c.name)
  {
    var all := Project(Rows(clients), ChoiceOf);
    var r := OrderLimit(all, ChoiceKey, false, 500);
    ChoicesFacts(clients, all, r);
    r
  }

  lemma ChoicesFacts(clients: map<int, Client>, all: seq<Choice>, r: seq<Choice>)
    requires forall c :: c in clients.Values ==> ChoiceOf(c) in all
    requires multiset(r) <= multiset(all)
    requires forall x :: x in all && x !in r ==>
               |r| == 500 && forall y :: y in r ==> Before(ChoiceKey(y), ChoiceKey(x), false)
    ensures forall x :: x in r ==> x in all
    ensures forall c :: c in clients.Values && ChoiceOf(c) !in r ==>
              |r| == 500 && forall x :: x in r ==> TextLe(x.name, c.name)
  {
    assert forall x :: x in r ==> x in multiset(all);
    forall c | c in clients.Values && ChoiceOf(c) !in r
      ensures |r| == 500 && forall x :: x in r ==> TextLe(x.name, c.name)
    {
      forall x | x in r ensures TextLe(x.name, c.name) {
        TextKeyOrder(x.name, c.name);
      }
    }
  }

  // ---------------- client detail ----------------

  /** What the detail page shows: the client and that client's latest bookings. */
  datatype ClientPage = ClientPage(client: Client, bookings: seq<BookingRow>)

  /**
   * `client_detail`: nothing for an unknown id (the handler redirects);
   * otherwise the client and up to 50 of its bookings joined with its name,
   * latest first, a booking of the client missing only when 50 at least as
   * late are listed.
   */
  function ClientDetail(clients: map<int, Client>, bookings: map<int, Booking>, id: int): (r: Option<ClientPage>)
    ensures r.None? <==> id !in clients
    ensures r.Some? ==> r.value.client == clients[id] && |r.value.bookings| <= 50
    ensures r.Some? ==> forall v :: multiset(r.value.bookings)[v] <= multiset(Rows(bookings))[v.booking]
    ensures r.Some? ==> SortedBy(r.value.bookings, RowWhen, true)
    ensures r.Some? ==> forall v :: v in r.value.bookings ==>
              v.booking in bookings.Values && v.booking.clientId == id && v.clientName == Some(clients[id].name)
    ensures r.Some? ==> forall b :: b in bookings.Values && b.clientId == id &&
                                    BookingRow(b, Some(clients[id].name)) !in r.value.bookings ==>
              |r.value.bookings| == 50 && forall v :: v in r.value.bookings ==> Before(RowWhen(v), WhenKey(b), true)
  {
    if id !in clients then None
    else Some(ClientPage(clients[id], DetailBookings(bookings, id, clients[id].name)))
  }

  /** The booking query of the detail page for client `id`, whose name is `name`. */
  function DetailBookings(bookings: map<int, Booking>, id: int, name: string): (page: seq<BookingRow>)
    ensures |page| <= 50 && SortedBy(page, RowWhen, true)
    ensures forall v :: multiset(page)[v] <= multiset(Rows(bookings))[v.booking]
    ensures forall v :: v in page ==>
              v.booking in bookings.Values && v.booking.clientId == id && v.clientName == Some(name)
    ensures forall b :: b in bookings.Values && b.clientId == id && BookingRow(b, Some(name)) !in page ==>
              |page| == 50 && forall v :: v in page ==> Before(RowWhen(v), WhenKey(b), true)
  {
    var own := OwnBookings(bookings, id);
    var joined := OwnJoined(bookings, id, name);
    var page := OrderLimit(joined, RowWhen, true, 50);
    DetailFacts(bookings, id, name, own, joined, page);
    page
  }

  /** `WHERE client_id = ?` on the bookings table, in scan order. */
  function OwnBookings(bookings: map<int, Booking>, id: int): (own: seq<Booking>)
    ensures forall b :: b in own <==> b in Rows(bookings) && b.clientId == id
    ensures multiset(own) <= multiset(Rows(bookings))
  {
    WhereSub(Rows(bookings), (b: Booking) => b.clientId == id);
    Where(Rows(bookings), (b: Booking) => b.clientId == id)
  }

  /** The client's bookings, each with the client's name attached. */
  function OwnJoined(bookings: map<int, Booking>, id: int, name: string): (joined: seq<BookingRow>)
    ensures |joined| == |OwnBookings(bookings, id)|
    ensures forall i :: 0 <= i < |joined| ==> joined[i] == BookingRow(OwnBookings(bookings, id)[i], Some(name))
  {
    Project(OwnBookings(bookings, id), b => BookingRow(b, Some(name)))
  }

  lemma DetailFacts(bookings: map<int, Booking>, id: int, name: string,
                    own: seq<Booking>, joined: seq<BookingRow>, page: seq<BookingRow>)
    requires forall b :: b in own <==> b in Rows(bookings) && b.clientId == id
    requires multiset(own) <= multiset(Rows(bookings))
    requires |joined| == |own| && forall i :: 0 <= i < |own| ==> joined[i] == BookingRow(own[i], Some(name))
    requires |page| == (if |joined| < 50 then |joined| else 50)
    requires multiset(page) <= multiset(joined) && SortedBy(page, RowWhen, true)
    requires forall v :: v in joined && v !in page ==>
               |page| == 50 && forall w :: w in page ==> Before(RowWhen(w), RowWhen(v), true)
    ensures |page| <= 50 && SortedBy(page, RowWhen, true)
    ensures forall v :: multiset(page)[v] <= multiset(Rows(bookings))[v.booking]
    ensures forall v :: v in page ==>
              v.booking in bookings.Values && v.booking.clientId == id && v.clientName == Some(name)
    ensures forall b :: b in bookings.Values && b.clientId == id && BookingRow(b, Some(name)) !in page ==>
              |page| == 50 && forall v :: v in page ==> Before(RowWhen(v), WhenKey(b), true)
  {
    assert forall b :: b in own <==> b in bookings.Values && b.clientId == id;
    DetailRows(bookings, id, name, own, joined, page);
    DetailCount(bookings, own, joined, page);
  }

  lemma DetailCount(bookings: map<int, Booking>, own: seq<Booking>, joined: seq<BookingRow>, page: seq<BookingRow>)
    requires multiset(own) <= multiset(Rows(bookings))
    requires |joined| == |own| && forall i :: 0 <= i < |own| ==> joined[i].booking == own[i]
    requires multiset(page) <= multiset(joined)
    ensures forall v :: multiset(page)[v] <= multiset(Rows(bookings))[v.booking]
  {
    forall v ensures multiset(page)[v] <= multiset(Rows(bookings))[v.booking] {
      CountBack(own, joined, (w: BookingRow) => w.booking, v);
    }
  }

  lemma DetailRows(bookings: map<int, Booking>, id: int, name: string,
                   own: seq<Booking>, joined: seq<BookingRow>, page: seq<BookingRow>)
    requires forall b :: b in own <==> b in bookings.Values && b.clientId == id
    requires |joined| == |own| && forall i :: 0 <= i < |own| ==> joined[i] == BookingRow(own[i], Some(name))
    requires multiset(page) <= multiset(joined)
    requires forall v :: v in joined && v !in page ==>
               |page| == 50 && forall w :: w in page ==> Before(RowWhen(w), RowWhen(v), true)
    ensures forall v :: v in page ==>
              v.booking in bookings.Values && v.booking.clientId == id && v.clientName == Some(name)
    ensures forall b :: b in bookings.Values && b.clientId == id && BookingRow(b, Some(name)) !in page ==>
              |page| == 50 && forall v :: v in page ==> Before(RowWhen(v), WhenKey(b), true)
  {
    forall v | v in page
      ensures v.booking in bookings.Values && v.booking.clientId == id && v.clientName == Some(name)
    {
      assert v in multiset(joined);
      var i :| 0 <= i < |joined| && joined[i] == v;
      assert own[i] in own;
    }
    forall b | b in bookings.Values && b.clientId == id && BookingRow(b, Some(name)) !in page
      ensures |page| == 50 && forall v :: v in page ==> Before(RowWhen(v), WhenKey(b), true)
    {
      var i :| 0 <= i < |own| && own[i] == b;
      assert joined[i] == BookingRow(b, Some(name));
      assert RowWhen(BookingRow(b, Some(name))) == WhenKey(b);
    }
  }

  // ---------------- tasks ----------------

  /** `ORDER BY done ASC, due_date ASC`: open tasks first, then by due date. */
  function TaskKey(t: Task): Key {
    [Int(t.done), Text(t.dueDate)]
  }

  /**
   * `SELECT * FROM tasks ORDER BY done ASC, due_date ASC LIMIT n` (200 on the
   * task page, 6 on the dashboard): the first `n` tasks in that order.
   */
  function TaskList(tasks: map<int, Task>, n: nat): (r: seq<Task>)
    ensures |r| == if |tasks| < n then |tasks| else n
    ensures multiset(r) <= multiset(Rows(tasks))
    ensures forall t :: t in r ==> t in tasks.Values
    ensures SortedBy(r, TaskKey, false)
    ensures forall t :: t in tasks.Values && t !in r ==>
              |r| == n && forall u :: u in r ==> Before(TaskKey(u), TaskKey(t), false)
  {
    var scan := Rows(tasks);
    var r := OrderLimit(scan, TaskKey, false, n);
    assert forall t :: t in r ==> t in multiset(scan);
    r
  }

  /** On a listed pair of tasks, an open task never comes after a done one. */
  lemma {:induction false} OpenTasksFirst(tasks: map<int, Task>, n: nat, i: int, j: int)
    requires 0 <= i < j < |TaskList(tasks, n)|
    ensures TaskList(tasks, n)[i].done <= TaskList(tasks, n)[j].done
  {
    var r := TaskList(tasks, n);
    var a, b := TaskKey(r[i]), TaskKey(r[j]);
    assert KeyLe(a, b);
    if a[0] != b[0] {
      assert ValLe(a[0], b[0]);
    }
  }

  // ---------------- each row once ----------------

  /** In a task table keyed by id, the task list shows no task twice. */
  lemma TaskListOnce(tasks: map<int, Task>, n: nat)
    requires forall k :: k in tasks ==> tasks[k].id == k
    ensures NoRepeats(TaskList(tasks, n))
  {
    RowIdsDistinct(tasks, (t: Task) => t.id);
    SubDistinct(TaskList(tasks, n), Rows(tasks));
  }

  /** In a booking table keyed by id, the joined bookings hold no booking twice. */
  lemma JoinedOnce(clients: map<int, Client>, bookings: map<int, Booking>)
    requires forall k :: k in bookings ==> bookings[k].id == k
    ensures NoRepeats(Joined(clients, bookings))
  {
    var r, scan := Joined(clients, bookings), Rows(bookings);
    JoinedScan(clients, bookings);
    RowIdsDistinct(bookings, (b: Booking) => b.id);
    forall i, j | 0 <= i < j < |r| ensures r[i] != r[j] {
      assert r[i].booking == scan[i] && r[j].booking == scan[j];
    }
  }

  /** In a booking table keyed by id, a client's detail page lists no booking twice. */
  lemma DetailOnce(clients: map<int, Client>, bookings: map<int, Booking>, id: int)
    requires forall k :: k in bookings ==> bookings[k].id == k
    requires id in clients
    ensures NoRepeats(ClientDetail(clients, bookings, id).value.bookings)
  {
    var page := ClientDetail(clients, bookings, id).value.bookings;
    RowIdsDistinct(bookings, (b: Booking) => b.id);
    forall i, j | 0 <= i < j < |page| ensures page[i] != page[j] {
      NoRepeatsCount(Rows(bookings), page[i].booking);
      if page[i] == page[j] {
        TwoPositions(page, i, j);
      }
    }
  }
}
