/**
 * The CRM's store: the `clients`, `bookings` and `tasks` tables, each a map
 * from id to row with its own AUTOINCREMENT counter, and the changes the
 * request handlers make to them with INSERT, UPDATE and DELETE.
 */
module Tables {
  import opened Wrappers
  import opened Text
  import opened Schema

  class Store {
    var clients: map<int, Client>
    var bookings: map<int, Booking>
    var tasks: map<int, Task>
    /** The largest id each table has ever handed out (SQLite's `sqlite_sequence`). */
    var clientSeq: nat
    var bookingSeq: nat
    var taskSeq: nat

    /**
     * Every row is stored under its own id, no id exceeds its table's counter
     * (so a new id is never one in use or used before), and `done` is 0 or 1.
     */
    ghost predicate Valid()
      reads this
    {
      ClientsValid(clients, clientSeq) && BookingsValid(bookings, bookingSeq) && TasksValid(tasks, taskSeq)
    }

    /** Freshly created, empty tables. */
    constructor ()
      ensures Valid()
      ensures clients == map[] && bookings == map[] && tasks == map[]
      ensures clientSeq == 0 && bookingSeq == 0 && taskSeq == 0
    {
      clients, bookings, tasks := map[], map[], map[];
      clientSeq, bookingSeq, taskSeq := 0, 0, 0;
    }

    /** `clients_new`: inserts the submitted client, stamped `now`, under a fresh id. */
    method CreateClient(form: ClientForm, now: string) returns (id: int)
      requires Valid()
      modifies this
      ensures Valid()
      ensures id == old(clientSeq) + 1 && clientSeq == id
      ensures id !in old(clients) && forall k :: k in old(clients) ==> k < id
      ensures clients == old(clients)[id := ClientFromForm(id, form, now)]
      ensures |clients| == |old(clients)| + 1
      ensures bookings == old(bookings) && tasks == old(tasks)
      ensures bookingSeq == old(bookingSeq) && taskSeq == old(taskSeq)
    {
      id := clientSeq + 1;
      var row := ClientFromForm(id, form, now);
      ClientsInsert(clients, clientSeq, row);
      clients := clients[id := row];
      clientSeq := id;
    }

    /**
     * `clients_edit` on a POST: when client `id` exists, overwrites its ten
     * editable fields from the form and keeps its id and `createdAt`; when it
     * does not, changes nothing and reports it not found.
     */
    method EditClient(id: int, form: ClientForm) returns (found: bool)
      requires Valid()
      modifies this
      ensures Valid()
      ensures found <==> id in old(clients)
      ensures !found ==> clients == old(clients)
      ensures found ==> clients == old(clients)[id := ClientFromForm(id, form, old(clients)[id].createdAt)]
      ensures found ==> clients[id].id == id && clients[id].createdAt == old(clients)[id].createdAt
      ensures clients.Keys == old(clients).Keys
      ensures bookings == old(bookings) && tasks == old(tasks)
      ensures clientSeq == old(clientSeq) && bookingSeq == old(bookingSeq) && taskSeq == old(taskSeq)
    {
      found := id in clients;
      if found {
        var row := ClientFromForm(id, form, clients[id].createdAt);
        clients := clients[id := row];
      }
    }

    /**
     * `clients_delete`: deletes the client's bookings, then the client. No
     * booking names `id` afterwards, every other row is kept as it was, and an
     * unknown id is not an error.
     */
    method DeleteClient(id: int)
      requires Valid()
      modifies this
      ensures Valid()
      ensures id !in clients && clients == old(clients) - {id}
      ensures forall k :: k in bookings ==> bookings[k].clientId != id
      ensures forall k :: k in bookings <==> k in old(bookings) && old(bookings)[k].clientId != id
      ensures forall k :: k in bookings ==> bookings[k] == old(bookings)[k]
      ensures tasks == old(tasks)
      ensures clientSeq == old(clientSeq) && bookingSeq == old(bookingSeq) && taskSeq == old(taskSeq)
    {
      bookings := map k | k in bookings && bookings[k].clientId != id :: bookings[k];
      clients := clients - {id};
    }

    /** `bookings_new`: inserts the submitted booking, stamped `now`, under a fresh id; the client is not checked. */
    method CreateBooking(form: BookingForm, now: string) returns (id: int)
      requires Valid()
      modifies this
      ensures Valid()
      ensures id == old(bookingSeq) + 1 && bookingSeq == id
      ensures id !in old(bookings) && forall k :: k in old(bookings) ==> k < id
      ensures bookings == old(bookings)[id := BookingFromForm(id, form, now)]
      ensures clients == old(clients) && tasks == old(tasks)
      ensures clientSeq == old(clientSeq) && taskSeq == old(taskSeq)
    {
      id := bookingSeq + 1;
      var row := BookingFromForm(id, form, now);
      assert row.id == id;
      bookings := bookings[id := row];
      bookingSeq := id;
    }

    /** `bookings_delete`: deletes booking `id`, if there is one. */
    method DeleteBooking(id: int)
      requires Valid()
      modifies this
      ensures Valid()
      ensures bookings == old(bookings) - {id}
      ensures clients == old(clients) && tasks == old(tasks)
      ensures clientSeq == old(clientSeq) && bookingSeq == old(bookingSeq) && taskSeq == old(taskSeq)
    {
      bookings := bookings - {id};
    }

    /**
     * `bookings_status`: sets the status of booking `id` to the submitted one,
     * "Confermata" when none is sent; every other field and row stays, and an
     * unknown id leaves the table as it was.
     */
    method SetBookingStatus(id: int, status: Option<string>)
      requires Valid()
      modifies this
      ensures Valid()
      ensures id !in old(bookings) ==> bookings == old(bookings)
      ensures id in old(bookings) ==>
                bookings == old(bookings)[id := old(bookings)[id].(status := Field(status, DefaultBookingStatus))]
      ensures clients == old(clients) && tasks == old(tasks)
      ensures clientSeq == old(clientSeq) && bookingSeq == old(bookingSeq) && taskSeq == old(taskSeq)
    {
      if id in bookings {
        bookings := bookings[id := bookings[id].(status := Field(status, DefaultBookingStatus))];
      }
    }

    /**
     * `tasks` on a POST: inserts a task with the stripped title, `done` 0 and
     * priority "Media" when none is sent; a blank title inserts nothing.
     */
    method CreateTask(form: TaskForm, now: string) returns (id: Option<int>)
      requires Valid()
      modifies this
      ensures Valid()
      ensures id.Some? <==> !AllSpace(Field(form.title, ""))
      ensures id.None? ==> tasks == old(tasks) && taskSeq == old(taskSeq)
      ensures id.Some? ==> id.value == old(taskSeq) + 1 && taskSeq == id.value && id.value !in old(tasks)
      ensures id.Some? ==> tasks == old(tasks)[id.value := Task(id.value, StrippedField(form.title),
                StrippedField(form.dueDate), Field(form.priority, DefaultPriority), 0, now)]
      ensures |tasks| == |old(tasks)| + (if id.Some? then 1 else 0)
      ensures clients == old(clients) && bookings == old(bookings)
      ensures clientSeq == old(clientSeq) && bookingSeq == old(bookingSeq)
    {
      var title := StrippedField(form.title);
      StripEmptyIff(Field(form.title, ""));
      if title != "" {
        var k := taskSeq + 1;
        var row := Task(k, title, StrippedField(form.dueDate), Field(form.priority, DefaultPriority), 0, now);
        InsertSize(tasks, k, row);
        tasks := tasks[k := row];
        taskSeq := k;
        id := Some(k);
      } else {
        id := None;
      }
    }

    /** `task_toggle`: flips `done` of task `id` between 0 and 1; nothing else, and nothing for an unknown id. */
    method ToggleTask(id: int)
      requires Valid()
      modifies this
      ensures Valid()
      ensures id !in old(tasks) ==> tasks == old(tasks)
      ensures id in old(tasks) ==> tasks == old(tasks)[id := old(tasks)[id].(done := Toggled(old(tasks)[id].done))]
      ensures id in old(tasks) ==> tasks[id].done == 1 - old(tasks)[id].done
      ensures clients == old(clients) && bookings == old(bookings)
      ensures clientSeq == old(clientSeq) && bookingSeq == old(bookingSeq) && taskSeq == old(taskSeq)
    {
      if id in tasks {
        tasks := tasks[id := tasks[id].(done := Toggled(tasks[id].done))];
      }
    }

    /** `task_delete`: deletes task `id`, if there is one. */
    method DeleteTask(id: int)
      requires Valid()
      modifies this
      ensures Valid()
      ensures tasks == old(tasks) - {id}
      ensures clients == old(clients) && bookings == old(bookings)
      ensures clientSeq == old(clientSeq) && bookingSeq == old(bookingSeq) && taskSeq == old(taskSeq)
    {
      tasks := tasks - {id};
    }
  }

  /** Every client is stored under its own id, none above the counter. */
  ghost predicate ClientsValid(m: map<int, Client>, n: nat) {
    forall k :: k in m ==> 1 <= k <= n && m[k].id == k
  }

  /** Every booking is stored under its own id, none above the counter. */
  ghost predicate BookingsValid(m: map<int, Booking>, n: nat) {
    forall k :: k in m ==> 1 <= k <= n && m[k].id == k
  }

  /** Every task is stored under its own id, none above the counter, and `done` is 0 or 1. */
  ghost predicate TasksValid(m: map<int, Task>, n: nat) {
    forall k :: k in m ==> 1 <= k <= n && m[k].id == k && (m[k].done == 0 || m[k].done == 1)
  }

  /** A client stored under the next id keeps the table valid and is new to it. */
  lemma ClientsInsert(m: map<int, Client>, n: nat, c: Client)
    requires ClientsValid(m, n) && c.id == n + 1
    ensures ClientsValid(m[n + 1 := c], n + 1)
    ensures n + 1 !in m && forall k :: k in m ==> k < n + 1
    ensures |m[n + 1 := c]| == |m| + 1
  {
    InsertSize(m, n + 1, c);
  }

  /** Inserting a new key grows a table by one row. */
  lemma InsertSize<R>(m: map<int, R>, k: int, v: R)
    requires k !in m
    ensures |m[k := v]| == |m| + 1
  {
    assert m[k := v].Keys == m.Keys + {k};
  }

  /** Toggling a task twice gives back the table it started from. */
  method ToggleTaskTwice(store: Store, id: int)
    requires store.Valid()
    modifies store
    ensures store.Valid() && store.tasks == old(store.tasks)
  {
    store.ToggleTask(id);
    store.ToggleTask(id);
  }
}
