/**
 * The rows of the CRM's three tables, the form submissions that create and
 * change them, and how a handler turns a submitted form into a row.
 */
module Schema {
  import opened Wrappers
  import opened Text

  /** A row of `clients`. */
  datatype Client = Client(
    id: int, name: string, email: string, phone: string,
    status: string, priority: string, source: string, value: real,
    notes: string, createdAt: string, lastContact: string, nextFollowup: string)

  /** A row of `bookings`; `clientId` 0 means the booking names no client. */
  datatype Booking = Booking(
    id: int, clientId: int, date: string, time: string, service: string,
    amount: real, status: string, notes: string, createdAt: string)

  /** A row of `tasks`; `done` is 0 or 1. */
  datatype Task = Task(
    id: int, title: string, dueDate: string, priority: string, done: int, createdAt: string)

  /** The values the handlers fill in when a form leaves a field out. */
  const DefaultClientStatus := "Lead"
  const DefaultPriority := "Media"
  const DefaultSource := "Sito"
  const DefaultBookingStatus := "Confermata"
  /** The client status the dashboard counts as active. */
  const ActiveStatus := "Attivo"

  /**
   * A submitted client form. A text field is None when the form did not send it;
   * `value` is None when the field is missing or empty, and otherwise the number
   * Python's `float()` reads from it.
   */
  datatype ClientForm = ClientForm(
    name: Option<string>, email: Option<string>, phone: Option<string>,
    status: Option<string>, priority: Option<string>, source: Option<string>,
    value: Option<real>, notes: Option<string>,
    lastContact: Option<string>, nextFollowup: Option<string>)

  /** A submitted booking form; `clientId` and `amount` are None when missing or empty. */
  datatype BookingForm = BookingForm(
    clientId: Option<int>, date: Option<string>, time: Option<string>,
    service: Option<string>, amount: Option<real>, status: Option<string>, notes: Option<string>)

  /** A submitted task form. */
  datatype TaskForm = TaskForm(title: Option<string>, dueDate: Option<string>, priority: Option<string>)

  /** `request.form.get(field, default)`. */
  function Field(f: Option<string>, default: string): string {
    f.GetOr(default)
  }

  /** `request.form.get(field, "").strip()`. */
  function StrippedField(f: Option<string>): string {
    Strip(Field(f, ""))
  }

  /** `float(request.form.get(field) or 0)` and `int(... or 0)`: a missing or empty field is 0. */
  function NumberOrZero(f: Option<real>): real {
    f.GetOr(0.0)
  }

  /**
   * The row a client form describes, as both the create and the edit handler
   * build it: names, contacts, notes and dates stripped; status, priority and
   * source taken as sent or defaulted; value coerced.
   */
  function ClientFromForm(id: int, form: ClientForm, createdAt: string): Client {
    Client(
      id,
      StrippedField(form.name), StrippedField(form.email), StrippedField(form.phone),
      Field(form.status, DefaultClientStatus), Field(form.priority, DefaultPriority),
      Field(form.source, DefaultSource), NumberOrZero(form.value),
      StrippedField(form.notes), createdAt,
      StrippedField(form.lastContact), StrippedField(form.nextFollowup))
  }

  /** The row a booking form describes; date and time are stored exactly as sent. */
  function BookingFromForm(id: int, form: BookingForm, createdAt: string): Booking {
    Booking(
      id, form.clientId.GetOr(0), Field(form.date, ""), Field(form.time, ""),
      StrippedField(form.service), NumberOrZero(form.amount),
      Field(form.status, DefaultBookingStatus), StrippedField(form.notes), createdAt)
  }

  /**
   * What a client row built from a form holds: the id and creation stamp it is
   * given; the text fields stripped, so neither starting nor ending with
   * whitespace; status, priority and source as sent, or "Lead", "Media" and
   * "Sito" when the form leaves them out (stored unstripped); the value as
   * sent, or 0.
   */
  lemma ClientFromFormFields(id: int, form: ClientForm, createdAt: string)
    ensures var c := ClientFromForm(id, form, createdAt);
      && c.id == id && c.createdAt == createdAt
      && Trimmed(c.name) && Trimmed(c.email) && Trimmed(c.phone) && Trimmed(c.notes)
      && Trimmed(c.lastContact) && Trimmed(c.nextFollowup)
      && c.name == Strip(Field(form.name, "")) && c.email == Strip(Field(form.email, ""))
      && c.phone == Strip(Field(form.phone, "")) && c.notes == Strip(Field(form.notes, ""))
      && c.lastContact == Strip(Field(form.lastContact, "")) && c.nextFollowup == Strip(Field(form.nextFollowup, ""))
      && (form.status.Some? ==> c.status == form.status.value) && (form.status.None? ==> c.status == "Lead")
      && (form.priority.Some? ==> c.priority == form.priority.value) && (form.priority.None? ==> c.priority == "Media")
      && (form.source.Some? ==> c.source == form.source.value) && (form.source.None? ==> c.source == "Sito")
      && (form.value.Some? ==> c.value == form.value.value) && (form.value.None? ==> c.value == 0.0)
  {
  }

  /**
   * What a booking row built from a form holds: the id and creation stamp it is
   * given; client id and amount as sent, or 0; date and time exactly as sent,
   * or empty; service and notes stripped; status as sent, or "Confermata".
   */
  lemma BookingFromFormFields(id: int, form: BookingForm, createdAt: string)
    ensures var b := BookingFromForm(id, form, createdAt);
      && b.id == id && b.createdAt == createdAt
      && (form.clientId.Some? ==> b.clientId == form.clientId.value) && (form.clientId.None? ==> b.clientId == 0)
      && (form.amount.Some? ==> b.amount == form.amount.value) && (form.amount.None? ==> b.amount == 0.0)
      && (form.date.Some? ==> b.date == form.date.value) && (form.date.None? ==> b.date == "")
      && (form.time.Some? ==> b.time == form.time.value) && (form.time.None? ==> b.time == "")
      && Trimmed(b.service) && Trimmed(b.notes) && b.service == Strip(Field(form.service, ""))
      && b.notes == Strip(Field(form.notes, ""))
      && (form.status.Some? ==> b.status == form.status.value) && (form.status.None? ==> b.status == "Confermata")
  {
  }

  /** The new value of `done` after a toggle: `CASE WHEN done=1 THEN 0 ELSE 1 END`. */
  function Toggled(done: int): (r: int)
    ensures r == 0 || r == 1
    ensures r == 0 <==> done == 1
  {
    if done == 1 then 0 else 1
  }

  /** Toggling twice restores a 0/1 flag. */
  lemma ToggleTwice(done: int)
    requires done == 0 || done == 1
    ensures Toggled(Toggled(done)) == done
  {
  }

  /** A form that sends nothing yields a client with the handlers' defaults and value 0. */
  lemma EmptyClientFormDefaults(id: int, createdAt: string)
    ensures var c := ClientFromForm(id, ClientForm(None, None, None, None, None, None, None, None, None, None), createdAt);
      && c.status == "Lead" && c.priority == "Media" && c.source == "Sito" && c.value == 0.0
      && c.name == "" && c.email == "" && c.phone == "" && c.notes == ""
      && c.lastContact == "" && c.nextFollowup == ""
  {
  }
}
