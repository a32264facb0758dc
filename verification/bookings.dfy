/**
  The booking workflow and the two ticket commands, over the bot's two pieces
  of state: the `bookings` table, whose primary key is `ticket_id`, and the
  process-wide `temp_data` dictionary of per-user drafts.

  Every handler is a pure function from the state before to the state after
  together with what the bot replies. An exception the Python code lets
  escape (`ValueError` from `int`, `OverflowError` from the sqlite3 binding,
  `IntegrityError` from a primary-key clash) is a `Raised` reply; in each
  case it escapes before anything is written, so the state is unchanged.
 */
module Bookings {
  import opened PyText
  import opened TicketIds

  /** A chat user's numeric identity (`interaction.user.id`). */
  type UserId = int

  /** The first form's fields as kept in `temp_data`, age already parsed. */
  datatype Draft = Draft(name: string, age: int, passport: string, fromCountry: string, toCountry: string)

  /** One row of the `bookings` table, columns in schema order. */
  datatype Booking = Booking(
    ticketId: string,
    name: string,
    age: int,
    passport: string,
    fromCountry: string,
    toCountry: string,
    category: string,
    price: int,
    departureDate: string,
    arrivalDate: string)

  /** The table, keyed by its primary key. */
  type Table = map<string, Booking>

  datatype State = State(bookings: Table, drafts: map<UserId, Draft>)

  /** The raw text of the basic-details form. */
  datatype BasicForm = BasicForm(name: string, age: string, passport: string, fromCountry: string, toCountry: string)

  /** The raw text of the additional-details form. */
  datatype AdditionalForm = AdditionalForm(category: string, price: string, departureDate: string, arrivalDate: string)

  /** The exceptions a handler lets escape. */
  datatype Fault =
    | NotAnInteger(text: string)      // ValueError from int(text)
    | IntegerTooLarge(value: int)     // OverflowError binding a value outside SQLite's 64-bit INTEGER
    | DuplicateTicketId(id: string)   // IntegrityError: the PRIMARY KEY is taken

  datatype Reply =
    | DetailsReceived                 // "Basic details received! ..." with the proceed button
    | NoBasicDetails                  // "No basic details found."
    | Booked(booking: Booking)        // the purchase confirmation embed
    | BookingDetails(booking: Booking) // the lookup embed with all ten columns
    | TicketNotFound                  // "Ticket ID not found."
    | TicketCanceled                  // "Your ticket has been canceled. ..."
    | Raised(fault: Fault)

  datatype Step = Step(state: State, reply: Reply)

  const MinSqliteInteger: int := -0x8000_0000_0000_0000
  const MaxSqliteInteger: int := 0x7FFF_FFFF_FFFF_FFFF

  /** Whether sqlite3 can bind a Python int as a 64-bit SQLite INTEGER. */
  predicate FitsSqliteInteger(x: int) {
    MinSqliteInteger <= x <= MaxSqliteInteger
  }

  /** What every row this bot writes satisfies: stored under its own ticket ID,
      which is well formed, with both INTEGER columns in SQLite's range. */
  predicate ValidTable(t: Table) {
    forall id :: id in t ==>
      && t[id].ticketId == id
      && IsTicketId(id)
      && FitsSqliteInteger(t[id].age)
      && FitsSqliteInteger(t[id].price)
  }

  /** `after` is `before` with exactly the row `b` added under a fresh key. */
  predicate InsertedOnly(before: Table, after: Table, b: Booking) {
    && b.ticketId !in before
    && after.Keys == before.Keys + {b.ticketId}
    && after[b.ticketId] == b
    && forall id :: id in before ==> after[id] == before[id]
  }

  /** `after` is `before` with exactly the entry for `key` gone. */
  predicate RemovedOnly<K, V(==)>(before: map<K, V>, after: map<K, V>, key: K) {
    && key in before
    && after.Keys == before.Keys - {key}
    && forall k :: k in after ==> after[k] == before[k]
  }

  /** `BasicDetailsModal.on_submit`: parse the age, then store the draft for `user`,
      replacing any earlier one. */
  function SubmitBasicDetails(s: State, user: UserId, form: BasicForm): (t: Step)
    ensures t.state.bookings == s.bookings
    ensures ParseInt(form.age).None? ==> t == Step(s, Raised(NotAnInteger(form.age)))
    ensures ParseInt(form.age).Some? ==>
      && t.reply == DetailsReceived
      && t.state.drafts.Keys == s.drafts.Keys + {user}
      && t.state.drafts[user] == Draft(form.name, ParseInt(form.age).value, form.passport, form.fromCountry, form.toCountry)
      && forall u :: u in s.drafts && u != user ==> t.state.drafts[u] == s.drafts[u]
  {
    match ParseInt(form.age)
    case None => Step(s, Raised(NotAnInteger(form.age)))
    case Some(age) =>
      var draft := Draft(form.name, age, form.passport, form.fromCountry, form.toCountry);
      Step(s.(drafts := s.drafts[user := draft]), DetailsReceived)
  }

  /** `AdditionalDetailsModal.on_submit`, with the ticket ID's random draws as
      a parameter. The draft check comes first; `int(price)` is evaluated while
      the INSERT's arguments are built; binding them may overflow; executing
      the INSERT may hit the primary key; only after all that is the draft popped. */
  function SubmitAdditionalDetails(s: State, user: UserId, form: AdditionalForm, draws: Draws): (t: Step)
    requires ValidDraws(draws)
    ensures user !in s.drafts ==> t == Step(s, NoBasicDetails)
    ensures user in s.drafts && ParseInt(form.price).None? ==> t == Step(s, Raised(NotAnInteger(form.price)))
    ensures user in s.drafts && ParseInt(form.price).Some? ==>
      var age, price := s.drafts[user].age, ParseInt(form.price).value;
      && (!FitsSqliteInteger(age) ==> t.reply == Raised(IntegerTooLarge(age)))
      && (FitsSqliteInteger(age) && !FitsSqliteInteger(price) ==> t.reply == Raised(IntegerTooLarge(price)))
      && (FitsSqliteInteger(age) && FitsSqliteInteger(price) && Generate(draws) in s.bookings ==>
            t.reply == Raised(DuplicateTicketId(Generate(draws))))
    ensures !t.reply.Booked? ==> t.state == s
    ensures t.reply.Booked? <==>
      && user in s.drafts
      && ParseInt(form.price).Some?
      && FitsSqliteInteger(s.drafts[user].age)
      && FitsSqliteInteger(ParseInt(form.price).value)
      && Generate(draws) !in s.bookings
    ensures t.reply.Booked? ==>
      var d := s.drafts[user];
      var b := t.reply.booking;
      && b == Booking(Generate(draws), d.name, d.age, d.passport, d.fromCountry, d.toCountry,
                      form.category, ParseInt(form.price).value, form.departureDate, form.arrivalDate)
      && InsertedOnly(s.bookings, t.state.bookings, b)
      && RemovedOnly(s.drafts, t.state.drafts, user)
  {
    if user !in s.drafts then Step(s, NoBasicDetails)
    else
      var draft := s.drafts[user];
      var id := Generate(draws);
      match ParseInt(form.price)
      case None => Step(s, Raised(NotAnInteger(form.price)))
      case Some(price) =>
        if !FitsSqliteInteger(draft.age) then Step(s, Raised(IntegerTooLarge(draft.age)))
        else if !FitsSqliteInteger(price) then Step(s, Raised(IntegerTooLarge(price)))
        else if id in s.bookings then Step(s, Raised(DuplicateTicketId(id)))
        else
          var b := Booking(id, draft.name, draft.age, draft.passport, draft.fromCountry, draft.toCountry,
                           form.category, price, form.departureDate, form.arrivalDate);
          Step(State(s.bookings[id := b], s.drafts - {user}), Booked(b))
  }

  /** The `lookup` command once the user has typed a ticket ID: a read-only find. */
  function Lookup(s: State, id: string): (t: Step)
    ensures t.state == s
    ensures t.reply.BookingDetails? <==> id in s.bookings
    ensures t.reply.BookingDetails? ==> t.reply.booking == s.bookings[id]
    ensures !t.reply.BookingDetails? ==> t.reply == TicketNotFound
  {
    if id in s.bookings then Step(s, BookingDetails(s.bookings[id])) else Step(s, TicketNotFound)
  }

  /** The `cancel` command once the user has typed a ticket ID: find, then
      delete without asking for confirmation. */
  function Cancel(s: State, id: string): (t: Step)
    ensures t.state.drafts == s.drafts
    ensures id in s.bookings ==> t.reply == TicketCanceled && RemovedOnly(s.bookings, t.state.bookings, id)
    ensures id !in s.bookings ==> t == Step(s, TicketNotFound)
  {
    if id in s.bookings then Step(s.(bookings := s.bookings - {id}), TicketCanceled)
    else Step(s, TicketNotFound)
  }

  /** Storing a draft leaves the table alone, so it stays valid. */
  lemma BasicDetailsPreserveValidTable(s: State, user: UserId, form: BasicForm)
    requires ValidTable(s.bookings)
    ensures ValidTable(SubmitBasicDetails(s, user, form).state.bookings)
  {
  }

  /** A completed booking adds a row that is valid: the generated ID is well
      formed and the INTEGER columns were bound without overflow. */
  lemma AdditionalDetailsPreserveValidTable(s: State, user: UserId, form: AdditionalForm, draws: Draws)
    requires ValidTable(s.bookings)
    requires ValidDraws(draws)
    ensures ValidTable(SubmitAdditionalDetails(s, user, form, draws).state.bookings)
  {
    var t := SubmitAdditionalDetails(s, user, form, draws);
    if t.reply.Booked? {
      var b := t.reply.booking;
      assert InsertedOnly(s.bookings, t.state.bookings, b);
      forall id | id in t.state.bookings
        ensures t.state.bookings[id].ticketId == id && IsTicketId(id)
        ensures FitsSqliteInteger(t.state.bookings[id].age) && FitsSqliteInteger(t.state.bookings[id].price)
      {
        if id != b.ticketId {
          assert id in s.bookings;
        }
      }
    }
  }

  /** Deleting a row keeps the rest valid. */
  lemma CancelPreservesValidTable(s: State, id: string)
    requires ValidTable(s.bookings)
    ensures ValidTable(Cancel(s, id).state.bookings)
  {
  }

  /** In a valid table, what lookup shows carries the ticket ID that was asked for. */
  lemma LookupShowsRequestedTicket(s: State, id: string)
    requires ValidTable(s.bookings)
    ensures Lookup(s, id).reply.BookingDetails? ==> Lookup(s, id).reply.booking.ticketId == id && IsTicketId(id)
  {
  }

  /** A completed booking can be looked up under the ticket ID it was given,
      with all ten columns as submitted. */
  lemma LookupAfterBooking(s: State, user: UserId, form: AdditionalForm, draws: Draws)
    requires ValidDraws(draws)
    ensures
      var t := SubmitAdditionalDetails(s, user, form, draws);
      t.reply.Booked? ==> Lookup(t.state, Generate(draws)).reply == BookingDetails(t.reply.booking)
  {
  }

  /** A draft is consumed by the booking it completes: submitting the second
      form again finds no basic details. */
  lemma DraftUsedOnce(s: State, user: UserId, form: AdditionalForm, draws: Draws, form2: AdditionalForm, draws2: Draws)
    requires ValidDraws(draws) && ValidDraws(draws2)
    ensures
      var t := SubmitAdditionalDetails(s, user, form, draws);
      t.reply.Booked? ==> SubmitAdditionalDetails(t.state, user, form2, draws2) == Step(t.state, NoBasicDetails)
  {
  }

  /** Once cancelled, a ticket is not found, and cancelling it again changes nothing. */
  lemma CancelThenNotFound(s: State, id: string)
    ensures Lookup(Cancel(s, id).state, id).reply == TicketNotFound
    ensures Cancel(Cancel(s, id).state, id) == Step(Cancel(s, id).state, TicketNotFound)
  {
  }

  /** Cancel undoes a booking: the table is back to what it was before. */
  lemma CancelUndoesBooking(s: State, user: UserId, form: AdditionalForm, draws: Draws)
    requires ValidDraws(draws)
    ensures
      var t := SubmitAdditionalDetails(s, user, form, draws);
      t.reply.Booked? ==> Cancel(t.state, Generate(draws)).state.bookings == s.bookings
  {
    var t := SubmitAdditionalDetails(s, user, form, draws);
    if t.reply.Booked? {
      RemoveInserted(s.bookings, t.state.bookings, t.reply.booking);
    }
  }

  /** Removing the row just inserted gives back the table before the insert. */
  lemma RemoveInserted(before: Table, after: Table, b: Booking)
    requires InsertedOnly(before, after, b)
    ensures after - {b.ticketId} == before
  {
    var removed := after - {b.ticketId};
    assert removed.Keys == before.Keys;
    assert forall id :: id in removed ==> removed[id] == before[id];
  }

  /** The whole purchase from an empty state: both forms, then a lookup of the
      new ticket shows all ten fields as typed. */
  lemma PurchaseScenario(user: UserId, draws: Draws)
    requires ValidDraws(draws)
    ensures
      var s0 := State(map[], map[]);
      var s1 := SubmitBasicDetails(s0, user, BasicForm("Alice", "30", "P1", "US", "FR"));
      var s2 := SubmitAdditionalDetails(s1.state, user, AdditionalForm("Economy", "500", "2025-01-01", "2025-01-02"), draws);
      && s1.reply == DetailsReceived
      && s2.reply.Booked?
      && s2.state.drafts == map[]
      && Lookup(s2.state, Generate(draws)).reply
         == BookingDetails(Booking(Generate(draws), "Alice", 30, "P1", "US", "FR", "Economy", 500, "2025-01-01", "2025-01-02"))
  {
    var s1 := SubmitBasicDetails(State(map[], map[]), user, BasicForm("Alice", "30", "P1", "US", "FR"));
    ScenarioBasicStep(user);
    ScenarioAdditionalStep(s1.state, user, draws);
  }

  lemma ScenarioBasicStep(user: UserId)
    ensures
      var s1 := SubmitBasicDetails(State(map[], map[]), user, BasicForm("Alice", "30", "P1", "US", "FR"));
      && s1.reply == DetailsReceived
      && s1.state.bookings == map[]
      && s1.state.drafts.Keys == {user}
      && s1.state.drafts[user] == Draft("Alice", 30, "P1", "US", "FR")
  {
    ParseThirty();
  }

  lemma ScenarioAdditionalStep(s: State, user: UserId, draws: Draws)
    requires ValidDraws(draws)
    requires s.bookings == map[] && s.drafts.Keys == {user} && s.drafts[user] == Draft("Alice", 30, "P1", "US", "FR")
    ensures
      var s2 := SubmitAdditionalDetails(s, user, AdditionalForm("Economy", "500", "2025-01-01", "2025-01-02"), draws);
      && s2.reply.Booked?
      && s2.state.drafts == map[]
      && Lookup(s2.state, Generate(draws)).reply
         == BookingDetails(Booking(Generate(draws), "Alice", 30, "P1", "US", "FR", "Economy", 500, "2025-01-01", "2025-01-02"))
  {
    var s2 := SubmitAdditionalDetails(s, user, AdditionalForm("Economy", "500", "2025-01-01", "2025-01-02"), draws);
    ScenarioBooks(s, user, draws);
    assert s2.state.drafts == map[] by {
      assert RemovedOnly(s.drafts, s2.state.drafts, user);
    }
    assert Lookup(s2.state, Generate(draws)).reply == BookingDetails(s2.reply.booking) by {
      assert InsertedOnly(s.bookings, s2.state.bookings, s2.reply.booking);
    }
  }

  /** In the scenario, the second form books the row holding every typed field. */
  lemma ScenarioBooks(s: State, user: UserId, draws: Draws)
    requires ValidDraws(draws)
    requires s.bookings == map[] && s.drafts.Keys == {user} && s.drafts[user] == Draft("Alice", 30, "P1", "US", "FR")
    ensures
      var s2 := SubmitAdditionalDetails(s, user, AdditionalForm("Economy", "500", "2025-01-01", "2025-01-02"), draws);
      && s2.reply.Booked?
      && s2.reply.booking == Booking(Generate(draws), "Alice", 30, "P1", "US", "FR", "Economy", 500, "2025-01-01", "2025-01-02")
  {
    ParseFiveHundred();
  }

  lemma ParseThirty()
    ensures ParseInt("30") == Some(30)
  {
    assert NatToString(3) == "3";
    assert NatToString(30) == NatToString(3) + [DigitChar(0)] == "30";
    ParseIntOfIntToString(30);
  }

  lemma ParseFiveHundred()
    ensures ParseInt("500") == Some(500)
  {
    assert NatToString(5) == "5";
    assert NatToString(50) == NatToString(5) + [DigitChar(0)] == "50";
    assert NatToString(500) == NatToString(50) + [DigitChar(0)] == "500";
    ParseIntOfIntToString(500);
  }
}
