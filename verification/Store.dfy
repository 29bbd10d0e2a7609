/**
 The tables the reservation pipeline reads and writes, and the idempotency guard
 that wraps every keyed mutation.
 */
module Store {
  import opened Outcomes
  import opened Slots

  datatype Line = Line(roomType: int, arrival: int, departure: int, quantity: int)
  {
    /** The CHECK constraints of a reservation line. */
    predicate Storable() {
      quantity > 0 && departure > arrival
    }

    function Stay(tenant: int, property: int): Window {
      Window(Cell(tenant, property, roomType), arrival, departure)
    }
  }

  datatype Status = Draft | Held | AwaitingPayment | Converted | Expired | Cancelled
  {
    predicate Unsettled() {
      Held? || AwaitingPayment?
    }
  }

  datatype Transition = ToHeld | ToAwaitingPayment | ToExpired | ToCancelled | ToConverted
  {
    /** The declared state machine of a reservation. */
    function From(status: Status): Option<Status> {
      match this
      case ToHeld => if status.Draft? then Some(Held) else None
      case ToAwaitingPayment => if status.Held? then Some(AwaitingPayment) else None
      case ToExpired => if status.Unsettled() then Some(Expired) else None
      case ToCancelled => if status.Draft? || status.Unsettled() then Some(Cancelled) else None
      case ToConverted => if status.AwaitingPayment? then Some(Converted) else None
    }

    /** The event a transition publishes, if it is in the event catalogue. */
    function Event(): Option<EventName> {
      match this
      case ToHeld => Some(ReservationCreated)
      case ToExpired => Some(ReservationExpired)
      case ToConverted => Some(ReservationConverted)
      case _ => None
    }
  }

  datatype EventName = ReservationCreated | ReservationExpired | ReservationConverted | BookingConfirmed

  datatype OutboxRow = OutboxRow(name: EventName, id: nat)

  datatype Reservation =
    Reservation(tenant: int, property: int, status: Status, holdExpiry: int, lines: seq<Line>)

  datatype BookingLine = BookingLine(lineNo: int, roomType: int, arrival: int, departure: int)

  datatype BookingStatus = PendingPayment | Confirmed

  datatype Booking = Booking(tenant: int, property: int, reservation: nat, status: BookingStatus,
                             arrival: int, departure: int, lines: seq<BookingLine>)

  datatype Sale = Sale(window: Window, quantity: int)

  datatype Scope = ReserveScope | CancelScope | ConfirmScope | SellScope | HoldScope | ConvertScope

  datatype RecordId = RecordId(tenant: int, scope: Scope, key: string)

  /** The request a key covers.  The source keeps its SHA-256; an injective stand-in is the request itself. */
  datatype Payload =
    | ReservePayload(property: int, guest: int, parties: int, lines: seq<Line>)
    | WindowPayload(window: Window, quantity: int)
    | ReservationPayload(id: int)

  datatype Response = WindowDone(nights: int) | ReservationRef(id: nat) | BookingRef(id: nat)

  datatype Record = InProgress(payload: Payload) | Completed(payload: Payload, response: Response)

  /**
   All tables.  Primary keys of reservations and bookings are their positions.
   `sales` keeps the committed direct sales in commit order.
   */
  datatype Store = Store(
    slots: SlotTable,
    records: map<RecordId, Record>,
    reservations: seq<Reservation>,
    bookings: seq<Booking>,
    sales: seq<Sale>,
    outbox: seq<OutboxRow>)

  const EMPTY := Store(map[], map[], [], [], [], [])

  datatype Step = Step(store: Store, response: Response)

  /** What a later request under an existing record gets. */
  function Replay(s: Store, record: Record, payload: Payload): Result<Step> {
    if record.InProgress? then Err(KeyInProgress)
    else if record.payload != payload then Err(KeyConflict)
    else Ok(Step(s, record.response))
  }

  /**
   The idempotency guard: replay an existing record, otherwise run the mutation with the record
   in progress and store its response.  A failure leaves no trace.  A constraint violation
   inside the mutation is mistaken for a lost race, and the record then looked up is gone.
   */
  ghost function Run(s: Store, id: RecordId, payload: Payload, execute: Store -> Result<Step>): Result<Step> {
    if id in s.records then Replay(s, s.records[id], payload)
    else
      match execute(s.(records := s.records[id := InProgress(payload)]))
      case Err(IntegrityError) => Err(DoesNotExist)
      case Err(e) => Err(e)
      case Ok(step) => Ok(Step(step.store.(records := step.store.records[id := Completed(payload, step.response)]),
                               step.response))
  }

  /** While another call holds the key, the guard refuses, whatever the request. */
  lemma RunInProgress(s: Store, id: RecordId, payload: Payload, execute: Store -> Result<Step>)
    requires id in s.records && s.records[id].InProgress?
    ensures Run(s, id, payload, execute) == Err(KeyInProgress)
  {
  }

  /**
   Once a guarded call has succeeded, the same request against any store that still has the
   record answers the same and changes nothing, whatever mutation it is given; a different
   request under the key is refused.
   */
  lemma RunOnce(s: Store, id: RecordId, payload: Payload, execute: Store -> Result<Step>,
                later: Store, other: Payload, again: Store -> Result<Step>)
    requires Run(s, id, payload, execute).Ok? && id !in s.records
    requires var done := Run(s, id, payload, execute).value.store;
             id in later.records && later.records[id] == done.records[id]
    ensures Run(later, id, payload, again) == Ok(Step(later, Run(s, id, payload, execute).value.response))
    ensures other != payload ==> Run(later, id, other, again) == Err(KeyConflict)
  {
    var r := execute(s.(records := s.records[id := InProgress(payload)]));
    assert r.Ok?;
  }
}
