/**
 The anti-oversell row and the window operations over it.

 A slot is one (tenant, property, room type, night); the only channel that exists is
 "direct", so it is not part of the key.  Every write path of the slot repository has the
 same shape: lock a window of nights, check every locked row, change every row, and let the
 table's CHECK constraints reject the whole change.  `Apply` is that shape as one function.
 */
module Slots {
  import opened Outcomes

  datatype Cell = Cell(tenant: int, property: int, roomType: int)

  datatype SlotKey = SlotKey(cell: Cell, night: int)

  datatype Slot = Slot(total: int, sold: int, reserved: int, blocked: int, outOfService: int)
  {
    /** The stored generated column. */
    function Remaining(): int {
      total - sold - reserved - blocked - outOfService
    }

    function Counted(counter: Counter): int {
      match counter
      case Sold => sold
      case Reserved => reserved
    }

    /** The two CHECK constraints: non-negative parts, within the total. */
    predicate Good() {
      total >= 0 && sold >= 0 && reserved >= 0 && blocked >= 0 && outOfService >= 0 &&
      total >= sold + reserved + blocked + outOfService
    }
  }

  type SlotTable = map<SlotKey, Slot>

  /** The nights [start, end) of one cell. */
  datatype Window = Window(cell: Cell, start: int, end: int)
  {
    predicate Covers(k: SlotKey) {
      k.cell == cell && start <= k.night < end
    }

    /** The part of the window before a given night. */
    function Until(night: int): Window {
      Window(cell, start, night)
    }
  }

  datatype Counter = Sold | Reserved

  datatype Change =
    | Consume(counter: Counter, quantity: int)
    | Release(counter: Counter, quantity: int)
    | Convert(quantity: int)
    | OutOfService(delta: int)
  {
    /** The check made on a locked row before anything is written. */
    predicate Allows(slot: Slot) {
      match this
      case Consume(_, quantity) => slot.Remaining() >= quantity
      case Convert(quantity) => slot.reserved >= quantity
      case _ => true
    }

    /** The row after the change. */
    function On(slot: Slot): Slot {
      match this
      case Consume(Sold, quantity) => slot.(sold := slot.sold + quantity)
      case Consume(Reserved, quantity) => slot.(reserved := slot.reserved + quantity)
      case Release(Sold, quantity) => slot.(sold := slot.sold - Given(quantity, slot.sold))
      case Release(Reserved, quantity) => slot.(reserved := slot.reserved - Given(quantity, slot.reserved))
      case Convert(quantity) => slot.(reserved := slot.reserved - quantity, sold := slot.sold + quantity)
      case OutOfService(delta) => slot.(outOfService := slot.outOfService + delta)
    }

    /** Every change but the out-of-service one refuses a window with a night that has no row. */
    predicate NeedsEveryNight() {
      !OutOfService?
    }
  }

  /** What a release gives back: at most what is held, and never a negative amount. */
  function Given(quantity: int, held: int): int {
    var actual := if quantity < held then quantity else held;
    if actual <= 0 then 0 else actual
  }

  /** Every night of the window has a row. */
  ghost predicate Open(slots: SlotTable, w: Window) {
    forall n :: w.start <= n < w.end ==> SlotKey(w.cell, n) in slots
  }

  ghost predicate AllAllowed(slots: SlotTable, w: Window, c: Change) {
    forall k :: k in slots && w.Covers(k) ==> c.Allows(slots[k])
  }

  ghost predicate AllGood(slots: SlotTable) {
    forall k :: k in slots ==> slots[k].Good()
  }

  ghost predicate GoodWithin(slots: SlotTable, w: Window) {
    forall k :: k in slots && w.Covers(k) ==> slots[k].Good()
  }

  /** Every row of the window changed, every other row as it was. */
  ghost function Changed(slots: SlotTable, w: Window, c: Change): SlotTable {
    map k | k in slots :: if w.Covers(k) then c.On(slots[k]) else slots[k]
  }

  /** One repository call: all-or-nothing over the window. */
  ghost function Apply(slots: SlotTable, w: Window, c: Change): Result<SlotTable> {
    if c.NeedsEveryNight() && !Open(slots, w) then Err(InsufficientAvailability)
    else if !AllAllowed(slots, w, c) then Err(InsufficientAvailability)
    else if !GoodWithin(Changed(slots, w, c), w) then Err(IntegrityError)
    else Ok(Changed(slots, w, c))
  }

  /** The constraints hold of every table a repository call can produce. */
  lemma ApplyKeepsGood(slots: SlotTable, w: Window, c: Change)
    requires AllGood(slots) && Apply(slots, w, c).Ok?
    ensures AllGood(Apply(slots, w, c).value)
    ensures Apply(slots, w, c).value.Keys == slots.Keys
  {
  }

  /** The preview `is_sellable`: every night has a row with at least `quantity` remaining.
      A night without a row counts as zero remaining. */
  ghost predicate Sellable(slots: SlotTable, w: Window, quantity: int) {
    forall n :: w.start <= n < w.end ==>
      (if SlotKey(w.cell, n) in slots then slots[SlotKey(w.cell, n)].Remaining() else 0) >= quantity
  }

  /** For a positive quantity the unlocked preview and the locked write agree exactly, and a
      successful write lowers `remaining` by the quantity on exactly the nights of the window. */
  lemma PreviewAgreesWithWrite(slots: SlotTable, w: Window, counter: Counter, quantity: int)
    requires AllGood(slots) && quantity >= 1
    ensures Sellable(slots, w, quantity) <==> Apply(slots, w, Consume(counter, quantity)).Ok?
    ensures var r := Apply(slots, w, Consume(counter, quantity));
            r.Ok? ==> r.value.Keys == slots.Keys && forall k :: k in slots ==>
              r.value[k].Remaining() == slots[k].Remaining() - (if w.Covers(k) then quantity else 0)
  {
    var c := Consume(counter, quantity);
    if Sellable(slots, w, quantity) {
      forall k | k in slots && w.Covers(k) ensures c.Allows(slots[k]) {
        assert k == SlotKey(w.cell, k.night);
      }
    }
    if Apply(slots, w, c).Ok? {
      forall n | w.start <= n < w.end
        ensures SlotKey(w.cell, n) in slots && slots[SlotKey(w.cell, n)].Remaining() >= quantity
      {
        assert w.Covers(SlotKey(w.cell, n));
      }
    }
  }

  /** For quantity zero they agree exactly when every night has a row: the preview counts a
      missing night as zero remaining, the write refuses it. */
  lemma PreviewAtZero(slots: SlotTable, w: Window, counter: Counter)
    requires AllGood(slots)
    ensures (Sellable(slots, w, 0) <==> Apply(slots, w, Consume(counter, 0)).Ok?) <==> Open(slots, w)
  {
    var c := Consume(counter, 0);
    forall n | w.start <= n < w.end && SlotKey(w.cell, n) in slots
      ensures slots[SlotKey(w.cell, n)].Remaining() >= 0 && c.On(slots[SlotKey(w.cell, n)]).Good()
    {
    }
    assert Sellable(slots, w, 0);
  }

  /** Below zero the preview is always true, and the write succeeds exactly when every night has a row
      whose counter does not go below zero. */
  lemma PreviewBelowZero(slots: SlotTable, w: Window, counter: Counter, quantity: int)
    requires AllGood(slots) && quantity < 0
    ensures Sellable(slots, w, quantity)
    ensures Apply(slots, w, Consume(counter, quantity)).Ok? <==>
      Open(slots, w) && forall k :: k in slots && w.Covers(k) ==> slots[k].Counted(counter) + quantity >= 0
  {
    var c := Consume(counter, quantity);
    forall k | k in slots && w.Covers(k)
      ensures c.Allows(slots[k]) && (c.On(slots[k]).Good() <==> slots[k].Counted(counter) + quantity >= 0)
    {
    }
    forall k | k in slots && w.Covers(k) ensures Changed(slots, w, c)[k] == c.On(slots[k]) { }
  }

  /** A row not yet open: the horizon adds zeroed rows for the missing nights only. */
  ghost function Opened(slots: SlotTable, w: Window, total: int): SlotTable {
    map k | k in slots.Keys + WindowKeys(w) ::
      if k in slots then slots[k] else Slot(total, 0, 0, 0, 0)
  }

  ghost function WindowKeys(w: Window): (keys: set<SlotKey>)
    ensures forall k :: k in keys <==> w.Covers(k)
  {
    var keys := set n | w.start <= n < w.end :: SlotKey(w.cell, n);
    assert forall k :: w.Covers(k) ==> k == SlotKey(w.cell, k.night);
    keys
  }

  /** `initialize_horizon`: existing nights keep their counters; a negative capacity is
      rejected by the constraint as soon as one night is missing. */
  ghost function OpenHorizon(slots: SlotTable, w: Window, total: int): Result<SlotTable> {
    if Open(slots, w) then Ok(slots)
    else if total < 0 then Err(IntegrityError)
    else Ok(Opened(slots, w, total))
  }
}
