/** The values the delayed-order job passes around: instants, order snapshots, the per-order state as
    the detector sees it, and the SMS command it emits. */
module Domain {

  datatype Option<+T> = None | Some(value: T)

  const NANOS_PER_MILLI: int := 1_000_000

  /** A java.time.Instant: finer than the millisecond clock that the timers use. */
  datatype Instant = Instant(nanos: int) {
    predicate IsBefore(other: Instant) {
      nanos < other.nanos
    }

    /** Floors, also for instants before the epoch. */
    function ToEpochMilli(): (ms: int)
      ensures ms * 1_000_000 <= nanos < (ms + 1) * 1_000_000
    {
      nanos / NANOS_PER_MILLI
    }

    static function OfEpochMilli(ms: int): (i: Instant)
      ensures i.ToEpochMilli() == ms
    {
      Instant(ms * NANOS_PER_MILLI)
    }
  }

  datatype OrderStatus = CREATED | ACCEPTED | PICKED_UP | DELIVERED | CANCELLED {
    predicate IsTerminal() {
      this == DELIVERED || this == CANCELLED
    }

    predicate IsActive() {
      !IsTerminal()
    }
  }

  datatype Snapshot = Snapshot(
    orderId: string,
    customerId: Option<string>,
    storeId: Option<string>,
    status: OrderStatus,
    expectedDeliveryTime: Instant,
    lastUpdatedAt: Instant)
  {
    /** The time, on the timers' clock, from which the order counts as delayed. */
    function Due(): int {
      expectedDeliveryTime.ToEpochMilli()
    }
  }

  /** A parsed message of the Orders topic. Every field may be missing from the JSON. */
  datatype OrderState = OrderState(
    orderId: Option<string>,
    customerId: Option<string>,
    storeId: Option<string>,
    status: Option<OrderStatus>,
    expectedDeliveryTime: Option<Instant>,
    lastUpdatedAt: Option<Instant>)
  {
    predicate IsValid() {
      orderId.Some? && status.Some? && expectedDeliveryTime.Some? && lastUpdatedAt.Some?
    }

    /** What the detector keeps of a valid message. */
    function ToSnapshot(): Snapshot
      requires IsValid()
    {
      Snapshot(orderId.value, customerId, storeId, status.value, expectedDeliveryTime.value, lastUpdatedAt.value)
    }
  }

  /** The contents of an order's state: its latest snapshot, the idempotency flag, and the timer that
      the detector believes is registered. */
  datatype DelayState = DelayState(
    snapshot: Snapshot,
    delaySmsEmitted: bool,
    registeredTimerTime: Option<int>)
  {
    /** An order that still waits for its verdict. */
    predicate Waiting() {
      snapshot.status.IsActive() && !delaySmsEmitted
    }
  }

  datatype SmsCommand = SmsCommand(
    commandId: string,
    commandType: string,
    orderId: string,
    customerId: Option<string>,
    storeId: Option<string>,
    reason: string,
    expectedDeliveryTime: Instant,
    createdAt: Instant,
    schemaVersion: int)

  const COMMAND_SUFFIX := ":DELAY_SMS"

  function CommandId(orderId: string): string {
    orderId + COMMAND_SUFFIX
  }

  function DelaySms(s: Snapshot, createdAt: Instant): SmsCommand {
    SmsCommand(CommandId(s.orderId), "SEND_DELAY_SMS", s.orderId, s.customerId, s.storeId,
               "ORDER_DELAYED", s.expectedDeliveryTime, createdAt, 1)
  }

  /** The idempotency key determines the order, even when ids themselves contain the suffix. */
  lemma CommandIdInjective(a: string, b: string)
    ensures CommandId(a) == CommandId(b) <==> a == b
  {
    if CommandId(a) == CommandId(b) {
      assert |a| == |b|;
      assert a == CommandId(a)[..|a|] == CommandId(b)[..|b|] == b;
    }
  }
}
