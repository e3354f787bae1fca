/** The operator as written: mutable state objects, a value state that hands them out, a timer service,
    a collector and counters, proved to compute the reactions of Detector.dfy and to meet Reference.dfy. */
module Operator {
  import opened Domain
  import opened Detector
  import opened Reference

  const MILLIS_PER_DAY: nat := 86_400_000

  /** The state object. The fields start out null in Java, hence the options. */
  class OrderDelayState {
    var orderId: Option<string>
    var customerId: Option<string>
    var storeId: Option<string>
    var currentStatus: Option<OrderStatus>
    var expectedDeliveryTime: Option<Instant>
    var lastUpdatedAt: Option<Instant>
    var delaySmsEmitted: bool
    var registeredTimerTime: Option<int>

    /** No required field is null: true of every object the detector stores. */
    ghost predicate Complete()
      reads this
    {
      orderId.Some? && currentStatus.Some? && expectedDeliveryTime.Some? && lastUpdatedAt.Some?
    }

    function View(): DelayState
      requires Complete()
      reads this
    {
      DelayState(
        Snapshot(orderId.value, customerId, storeId, currentStatus.value,
                 expectedDeliveryTime.value, lastUpdatedAt.value),
        delaySmsEmitted, registeredTimerTime)
    }

    constructor ()
      ensures !delaySmsEmitted && registeredTimerTime == None
    {
      orderId, customerId, storeId := None, None, None;
      currentStatus, expectedDeliveryTime, lastUpdatedAt := None, None, None;
      delaySmsEmitted, registeredTimerTime := false, None;
    }

    static method FromOrderState(order: OrderState) returns (state: OrderDelayState)
      requires order.IsValid()
      ensures fresh(state) && state.Complete()
      ensures state.View() == Merge(order.ToSnapshot(), None)
      ensures Shows(state.View().snapshot, order) && !state.delaySmsEmitted && state.registeredTimerTime == None
    {
      state := new OrderDelayState();
      state.UpdateFrom(order);
    }

    method UpdateFrom(order: OrderState)
      requires order.IsValid()
      modifies this
      ensures Complete()
      ensures View().snapshot == order.ToSnapshot() && Shows(View().snapshot, order)
      ensures unchanged(`delaySmsEmitted) && unchanged(`registeredTimerTime)
    {
      orderId := order.orderId;
      customerId := order.customerId;
      storeId := order.storeId;
      currentStatus := order.status;
      expectedDeliveryTime := order.expectedDeliveryTime;
      lastUpdatedAt := order.lastUpdatedAt;
    }

    /** A field-by-field copy, as a serializing state backend makes on every read and write. */
    method Copy() returns (copy: OrderDelayState)
      requires Complete()
      ensures fresh(copy) && copy.Complete() && copy.View() == View()
    {
      copy := new OrderDelayState();
      copy.orderId := orderId;
      copy.customerId := customerId;
      copy.storeId := storeId;
      copy.currentStatus := currentStatus;
      copy.expectedDeliveryTime := expectedDeliveryTime;
      copy.lastUpdatedAt := lastUpdatedAt;
      copy.delaySmsEmitted := delaySmsEmitted;
      copy.registeredTimerTime := registeredTimerTime;
    }

    static method OfValue(value: DelayState) returns (state: OrderDelayState)
      ensures fresh(state) && state.Complete() && state.View() == value
    {
      state := new OrderDelayState();
      var s := value.snapshot;
      state.orderId := Some(s.orderId);
      state.customerId := s.customerId;
      state.storeId := s.storeId;
      state.currentStatus := Some(s.status);
      state.expectedDeliveryTime := Some(s.expectedDeliveryTime);
      state.lastUpdatedAt := Some(s.lastUpdatedAt);
      state.delaySmsEmitted := value.delaySmsEmitted;
      state.registeredTimerTime := value.registeredTimerTime;
    }

    predicate IsTerminal()
      reads this
    {
      currentStatus.Some? && currentStatus.value.IsTerminal()
    }
  }

  /** The keyed value state with its TTL. A heap backend hands out the stored object itself
      (aliasing); a serializing backend hands out and stores copies. */
  class ValueState {
    const ttl: nat
    const aliasing: bool
    var stored: OrderDelayState?
    var lastWrite: int

    constructor (ttl: nat, aliasing: bool)
      ensures this.ttl == ttl && this.aliasing == aliasing && stored == null
    {
      this.ttl, this.aliasing := ttl, aliasing;
      stored, lastWrite := null, 0;
    }

    ghost predicate Valid()
      reads this, stored
    {
      stored != null ==> stored.Complete()
    }

    ghost function View(): Cell
      requires Valid()
      reads this, stored
    {
      if stored == null then Empty else Held(stored.View(), lastWrite)
    }

    method Value(now: int) returns (r: OrderDelayState?)
      requires Valid()
      ensures (r == null) == Read(ttl, View(), now).None? == !Live(ttl, View(), now)
      ensures r != null ==> r.Complete() && Read(ttl, View(), now) == Some(r.View())
      ensures r != null ==> if aliasing then r == stored else fresh(r)
    {
      if stored == null || lastWrite + ttl <= now {
        return null;
      }
      if aliasing {
        return stored;
      }
      r := stored.Copy();
    }

    method Update(value: OrderDelayState, now: int)
      requires value.Complete()
      modifies this
      ensures Valid() && View() == Held(value.View(), now)
      ensures if aliasing then stored == value else fresh(stored)
    {
      if aliasing {
        stored := value;
      } else {
        stored := value.Copy();
      }
      lastWrite := now;
    }

    /** What a checkpoint keeps of the value. */
    method Serialize() returns (cell: Cell)
      requires Valid()
      ensures cell == View()
    {
      if stored == null {
        return Empty;
      }
      cell := Held(stored.View(), lastWrite);
    }

    /** What a restore puts back: a new object with the old contents and the old write time. */
    method Deserialize(cell: Cell)
      modifies this
      ensures Valid() && View() == cell && (stored == null || fresh(stored))
    {
      if cell.Empty? {
        stored := null;
      } else {
        stored := OrderDelayState.OfValue(cell.state);
        lastWrite := cell.lastWrite;
      }
    }
  }

  class TimerService {
    var pending: set<int>
    var now: int

    constructor (now: int)
      ensures pending == {} && this.now == now
    {
      this.pending, this.now := {}, now;
    }

    method RegisterProcessingTimeTimer(t: int)
      modifies this`pending
      ensures pending == old(pending) + {t}
    {
      pending := pending + {t};
    }

    method DeleteProcessingTimeTimer(t: int)
      modifies this`pending
      ensures pending == old(pending) - {t}
    {
      pending := pending - {t};
    }
  }

  /** The order id and status that the dead letter quotes; its fixed wording is left out. */
  datatype DeadLetterEvent = DeadLetterEvent(orderId: Option<string>, status: Option<OrderStatus>)

  class Collector {
    var commands: seq<SmsCommand>
    var invalidOrders: seq<DeadLetterEvent>

    constructor ()
      ensures commands == [] && invalidOrders == []
    {
      commands, invalidOrders := [], [];
    }

    method Collect(command: SmsCommand)
      modifies this`commands
      ensures commands == old(commands) + [command]
    {
      commands := commands + [command];
    }

    method OutputInvalid(event: DeadLetterEvent)
      modifies this`invalidOrders
      ensures invalidOrders == old(invalidOrders) + [event]
    {
      invalidOrders := invalidOrders + [event];
    }
  }

  class DelayedOrderProcessFunction {
    const orderState: ValueState
    const timers: TimerService
    const out: Collector
    var delayedOrdersDetected: nat
    var smsCommandsEmitted: nat
    var staleUpdatesIgnored: nat
    var invalidOrders: nat

    constructor (stateTtlDays: nat, aliasing: bool, now: int)
      ensures fresh(orderState) && fresh(timers) && fresh(out)
      ensures Valid() && orderState.aliasing == aliasing && orderState.ttl == stateTtlDays * 86_400_000
      ensures View() == KeyState(Empty, {}) && timers.now == now
      ensures out.commands == [] && out.invalidOrders == []
      ensures delayedOrdersDetected == smsCommandsEmitted == staleUpdatesIgnored == invalidOrders == 0
    {
      orderState := new ValueState(stateTtlDays * MILLIS_PER_DAY, aliasing);
      timers := new TimerService(now);
      out := new Collector();
      delayedOrdersDetected, smsCommandsEmitted, staleUpdatesIgnored, invalidOrders := 0, 0, 0, 0;
    }

    ghost predicate Valid()
      reads this, orderState, orderState.stored
    {
      orderState.Valid()
    }

    /** The keyed state of the current order, as the reactions of Detector.dfy see it. */
    ghost function View(): KeyState
      requires Valid()
      reads this, orderState, orderState.stored, timers
    {
      KeyState(orderState.View(), timers.pending)
    }

    /** What a call adds to the two outputs and to the counters. */
    twostate predicate Reported(commands: seq<SmsCommand>, dead: seq<DeadLetterEvent>, stale: bool)
      reads this, out
    {
      && out.commands == old(out.commands) + commands
      && out.invalidOrders == old(out.invalidOrders) + dead
      && delayedOrdersDetected == old(delayedOrdersDetected) + |commands|
      && smsCommandsEmitted == old(smsCommandsEmitted) + |commands|
      && staleUpdatesIgnored == old(staleUpdatesIgnored) + (if stale then 1 else 0)
      && invalidOrders == old(invalidOrders) + |dead|
    }

    method IsStaleUpdate(incoming: OrderState, current: OrderDelayState) returns (stale: bool)
      requires incoming.IsValid() && current.Complete()
      ensures stale == Detector.IsStaleUpdate(incoming.ToSnapshot(), current.View())
      ensures stale <==> incoming.lastUpdatedAt.value.nanos < current.View().snapshot.lastUpdatedAt.nanos
    {
      if current.lastUpdatedAt == None {
        return false;
      }
      return incoming.lastUpdatedAt.value.IsBefore(current.lastUpdatedAt.value);
    }

    method DeleteRegisteredTimer(current: OrderDelayState)
      requires current.Complete()
      modifies current`registeredTimerTime, timers`pending
      ensures current.registeredTimerTime == None
      ensures timers.pending == old(timers.pending) - Registered(old(current.View()))
    {
      var existingTimerTime := current.registeredTimerTime;

      if existingTimerTime.Some? {
        timers.DeleteProcessingTimeTimer(existingTimerTime.value);
        current.registeredTimerTime := None;
      }
    }

    method RegisterOrUpdateTimer(current: OrderDelayState, newTimerTime: int)
      requires current.Complete()
      modifies current`registeredTimerTime, timers`pending
      ensures current.registeredTimerTime == Some(newTimerTime)
      ensures timers.pending ==
              if old(current.registeredTimerTime) == Some(newTimerTime) then old(timers.pending)
              else old(timers.pending) - Registered(old(current.View())) + {newTimerTime}
    {
      var existingTimerTime := current.registeredTimerTime;

      if existingTimerTime.Some? && existingTimerTime.value == newTimerTime {
        return;
      }

      if existingTimerTime.Some? {
        timers.DeleteProcessingTimeTimer(existingTimerTime.value);
      }

      timers.RegisterProcessingTimeTimer(newTimerTime);
      current.registeredTimerTime := Some(newTimerTime);
    }

    method EmitDelaySms(current: OrderDelayState)
      requires Valid() && current.Complete()
      modifies this, orderState, current, out
      ensures Valid() && (if orderState.aliasing then orderState.stored == current else fresh(orderState.stored))
      ensures View() == KeyState(Held(DelayState(old(current.View().snapshot), true, None), timers.now), timers.pending)
      ensures
        var r := Emit(old(current.View()), timers.pending, timers.now);
        && View() == r.next && Reported(r.out, [], false)
        && |r.out| == 1 && Announces(r.out[0], old(current.View().snapshot), timers.now)
    {
      var command := DelaySms(current.View().snapshot, Instant.OfEpochMilli(timers.now));

      delayedOrdersDetected := delayedOrdersDetected + 1;
      smsCommandsEmitted := smsCommandsEmitted + 1;
      out.Collect(command);

      current.delaySmsEmitted := true;
      current.registeredTimerTime := None;
      orderState.Update(current, timers.now);
    }

    /** The part of processElement up to the merge; null when the message is stale. */
    method Accept(incoming: OrderState) returns (current: OrderDelayState?)
      requires Valid() && incoming.IsValid()
      modifies this`staleUpdatesIgnored, orderState.stored
      ensures
        var seen := old(Read(orderState.ttl, orderState.View(), timers.now));
        if old(Outdated(orderState.ttl, View(), incoming, timers.now))
        then current == null && Valid() && View() == old(View()) &&
             staleUpdatesIgnored == old(staleUpdatesIgnored) + 1
        else current != null && current.Complete() && current.View() == Merge(incoming.ToSnapshot(), seen) &&
             Shows(current.View().snapshot, incoming) &&
             staleUpdatesIgnored == old(staleUpdatesIgnored) && Valid() &&
             (fresh(current) || current == orderState.stored)
    {
      current := orderState.Value(timers.now);

      if current != null {
        var stale := IsStaleUpdate(incoming, current);
        if stale {
          staleUpdatesIgnored := staleUpdatesIgnored + 1;
          return null;
        }
      }

      if current == null {
        current := OrderDelayState.FromOrderState(incoming);
      } else {
        current.UpdateFrom(incoming);
      }
    }

    /** The part of processElement that follows the merge. */
    method DecideOn(current: OrderDelayState)
      requires Valid() && current.Complete()
      modifies this, orderState, current, timers`pending, out
      ensures Valid() && (if orderState.aliasing then orderState.stored == current else fresh(orderState.stored))
      ensures
        var r := Decide(old(current.View()), old(timers.pending), timers.now);
        && View() == r.next && Reported(r.out, [], false)
        && Decided(old(current.View()), old(timers.pending), timers.now, View(), r.out)
    {
      DecideIsDecided(current.View(), timers.pending, timers.now);
      if current.IsTerminal() {
        DeleteRegisteredTimer(current);
        orderState.Update(current, timers.now);
        return;
      }

      if current.delaySmsEmitted {
        orderState.Update(current, timers.now);
        return;
      }

      var expectedDeliveryTimeMs := current.expectedDeliveryTime.value.ToEpochMilli();

      if expectedDeliveryTimeMs <= timers.now {
        DeleteRegisteredTimer(current);
        EmitDelaySms(current);
        return;
      }

      RegisterOrUpdateTimer(current, expectedDeliveryTimeMs);
      orderState.Update(current, timers.now);
    }

    method ProcessElement(incoming: OrderState)
      requires Valid()
      modifies this, orderState, orderState.stored, timers`pending, out
      ensures Valid() && (fresh(orderState.stored) || orderState.stored == old(orderState.stored))
      ensures
        var r := OnElement(orderState.ttl, old(View()), incoming, timers.now);
        && View() == r.next && Answered(orderState.ttl, old(View()), incoming, timers.now, View(), r.out)
        && Reported(r.out,
                    if HasAllFields(incoming) then [] else [DeadLetterEvent(incoming.orderId, incoming.status)],
                    Outdated(orderState.ttl, old(View()), incoming, timers.now))
    {
      if !incoming.IsValid() {
        out.OutputInvalid(DeadLetterEvent(incoming.orderId, incoming.status));
        invalidOrders := invalidOrders + 1;
        return;
      }

      OnElementIsAnswered(orderState.ttl, View(), incoming, timers.now);
      var current := Accept(incoming);
      if current != null {
        DecideOn(current);
      }
    }

    /** The runtime removes the timer and hands its timestamp over. */
    method OnTimer(timestamp: int)
      requires Valid()
      modifies this, orderState, orderState.stored, out
      ensures Valid() && (fresh(orderState.stored) || orderState.stored == old(orderState.stored))
      ensures
        var r := Detector.OnTimer(orderState.ttl, old(View()), timestamp, timers.now);
        && View() == r.next && Reported(r.out, [], false)
        && Fired(orderState.ttl, old(View()), timestamp, timers.now, View(), r.out)
    {
      OnTimerIsFired(orderState.ttl, View(), timestamp, timers.now);
      var current := orderState.Value(timers.now);

      if current == null {
        return;
      }
      if current.IsTerminal() {
        return;
      }
      if current.delaySmsEmitted {
        return;
      }
      if current.expectedDeliveryTime == None {
        return;
      }

      var expectedDeliveryTimeMs := current.expectedDeliveryTime.value.ToEpochMilli();

      if timestamp >= expectedDeliveryTimeMs {
        EmitDelaySms(current);
      }
    }
  }
}
