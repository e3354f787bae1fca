/** What messages, states and commands mean, spelled out on their own fields. Results are stated in these
    terms; nothing that the detector computes refers to them. */
module Reference {
  import opened Domain
  import opened Detector

  /** No required field of the message is missing. */
  predicate HasAllFields(x: OrderState) {
    x.orderId != None && x.status != None && x.expectedDeliveryTime != None && x.lastUpdatedAt != None
  }

  /** The order is still on its way. */
  predicate Open(status: OrderStatus) {
    status == CREATED || status == ACCEPTED || status == PICKED_UP
  }

  predicate IsActiveMessage(x: OrderState) {
    HasAllFields(x) && Open(x.status.value)
  }

  /** The snapshot shows the message, field by field. */
  predicate Shows(s: Snapshot, x: OrderState) {
    && x.orderId == Some(s.orderId) && x.status == Some(s.status)
    && x.customerId == s.customerId && x.storeId == s.storeId
    && x.expectedDeliveryTime == Some(s.expectedDeliveryTime) && x.lastUpdatedAt == Some(s.lastUpdatedAt)
  }

  /** The ETA on the timers' clock. */
  function EtaMillis(x: OrderState): int
    requires x.expectedDeliveryTime.Some?
  {
    x.expectedDeliveryTime.value.ToEpochMilli()
  }

  function EtaOf(d: DelayState): int {
    d.snapshot.expectedDeliveryTime.ToEpochMilli()
  }

  /** The order is open and its command has not been sent. */
  predicate AwaitsVerdict(d: DelayState) {
    Open(d.snapshot.status) && !d.delaySmsEmitted
  }

  /** The state is there, and less than the TTL has passed since it was written. */
  predicate Live(ttl: nat, cell: Cell, now: int) {
    cell.Held? && now - cell.lastWrite < ttl
  }

  /** The command that announces the delay of the shown order at the given millisecond. */
  predicate Announces(cmd: SmsCommand, s: Snapshot, now: int) {
    && cmd.orderId == s.orderId && cmd.commandId == s.orderId + ":DELAY_SMS"
    && cmd.customerId == s.customerId && cmd.storeId == s.storeId
    && cmd.expectedDeliveryTime == s.expectedDeliveryTime && cmd.createdAt.nanos == now * 1_000_000
    && cmd.commandType == "SEND_DELAY_SMS" && cmd.reason == "ORDER_DELAYED" && cmd.schemaVersion == 1
  }

  // ---------------------------------------------------------------------------------------------
  // One message, one timer
  // ---------------------------------------------------------------------------------------------

  /** The message is older than the live state. */
  predicate Outdated(ttl: nat, ks: KeyState, x: OrderState, now: int) {
    && HasAllFields(x) && Live(ttl, ks.cell, now)
    && x.lastUpdatedAt.value.nanos < ks.cell.state.snapshot.lastUpdatedAt.nanos
  }

  predicate Accepted(ttl: nat, ks: KeyState, x: OrderState, now: int) {
    HasAllFields(x) && !Outdated(ttl, ks, x, now)
  }

  /** The timer that the state has registered, if any. */
  function Registered(d: DelayState): set<int> {
    if d.registeredTimerTime == None then {} else {d.registeredTimerTime.value}
  }

  /** A state that has taken over a message, with the timers as they were, becomes ks and yields out. */
  predicate Decided(d: DelayState, timers: set<int>, now: int, ks: KeyState, out: seq<SmsCommand>) {
    && ks.cell.Held? && ks.cell.lastWrite == now && ks.cell.state.snapshot == d.snapshot
    && var eta := EtaOf(d);
       if !Open(d.snapshot.status) then
         && out == [] && ks.cell.state.delaySmsEmitted == d.delaySmsEmitted
         && ks.cell.state.registeredTimerTime == None && ks.timers == timers - Registered(d)
       else if d.delaySmsEmitted then
         out == [] && ks.cell.state == d && ks.timers == timers
       else if eta <= now then
         && |out| == 1 && Announces(out[0], d.snapshot, now) && ks.cell.state.delaySmsEmitted
         && ks.cell.state.registeredTimerTime == None && ks.timers == timers - Registered(d)
       else
         && out == [] && !ks.cell.state.delaySmsEmitted && ks.cell.state.registeredTimerTime == Some(eta)
         && ks.timers == if Registered(d) == {eta} then timers else timers - Registered(d) + {eta}
  }

  /** A message takes the keyed state from one value to another and yields out. */
  predicate Answered(ttl: nat, before: KeyState, x: OrderState, now: int, after: KeyState, out: seq<SmsCommand>) {
    if !Accepted(ttl, before, x, now) then
      after == before && out == []
    else
      && after.cell.Held? && Shows(after.cell.state.snapshot, x)
      && var live := Live(ttl, before.cell, now);
         var d := DelayState(after.cell.state.snapshot,
                             live && before.cell.state.delaySmsEmitted,
                             if live then before.cell.state.registeredTimerTime else None);
         Decided(d, before.timers, now, after, out)
  }

  /** A timer fires only for a live order that awaits its verdict and whose ETA it has reached. */
  predicate Fires(ttl: nat, ks: KeyState, timestamp: int, now: int) {
    Live(ttl, ks.cell, now) && AwaitsVerdict(ks.cell.state) && EtaOf(ks.cell.state) <= timestamp
  }

  /** A timer takes the keyed state from one value to another and yields out. */
  predicate Fired(ttl: nat, before: KeyState, timestamp: int, now: int, after: KeyState, out: seq<SmsCommand>) {
    if !Fires(ttl, before, timestamp, now) then
      after == before && out == []
    else
      && |out| == 1 && Announces(out[0], before.cell.state.snapshot, now)
      && after == KeyState(Held(DelayState(before.cell.state.snapshot, true, None), now), before.timers)
  }

  /** The reactions of Detector.dfy are the ones required. */
  lemma DecideIsDecided(d: DelayState, timers: set<int>, now: int)
    ensures Decided(d, timers, now, Decide(d, timers, now).next, Decide(d, timers, now).out)
  {
  }

  lemma OnElementIsAnswered(ttl: nat, ks: KeyState, x: OrderState, now: int)
    ensures Answered(ttl, ks, x, now, OnElement(ttl, ks, x, now).next, OnElement(ttl, ks, x, now).out)
    ensures OnElement(ttl, ks, x, now).outcome == Stale <==> Outdated(ttl, ks, x, now)
  {
    if Accepted(ttl, ks, x, now) {
      DecideIsDecided(Merge(x.ToSnapshot(), Read(ttl, ks.cell, now)), ks.timers, now);
    }
  }

  lemma OnTimerIsFired(ttl: nat, ks: KeyState, timestamp: int, now: int)
    ensures Fired(ttl, ks, timestamp, now, OnTimer(ttl, ks, timestamp, now).next, OnTimer(ttl, ks, timestamp, now).out)
  {
  }
}
