/** The detector's reaction to one event or one timer, as a function of one order's keyed state.
    The classes in Operator.dfy are proved to compute exactly these reactions. */
module Detector {
  import opened Domain

  /** One order's value state together with the time of its last write. */
  datatype Cell = Empty | Held(state: DelayState, lastWrite: int)

  /** Everything the runtime keeps for one order. Registering a time twice is one timer. */
  datatype KeyState = KeyState(cell: Cell, timers: set<int>)

  datatype Outcome = Invalid | Stale | Terminal | AlreadyNotified | Emitted | Armed | TimerIgnored

  datatype Reaction = Reaction(next: KeyState, out: seq<SmsCommand>, outcome: Outcome)

  /** NeverReturnExpired: a value is invisible once its last write is ttl or more in the past. */
  predicate Visible(ttl: nat, cell: Cell, now: int) {
    cell.Held? && now < cell.lastWrite + ttl
  }

  function Read(ttl: nat, cell: Cell, now: int): Option<DelayState> {
    if Visible(ttl, cell, now) then Some(cell.state) else None
  }

  predicate IsStaleUpdate(incoming: Snapshot, current: DelayState) {
    incoming.lastUpdatedAt.IsBefore(current.snapshot.lastUpdatedAt)
  }

  /** fromOrderState or updateFrom: the flag and the timer field survive an update. */
  function Merge(incoming: Snapshot, current: Option<DelayState>): DelayState {
    match current
    case None => DelayState(incoming, false, None)
    case Some(d) => d.(snapshot := incoming)
  }

  /** The pending timers after deleting the registered one, if any. */
  function WithoutRegistered(timers: set<int>, d: DelayState): set<int> {
    match d.registeredTimerTime
    case None => timers
    case Some(t) => timers - {t}
  }

  function Emit(d: DelayState, timers: set<int>, now: int): Reaction {
    Reaction(
      KeyState(Held(d.(delaySmsEmitted := true, registeredTimerTime := None), now), timers),
      [DelaySms(d.snapshot, Instant.OfEpochMilli(now))],
      Emitted)
  }

  function Arm(d: DelayState, timers: set<int>, now: int): Reaction {
    var due := d.snapshot.Due();
    var timers' := if d.registeredTimerTime == Some(due) then timers
                   else WithoutRegistered(timers, d) + {due};
    Reaction(KeyState(Held(d.(registeredTimerTime := Some(due)), now), timers'), [], Armed)
  }

  /** What an accepted snapshot leads to. */
  function Decide(d: DelayState, timers: set<int>, now: int): Reaction {
    if d.snapshot.status.IsTerminal() then
      Reaction(KeyState(Held(d.(registeredTimerTime := None), now), WithoutRegistered(timers, d)), [], Terminal)
    else if d.delaySmsEmitted then
      Reaction(KeyState(Held(d, now), timers), [], AlreadyNotified)
    else if d.snapshot.Due() <= now then
      Emit(d, WithoutRegistered(timers, d), now)
    else
      Arm(d, timers, now)
  }

  function OnElement(ttl: nat, ks: KeyState, incoming: OrderState, now: int): Reaction {
    if !incoming.IsValid() then
      Reaction(ks, [], Invalid)
    else
      var snapshot := incoming.ToSnapshot();
      var current := Read(ttl, ks.cell, now);
      if current.Some? && IsStaleUpdate(snapshot, current.value) then
        Reaction(ks, [], Stale)
      else
        Decide(Merge(snapshot, current), ks.timers, now)
  }

  /** The runtime has already removed the timer that fires. */
  function OnTimer(ttl: nat, ks: KeyState, timestamp: int, now: int): Reaction {
    var current := Read(ttl, ks.cell, now);
    if current.Some? && current.value.Waiting() && current.value.snapshot.Due() <= timestamp then
      Emit(current.value, ks.timers, now)
    else
      Reaction(ks, [], TimerIgnored)
  }
}
