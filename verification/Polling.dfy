/** The detector against a naive one that has no timers and rescans the order after every step. */
module Polling {
  import opened Domain
  import opened Detector
  import opened Reference
  import opened KeyRun
  import opened Emissions

  datatype Seen = Seen(latest: Option<Snapshot>, notified: bool)

  datatype Naive = Naive(
    seen: Seen,
    pos: nat,
    clock: int,
    log: seq<SmsCommand>,
    saved: Option<(Seen, nat)>)

  function NaiveInit(clock: int): Naive {
    Naive(Seen(None, false), 0, clock, [], None)
  }

  /** Emit once when the order is active and its ETA has passed. */
  function Scan(n: Naive): Naive {
    if n.seen.latest.Some? && Open(n.seen.latest.value.status) && !n.seen.notified &&
       n.seen.latest.value.expectedDeliveryTime.ToEpochMilli() <= n.clock
    then n.(seen := n.seen.(notified := true),
            log := n.log + [DelaySms(n.seen.latest.value, Instant.OfEpochMilli(n.clock))])
    else n
  }

  function Observe(seen: Seen, x: OrderState): Seen {
    if !HasAllFields(x) then seen
    else if seen.latest.Some? && x.lastUpdatedAt.value.nanos < seen.latest.value.lastUpdatedAt.nanos then seen
    else seen.(latest := Some(x.ToSnapshot()))
  }

  /** The naive detector has no timers: Fire passes it by. */
  function NaiveNext(c: Config, n: Naive, st: Step): Naive {
    match st
    case Event =>
      if n.pos < |c.input| then Scan(n.(seen := Observe(n.seen, c.input[n.pos]), pos := n.pos + 1)) else n
    case Fire(_) => n
    case Tick(d) => Scan(n.(clock := n.clock + d))
    case Checkpoint => n.(saved := Some((n.seen, n.pos)))
    case Restore =>
      if n.saved.Some? then Scan(n.(seen := n.saved.value.0, pos := n.saved.value.1)) else n
  }

  function NaiveRun(c: Config, n: Naive, steps: seq<Step>): Naive
    decreases |steps|
  {
    if steps == [] then n else NaiveRun(c, NaiveNext(c, n, steps[0]), steps[1..])
  }

  predicate Overdue(ks: KeyState, clock: int) {
    ks.cell.Held? && AwaitsVerdict(ks.cell.state) && EtaOf(ks.cell.state) <= clock
  }

  function LatestOf(ks: KeyState): Option<Snapshot> {
    if ks.cell.Held? then Some(ks.cell.state.snapshot) else None
  }

  function SeenBy(ks: KeyState): Seen {
    Seen(LatestOf(ks), Notified(ks))
  }

  // ---------------------------------------------------------------------------------------------
  // Prompt timers: the same log
  // ---------------------------------------------------------------------------------------------

  /** While a due timer is still to fire, the naive detector is exactly one command ahead. */
  predicate Lockstep(m: Machine, n: Naive) {
    && m.pos == n.pos && m.clock == n.clock
    && LatestOf(m.ks) == n.seen.latest
    && (if Overdue(m.ks, m.clock)
        then n.seen.notified &&
             n.log == m.log + [DelaySms(m.ks.cell.state.snapshot, Instant.OfEpochMilli(m.clock))]
        else n.seen.notified == Notified(m.ks) && n.log == m.log)
    && m.saved.Some? == n.saved.Some?
    && (m.saved.Some? ==> n.saved.value == (SeenBy(m.saved.value.ks), m.saved.value.pos))
  }

  /** A fresh state with no due timer left, and what the naive detector makes of the same message. */
  lemma LockstepReaction(c: Config, ks: KeyState, x: OrderState, n: Naive)
    requires Exact(ks) && !Overdue(ks, n.clock) && n.seen == SeenBy(ks)
    requires ks.cell.Empty? || Live(c.ttl, ks.cell, n.clock)
    ensures
      var r, n' := OnElement(c.ttl, ks, x, n.clock), Scan(n.(seen := Observe(n.seen, x)));
      !Overdue(r.next, n.clock) && n'.seen == SeenBy(r.next) && n'.log == n.log + r.out
  {
  }

  lemma LockstepEvent(g: Regime, c: Config, m: Machine, n: Naive)
    requires g.unexpired && g.prompt && ExactInv(m) && Lockstep(m, n) && Admits(g, c, m, Event)
    ensures Lockstep(Next(c, m, Event), NaiveNext(c, n, Event))
  {
    assert !Overdue(m.ks, m.clock);
    LockstepReaction(c, m.ks, c.input[m.pos], n);
  }

  lemma LockstepStep(g: Regime, c: Config, m: Machine, n: Naive, st: Step)
    requires g.unexpired && g.prompt && ExactInv(m) && Lockstep(m, n) && Admits(g, c, m, st)
    ensures Lockstep(Next(c, m, st), NaiveNext(c, n, st))
  {
    if st.Event? {
      LockstepEvent(g, c, m, n);
    } else if !st.Fire? {
      assert !Overdue(m.ks, m.clock);
    }
  }

  lemma {:induction false} LockstepKept(g: Regime, c: Config, m: Machine, n: Naive, steps: seq<Step>)
    requires g.unexpired && g.prompt && ExactInv(m) && Lockstep(m, n) && Legal(g, c, m, steps)
    ensures Lockstep(Run(c, m, steps), NaiveRun(c, n, steps)) && ExactInv(Run(c, m, steps))
    decreases |steps|
  {
    if steps == [] {
    } else {
      ExactStep(g, c, m, steps[0]);
      LockstepStep(g, c, m, n, steps[0]);
      LockstepKept(g, c, Next(c, m, steps[0]), NaiveNext(c, n, steps[0]), steps[1..]);
    }
  }

  /** Timers refine polling: over every run without expiry in which due timers fire before anything
      else, crashes between quiet moments included, the log is that of the naive detector as soon as
      no due timer is left to fire. */
  lemma TimersRefinePolling(g: Regime, c: Config, clock: int, steps: seq<Step>)
    requires g.unexpired && g.prompt && Legal(g, c, Init(clock), steps)
    requires Quiet(Run(c, Init(clock), steps))
    ensures Run(c, Init(clock), steps).log == NaiveRun(c, NaiveInit(clock), steps).log
  {
    LockstepKept(g, c, Init(clock), NaiveInit(clock), steps);
  }

  // ---------------------------------------------------------------------------------------------
  // Late timers: a subset, and never earlier
  // ---------------------------------------------------------------------------------------------

  /** Whatever the second log holds, the first starts at or before it. */
  predicate NeverEarlier(naive: seq<SmsCommand>, log: seq<SmsCommand>) {
    forall k :: 0 <= k < |log| ==> naive != [] && EmittedAt(naive[0]) <= EmittedAt(log[k])
  }

  predicate Behind(m: Machine, n: Naive) {
    && m.pos == n.pos && m.clock == n.clock
    && LatestOf(m.ks) == n.seen.latest
    && (Notified(m.ks) || Overdue(m.ks, m.clock) ==> n.seen.notified)
    && m.saved.Some? == n.saved.Some?
    && (m.saved.Some? ==>
          && n.saved.value.0.latest == LatestOf(m.saved.value.ks)
          && n.saved.value.1 == m.saved.value.pos
          && (Notified(m.saved.value.ks) ==> n.saved.value.0.notified))
  }

  /** The logs of the two detectors so far. */
  predicate LogsBehind(m: Machine, n: Naive) {
    && (n.seen.notified ==> n.log != [])
    && (n.saved.Some? && n.saved.value.0.notified ==> n.log != [])
    && (n.log != [] ==> EmittedAt(n.log[0]) <= m.clock)
    && NeverEarlier(n.log, m.log)
  }

  lemma BehindReaction(c: Config, ks: KeyState, x: OrderState, n: Naive)
    requires LatestOf(ks) == n.seen.latest && (Notified(ks) || Overdue(ks, n.clock) ==> n.seen.notified)
    requires ks.cell.Empty? || Live(c.ttl, ks.cell, n.clock)
    ensures
      var r, n' := OnElement(c.ttl, ks, x, n.clock), Scan(n.(seen := Observe(n.seen, x)));
      && LatestOf(r.next) == n'.seen.latest
      && (Notified(r.next) || Overdue(r.next, n.clock) || r.out != [] ==> n'.seen.notified)
  {
  }

  lemma BehindEvent(g: Regime, c: Config, m: Machine, n: Naive)
    requires g.unexpired && ExactInv(m) && Behind(m, n) && Admits(g, c, m, Event)
    ensures Behind(Next(c, m, Event), NaiveNext(c, n, Event))
    ensures Next(c, m, Event).log != m.log ==> NaiveNext(c, n, Event).seen.notified
  {
    BehindReaction(c, m.ks, c.input[m.pos], n);
  }

  lemma BehindStep(g: Regime, c: Config, m: Machine, n: Naive, st: Step)
    requires g.unexpired && ExactInv(m) && Behind(m, n) && Admits(g, c, m, st)
    ensures Behind(Next(c, m, st), NaiveNext(c, n, st))
    ensures Next(c, m, st).log != m.log ==> NaiveNext(c, n, st).seen.notified
  {
    if st.Event? {
      BehindEvent(g, c, m, n);
    }
  }

  lemma LogStep(c: Config, m: Machine, st: Step)
    requires Enabled(c, m, st)
    ensures Next(c, m, st).log == m.log ||
            (|Next(c, m, st).log| == |m.log| + 1 && m.log <= Next(c, m, st).log &&
             EmittedAt(Next(c, m, st).log[|m.log|]) == m.clock)
  {
  }

  lemma NaiveLogStep(g: Regime, c: Config, m: Machine, n: Naive, st: Step)
    requires Behind(m, n) && LogsBehind(m, n) && Admits(g, c, m, st)
    ensures
      var n' := NaiveNext(c, n, st);
      && n.log <= n'.log
      && (n'.seen.notified ==> n'.log != [])
      && (n'.saved.Some? && n'.saved.value.0.notified ==> n'.log != [])
      && (n'.log != [] ==> EmittedAt(n'.log[0]) <= Next(c, m, st).clock)
      && ((st.Event? || st.Fire?) && n'.log != [] ==> EmittedAt(n'.log[0]) <= m.clock)
  {
  }

  lemma LogsBehindStep(g: Regime, c: Config, m: Machine, n: Naive, st: Step)
    requires g.unexpired && ExactInv(m) && Behind(m, n) && LogsBehind(m, n) && Admits(g, c, m, st)
    ensures LogsBehind(Next(c, m, st), NaiveNext(c, n, st))
  {
    var m', n' := Next(c, m, st), NaiveNext(c, n, st);
    BehindStep(g, c, m, n, st);
    LogStep(c, m, st);
    NaiveLogStep(g, c, m, n, st);
    forall k | 0 <= k < |m'.log| ensures n'.log != [] && EmittedAt(n'.log[0]) <= EmittedAt(m'.log[k]) {
      if k < |m.log| {
        assert m'.log[k] == m.log[k];
      }
    }
  }

  lemma {:induction false} BehindKept(g: Regime, c: Config, m: Machine, n: Naive, steps: seq<Step>)
    requires g.unexpired && ExactInv(m) && Behind(m, n) && LogsBehind(m, n) && Legal(g, c, m, steps)
    ensures LogsBehind(Run(c, m, steps), NaiveRun(c, n, steps))
    decreases |steps|
  {
    if steps == [] {
    } else {
      ExactStep(g, c, m, steps[0]);
      BehindStep(g, c, m, n, steps[0]);
      LogsBehindStep(g, c, m, n, steps[0]);
      BehindKept(g, c, Next(c, m, steps[0]), NaiveNext(c, n, steps[0]), steps[1..]);
    }
  }

  /** However late timers fire and wherever crashes strike, an order the operator notifies is notified
      by the naive detector too, and every command comes no earlier than the naive detector's first. */
  lemma LateTimersNeverEarly(g: Regime, c: Config, clock: int, steps: seq<Step>)
    requires g.unexpired && Legal(g, c, Init(clock), steps)
    ensures NeverEarlier(NaiveRun(c, NaiveInit(clock), steps).log, Run(c, Init(clock), steps).log)
  {
    BehindKept(g, c, Init(clock), NaiveInit(clock), steps);
  }

  /** The naive detector is itself sane: without a restore it emits at most once per order. */
  lemma {:induction false} NaiveEmitsOnce(c: Config, n: Naive, steps: seq<Step>)
    requires Restore !in steps
    requires |n.log| == if n.seen.notified then 1 else 0
    ensures |NaiveRun(c, n, steps).log| <= 1
    decreases |steps|
  {
    if steps == [] {
    } else {
      assert steps[0] in steps && forall st :: st in steps[1..] ==> st in steps;
      NaiveEmitsOnce(c, NaiveNext(c, n, steps[0]), steps[1..]);
    }
  }
}
