/** Runs of one order: its partition of the input, its keyed state, the shared clock, the output log,
    and the last completed checkpoint. A crash restores the checkpoint and the input position; it
    rolls back neither the clock nor the log. */
module KeyRun {
  import opened Domain
  import opened Detector
  import opened Reference

  datatype Config = Config(key: string, ttl: nat, input: seq<OrderState>) {
    ghost predicate WellKeyed() {
      forall i :: 0 <= i < |input| ==> input[i].orderId == Some(key)
    }
  }

  datatype Saved = Saved(ks: KeyState, pos: nat)

  datatype Machine = Machine(
    ks: KeyState,
    pos: nat,
    clock: int,
    log: seq<SmsCommand>,
    saved: Option<Saved>,
    restores: nat)

  /** Due timers may fire at any later moment: nothing makes them fire before the next event. */
  datatype Step = Event | Fire(t: int) | Tick(d: nat) | Checkpoint | Restore

  /** What a class of runs promises beyond the steps being enabled.
      unexpired: no step reads a state whose TTL has run out.
      prompt: due timers fire before anything else happens.
      crashFree: no restore. */
  datatype Regime = Regime(unexpired: bool, prompt: bool, crashFree: bool)

  function Init(clock: int): Machine {
    Machine(KeyState(Empty, {}), 0, clock, [], None, 0)
  }

  predicate Enabled(c: Config, m: Machine, st: Step) {
    match st
    case Event => m.pos < |c.input|
    case Fire(t) => t in m.ks.timers && t <= m.clock
    case Tick(_) => true
    case Checkpoint => true
    case Restore => m.saved.Some?
  }

  predicate Fresh(c: Config, m: Machine) {
    m.ks.cell.Empty? || Live(c.ttl, m.ks.cell, m.clock)
  }

  predicate Quiet(m: Machine) {
    forall t :: t in m.ks.timers ==> m.clock < t
  }

  predicate Admits(g: Regime, c: Config, m: Machine, st: Step) {
    && Enabled(c, m, st)
    && (g.unexpired && (st.Event? || st.Fire?) ==> Fresh(c, m))
    && (g.prompt && !st.Fire? ==> Quiet(m))
    && (g.crashFree ==> !st.Restore?)
  }

  function Next(c: Config, m: Machine, st: Step): Machine {
    match st
    case Event =>
      if m.pos < |c.input| then
        var r := OnElement(c.ttl, m.ks, c.input[m.pos], m.clock);
        m.(ks := r.next, pos := m.pos + 1, log := m.log + r.out)
      else m
    case Fire(t) =>
      var r := OnTimer(c.ttl, m.ks.(timers := m.ks.timers - {t}), t, m.clock);
      m.(ks := r.next, log := m.log + r.out)
    case Tick(d) => m.(clock := m.clock + d)
    case Checkpoint => m.(saved := Some(Saved(m.ks, m.pos)))
    case Restore =>
      if m.saved.Some? then
        m.(ks := m.saved.value.ks, pos := m.saved.value.pos, restores := m.restores + 1)
      else m
  }

  predicate Legal(g: Regime, c: Config, m: Machine, steps: seq<Step>)
    decreases |steps|
  {
    steps == [] || (Admits(g, c, m, steps[0]) && Legal(g, c, Next(c, m, steps[0]), steps[1..]))
  }

  function Run(c: Config, m: Machine, steps: seq<Step>): Machine
    decreases |steps|
  {
    if steps == [] then m else Run(c, Next(c, m, steps[0]), steps[1..])
  }

  lemma RunCons(g: Regime, c: Config, m: Machine, st: Step, rest: seq<Step>)
    ensures Run(c, m, [st] + rest) == Run(c, Next(c, m, st), rest)
    ensures Legal(g, c, m, [st] + rest) <==> Admits(g, c, m, st) && Legal(g, c, Next(c, m, st), rest)
  {
    var steps := [st] + rest;
    assert steps[0] == st && steps[1..] == rest;
  }

  lemma {:induction false} RunConcat(g: Regime, c: Config, m: Machine, a: seq<Step>, b: seq<Step>)
    ensures Run(c, m, a + b) == Run(c, Run(c, m, a), b)
    ensures Legal(g, c, m, a + b) <==> Legal(g, c, m, a) && Legal(g, c, Run(c, m, a), b)
    decreases |a|
  {
    if a == [] {
      assert a + b == b;
    } else {
      assert (a + b)[0] == a[0] && (a + b)[1..] == a[1..] + b;
      RunConcat(g, c, Next(c, m, a[0]), a[1..], b);
    }
  }

  /** The schedule restores no checkpoint but its own: any restore comes after its first checkpoint. */
  predicate RestoresOwnCheckpoints(steps: seq<Step>) {
    steps == [] || (!steps[0].Restore? && (steps[0].Checkpoint? || RestoresOwnCheckpoints(steps[1..])))
  }

  /** The clock only moves forward, and the log only grows: a crash rolls back neither. */
  lemma {:induction false} ClockAndLogGrow(c: Config, m: Machine, steps: seq<Step>)
    ensures m.clock <= Run(c, m, steps).clock
    ensures m.log <= Run(c, m, steps).log
    decreases |steps|
  {
    if steps == [] {
    } else {
      ClockAndLogGrow(c, Next(c, m, steps[0]), steps[1..]);
    }
  }

  // ---------------------------------------------------------------------------------------------
  // The timer field of the state and the timer service agree
  // ---------------------------------------------------------------------------------------------

  /** A waiting order has its timer field at its ETA and that very time is pending; any other order
      has no timer field. */
  predicate Covered(d: DelayState, timers: set<int>) {
    if AwaitsVerdict(d)
    then d.registeredTimerTime == Some(EtaOf(d)) && EtaOf(d) in timers
    else d.registeredTimerTime == None
  }

  predicate CoveredIfLive(c: Config, ks: KeyState, clock: int) {
    Live(c.ttl, ks.cell, clock) ==> Covered(ks.cell.state, ks.timers)
  }

  predicate CoverageInv(c: Config, m: Machine) {
    && CoveredIfLive(c, m.ks, m.clock)
    && (m.saved.Some? ==> CoveredIfLive(c, m.saved.value.ks, m.clock))
  }

  lemma CoverageStep(c: Config, m: Machine, st: Step)
    requires CoverageInv(c, m) && Enabled(c, m, st)
    ensures CoverageInv(c, Next(c, m, st))
  {
  }

  lemma {:induction false} CoverageKept(g: Regime, c: Config, m: Machine, steps: seq<Step>)
    requires CoverageInv(c, m) && Legal(g, c, m, steps)
    ensures CoverageInv(c, Run(c, m, steps))
    decreases |steps|
  {
    if steps == [] {
    } else {
      CoverageStep(c, m, steps[0]);
      CoverageKept(g, c, Next(c, m, steps[0]), steps[1..]);
    }
  }

  /** Coverage in every reachable state, whatever expired, fired late or crashed on the way: no live
      waiting order is without its timer. */
  lemma Coverage(g: Regime, c: Config, clock: int, steps: seq<Step>)
    requires Legal(g, c, Init(clock), steps)
    ensures
      var m := Run(c, Init(clock), steps);
      Live(c.ttl, m.ks.cell, m.clock) ==> Covered(m.ks.cell.state, m.ks.timers)
  {
    CoverageKept(g, c, Init(clock), steps);
  }

  /** Without expiry no orphaned timers exist. */
  predicate Exact(ks: KeyState) {
    match ks.cell
    case Empty => ks.timers == {}
    case Held(d, _) =>
      if AwaitsVerdict(d)
      then d.registeredTimerTime == Some(EtaOf(d)) && ks.timers == {EtaOf(d)}
      else d.registeredTimerTime == None && ks.timers == {}
  }

  predicate ExactInv(m: Machine) {
    Exact(m.ks) && (m.saved.Some? ==> Exact(m.saved.value.ks))
  }

  lemma ExactStep(g: Regime, c: Config, m: Machine, st: Step)
    requires g.unexpired && ExactInv(m) && Admits(g, c, m, st)
    ensures ExactInv(Next(c, m, st))
  {
  }

  /** Without expiry the pending set is the singleton of a waiting order's ETA, and empty otherwise. */
  lemma {:induction false} TimersExact(g: Regime, c: Config, m: Machine, steps: seq<Step>)
    requires g.unexpired && ExactInv(m) && Legal(g, c, m, steps)
    ensures ExactInv(Run(c, m, steps))
    decreases |steps|
  {
    if steps == [] {
    } else {
      ExactStep(g, c, m, steps[0]);
      TimersExact(g, c, Next(c, m, steps[0]), steps[1..]);
    }
  }

  // ---------------------------------------------------------------------------------------------
  // When nothing can expire
  // ---------------------------------------------------------------------------------------------

  predicate WrittenSince(m: Machine, start: int) {
    && (m.ks.cell.Held? ==> start <= m.ks.cell.lastWrite)
    && (m.saved.Some? && m.saved.value.ks.cell.Held? ==> start <= m.saved.value.ks.cell.lastWrite)
  }

  lemma WrittenSinceKept(c: Config, m: Machine, st: Step, start: int)
    requires WrittenSince(m, start) && start <= m.clock
    ensures WrittenSince(Next(c, m, st), start)
  {
  }

  lemma {:induction false} YoungStatesStay(g: Regime, c: Config, m: Machine, steps: seq<Step>, start: int)
    requires Legal(g, c, m, steps) && WrittenSince(m, start) && start <= m.clock
    requires Run(c, m, steps).clock < start + c.ttl
    ensures Legal(g.(unexpired := true), c, m, steps)
    decreases |steps|
  {
    if steps == [] {
    } else {
      ClockAndLogGrow(c, m, steps);
      YoungStatesStay(g, c, Next(c, m, steps[0]), steps[1..], start);
    }
  }

  /** A run shorter than the TTL expires nothing, crashes and replays included: what is proved of
      unexpired runs holds for it. */
  lemma ShortRunsDoNotExpire(g: Regime, c: Config, clock: int, steps: seq<Step>)
    requires Legal(g, c, Init(clock), steps) && Run(c, Init(clock), steps).clock < clock + c.ttl
    ensures Legal(g.(unexpired := true), c, Init(clock), steps)
  {
    YoungStatesStay(g, c, Init(clock), steps, clock);
  }

  // ---------------------------------------------------------------------------------------------
  // Only the clock values count
  // ---------------------------------------------------------------------------------------------

  datatype Timed = Timed(clock: int, step: Step)

  /** The steps other than the passing of time, each with the clock at which it happens. */
  function TimedSteps(clock: int, steps: seq<Step>): seq<Timed>
    decreases |steps|
  {
    if steps == [] then []
    else
      match steps[0]
      case Tick(d) => TimedSteps(clock + d, steps[1..])
      case st => [Timed(clock, st)] + TimedSteps(clock, steps[1..])
  }

  predicate SameButForClock(a: Machine, b: Machine) {
    a.(clock := b.clock) == b
  }

  /** However time is cut into ticks, and whatever passes after the last step: runs whose other steps
      happen at the same clock values end with the same state, position, log and checkpoint. */
  lemma {:induction false} OnlyClockValuesCount(c: Config, a: Machine, b: Machine, steps: seq<Step>,
                                                steps': seq<Step>)
    requires SameButForClock(a, b) && TimedSteps(a.clock, steps) == TimedSteps(b.clock, steps')
    ensures SameButForClock(Run(c, a, steps), Run(c, b, steps'))
    decreases |steps| + |steps'|
  {
    if steps != [] && steps[0].Tick? {
      OnlyClockValuesCount(c, Next(c, a, steps[0]), b, steps[1..], steps');
    } else if steps' != [] && steps'[0].Tick? {
      OnlyClockValuesCount(c, a, Next(c, b, steps'[0]), steps, steps'[1..]);
    } else if steps == [] {
    } else {
      var rest, rest' := TimedSteps(a.clock, steps[1..]), TimedSteps(b.clock, steps'[1..]);
      assert TimedSteps(a.clock, steps) == [Timed(a.clock, steps[0])] + rest;
      assert TimedSteps(b.clock, steps') == [Timed(b.clock, steps'[0])] + rest';
      assert ([Timed(a.clock, steps[0])] + rest)[0] == ([Timed(b.clock, steps'[0])] + rest')[0];
      assert ([Timed(a.clock, steps[0])] + rest)[1..] == rest;
      assert ([Timed(b.clock, steps'[0])] + rest')[1..] == rest';
      OnlyClockValuesCount(c, Next(c, a, steps[0]), Next(c, b, steps'[0]), steps[1..], steps'[1..]);
    }
  }
}
