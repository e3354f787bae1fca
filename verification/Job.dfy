/** The whole job: many orders, one clock, one output log, one checkpoint for all of them. Messages of
    one order keep their order; messages of different orders may interleave anyhow, and differently
    again after a replay. */
module Job {
  import opened Domain
  import opened Detector
  import opened Reference
  import opened KeyRun
  import opened Emissions
  import Polling
  import Soundness

  datatype Keyed = Keyed(ks: KeyState, pos: nat)

  datatype Topology = Topology(ttl: nat, inputs: map<string, seq<OrderState>>) {
    function For(key: string): Config {
      Config(key, ttl, if key in inputs then inputs[key] else [])
    }

    /** keyBy: a message reaches the state of its own order. */
    ghost predicate WellKeyed() {
      forall key :: For(key).WellKeyed()
    }
  }

  datatype JobState = JobState(
    keys: map<string, Keyed>,
    clock: int,
    log: seq<SmsCommand>,
    saved: Option<map<string, Keyed>>,
    restores: nat)

  /** Events and timers concern one order; time, checkpoints and crashes concern all. */
  datatype JobStep = OnKey(key: string, step: Step) | Everywhere(step: Step) {
    predicate WellFormed() {
      match this
      case OnKey(_, st) => st.Event? || st.Fire?
      case Everywhere(st) => !st.Event? && !st.Fire?
    }
  }

  function At(keys: map<string, Keyed>, key: string): Keyed {
    if key in keys then keys[key] else Keyed(KeyState(Empty, {}), 0)
  }

  function Start(clock: int): JobState {
    JobState(map[], clock, [], None, 0)
  }

  predicate JobEnabled(t: Topology, j: JobState, s: JobStep) {
    && s.WellFormed()
    && match s
       case OnKey(key, Fire(at)) => at in At(j.keys, key).ks.timers && at <= j.clock
       case OnKey(key, _) => At(j.keys, key).pos < |t.For(key).input|
       case Everywhere(Restore) => j.saved.Some?
       case Everywhere(_) => true
  }

  /** How the order's state answers an enabled event or timer. */
  function ReactionTo(t: Topology, j: JobState, key: string, st: Step): Reaction
    requires JobEnabled(t, j, OnKey(key, st))
  {
    var e := At(j.keys, key);
    if st.Fire? then OnTimer(t.ttl, e.ks.(timers := e.ks.timers - {st.t}), st.t, j.clock)
    else OnElement(t.ttl, e.ks, t.For(key).input[e.pos], j.clock)
  }

  function JobNext(t: Topology, j: JobState, s: JobStep): JobState
    requires JobEnabled(t, j, s)
  {
    match s
    case OnKey(key, st) =>
      var r := ReactionTo(t, j, key, st);
      var pos := At(j.keys, key).pos + if st.Event? then 1 else 0;
      j.(keys := j.keys[key := Keyed(r.next, pos)], log := j.log + r.out)
    case Everywhere(Tick(d)) => j.(clock := j.clock + d)
    case Everywhere(Restore) => j.(keys := j.saved.value, restores := j.restores + 1)
    case Everywhere(_) => j.(saved := Some(j.keys))
  }

  predicate JobLegal(t: Topology, j: JobState, steps: seq<JobStep>)
    decreases |steps|
  {
    steps == [] || (JobEnabled(t, j, steps[0]) && JobLegal(t, JobNext(t, j, steps[0]), steps[1..]))
  }

  function JobRun(t: Topology, j: JobState, steps: seq<JobStep>): JobState
    requires JobLegal(t, j, steps)
    decreases |steps|
  {
    if steps == [] then j else JobRun(t, JobNext(t, j, steps[0]), steps[1..])
  }

  // ---------------------------------------------------------------------------------------------
  // One order's view of the job
  // ---------------------------------------------------------------------------------------------

  function LogOf(log: seq<SmsCommand>, key: string): seq<SmsCommand> {
    if log == [] then []
    else LogOf(log[..|log| - 1], key) + (if log[|log| - 1].orderId == key then [log[|log| - 1]] else [])
  }

  function View(j: JobState, key: string): Machine {
    Machine(At(j.keys, key).ks, At(j.keys, key).pos, j.clock, LogOf(j.log, key),
            if j.saved.Some? then Some(Saved(At(j.saved.value, key).ks, At(j.saved.value, key).pos)) else None,
            j.restores)
  }

  function StepsOf(steps: seq<JobStep>, key: string): seq<Step> {
    if steps == [] then []
    else
      var rest := StepsOf(steps[1..], key);
      match steps[0]
      case OnKey(k, st) => if k == key then [st] + rest else rest
      case Everywhere(st) => [st] + rest
  }

  /** Every state sits under the id of its own order. */
  ghost predicate Tidy(keys: map<string, Keyed>) {
    forall key :: key in keys && keys[key].ks.cell.Held? ==> keys[key].ks.cell.state.snapshot.orderId == key
  }

  ghost predicate TidyInv(j: JobState) {
    && Tidy(j.keys)
    && (j.saved.Some? ==> Tidy(j.saved.value))
    && (forall i :: 0 <= i < |j.log| ==> j.log[i].commandId == CommandId(j.log[i].orderId))
  }

  lemma ReactionsStayInTheirOrder(t: Topology, j: JobState, key: string, st: Step)
    requires t.WellKeyed() && TidyInv(j) && JobEnabled(t, j, OnKey(key, st))
    ensures
      var m, m' := View(j, key), Next(t.For(key), View(j, key), st);
      var r := ReactionTo(t, j, key, st);
      && r.next == m'.ks && m'.log == m.log + r.out && |r.out| <= 1
      && (m'.ks.cell.Held? ==> m'.ks.cell.state.snapshot.orderId == key)
      && (r.out != [] ==> r.out[0].orderId == key && r.out[0].commandId == CommandId(key))
  {
    assert t.For(key).WellKeyed();
  }

  lemma LogOfAppend(log: seq<SmsCommand>, out: seq<SmsCommand>, key: string, other: string)
    requires |out| <= 1 && (out != [] ==> out[0].orderId == key)
    ensures LogOf(log + out, other) == if other == key then LogOf(log, other) + out else LogOf(log, other)
  {
    if out == [] {
      assert log + out == log && LogOf(log, other) + out == LogOf(log, other);
    } else {
      assert (log + out)[..|log + out| - 1] == log && out == [out[0]];
    }
  }

  lemma TidyStep(t: Topology, j: JobState, s: JobStep)
    requires t.WellKeyed() && TidyInv(j) && JobEnabled(t, j, s)
    ensures TidyInv(JobNext(t, j, s))
  {
    if s.OnKey? {
      ReactionsStayInTheirOrder(t, j, s.key, s.step);
    }
  }

  lemma ProjectStep(t: Topology, j: JobState, s: JobStep, key: string)
    requires t.WellKeyed() && TidyInv(j) && JobEnabled(t, j, s)
    ensures (s.Everywhere? || s.key == key) ==>
              Enabled(t.For(key), View(j, key), s.step) &&
              View(JobNext(t, j, s), key) == Next(t.For(key), View(j, key), s.step)
    ensures s.OnKey? && s.key != key ==> View(JobNext(t, j, s), key) == View(j, key)
  {
    if s.OnKey? {
      ReactionsStayInTheirOrder(t, j, s.key, s.step);
      LogOfAppend(j.log, ReactionTo(t, j, s.key, s.step).out, s.key, key);
    }
  }

  /** Key projection: for every interleaving over any number of orders, what one order's state, timers,
      input position, checkpoint and commands go through is the single-order run over the steps that
      concern it. */
  lemma {:induction false} KeyProjection(t: Topology, j: JobState, steps: seq<JobStep>, key: string)
    requires t.WellKeyed() && TidyInv(j) && JobLegal(t, j, steps)
    ensures Legal(Regime(false, false, false), t.For(key), View(j, key), StepsOf(steps, key))
    ensures View(JobRun(t, j, steps), key) == Run(t.For(key), View(j, key), StepsOf(steps, key))
    ensures TidyInv(JobRun(t, j, steps))
    decreases |steps|
  {
    if steps == [] {
    } else {
      var s := steps[0];
      TidyStep(t, j, s);
      ProjectStep(t, j, s, key);
      KeyProjection(t, JobNext(t, j, s), steps[1..], key);
      if s.Everywhere? || s.key == key {
        assert StepsOf(steps, key)[0] == s.step && StepsOf(steps, key)[1..] == StepsOf(steps[1..], key);
      }
    }
  }

  /** Two jobs with any other orders between them, over schedules that agree on this order's events, fires,
      checkpoints and crashes and on the clock values at which they happen, give it the same state,
      position and commands. */
  lemma OtherOrdersInvisible(t: Topology, t': Topology, clock: int, clock': int, steps: seq<JobStep>,
                             steps': seq<JobStep>, key: string)
    requires t.WellKeyed() && t'.WellKeyed() && t.For(key) == t'.For(key)
    requires JobLegal(t, Start(clock), steps) && JobLegal(t', Start(clock'), steps')
    requires TimedSteps(clock, StepsOf(steps, key)) == TimedSteps(clock', StepsOf(steps', key))
    ensures LogOf(JobRun(t, Start(clock), steps).log, key) == LogOf(JobRun(t', Start(clock'), steps').log, key)
    ensures At(JobRun(t, Start(clock), steps).keys, key) == At(JobRun(t', Start(clock'), steps').keys, key)
  {
    KeyProjection(t, Start(clock), steps, key);
    KeyProjection(t', Start(clock'), steps', key);
    OnlyClockValuesCount(t.For(key), View(Start(clock), key), View(Start(clock'), key), StepsOf(steps, key),
                         StepsOf(steps', key));
    var j, j' := JobRun(t, Start(clock), steps), JobRun(t', Start(clock'), steps');
    assert SameButForClock(View(j, key), View(j', key));
    assert At(j.keys, key) == Keyed(View(j, key).ks, View(j, key).pos);
  }

  /** The job run belongs to a regime when every order's part of it does. */
  ghost predicate JobWithin(g: Regime, t: Topology, clock: int, steps: seq<JobStep>) {
    JobLegal(t, Start(clock), steps) &&
    forall key :: Legal(g, t.For(key), Init(clock), StepsOf(steps, key))
  }

  /** What was proved for the runs of a single order. */
  ghost predicate Guaranteed(g: Regime, c: Config, clock: int, steps: seq<Step>) {
    var m, naive := Run(c, Init(clock), steps), Polling.NaiveRun(c, Polling.NaiveInit(clock), steps);
    && (Live(c.ttl, m.ks.cell, m.clock) ==> Covered(m.ks.cell.state, m.ks.timers))
    && GapsKept(c, Init(clock), steps)
    && |m.log| <= (1 + m.restores) * ActiveFrom(c.input, 0)
    && Soundness.AllHaveSources(c, Init(clock), steps)
    && (g.unexpired ==>
          && |m.log| <= 1 + m.restores
          && Exact(m.ks)
          && Soundness.AllHaveWinners(c, Init(clock), steps)
          && Polling.NeverEarlier(naive.log, m.log)
          && (g.prompt && Quiet(m) ==> m.log == naive.log))
  }

  lemma OrderGuarantees(g: Regime, c: Config, clock: int, steps: seq<Step>)
    requires Legal(g, c, Init(clock), steps)
    ensures Guaranteed(g, c, clock, steps)
  {
    Coverage(g, c, clock, steps);
    TtlGap(g, c, Init(clock), steps);
    WithinAllKept(g, c, Init(clock), steps);
    Soundness.CommandsSpeakForReadMessages(g, c, clock, steps);
    if g.unexpired {
      AtMostOnePlusRestores(g, c, clock, steps);
      TimersExact(g, c, Init(clock), steps);
      Soundness.CommandsAreSound(g, c, clock, steps);
      Polling.LateTimersNeverEarly(g, c, clock, steps);
      if g.prompt && Quiet(Run(c, Init(clock), steps)) {
        Polling.TimersRefinePolling(g, c, clock, steps);
      }
    }
  }

  /** Every order of a running job enjoys what was proved for a single one. */
  lemma JobGuarantees(g: Regime, t: Topology, clock: int, steps: seq<JobStep>, key: string)
    requires t.WellKeyed() && JobWithin(g, t, clock, steps)
    ensures View(JobRun(t, Start(clock), steps), key) == Run(t.For(key), Init(clock), StepsOf(steps, key))
    ensures Guaranteed(g, t.For(key), clock, StepsOf(steps, key))
  {
    assert View(Start(clock), key) == Init(clock);
    KeyProjection(t, Start(clock), steps, key);
    OrderGuarantees(g, t.For(key), clock, StepsOf(steps, key));
  }

  // ---------------------------------------------------------------------------------------------
  // Downstream deduplication
  // ---------------------------------------------------------------------------------------------

  predicate HasId(log: seq<SmsCommand>, id: string) {
    exists i :: 0 <= i < |log| && log[i].commandId == id
  }

  /** What the SMS service acts on: the first command of each commandId. */
  function Delivered(log: seq<SmsCommand>): seq<SmsCommand> {
    if log == [] then []
    else
      var init := log[..|log| - 1];
      if HasId(init, log[|log| - 1].commandId) then Delivered(init) else Delivered(init) + [log[|log| - 1]]
  }

  predicate IdsDerived(log: seq<SmsCommand>) {
    forall i :: 0 <= i < |log| ==> log[i].commandId == CommandId(log[i].orderId)
  }

  lemma HasIdSnoc(init: seq<SmsCommand>, last: SmsCommand, id: string)
    ensures HasId(init + [last], id) <==> HasId(init, id) || last.commandId == id
  {
    var log := init + [last];
    if HasId(init, id) {
      var i :| 0 <= i < |init| && init[i].commandId == id;
      assert log[i].commandId == id;
    } else if last.commandId == id {
      assert log[|init|].commandId == id;
    }
  }

  lemma {:induction false} LogOfEmpty(log: seq<SmsCommand>, key: string)
    requires IdsDerived(log)
    ensures LogOf(log, key) != [] <==> HasId(log, CommandId(key))
  {
    if log == [] {
    } else {
      var init, last := log[..|log| - 1], log[|log| - 1];
      assert log == init + [last];
      LogOfEmpty(init, key);
      CommandIdInjective(last.orderId, key);
      HasIdSnoc(init, last, CommandId(key));
    }
  }

  /** Keeping the first of each commandId keeps exactly the first command of each order: one per
      notified order, and no order loses its command to another. */
  lemma {:induction false} DeliveredKeepsFirst(log: seq<SmsCommand>, key: string)
    requires IdsDerived(log)
    ensures LogOf(Delivered(log), key) == if LogOf(log, key) == [] then [] else [LogOf(log, key)[0]]
  {
    if log == [] {
    } else {
      var init, last := log[..|log| - 1], log[|log| - 1];
      DeliveredKeepsFirst(init, key);
      LogOfEmpty(init, last.orderId);
      if !HasId(init, last.commandId) {
        LogOfAppend(Delivered(init), [last], last.orderId, key);
      }
    }
  }

  /** Whatever expired, fired late or crashed, what the SMS service acts on is exactly the first command
      of each order that has one. */
  lemma ActedOnOnce(t: Topology, clock: int, steps: seq<JobStep>, key: string)
    requires t.WellKeyed() && JobLegal(t, Start(clock), steps)
    ensures
      var log := JobRun(t, Start(clock), steps).log;
      LogOf(Delivered(log), key) == if LogOf(log, key) == [] then [] else [LogOf(log, key)[0]]
  {
    KeyProjection(t, Start(clock), steps, key);
    DeliveredKeepsFirst(JobRun(t, Start(clock), steps).log, key);
  }

  /** Crash safety of the job: over every run without expiry the raw log holds at most one command per
      order more than there were restores, and the SMS service acts on exactly one of them, which was
      emitted for the active winner of the order's messages read by then. */
  lemma CrashSafety(g: Regime, t: Topology, clock: int, steps: seq<JobStep>, key: string)
    requires t.WellKeyed() && g.unexpired && JobWithin(g, t, clock, steps)
    ensures
      var j := JobRun(t, Start(clock), steps);
      var raw, acted := LogOf(j.log, key), LogOf(Delivered(j.log), key);
      && |raw| <= 1 + j.restores
      && (raw == [] ==> acted == [])
      && raw == Run(t.For(key), Init(clock), StepsOf(steps, key)).log
      && (raw != [] ==>
            acted == [raw[0]] && Soundness.HasWinner(t.For(key), Init(clock), StepsOf(steps, key), 0))
  {
    JobGuarantees(g, t, clock, steps, key);
    ActedOnOnce(t, clock, steps, key);
  }
}
