/** The operator class under the runtime that drives it: every run of the mutable operator is a run of
    the machine of KeyRun.dfy, whichever way the state backend hands out its objects. */
module Runtime {
  import opened Domain
  import opened Detector
  import opened Reference
  import opened KeyRun
  import opened Operator

  /** What a run reports besides its commands: the dead letters, and the counters since the last start. */
  datatype Report = Report(dead: seq<DeadLetterEvent>, stale: nat, sent: nat, invalid: nat)

  const NOTHING_YET := Report([], 0, 0, 0)

  /** The report after one more step. Dead letters stay out; a restart begins with new counters. */
  function After(c: Config, m: Machine, st: Step, r: Report): Report {
    match st
    case Event =>
      if m.pos < |c.input| then
        var x := c.input[m.pos];
        if !HasAllFields(x) then
          r.(dead := r.dead + [DeadLetterEvent(x.orderId, x.status)], invalid := r.invalid + 1)
        else
          r.(stale := r.stale + (if Outdated(c.ttl, m.ks, x, m.clock) then 1 else 0),
             sent := r.sent + (|Next(c, m, st).log| - |m.log|))
      else r
    case Fire(_) =>
      r.(sent := r.sent + (|Next(c, m, st).log| - |m.log|))
    case Restore => Report(r.dead, 0, 0, 0)
    case _ => r
  }

  function ReportOf(c: Config, m: Machine, steps: seq<Step>, sofar: Report): Report
    decreases |steps|
  {
    if steps == [] then sofar
    else ReportOf(c, Next(c, m, steps[0]), steps[1..], After(c, m, steps[0], sofar))
  }

  predicate Reads(c: Config, m: Machine, st: Step) {
    st.Event? && m.pos < |c.input|
  }

  /** The messages that the run reads, again after every restore. */
  function ReadsOf(c: Config, m: Machine, steps: seq<Step>): seq<OrderState>
    decreases |steps|
  {
    if steps == [] then []
    else
      var rest := ReadsOf(c, Next(c, m, steps[0]), steps[1..]);
      if Reads(c, m, steps[0]) then [c.input[m.pos]] + rest else rest
  }

  function DeadLetterOf(x: OrderState): seq<DeadLetterEvent> {
    if HasAllFields(x) then [] else [DeadLetterEvent(x.orderId, x.status)]
  }

  /** One dead letter for each message with a missing field, in order. */
  function DeadLettersOf(xs: seq<OrderState>): seq<DeadLetterEvent> {
    if xs == [] then [] else DeadLetterOf(xs[0]) + DeadLettersOf(xs[1..])
  }

  lemma DeadLettersCons(dead: seq<DeadLetterEvent>, x: OrderState, rest: seq<OrderState>)
    ensures dead + DeadLettersOf([x] + rest) == dead + DeadLetterOf(x) + DeadLettersOf(rest)
    ensures |DeadLettersOf([x] + rest)| == |DeadLetterOf(x)| + |DeadLettersOf(rest)|
  {
    var xs := [x] + rest;
    assert xs[0] == x && xs[1..] == rest;
    assert DeadLettersOf(xs) == DeadLetterOf(x) + DeadLettersOf(rest);
  }

  lemma ReportStep(c: Config, m: Machine, st: Step, r: Report)
    ensures After(c, m, st, r).dead == if Reads(c, m, st) then r.dead + DeadLetterOf(c.input[m.pos]) else r.dead
    ensures !st.Restore? ==>
              && After(c, m, st, r).invalid
                 == r.invalid + (if Reads(c, m, st) then |DeadLetterOf(c.input[m.pos])| else 0)
              && After(c, m, st, r).sent == r.sent + |Next(c, m, st).log| - |m.log|
  {
  }

  /** The dead letters of a run are those of the messages it read, replays included. */
  lemma {:induction false} DeadLettersExactly(c: Config, m: Machine, steps: seq<Step>, r: Report)
    ensures ReportOf(c, m, steps, r).dead == r.dead + DeadLettersOf(ReadsOf(c, m, steps))
    decreases |steps|
  {
    if steps == [] {
    } else {
      var m1 := Next(c, m, steps[0]);
      ReportStep(c, m, steps[0], r);
      DeadLettersExactly(c, m1, steps[1..], After(c, m, steps[0], r));
      if Reads(c, m, steps[0]) {
        DeadLettersCons(r.dead, c.input[m.pos], ReadsOf(c, m1, steps[1..]));
      }
    }
  }

  /** Without a restore the counters count the dead letters and the commands. */
  lemma {:induction false} CountersExactly(c: Config, m: Machine, steps: seq<Step>, r: Report)
    requires Restore !in steps
    ensures ReportOf(c, m, steps, r).invalid == r.invalid + |DeadLettersOf(ReadsOf(c, m, steps))|
    ensures ReportOf(c, m, steps, r).sent == r.sent + |Run(c, m, steps).log| - |m.log|
    decreases |steps|
  {
    if steps == [] {
    } else {
      var m1 := Next(c, m, steps[0]);
      assert steps[0] in steps && forall st :: st in steps[1..] ==> st in steps;
      ReportStep(c, m, steps[0], r);
      CountersExactly(c, m1, steps[1..], After(c, m, steps[0], r));
      if Reads(c, m, steps[0]) {
        DeadLettersCons([], c.input[m.pos], ReadsOf(c, m1, steps[1..]));
      }
    }
  }

  /** However the run began: the counters count what came after its last restore. */
  lemma {:induction false} CountersStartOver(c: Config, m: Machine, before: seq<Step>, after: seq<Step>, r: Report)
    requires Restore !in after
    ensures
      var restored := Next(c, Run(c, m, before), Restore);
      var report := ReportOf(c, m, before + ([Restore] + after), r);
      && report.invalid == |DeadLettersOf(ReadsOf(c, restored, after))|
      && report.sent == |Run(c, restored, after).log| - |restored.log|
    decreases |before|
  {
    var steps := before + ([Restore] + after);
    if before == [] {
      assert steps[0] == Restore && steps[1..] == after;
      CountersExactly(c, Next(c, m, Restore), after, After(c, m, Restore, r));
    } else {
      assert steps[0] == before[0] && steps[1..] == before[1..] + ([Restore] + after);
      CountersStartOver(c, Next(c, m, before[0]), before[1..], after, After(c, m, before[0], r));
    }
  }

  /** One order's share of a task: the operator with that key current, the input position and the last
      checkpoint in its serialized form. */
  class KeyedTask {
    const config: Config
    const op: DelayedOrderProcessFunction
    var pos: nat
    var saved: Option<Saved>
    var restores: nat

    ghost predicate Valid()
      reads this, op, op.orderState, op.orderState.stored
    {
      op.Valid() && op.orderState.ttl == config.ttl
    }

    ghost function View(): Machine
      requires Valid()
      reads this, op, op.orderState, op.orderState.stored, op.timers, op.out
    {
      Machine(op.View(), pos, op.timers.now, op.out.commands, saved, restores)
    }

    /** Side output and counters agree with a report. */
    ghost predicate Reports(r: Report)
      reads this, op, op.out
    {
      && op.out.invalidOrders == r.dead && op.invalidOrders == r.invalid && op.staleUpdatesIgnored == r.stale
      && op.delayedOrdersDetected == r.sent && op.smsCommandsEmitted == r.sent
    }

    /** The state object is the old one, a new one, or none. */
    twostate predicate OwnState()
      reads this, op, op.orderState
    {
      op.orderState.stored == null || op.orderState.stored == old(op.orderState.stored) || fresh(op.orderState.stored)
    }

    constructor (key: string, stateTtlDays: nat, input: seq<OrderState>, clock: int, aliasing: bool)
      ensures Valid() && config == Config(key, stateTtlDays * 86_400_000, input)
      ensures View() == Init(clock) && Reports(NOTHING_YET) && op.orderState.aliasing == aliasing
      ensures fresh(op) && fresh(op.orderState) && op.orderState.stored == null && fresh(op.timers) && fresh(op.out)
    {
      config := Config(key, stateTtlDays * 86_400_000, input);
      op := new DelayedOrderProcessFunction(stateTtlDays, aliasing, clock);
      pos, saved, restores := 0, None, 0;
    }

    method DeliverNext(ghost r: Report)
      requires Valid() && pos < |config.input| && Reports(r)
      modifies this`pos, op, op.orderState, op.orderState.stored, op.timers, op.out
      ensures Valid() && (fresh(op.orderState.stored) || op.orderState.stored == old(op.orderState.stored))
      ensures View() == Next(config, old(View()), Event)
      ensures Reports(After(config, old(View()), Event, r))
    {
      op.ProcessElement(config.input[pos]);
      pos := pos + 1;
    }

    /** The runtime takes the timer out of its queue before it calls back. */
    method FireTimer(t: int, ghost r: Report)
      requires Valid() && Reports(r)
      modifies op, op.orderState, op.orderState.stored, op.timers, op.out
      ensures Valid() && (fresh(op.orderState.stored) || op.orderState.stored == old(op.orderState.stored))
      ensures View() == Next(config, old(View()), Fire(t)) && Reports(After(config, old(View()), Fire(t), r))
    {
      op.timers.DeleteProcessingTimeTimer(t);
      op.OnTimer(t);
    }

    method TakeCheckpoint()
      requires Valid()
      modifies this`saved
      ensures Valid() && View() == Next(config, old(View()), Checkpoint)
    {
      var cell := op.orderState.Serialize();
      saved := Some(Saved(KeyState(cell, op.timers.pending), pos));
    }

    /** The operator is opened again, with new counters, over the state of the checkpoint. */
    method RestoreCheckpoint(ghost r: Report)
      requires Valid() && saved.Some? && Reports(r)
      modifies this, op, op.orderState, op.timers
      ensures Valid() && (op.orderState.stored == null || fresh(op.orderState.stored))
      ensures View() == Next(config, old(View()), Restore) && Reports(After(config, old(View()), Restore, r))
    {
      var image := saved.value;
      op.orderState.Deserialize(image.ks.cell);
      op.timers.pending := image.ks.timers;
      pos := image.pos;
      restores := restores + 1;
      op.delayedOrdersDetected, op.smsCommandsEmitted := 0, 0;
      op.staleUpdatesIgnored, op.invalidOrders := 0, 0;
    }

    method Do(step: Step, ghost r: Report)
      requires Valid() && Enabled(config, View(), step) && Reports(r)
      modifies this, op, op.orderState, op.orderState.stored, op.timers, op.out
      ensures Valid() && OwnState() && View() == Next(config, old(View()), step)
      ensures Reports(After(config, old(View()), step, r))
    {
      match step {
        case Event =>
          DeliverNext(r);
        case Fire(t) =>
          FireTimer(t, r);
        case Tick(d) =>
          op.timers.now := op.timers.now + d;
        case Checkpoint =>
          TakeCheckpoint();
        case Restore =>
          RestoreCheckpoint(r);
      }
    }

    method DoAll(g: Regime, steps: seq<Step>, ghost r: Report)
      requires Valid() && Legal(g, config, View(), steps) && Reports(r)
      modifies this, op, op.orderState, op.orderState.stored, op.timers, op.out
      ensures Valid() && View() == Run(config, old(View()), steps)
      ensures Reports(ReportOf(config, old(View()), steps, r))
    {
      ghost var sofar := r;
      for i := 0 to |steps|
        invariant Valid() && OwnState() && Reports(sofar)
        invariant Legal(g, config, View(), steps[i..])
        invariant Run(config, View(), steps[i..]) == Run(config, old(View()), steps)
        invariant ReportOf(config, View(), steps[i..], sofar) == ReportOf(config, old(View()), steps, r)
      {
        assert steps[i..][0] == steps[i] && steps[i..][1..] == steps[i + 1..];
        ghost var next := After(config, View(), steps[i], sofar);
        Do(steps[i], sofar);
        sofar := next;
      }
      assert steps[|steps|..] == [];
    }
  }

  /** A new task driven over a whole schedule: the machine's run, on either kind of backend. */
  method RunTask(key: string, stateTtlDays: nat, input: seq<OrderState>, clock: int, aliasing: bool, g: Regime,
                 steps: seq<Step>)
    returns (task: KeyedTask)
    requires Legal(g, Config(key, stateTtlDays * 86_400_000, input), Init(clock), steps)
    ensures task.op.orderState.aliasing == aliasing && task.Valid()
    ensures
      var c := Config(key, stateTtlDays * 86_400_000, input);
      && task.View() == Run(c, Init(clock), steps)
      && task.Reports(ReportOf(c, Init(clock), steps, NOTHING_YET))
  {
    task := new KeyedTask(key, stateTtlDays, input, clock, aliasing);
    task.DoAll(g, steps, NOTHING_YET);
  }

  /** Store independence: over every run, crashes included, a backend that hands out the stored object
      itself and one that serializes on every access leave the same state, timers, commands, dead letters
      and counters. */
  method BothBackends(key: string, stateTtlDays: nat, input: seq<OrderState>, clock: int, g: Regime, steps: seq<Step>)
    returns (heap: KeyedTask, serialized: KeyedTask)
    requires Legal(g, Config(key, stateTtlDays * 86_400_000, input), Init(clock), steps)
    ensures heap.op.orderState.aliasing && !serialized.op.orderState.aliasing
    ensures heap.Valid() && serialized.Valid() && heap.View() == serialized.View()
    ensures
      var c := Config(key, stateTtlDays * 86_400_000, input);
      var r := ReportOf(c, Init(clock), steps, NOTHING_YET);
      heap.View() == Run(c, Init(clock), steps) && heap.Reports(r) && serialized.Reports(r)
  {
    heap := RunTask(key, stateTtlDays, input, clock, true, g, steps);
    serialized := RunTask(key, stateTtlDays, input, clock, false, g, steps);
  }
}
