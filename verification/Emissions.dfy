/** How many commands one order can get, and how far apart they are. */
module Emissions {
  import opened Domain
  import opened Detector
  import opened Reference
  import opened KeyRun

  predicate Notified(ks: KeyState) {
    ks.cell.Held? && ks.cell.state.delaySmsEmitted
  }

  // ---------------------------------------------------------------------------------------------
  // Crashes
  // ---------------------------------------------------------------------------------------------

  /** Every restore can buy back at most one emission. */
  predicate WithinBudget(m: Machine) {
    |m.log| + (if Notified(m.ks) then 0 else 1) <= 1 + m.restores
  }

  lemma {:induction false} BudgetKept(g: Regime, c: Config, m: Machine, steps: seq<Step>)
    requires g.unexpired && ExactInv(m) && WithinBudget(m) && Legal(g, c, m, steps)
    ensures WithinBudget(Run(c, m, steps))
    decreases |steps|
  {
    if steps == [] {
    } else {
      ExactStep(g, c, m, steps[0]);
      BudgetKept(g, c, Next(c, m, steps[0]), steps[1..]);
    }
  }

  /** Over every run without expiry, an order gets at most one command more than there were restores;
      in particular at most one when nothing crashes. */
  lemma AtMostOnePlusRestores(g: Regime, c: Config, clock: int, steps: seq<Step>)
    requires g.unexpired && Legal(g, c, Init(clock), steps)
    ensures |Run(c, Init(clock), steps).log| <= 1 + Run(c, Init(clock), steps).restores
  {
    BudgetKept(g, c, Init(clock), steps);
  }

  /** A schedule that crashes r times, each time right after the emission. */
  function CrashLoop(r: nat): seq<Step> {
    if r == 0 then [Event] else [Event, Restore] + CrashLoop(r - 1)
  }

  lemma {:induction false} CrashLoopEmits(c: Config, m: Machine, r: nat)
    requires c.ttl > 0 && |c.input| == 1 && IsActiveMessage(c.input[0])
    requires EtaMillis(c.input[0]) <= m.clock
    requires m.ks == KeyState(Empty, {}) && m.pos == 0 && m.saved == Some(Saved(m.ks, 0))
    ensures Legal(Regime(true, true, false), c, m, CrashLoop(r))
    ensures Run(c, m, CrashLoop(r)).restores == m.restores + r
    ensures |Run(c, m, CrashLoop(r)).log| == |m.log| + 1 + r
    decreases r
  {
    var m1 := Next(c, m, Event);
    if r == 0 {
      assert CrashLoop(0)[1..] == [];
    } else {
      var m2 := Next(c, m1, Restore);
      var steps := CrashLoop(r);
      assert steps[0] == Event && steps[1..][0] == Restore && steps[1..][1..] == CrashLoop(r - 1);
      CrashLoopEmits(c, m2, r - 1);
    }
  }

  /** The bound is met: for every number of restores some unexpired run emits that many plus one. */
  lemma CrashBoundIsTight(c: Config, clock: int, r: nat)
    requires c.ttl > 0 && |c.input| == 1 && IsActiveMessage(c.input[0])
    requires EtaMillis(c.input[0]) <= clock
    ensures
      var steps := [Checkpoint] + CrashLoop(r);
      && Legal(Regime(true, true, false), c, Init(clock), steps)
      && Run(c, Init(clock), steps).restores == r
      && |Run(c, Init(clock), steps).log| == 1 + r
  {
    var m := Next(c, Init(clock), Checkpoint);
    CrashLoopEmits(c, m, r);
    assert ([Checkpoint] + CrashLoop(r))[1..] == CrashLoop(r);
  }

  // ---------------------------------------------------------------------------------------------
  // Expiry
  // ---------------------------------------------------------------------------------------------

  function EmittedAt(cmd: SmsCommand): int {
    cmd.createdAt.ToEpochMilli()
  }

  /** The commands from the given place on are at least the TTL apart. */
  predicate Spaced(ttl: nat, from: nat, log: seq<SmsCommand>) {
    forall i, j :: from <= i < j < |log| ==> EmittedAt(log[i]) + ttl <= EmittedAt(log[j])
  }

  /** Either the flag still guards the last command, or its guard had the time to expire. */
  predicate Guarded(c: Config, m: Machine, last: int) {
    (Notified(m.ks) && last <= m.ks.cell.lastWrite) || last + c.ttl <= m.clock
  }

  predicate SpacedInv(c: Config, from: nat, m: Machine) {
    && from <= |m.log| && Spaced(c.ttl, from, m.log)
    && (forall i :: from <= i < |m.log| ==> EmittedAt(m.log[i]) <= m.clock)
    && (from < |m.log| ==> Guarded(c, m, EmittedAt(m.log[|m.log| - 1])))
  }

  lemma SpacedAppend(ttl: nat, from: nat, log: seq<SmsCommand>, cmd: SmsCommand)
    requires Spaced(ttl, from, log)
    requires from < |log| ==> EmittedAt(log[|log| - 1]) + ttl <= EmittedAt(cmd)
    ensures Spaced(ttl, from, log + [cmd])
  {
    forall i | from <= i < |log| ensures EmittedAt(log[i]) + ttl <= EmittedAt(cmd) {
      if i < |log| - 1 {
        assert EmittedAt(log[i]) + ttl <= EmittedAt(log[|log| - 1]);
      }
    }
  }

  /** A step appends at most one command, at its own clock, and raises the flag with it; a guard gives way
      only to its expiry. */
  lemma GuardStep(c: Config, m: Machine, st: Step, last: int)
    requires Enabled(c, m, st) && !st.Restore? && last <= m.clock
    ensures
      var m' := Next(c, m, st);
      m'.log == m.log ||
      (m'.log == m.log + [m'.log[|m.log|]] && EmittedAt(m'.log[|m.log|]) == m.clock == m'.clock &&
       Guarded(c, m', m.clock))
    ensures Guarded(c, m, last) && Next(c, m, st).log == m.log ==> Guarded(c, Next(c, m, st), last)
    ensures Guarded(c, m, last) && Next(c, m, st).log != m.log ==> last + c.ttl <= m.clock
  {
  }

  lemma SpacedStep(c: Config, from: nat, m: Machine, st: Step)
    requires SpacedInv(c, from, m) && Enabled(c, m, st) && !st.Restore?
    ensures SpacedInv(c, from, Next(c, m, st))
  {
    var m' := Next(c, m, st);
    var last := if from < |m.log| then EmittedAt(m.log[|m.log| - 1]) else m.clock;
    GuardStep(c, m, st, last);
    if m'.log != m.log {
      SpacedAppend(c.ttl, from, m.log, m'.log[|m.log|]);
    }
  }

  lemma {:induction false} SpacedKept(g: Regime, c: Config, from: nat, m: Machine, steps: seq<Step>)
    requires SpacedInv(c, from, m) && Legal(g, c, m, steps) && Restore !in steps
    ensures SpacedInv(c, from, Run(c, m, steps))
    decreases |steps|
  {
    if steps == [] {
    } else {
      assert steps[0] in steps && forall st :: st in steps[1..] ==> st in steps;
      SpacedStep(c, from, m, steps[0]);
      SpacedKept(g, c, from, Next(c, m, steps[0]), steps[1..]);
    }
  }

  /** However the run began: the commands since any moment with no restore after it are spaced. */
  ghost predicate GapsKept(c: Config, m: Machine, steps: seq<Step>) {
    forall s :: 0 <= s <= |steps| && Restore !in steps[s..] ==>
      Spaced(c.ttl, |Run(c, m, steps[..s]).log|, Run(c, m, steps).log)
  }

  /** In every run, even where the state expires and orphaned timers still fire, two commands of one
      order with no restore between them are created at least the TTL apart. */
  lemma TtlGap(g: Regime, c: Config, m: Machine, steps: seq<Step>)
    requires Legal(g, c, m, steps)
    ensures GapsKept(c, m, steps)
  {
    forall s | 0 <= s <= |steps| && Restore !in steps[s..]
      ensures Spaced(c.ttl, |Run(c, m, steps[..s]).log|, Run(c, m, steps).log)
    {
      var m' := Run(c, m, steps[..s]);
      assert steps == steps[..s] + steps[s..];
      RunConcat(g, c, m, steps[..s], steps[s..]);
      SpacedKept(g, c, |m'.log|, m', steps[s..]);
    }
  }

  // ---------------------------------------------------------------------------------------------
  // Counting commands
  // ---------------------------------------------------------------------------------------------

  /** The valid active messages still to come. */
  function ActiveFrom(xs: seq<OrderState>, pos: nat): nat
    decreases |xs| - pos
  {
    if pos >= |xs| then 0
    else (if IsActiveMessage(xs[pos]) then 1 else 0) + ActiveFrom(xs, pos + 1)
  }

  /** A waiting state owes a command as long as its ETA still comes before it expires. */
  function Owed(c: Config, m: Machine): nat {
    if Live(c.ttl, m.ks.cell, m.clock) && AwaitsVerdict(m.ks.cell.state) &&
       EtaOf(m.ks.cell.state) < m.ks.cell.lastWrite + c.ttl
    then 1 else 0
  }

  lemma PotentialStep(c: Config, m: Machine, st: Step)
    requires Enabled(c, m, st) && !st.Restore?
    ensures
      var m' := Next(c, m, st);
      |m'.log| + Owed(c, m') + ActiveFrom(c.input, m'.pos) <= |m.log| + Owed(c, m) + ActiveFrom(c.input, m.pos)
  {
  }

  lemma {:induction false} CommandsBounded(g: Regime, c: Config, m: Machine, steps: seq<Step>)
    requires g.crashFree && Legal(g, c, m, steps)
    ensures |Run(c, m, steps).log| <= |m.log| + Owed(c, m) + ActiveFrom(c.input, m.pos)
    decreases |steps|
  {
    if steps == [] {
    } else {
      PotentialStep(c, m, steps[0]);
      CommandsBounded(g, c, Next(c, m, steps[0]), steps[1..]);
    }
  }

  /** Time enough for the state to expire and for the ETA of the next message to pass. */
  function Patience(c: Config, m: Machine): nat
    requires m.pos < |c.input| && HasAllFields(c.input[m.pos])
  {
    var due := EtaMillis(c.input[m.pos]);
    var expiry := if m.ks.cell.Held? then m.ks.cell.lastWrite + c.ttl else m.clock;
    var until := if due < expiry then expiry else due;
    if until < m.clock then 0 else until - m.clock
  }

  /** A schedule that waits long enough before every active message gets a command for each of them. */
  lemma {:induction false} PatientSchedule(c: Config, m: Machine) returns (steps: seq<Step>)
    requires m.pos <= |c.input|
    ensures Legal(Regime(false, false, true), c, m, steps)
    ensures |Run(c, m, steps).log| >= |m.log| + ActiveFrom(c.input, m.pos)
    ensures Run(c, m, steps).saved == m.saved && Run(c, m, steps).restores == m.restores
    decreases |c.input| - m.pos
  {
    var g := Regime(false, false, true);
    if m.pos == |c.input| {
      steps := [];
    } else if IsActiveMessage(c.input[m.pos]) {
      var wait := Tick(Patience(c, m));
      var m1 := Next(c, m, wait);
      var m2 := Next(c, m1, Event);
      assert |m2.log| == |m.log| + 1;
      var rest := PatientSchedule(c, m2);
      steps := [wait] + ([Event] + rest);
      RunCons(g, c, m1, Event, rest);
      RunCons(g, c, m, wait, [Event] + rest);
    } else {
      var m1 := Next(c, m, Event);
      var rest := PatientSchedule(c, m1);
      steps := [Event] + rest;
      RunCons(g, c, m, Event, rest);
    }
  }

  /** What is owed can be collected first: the timer is pending, and fires before the state expires. */
  lemma CollectFirst(c: Config, m: Machine) returns (steps: seq<Step>)
    requires m.pos <= |c.input| && CoveredIfLive(c, m.ks, m.clock) && Owed(c, m) == 1
    ensures Legal(Regime(false, false, true), c, m, steps)
    ensures |Run(c, m, steps).log| >= |m.log| + 1 + ActiveFrom(c.input, m.pos)
  {
    var g := Regime(false, false, true);
    var due := EtaOf(m.ks.cell.state);
    var wait := Tick(if m.clock < due then due - m.clock else 0);
    var m1 := Next(c, m, wait);
    var m2 := Next(c, m1, Fire(due));
    assert |m2.log| == |m.log| + 1;
    var rest := PatientSchedule(c, m2);
    steps := [wait] + ([Fire(due)] + rest);
    RunCons(g, c, m1, Fire(due), rest);
    RunCons(g, c, m, wait, [Fire(due)] + rest);
  }

  ghost predicate LogsMore(c: Config, m: Machine, steps: seq<Step>, k: nat) {
    Legal(Regime(false, false, true), c, m, steps) && |Run(c, m, steps).log| >= |m.log| + k
  }

  /** How many commands crash-free schedules can get out of a state: exactly one for each valid active
      message still to come, and one more if the state owes one. Every reachable state has its timer. */
  lemma CommandCountExactly(c: Config, m: Machine, k: nat)
    requires m.pos <= |c.input| && (Owed(c, m) == 0 || CoveredIfLive(c, m.ks, m.clock))
    ensures (exists steps :: LogsMore(c, m, steps, k)) <==> k <= Owed(c, m) + ActiveFrom(c.input, m.pos)
  {
    forall steps | LogsMore(c, m, steps, k) ensures k <= Owed(c, m) + ActiveFrom(c.input, m.pos) {
      CommandsBounded(Regime(false, false, true), c, m, steps);
    }
    if k <= Owed(c, m) + ActiveFrom(c.input, m.pos) {
      var steps;
      if Owed(c, m) == 1 {
        steps := CollectFirst(c, m);
      } else {
        steps := PatientSchedule(c, m);
      }
      assert LogsMore(c, m, steps, k);
    }
  }

  lemma {:induction false} ActiveFromPositive(xs: seq<OrderState>, pos: nat)
    requires pos <= |xs|
    ensures ActiveFrom(xs, pos) > 0 <==> exists j :: pos <= j < |xs| && IsActiveMessage(xs[j])
    decreases |xs| - pos
  {
    if pos == |xs| {
    } else {
      ActiveFromPositive(xs, pos + 1);
    }
  }

  /** The flag is said to keep an order at one command for the life of the job. Exactly when it does: from
      a notified state, some crash-free schedule logs another command if and only if a valid active
      message is still to come. */
  lemma FlagGuardsExactly(c: Config, m: Machine)
    requires m.pos <= |c.input| && Notified(m.ks)
    ensures (exists steps :: LogsMore(c, m, steps, 1))
       <==> exists j :: m.pos <= j < |c.input| && IsActiveMessage(c.input[j])
  {
    CommandCountExactly(c, m, 1);
    ActiveFromPositive(c.input, m.pos);
  }

  // ---------------------------------------------------------------------------------------------
  // Expiry and crashes together
  // ---------------------------------------------------------------------------------------------

  function MayOwe(ks: KeyState): nat {
    if ks.cell.Held? && AwaitsVerdict(ks.cell.state) then 1 else 0
  }

  /** No state, live or saved, can still bring more commands than a fresh start would. */
  predicate NoMoreThanAll(c: Config, ks: KeyState, pos: nat) {
    MayOwe(ks) + ActiveFrom(c.input, pos) <= ActiveFrom(c.input, 0)
  }

  /** Each restore can buy back at most all the commands of the input. */
  predicate WithinAll(c: Config, m: Machine) {
    && NoMoreThanAll(c, m.ks, m.pos)
    && (m.saved.Some? ==> NoMoreThanAll(c, m.saved.value.ks, m.saved.value.pos))
    && |m.log| + MayOwe(m.ks) + ActiveFrom(c.input, m.pos) <= (1 + m.restores) * ActiveFrom(c.input, 0)
  }

  lemma MulSucc(a: nat, b: nat)
    ensures (1 + (a + 1)) * b == (1 + a) * b + b
  {
  }

  lemma MulPred(a: nat, b: nat)
    requires a > 0
    ensures a * b == (a - 1) * b + b
  {
  }

  lemma WithinAllStep(c: Config, m: Machine, st: Step)
    requires WithinAll(c, m) && Enabled(c, m, st)
    ensures WithinAll(c, Next(c, m, st))
  {
    MulSucc(m.restores, ActiveFrom(c.input, 0));
  }

  lemma {:induction false} WithinAllKept(g: Regime, c: Config, m: Machine, steps: seq<Step>)
    requires WithinAll(c, m) && Legal(g, c, m, steps)
    ensures WithinAll(c, Run(c, m, steps))
    decreases |steps|
  {
    if steps == [] {
    } else {
      WithinAllStep(c, m, steps[0]);
      WithinAllKept(g, c, Next(c, m, steps[0]), steps[1..]);
    }
  }

  lemma {:induction false} CrashFreeIsLegal(c: Config, m: Machine, steps: seq<Step>)
    requires Legal(Regime(false, false, true), c, m, steps)
    ensures Legal(Regime(false, false, false), c, m, steps)
    decreases |steps|
  {
    if steps == [] {
    } else {
      CrashFreeIsLegal(c, Next(c, m, steps[0]), steps[1..]);
    }
  }

  predicate StartSaved(m: Machine) {
    m.saved == Some(Saved(KeyState(Empty, {}), 0))
  }

  /** All the commands still to come, and back to the start. */
  lemma ReplayOnce(c: Config, m: Machine) returns (steps: seq<Step>)
    requires m.pos <= |c.input| && StartSaved(m)
    ensures Legal(Regime(false, false, false), c, m, steps)
    ensures
      var m' := Run(c, m, steps);
      && StartSaved(m') && m'.pos == 0 && m'.restores == m.restores + 1
      && |m'.log| >= |m.log| + ActiveFrom(c.input, m.pos)
  {
    var first := PatientSchedule(c, m);
    CrashFreeIsLegal(c, m, first);
    steps := first + ([Restore] + []);
    RunCons(Regime(false, false, false), c, Run(c, m, first), Restore, []);
    RunConcat(Regime(false, false, false), c, m, first, [Restore] + []);
  }

  lemma {:induction false} ReplayLoop(c: Config, m: Machine, r: nat) returns (steps: seq<Step>)
    requires m.pos <= |c.input| && StartSaved(m)
    ensures Legal(Regime(false, false, false), c, m, steps)
    ensures Run(c, m, steps).restores == m.restores + r
    ensures |Run(c, m, steps).log| >= |m.log| + ActiveFrom(c.input, m.pos) + r * ActiveFrom(c.input, 0)
    decreases r
  {
    if r == 0 {
      steps := PatientSchedule(c, m);
      CrashFreeIsLegal(c, m, steps);
    } else {
      var first := ReplayOnce(c, m);
      var rest := ReplayLoop(c, Run(c, m, first), r - 1);
      steps := first + rest;
      RunConcat(Regime(false, false, false), c, m, first, rest);
      MulPred(r, ActiveFrom(c.input, 0));
    }
  }

  ghost predicate LogsWithCrashes(c: Config, clock: int, steps: seq<Step>, r: nat, k: nat) {
    && Legal(Regime(false, false, false), c, Init(clock), steps)
    && Run(c, Init(clock), steps).restores == r && |Run(c, Init(clock), steps).log| >= k
  }

  /** Every run, expiry and crashes included: with r restores an order can get exactly up to 1 + r times
      as many commands as it has valid active messages. */
  lemma CommandsWithCrashesExactly(c: Config, clock: int, r: nat, k: nat)
    ensures (exists steps :: LogsWithCrashes(c, clock, steps, r, k)) <==> k <= (1 + r) * ActiveFrom(c.input, 0)
  {
    var m := Init(clock);
    forall steps | LogsWithCrashes(c, clock, steps, r, k) ensures k <= (1 + r) * ActiveFrom(c.input, 0) {
      WithinAllKept(Regime(false, false, false), c, m, steps);
    }
    if k <= (1 + r) * ActiveFrom(c.input, 0) {
      var m1 := Next(c, m, Checkpoint);
      var rest := ReplayLoop(c, m1, r);
      RunCons(Regime(false, false, false), c, m, Checkpoint, rest);
      assert LogsWithCrashes(c, clock, [Checkpoint] + rest, r, k);
    }
  }

  /** One command per order does not survive the TTL: for every TTL a redelivery that arrives exactly
      when the state expires is answered with a second command, exactly the TTL after the first. */
  lemma SecondCommandAfterTtl(c: Config, clock: int)
    requires |c.input| == 2 && c.input[0] == c.input[1] && IsActiveMessage(c.input[0])
    requires EtaMillis(c.input[0]) <= clock
    ensures
      var steps := [Event, Tick(c.ttl), Event];
      var log := Run(c, Init(clock), steps).log;
      && Legal(Regime(false, true, true), c, Init(clock), steps)
      && |log| == 2 && log[0].commandId == log[1].commandId
      && EmittedAt(log[1]) == EmittedAt(log[0]) + c.ttl
  {
    var m1 := Next(c, Init(clock), Event);
    var m2 := Next(c, m1, Tick(c.ttl));
    var m3 := Next(c, m2, Event);
    var steps := [Event, Tick(c.ttl), Event];
    assert steps[1..] == [Tick(c.ttl), Event] && steps[1..][1..] == [Event] && steps[1..][1..][1..] == [];
    assert Run(c, m2, [Event]) == m3;
    assert Run(c, m1, steps[1..]) == m3;
  }
}
