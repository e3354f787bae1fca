/** Which commands can appear, when they cannot, and when one must. */
module Soundness {
  import opened Domain
  import opened Reference
  import opened KeyRun
  import opened Emissions
  import opened LastWriter

  /** The command carries the data of the message, field by field. */
  predicate SpeaksFor(cmd: SmsCommand, x: OrderState) {
    && HasAllFields(x) && cmd.orderId == x.orderId.value && cmd.commandId == x.orderId.value + ":DELAY_SMS"
    && cmd.customerId == x.customerId && cmd.storeId == x.storeId
    && cmd.expectedDeliveryTime == x.expectedDeliveryTime.value
    && cmd.commandType == "SEND_DELAY_SMS" && cmd.reason == "ORDER_DELAYED" && cmd.schemaVersion == 1
  }

  /** Step s of the run appends command k of its log. */
  predicate AppendedAt(c: Config, m: Machine, steps: seq<Step>, k: int, s: int) {
    && 0 <= s < |steps| && 0 <= k < |Run(c, m, steps).log|
    && |Run(c, m, steps[..s]).log| == k
    && Run(c, m, steps[..s + 1]).log == Run(c, m, steps[..s]).log + [Run(c, m, steps).log[k]]
  }

  /** A step that takes machine a to machine b emits the command for message i: a message read by then,
      active, its ETA passed on the clock of that moment, which the command carries. */
  ghost predicate Speaks(c: Config, a: Machine, b: Machine, cmd: SmsCommand, i: int) {
    && 0 <= i < b.pos <= |c.input| && SpeaksFor(cmd, c.input[i]) && Open(c.input[i].status.value)
    && cmd.createdAt.nanos == a.clock * 1_000_000 && EtaMillis(c.input[i]) <= a.clock
  }

  /** Step s appends command k, and emits it for message i. */
  ghost predicate EmittedFor(c: Config, m: Machine, steps: seq<Step>, k: int, s: int, i: int) {
    AppendedAt(c, m, steps, k, s) &&
    Speaks(c, Run(c, m, steps[..s]), Run(c, m, steps[..s + 1]), Run(c, m, steps).log[k], i)
  }

  /** The message is the winner of the messages read by then, counted from the one that created the state. */
  ghost predicate Traced(c: Config, m: Machine, steps: seq<Step>, k: int, s: int, i: int) {
    && EmittedFor(c, m, steps, k, s, i)
    && var origin, pos := OriginsOf(c, m, Origins(0, 0), steps[..s + 1]).live, Run(c, m, steps[..s + 1]).pos;
       origin <= i < pos <= |c.input| && IsWinner(c.input[origin..pos], i - origin)
  }

  /** The message is the winner of all the messages read by then. */
  ghost predicate TracedToWinner(c: Config, m: Machine, steps: seq<Step>, k: int, s: int, i: int) {
    && EmittedFor(c, m, steps, k, s, i)
    && Run(c, m, steps[..s + 1]).pos <= |c.input| && IsWinner(c.input[..Run(c, m, steps[..s + 1]).pos], i)
  }

  ghost predicate HasSource(c: Config, m: Machine, steps: seq<Step>, k: int) {
    exists s, i :: Traced(c, m, steps, k, s, i)
  }

  ghost predicate HasWinner(c: Config, m: Machine, steps: seq<Step>, k: int) {
    exists s, i :: TracedToWinner(c, m, steps, k, s, i)
  }

  ghost predicate AllHaveSources(c: Config, m: Machine, steps: seq<Step>) {
    forall k :: 0 <= k < |Run(c, m, steps).log| ==> HasSource(c, m, steps, k)
  }

  ghost predicate AllHaveWinners(c: Config, m: Machine, steps: seq<Step>) {
    forall k :: 0 <= k < |Run(c, m, steps).log| ==> HasWinner(c, m, steps, k)
  }

  lemma PrefixStep(g: Regime, c: Config, m: Machine, steps: seq<Step>, s: int)
    requires Legal(g, c, m, steps) && 0 <= s < |steps|
    ensures Legal(g, c, m, steps[..s]) && Admits(g, c, Run(c, m, steps[..s]), steps[s])
    ensures Legal(g, c, m, steps[..s + 1])
    ensures Run(c, m, steps[..s + 1]) == Next(c, Run(c, m, steps[..s]), steps[s])
  {
    var m' := Run(c, m, steps[..s]);
    assert steps == steps[..s] + ([steps[s]] + steps[s + 1..]);
    RunConcat(g, c, m, steps[..s], [steps[s]] + steps[s + 1..]);
    RunCons(g, c, m', steps[s], steps[s + 1..]);
    assert steps[..s + 1] == steps[..s] + ([steps[s]] + []);
    RunConcat(g, c, m, steps[..s], [steps[s]] + []);
    RunCons(g, c, m', steps[s], []);
  }

  /** Every command of the log was appended by some step. */
  lemma {:induction false} FindEmission(c: Config, m: Machine, steps: seq<Step>, k: int) returns (s: int)
    requires |m.log| <= k < |Run(c, m, steps).log|
    ensures AppendedAt(c, m, steps, k, s)
    decreases |steps|
  {
    var m1 := Next(c, m, steps[0]);
    ClockAndLogGrow(c, m1, steps[1..]);
    if k < |m1.log| {
      s := 0;
      assert steps[..1] == [steps[0]] && steps[..1][1..] == [] && steps[..0] == [];
      assert Run(c, m, steps[..1]) == m1;
      assert |m1.log| == |m.log| + 1 && m1.log[k] == Run(c, m1, steps[1..]).log[k];
    } else {
      var s1 := FindEmission(c, m1, steps[1..], k);
      s := s1 + 1;
      assert steps[..s][1..] == steps[1..][..s1] && steps[..s + 1][1..] == steps[1..][..s1 + 1];
    }
  }

  lemma EmissionSpeaks(c: Config, m: Machine, st: Step, i: int)
    requires Enabled(c, m, st) && Next(c, m, st).log != m.log
    requires 0 <= i < Next(c, m, st).pos <= |c.input|
    requires Next(c, m, st).ks.cell.Held? && Shows(Next(c, m, st).ks.cell.state.snapshot, c.input[i])
    ensures |Next(c, m, st).log| == |m.log| + 1
    ensures Speaks(c, m, Next(c, m, st), Next(c, m, st).log[|m.log|], i)
  {
  }

  lemma EmissionHolds(c: Config, m: Machine, st: Step)
    requires Enabled(c, m, st) && Next(c, m, st).log != m.log
    ensures Next(c, m, st).ks.cell.Held?
  {
  }

  lemma SpokenBy(c: Config, m: Machine, steps: seq<Step>, k: int, s: int, i: int)
    requires AppendedAt(c, m, steps, k, s) && Enabled(c, Run(c, m, steps[..s]), steps[s])
    requires Run(c, m, steps[..s + 1]) == Next(c, Run(c, m, steps[..s]), steps[s])
    requires
      var m' := Run(c, m, steps[..s + 1]);
      && 0 <= i < m'.pos <= |c.input|
      && m'.ks.cell.Held? && Shows(m'.ks.cell.state.snapshot, c.input[i])
    ensures EmittedFor(c, m, steps, k, s, i)
  {
    EmissionSpeaks(c, Run(c, m, steps[..s]), steps[s], i);
  }

  /** The step that appends command k, and what is known of it. */
  lemma EmissionAt(g: Regime, c: Config, m: Machine, steps: seq<Step>, k: int) returns (s: int)
    requires Legal(g, c, m, steps) && |m.log| <= k < |Run(c, m, steps).log|
    ensures AppendedAt(c, m, steps, k, s)
    ensures Legal(g, c, m, steps[..s]) && Admits(g, c, Run(c, m, steps[..s]), steps[s])
    ensures Run(c, m, steps[..s + 1]) == Next(c, Run(c, m, steps[..s]), steps[s])
    ensures Legal(g, c, m, steps[..s + 1]) && Run(c, m, steps[..s + 1]).ks.cell.Held?
  {
    s := FindEmission(c, m, steps, k);
    PrefixStep(g, c, m, steps, s);
    EmissionHolds(c, Run(c, m, steps[..s]), steps[s]);
  }

  /** The winner since creation that a run leaves in the state, by its place in the input. */
  lemma StoredWinner(g: Regime, c: Config, clock: int, steps: seq<Step>) returns (i: int)
    requires Legal(g, c, Init(clock), steps) && Run(c, Init(clock), steps).ks.cell.Held?
    ensures
      var m, origin := Run(c, Init(clock), steps), OriginsOf(c, Init(clock), Origins(0, 0), steps).live;
      && origin <= i < m.pos <= |c.input| && IsWinner(c.input[origin..m.pos], i - origin)
      && Shows(m.ks.cell.state.snapshot, c.input[i])
  {
    LastWriterWinsSinceCreation(g, c, clock, steps);
    var m, origin := Run(c, Init(clock), steps), OriginsOf(c, Init(clock), Origins(0, 0), steps).live;
    var w :| HoldsWinner(c.input[origin..m.pos], m.ks.cell, w);
    i := origin + w;
  }

  lemma SourceOf(g: Regime, c: Config, clock: int, steps: seq<Step>, k: int)
    requires Legal(g, c, Init(clock), steps) && 0 <= k < |Run(c, Init(clock), steps).log|
    ensures HasSource(c, Init(clock), steps, k)
  {
    var s := EmissionAt(g, c, Init(clock), steps, k);
    var i := StoredWinner(g, c, clock, steps[..s + 1]);
    SpokenBy(c, Init(clock), steps, k, s, i);
    assert Traced(c, Init(clock), steps, k, s, i);
  }

  /** In every run, whatever expired, fired late or was replayed, each command was emitted by a definite
      step, for an active message whose ETA had passed: the winner of the messages read since the state was
      created. */
  lemma CommandsSpeakForReadMessages(g: Regime, c: Config, clock: int, steps: seq<Step>)
    requires Legal(g, c, Init(clock), steps)
    ensures AllHaveSources(c, Init(clock), steps)
  {
    forall k | 0 <= k < |Run(c, Init(clock), steps).log| ensures HasSource(c, Init(clock), steps, k) {
      SourceOf(g, c, clock, steps, k);
    }
  }

  /** In an unexpired run, replays included, that message is the winner of all the messages read by then. */
  lemma CommandsAreSound(g: Regime, c: Config, clock: int, steps: seq<Step>)
    requires g.unexpired && Legal(g, c, Init(clock), steps)
    ensures AllHaveWinners(c, Init(clock), steps)
  {
    var m := Init(clock);
    forall k | 0 <= k < |Run(c, m, steps).log| ensures HasWinner(c, m, steps, k) {
      var s := EmissionAt(g, c, m, steps, k);
      LatestKept(g, c, m, steps[..s + 1]);
      var m' := Run(c, m, steps[..s + 1]);
      var i :| HoldsWinner(c.input[..m'.pos], m'.ks.cell, i);
      SpokenBy(c, m, steps, k, s, i);
      assert TracedToWinner(c, m, steps, k, s, i);
    }
  }

  /** A step after which the winner of the messages read is delivered or cancelled emits nothing. */
  lemma NothingForClosedOrders(g: Regime, c: Config, clock: int, steps: seq<Step>, s: int, i: int)
    requires g.unexpired && Legal(g, c, Init(clock), steps) && 0 <= s < |steps|
    requires Run(c, Init(clock), steps[..s + 1]).pos <= |c.input|
    requires IsWinner(c.input[..Run(c, Init(clock), steps[..s + 1]).pos], i)
    requires c.input[i].status == Some(DELIVERED) || c.input[i].status == Some(CANCELLED)
    ensures Run(c, Init(clock), steps[..s + 1]).log == Run(c, Init(clock), steps[..s]).log
  {
    var m, m' := Run(c, Init(clock), steps[..s]), Run(c, Init(clock), steps[..s + 1]);
    PrefixStep(g, c, Init(clock), steps, s);
    LastWriterWins(g, c, clock, steps[..s + 1]);
    if m'.log != m.log {
      EmissionHolds(c, m, steps[s]);
      var j :| HoldsWinner(c.input[..m'.pos], m'.ks.cell, j);
      WinnerUnique(c.input[..m'.pos], i, j);
      EmissionSpeaks(c, m, steps[s], i);
    }
  }

  lemma EtaAndClock(eta: Instant, now: int)
    requires eta.ToEpochMilli() <= now
    ensures eta.nanos < Instant.OfEpochMilli(now).nanos + 1_000_000
  {
  }

  /** No command runs a millisecond or more ahead of the exact ETA it carries. */
  lemma LessThanOneMilliEarly(g: Regime, c: Config, clock: int, steps: seq<Step>)
    requires Legal(g, c, Init(clock), steps)
    ensures
      var log := Run(c, Init(clock), steps).log;
      forall k :: 0 <= k < |log| ==> log[k].expectedDeliveryTime.nanos < log[k].createdAt.nanos + 1_000_000
  {
    var log := Run(c, Init(clock), steps).log;
    CommandsSpeakForReadMessages(g, c, clock, steps);
    forall k | 0 <= k < |log|
      ensures log[k].expectedDeliveryTime.nanos < log[k].createdAt.nanos + 1_000_000
    {
      assert HasSource(c, Init(clock), steps, k);
      var s, i :| Traced(c, Init(clock), steps, k, s, i);
      EtaAndClock(c.input[i].expectedDeliveryTime.value, Run(c, Init(clock), steps[..s]).clock);
    }
  }

  /** The flag is only ever set together with an emission, and a crash does not take that back. */
  predicate FlagInv(m: Machine) {
    && (Notified(m.ks) ==> m.log != [])
    && (m.saved.Some? && Notified(m.saved.value.ks) ==> m.log != [])
  }

  lemma {:induction false} FlagMeansLogged(c: Config, m: Machine, steps: seq<Step>)
    requires FlagInv(m)
    ensures FlagInv(Run(c, m, steps))
    decreases |steps|
  {
    if steps == [] {
    } else {
      FlagMeansLogged(c, Next(c, m, steps[0]), steps[1..]);
    }
  }

  /** No delayed order is missed: when an unexpired run leaves no due timer unfired and the winner of the
      messages read is active with its ETA passed, the order has its command. */
  lemma NoDelayedOrderMissed(g: Regime, c: Config, clock: int, steps: seq<Step>, i: int)
    requires g.unexpired && Legal(g, c, Init(clock), steps) && Quiet(Run(c, Init(clock), steps))
    requires Run(c, Init(clock), steps).pos <= |c.input|
    requires IsWinner(c.input[..Run(c, Init(clock), steps).pos], i) && Open(c.input[i].status.value)
    requires EtaMillis(c.input[i]) <= Run(c, Init(clock), steps).clock
    ensures Run(c, Init(clock), steps).log != []
  {
    var m := Run(c, Init(clock), steps);
    LastWriterWins(g, c, clock, steps);
    assert !NoneComplete(c.input[..m.pos]);
    var j :| HoldsWinner(c.input[..m.pos], m.ks.cell, j);
    WinnerUnique(c.input[..m.pos], i, j);
    TimersExact(g, c, Init(clock), steps);
    FlagMeansLogged(c, Init(clock), steps);
    assert AwaitsVerdict(m.ks.cell.state) ==> EtaOf(m.ks.cell.state) in m.ks.timers;
  }

  // ---------------------------------------------------------------------------------------------
  // Nothing is sent early
  // ---------------------------------------------------------------------------------------------

  /** Every message arrived before the ETA of every active one: the clock has reached none of them. */
  ghost predicate BeforeAllEtas(xs: seq<OrderState>, clock: int) {
    forall i :: 0 <= i < |xs| && IsActiveMessage(xs[i]) ==> clock < EtaMillis(xs[i])
  }

  /** The furthest read position of the run: a restore goes back behind it. */
  function Reached(c: Config, m: Machine, steps: seq<Step>): (top: nat)
    ensures m.pos <= top
    decreases |steps|
  {
    if steps == [] then m.pos
    else
      var rest := Reached(c, Next(c, m, steps[0]), steps[1..]);
      if rest < m.pos then m.pos else rest
  }

  lemma {:induction false} ReachedCovers(c: Config, m: Machine, steps: seq<Step>, s: int)
    requires 0 <= s <= |steps|
    ensures Run(c, m, steps[..s]).pos <= Reached(c, m, steps)
    decreases |steps|
  {
    if s == 0 {
    } else {
      assert steps[..s][1..] == steps[1..][..s - 1];
      ReachedCovers(c, Next(c, m, steps[0]), steps[1..], s - 1);
    }
  }

  /** The messages read at any time of the run. */
  function ReadInput(c: Config, m: Machine, steps: seq<Step>): seq<OrderState> {
    c.input[..if Reached(c, m, steps) <= |c.input| then Reached(c, m, steps) else |c.input|]
  }

  /** Any step of a run happens within the clock and the reading of the whole run. */
  lemma WithinRun(g: Regime, c: Config, m: Machine, steps: seq<Step>, s: int)
    requires 0 <= s < |steps|
    ensures Run(c, m, steps[..s]).clock <= Run(c, m, steps).clock
    ensures Run(c, m, steps[..s + 1]).pos <= Reached(c, m, steps)
  {
    ReachedCovers(c, m, steps, s + 1);
    assert steps == steps[..s] + steps[s..];
    RunConcat(g, c, m, steps[..s], steps[s..]);
    ClockAndLogGrow(c, Run(c, m, steps[..s]), steps[s..]);
  }

  lemma LoggedMeansPast(g: Regime, c: Config, clock: int, steps: seq<Step>)
    requires Legal(g, c, Init(clock), steps)
    requires Run(c, Init(clock), steps).log != []
    ensures !BeforeAllEtas(ReadInput(c, Init(clock), steps), Run(c, Init(clock), steps).clock)
  {
    var m := Init(clock);
    CommandsSpeakForReadMessages(g, c, clock, steps);
    assert HasSource(c, m, steps, 0);
    var s, i :| Traced(c, m, steps, 0, s, i);
    WithinRun(g, c, m, steps, s);
    assert ReadInput(c, m, steps)[i] == c.input[i];
  }

  /** In every run, expiry, crashes and replays included: as long as the clock is before the ETA of every
      active message read so far, nothing is sent and no flag is raised. */
  lemma NothingEmittedEarly(g: Regime, c: Config, clock: int, steps: seq<Step>)
    requires Legal(g, c, Init(clock), steps)
    requires BeforeAllEtas(ReadInput(c, Init(clock), steps), Run(c, Init(clock), steps).clock)
    ensures Run(c, Init(clock), steps).log == [] && !Notified(Run(c, Init(clock), steps).ks)
  {
    FlagMeansLogged(c, Init(clock), steps);
    if Run(c, Init(clock), steps).log != [] {
      LoggedMeansPast(g, c, clock, steps);
    }
  }

  lemma NothingSentBeforeEtas(g: Regime, c: Config, clock: int, steps: seq<Step>)
    requires Legal(g, c, Init(clock), steps) && BeforeAllEtas(c.input, Run(c, Init(clock), steps).clock)
    ensures Run(c, Init(clock), steps).log == [] && !Notified(Run(c, Init(clock), steps).ks)
  {
    NothingEmittedEarly(g, c, clock, steps);
  }
}
