/** The TTL and the verdict: exactly when an order whose last message armed a timer is notified. */
module TtlHorizon {
  import opened Domain
  import opened Detector
  import opened Reference
  import opened KeyRun
  import opened Emissions

  /** No valid message of the order is still to come. */
  ghost predicate NoneToCome(c: Config, pos: nat) {
    forall j :: pos <= j < |c.input| ==> !HasAllFields(c.input[j])
  }

  /** The state is the waiting order as it was written at the given time. */
  predicate Awaits(m: Machine, d: DelayState, written: int) {
    AwaitsVerdict(d) && m.ks.cell == Held(d, written)
  }

  /** Some timer at or after the ETA fires while the state is still visible. */
  predicate FiresInTime(c: Config, m: Machine, steps: seq<Step>, due: int, deadline: int)
    decreases |steps|
  {
    steps != [] &&
    ((steps[0].Fire? && due <= steps[0].t && m.clock < deadline)
     || FiresInTime(c, Next(c, m, steps[0]), steps[1..], due, deadline))
  }

  // ---------------------------------------------------------------------------------------------
  // The verdict
  // ---------------------------------------------------------------------------------------------

  /** The command answers the snapshot between its ETA and the deadline. */
  ghost predicate Answers(cmd: SmsCommand, x: Snapshot, deadline: int) {
    exists at :: x.expectedDeliveryTime.ToEpochMilli() <= at < deadline && Announces(cmd, x, at)
  }

  /** The commands since the given length all do. */
  ghost predicate AnsweredInTime(log: seq<SmsCommand>, from: nat, x: Snapshot, deadline: int) {
    forall k :: from <= k < |log| ==> Answers(log[k], x, deadline)
  }

  /** Stored is the waiting order as written then, or the same order notified since. */
  predicate Settled(ks: KeyState, d: DelayState, written: int) {
    ks.cell == Held(d, written) ||
    (Notified(ks) && ks.cell.state.snapshot == d.snapshot)
  }

  /** What is stored and what the schedule can restore are settled; each restore buys back one command
      at most. */
  ghost predicate VerdictInv(c: Config, m: Machine, steps: seq<Step>, d: DelayState, written: int, budget: int) {
    && Settled(m.ks, d, written) && NoneToCome(c, m.pos)
    && |m.log| + (if Notified(m.ks) then 0 else 1) <= budget + m.restores
    && (RestoresOwnCheckpoints(steps) ||
        (m.saved.Some? ==> Settled(m.saved.value.ks, d, written) && NoneToCome(c, m.saved.value.pos)))
  }

  lemma VerdictStep(c: Config, m: Machine, steps: seq<Step>, d: DelayState, written: int, budget: int)
    requires AwaitsVerdict(d) && steps != [] && Enabled(c, m, steps[0]) && VerdictInv(c, m, steps, d, written, budget)
    ensures VerdictInv(c, Next(c, m, steps[0]), steps[1..], d, written, budget)
    ensures Next(c, m, steps[0]).log == m.log ||
            (EtaOf(d) <= m.clock < written + c.ttl &&
             |Next(c, m, steps[0]).log| == |m.log| + 1 && m.log <= Next(c, m, steps[0]).log &&
             Announces(Next(c, m, steps[0]).log[|m.log|], d.snapshot, m.clock))
  {
  }

  lemma AnswerAppended(log: seq<SmsCommand>, log': seq<SmsCommand>, from: nat, x: Snapshot, at: int, deadline: int)
    requires AnsweredInTime(log, from, x, deadline) && log <= log' && |log'| == |log| + 1
    requires x.expectedDeliveryTime.ToEpochMilli() <= at < deadline && Announces(log'[|log|], x, at)
    ensures AnsweredInTime(log', from, x, deadline)
  {
    forall k | from <= k < |log'| ensures Answers(log'[k], x, deadline) {
      assert k < |log| ==> log'[k] == log[k];
    }
  }

  lemma {:induction false} VerdictKept(g: Regime, c: Config, m: Machine, steps: seq<Step>, d: DelayState,
                                       written: int, budget: int, from: nat)
    requires AwaitsVerdict(d) && Legal(g, c, m, steps) && VerdictInv(c, m, steps, d, written, budget)
    requires from <= |m.log| && AnsweredInTime(m.log, from, d.snapshot, written + c.ttl)
    ensures AnsweredInTime(Run(c, m, steps).log, from, d.snapshot, written + c.ttl)
    ensures |Run(c, m, steps).log| <= budget + Run(c, m, steps).restores
    decreases |steps|
  {
    if steps == [] {
    } else {
      var m1 := Next(c, m, steps[0]);
      VerdictStep(c, m, steps, d, written, budget);
      if m1.log != m.log {
        AnswerAppended(m.log, m1.log, from, d.snapshot, m.clock, written + c.ttl);
      }
      VerdictKept(g, c, m1, steps[1..], d, written, budget, from);
    }
  }

  /** Nothing is answered before the first timer in time fires; that one does answer. */
  lemma {:induction false} AnsweredIffFired(g: Regime, c: Config, m: Machine, steps: seq<Step>, d: DelayState,
                                            written: int)
    requires Legal(g, c, m, steps) && NoneToCome(c, m.pos) && Awaits(m, d, written)
    requires RestoresOwnCheckpoints(steps) ||
             (m.saved.Some? ==> m.saved.value.ks.cell == Held(d, written) && NoneToCome(c, m.saved.value.pos))
    ensures
      var m' := Run(c, m, steps);
      if FiresInTime(c, m, steps, EtaOf(d), written + c.ttl)
      then m'.log != m.log else m'.log == m.log && Awaits(m', d, written)
    decreases |steps|
  {
    if steps == [] {
    } else {
      var st, m1 := steps[0], Next(c, m, steps[0]);
      if st.Fire? && EtaOf(d) <= st.t && m.clock < written + c.ttl {
        assert |m1.log| == |m.log| + 1;
        ClockAndLogGrow(c, m1, steps[1..]);
      } else {
        AnsweredIffFired(g, c, m1, steps[1..], d, written);
      }
    }
  }

  /** The verdict on a waiting order that gets no further valid message, over every run that restores no
      checkpoint from before it: it is answered if and only if a timer at or after its ETA fires before
      the state written last expires. Every answer carries its snapshot and comes between the ETA and the
      expiry; there is at most one, and one more for each restore. */
  lemma Verdict(g: Regime, c: Config, m: Machine, steps: seq<Step>, d: DelayState, written: int)
    requires Legal(g, c, m, steps) && NoneToCome(c, m.pos) && Awaits(m, d, written)
    requires RestoresOwnCheckpoints(steps)
    ensures
      var m' := Run(c, m, steps);
      && (m'.log != m.log <==> FiresInTime(c, m, steps, EtaOf(d), written + c.ttl))
      && m.log <= m'.log && |m'.log| <= |m.log| + 1 + (m'.restores - m.restores)
      && AnsweredInTime(m'.log, |m.log|, d.snapshot, written + c.ttl)
      && (m'.log == m.log ==> Awaits(m', d, written))
  {
    ClockAndLogGrow(c, m, steps);
    AnsweredIffFired(g, c, m, steps, d, written);
    VerdictKept(g, c, m, steps, d, written, |m.log| + 1 - m.restores, |m.log|);
  }

  // ---------------------------------------------------------------------------------------------
  // The horizon
  // ---------------------------------------------------------------------------------------------

  /** The next message leaves the order waiting for a timer: the message is accepted, active, not yet notified,
      and its ETA lies ahead. */
  predicate Arms(c: Config, m: Machine) {
    && m.pos < |c.input| && IsActiveMessage(c.input[m.pos]) && m.clock < EtaMillis(c.input[m.pos])
    && (Live(c.ttl, m.ks.cell, m.clock) ==>
          !Outdated(c.ttl, m.ks, c.input[m.pos], m.clock) && !m.ks.cell.state.delaySmsEmitted)
  }

  lemma {:induction false} TooLateToFire(g: Regime, c: Config, m: Machine, steps: seq<Step>, due: int, deadline: int)
    requires Legal(g, c, m, steps) && deadline <= due
    ensures !FiresInTime(c, m, steps, due, deadline)
    decreases |steps|
  {
    if steps == [] {
    } else {
      TooLateToFire(g, c, Next(c, m, steps[0]), steps[1..], due, deadline);
    }
  }

  /** An ETA at or beyond the TTL of the last accepted message is never answered: no schedule, however prompt
      and with any number of restores of its own checkpoints, makes the detector notify such an order. */
  lemma NeverNotifiedBeyondTtl(g: Regime, c: Config, m: Machine, steps: seq<Step>)
    requires Arms(c, m) && NoneToCome(c, m.pos + 1)
    requires m.clock + c.ttl <= EtaMillis(c.input[m.pos])
    requires Legal(g, c, Next(c, m, Event), steps) && RestoresOwnCheckpoints(steps)
    ensures Run(c, Next(c, m, Event), steps).log == m.log
  {
    var m1 := Next(c, m, Event);
    var due := EtaMillis(c.input[m.pos]);
    TooLateToFire(g, c, m1, steps, due, m.clock + c.ttl);
    Verdict(g, c, m1, steps, m1.ks.cell.state, m.clock);
  }

  lemma {:induction false} FireCounts(c: Config, m: Machine, before: seq<Step>, st: Step, after: seq<Step>,
                                      due: int, deadline: int)
    requires st.Fire? && due <= st.t && Run(c, m, before).clock < deadline
    ensures FiresInTime(c, m, before + [st] + after, due, deadline)
    decreases |before|
  {
    var steps := before + [st] + after;
    if before == [] {
    } else {
      assert steps[0] == before[0] && steps[1..] == before[1..] + [st] + after;
      FireCounts(c, Next(c, m, before[0]), before[1..], st, after, due, deadline);
    }
  }

  /** Inside the horizon the timer always answers: if it fires before the state expires, the run holds a
      command for the armed snapshot, created between its ETA and the expiry; exactly one if nothing is
      restored. */
  lemma NotifiedWithinTtl(g: Regime, c: Config, m: Machine, before: seq<Step>, after: seq<Step>)
    requires Arms(c, m) && NoneToCome(c, m.pos + 1)
    requires Legal(g, c, Next(c, m, Event), before + [Fire(EtaMillis(c.input[m.pos]))] + after)
    requires RestoresOwnCheckpoints(before + [Fire(EtaMillis(c.input[m.pos]))] + after)
    requires Run(c, Next(c, m, Event), before).clock < m.clock + c.ttl
    ensures
      var m1, due := Next(c, m, Event), EtaMillis(c.input[m.pos]);
      var m' := Run(c, m1, before + [Fire(due)] + after);
      && m.log < m'.log && |m'.log| <= |m.log| + 1 + (m'.restores - m.restores)
      && m1.ks.cell.Held? && Shows(m1.ks.cell.state.snapshot, c.input[m.pos])
      && AnsweredInTime(m'.log, |m.log|, m1.ks.cell.state.snapshot, m.clock + c.ttl)
  {
    var m1 := Next(c, m, Event);
    var due := EtaMillis(c.input[m.pos]);
    FireCounts(c, m1, before, Fire(due), after, due, m.clock + c.ttl);
    Verdict(g, c, m1, before + [Fire(due)] + after, m1.ks.cell.state, m.clock);
  }

  ghost predicate Notifies(g: Regime, c: Config, m: Machine, steps: seq<Step>) {
    Legal(g, c, m, steps) && RestoresOwnCheckpoints(steps) && Run(c, m, steps).log != m.log
  }

  /** Waiting for the ETA and letting its timer fire answers a live order that waits. */
  lemma WaitAndFire(g: Regime, c: Config, m: Machine, d: DelayState, due: int)
    requires !g.prompt && Awaits(m, d, m.clock) && due == EtaOf(d) && due in m.ks.timers
    requires m.clock < due < m.clock + c.ttl
    ensures Notifies(g, c, m, [Tick(due - m.clock)] + [Fire(due)])
  {
    var wait := Tick(due - m.clock);
    var m1 := Next(c, m, wait);
    RunCons(g, c, m1, Fire(due), []);
    RunCons(g, c, m, wait, [Fire(due)]);
    assert [Fire(due)] + [] == [Fire(due)] && [Fire(due)][1..] == [];
    assert RestoresOwnCheckpoints([Fire(due)]);
    assert ([wait] + [Fire(due)])[1..] == [Fire(due)];
    assert |Next(c, m1, Fire(due)).log| == |m.log| + 1;
  }

  /** The promise that a delayed order is notified holds exactly for the ETAs inside the TTL: from a
      reachable state whose next message arms a timer, some schedule leads to a command if and only if
      the ETA comes before that message's arrival plus the TTL. It needs no crash to lead there, and
      crashes do not help beyond. */
  lemma NotifiableExactlyWithinTtl(g: Regime, c: Config, m: Machine)
    requires !g.prompt && CoverageInv(c, m) && Arms(c, m) && NoneToCome(c, m.pos + 1)
    ensures (exists steps :: Notifies(g, c, Next(c, m, Event), steps))
       <==> EtaMillis(c.input[m.pos]) < m.clock + c.ttl
  {
    var m1 := Next(c, m, Event);
    var due := EtaMillis(c.input[m.pos]);
    if due < m.clock + c.ttl {
      CoverageStep(c, m, Event);
      WaitAndFire(g, c, m1, m1.ks.cell.state, due);
    } else {
      forall steps | Notifies(g, c, m1, steps) ensures false {
        NeverNotifiedBeyondTtl(g, c, m, steps);
      }
    }
  }

  /** The promise does fail: a first message whose ETA lies at or beyond its arrival plus the TTL arms a
      timer, and no schedule answers it, unless it restores the start itself. */
  lemma DelayedOrderNeverNotified(g: Regime, c: Config, clock: int, steps: seq<Step>)
    requires |c.input| == 1 && IsActiveMessage(c.input[0])
    requires c.ttl > 0 && clock + c.ttl <= EtaMillis(c.input[0])
    ensures CoverageInv(c, Init(clock)) && Arms(c, Init(clock)) && NoneToCome(c, 1)
    ensures !Notifies(g, c, Next(c, Init(clock), Event), steps)
  {
    if Notifies(g, c, Next(c, Init(clock), Event), steps) {
      NeverNotifiedBeyondTtl(g, c, Init(clock), steps);
    }
  }
}
