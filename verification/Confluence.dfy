/** Why the order of arrival does not matter. */
module Confluence {
  import opened Domain
  import opened Reference
  import opened KeyRun
  import opened LastWriter
  import opened Soundness
  import opened WriteTimes

  ghost predicate DistinctUpdates(xs: seq<OrderState>) {
    forall i, j :: 0 <= i < j < |xs| && HasAllFields(xs[i]) && HasAllFields(xs[j]) ==>
      xs[i].lastUpdatedAt.value.nanos != xs[j].lastUpdatedAt.value.nanos
  }

  lemma PermutedWinner(xs: seq<OrderState>, ys: seq<OrderState>, i: int, j: int)
    requires multiset(xs) == multiset(ys) && DistinctUpdates(xs)
    requires IsWinner(xs, i) && IsWinner(ys, j)
    ensures xs[i] == ys[j]
  {
    assert xs[i] in multiset(ys) && ys[j] in multiset(xs);
    var j' :| 0 <= j' < |ys| && ys[j'] == xs[i];
    var i' :| 0 <= i' < |xs| && xs[i'] == ys[j];
    assert xs[i'].lastUpdatedAt.value.nanos <= xs[i].lastUpdatedAt.value.nanos;
    assert ys[j'].lastUpdatedAt.value.nanos <= ys[j].lastUpdatedAt.value.nanos;
  }

  lemma PermutedNone(xs: seq<OrderState>, ys: seq<OrderState>)
    requires multiset(xs) == multiset(ys) && NoneComplete(xs)
    ensures NoneComplete(ys)
  {
    forall j | 0 <= j < |ys| ensures !HasAllFields(ys[j]) {
      assert ys[j] in multiset(xs);
    }
  }

  lemma PermutedEtas(xs: seq<OrderState>, ys: seq<OrderState>, clock: int)
    requires multiset(xs) == multiset(ys) && BeforeAllEtas(xs, clock)
    ensures BeforeAllEtas(ys, clock)
  {
    forall j | 0 <= j < |ys| && IsActiveMessage(ys[j]) ensures clock < EtaMillis(ys[j])
    {
      assert ys[j] in multiset(xs);
    }
  }

  /** Confluence: the messages of one order in two arrival orders, delivered over any two unexpired
      schedules (crashes and replays included) that end before the ETA of any active message, leave the same
      state, the same timer field and the same pending timers, and no output. */
  lemma ArrivalOrderIrrelevant(g: Regime, c: Config, c': Config, clock: int, clock': int, steps: seq<Step>,
                               steps': seq<Step>)
    requires g.unexpired && Legal(g, c, Init(clock), steps) && Legal(g, c', Init(clock'), steps')
    requires multiset(c.input) == multiset(c'.input) && DistinctUpdates(c.input)
    requires Run(c, Init(clock), steps).pos == |c.input| && Run(c', Init(clock'), steps').pos == |c'.input|
    requires BeforeAllEtas(c.input, Run(c, Init(clock), steps).clock)
    requires BeforeAllEtas(c'.input, Run(c', Init(clock'), steps').clock)
    ensures
      var m, m' := Run(c, Init(clock), steps), Run(c', Init(clock'), steps');
      SameButForWrites(m.ks, m'.ks) && m.log == m'.log == []
  {
    var m, m' := Run(c, Init(clock), steps), Run(c', Init(clock'), steps');
    LastWriterWins(g, c, clock, steps);
    LastWriterWins(g, c', clock', steps');
    TimersExact(g, c, Init(clock), steps);
    TimersExact(g, c', Init(clock'), steps');
    NothingSentBeforeEtas(g, c, clock, steps);
    NothingSentBeforeEtas(g, c', clock', steps');
    assert c.input[..m.pos] == c.input && c'.input[..m'.pos] == c'.input;
    if m.ks.cell.Empty? {
      PermutedNone(c.input, c'.input);
    } else if m'.ks.cell.Empty? {
      PermutedNone(c'.input, c.input);
    } else {
      var i :| HoldsWinner(c.input, m.ks.cell, i);
      var j :| HoldsWinner(c'.input, m'.ks.cell, j);
      PermutedWinner(c.input, c'.input, i, j);
    }
  }

  function Extended(c: Config, later: seq<OrderState>): Config {
    c.(input := c.input + later)
  }

  /** Messages that are never reached change nothing. */
  lemma {:induction false} UnreadInputIrrelevant(g: Regime, c: Config, m: Machine, steps: seq<Step>,
                                                 later: seq<OrderState>)
    requires Legal(g, c, m, steps)
    ensures Legal(g, Extended(c, later), m, steps)
    ensures Run(Extended(c, later), m, steps) == Run(c, m, steps)
    decreases |steps|
  {
    if steps == [] {
    } else {
      UnreadInputIrrelevant(g, c, Next(c, m, steps[0]), steps[1..], later);
    }
  }

  /** After such a reordered start, any further messages and any further schedule lead to the same
      commands, with any number of crashes: only a checkpoint taken during the reordered start itself must
      not be restored, because its replay is that start again, at a later time. */
  lemma SameCommandsLater(g: Regime, h: Regime, c: Config, c': Config, clock: int, clock': int,
                          steps: seq<Step>, steps': seq<Step>, later: seq<OrderState>, more: seq<Step>)
    requires g.unexpired && Legal(g, c, Init(clock), steps) && Legal(g, c', Init(clock'), steps')
    requires c.ttl == c'.ttl && multiset(c.input) == multiset(c'.input) && DistinctUpdates(c.input)
    requires Run(c, Init(clock), steps).pos == |c.input| && Run(c', Init(clock'), steps').pos == |c'.input|
    requires Run(c, Init(clock), steps).clock == Run(c', Init(clock'), steps').clock
    requires BeforeAllEtas(c.input, Run(c, Init(clock), steps).clock)
    requires h.unexpired && RestoresOwnCheckpoints(more)
    requires Legal(h, Extended(c, later), Run(c, Init(clock), steps), more)
    requires Legal(h, Extended(c', later), Run(c', Init(clock'), steps'), more)
    ensures Run(Extended(c, later), Init(clock), steps + more).log
         == Run(Extended(c', later), Init(clock'), steps' + more).log
  {
    var e, e' := Extended(c, later), Extended(c', later);
    var m, m' := Run(c, Init(clock), steps), Run(c', Init(clock'), steps');
    PermutedEtas(c.input, c'.input, m.clock);
    ArrivalOrderIrrelevant(g, c, c', clock, clock', steps, steps');
    assert e.input[m.pos..] == later == e'.input[m'.pos..];
    OldCheckpointsInvisible(h, e, m, e', m', more);
    UnreadInputIrrelevant(g, c, Init(clock), steps, later);
    UnreadInputIrrelevant(g, c', Init(clock'), steps', later);
    RunConcat(g, e, Init(clock), steps, more);
    RunConcat(g, e', Init(clock'), steps', more);
  }
}
