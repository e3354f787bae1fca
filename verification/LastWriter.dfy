/** What the stored snapshot is: the declarative winner among the processed messages. */
module LastWriter {
  import opened Domain
  import opened Detector
  import opened Reference
  import opened KeyRun

  /** Message i has the greatest lastUpdatedAt among those with all their fields, and is the latest such
      arrival. */
  ghost predicate IsWinner(xs: seq<OrderState>, i: int) {
    && 0 <= i < |xs| && HasAllFields(xs[i])
    && (forall j :: 0 <= j < i && HasAllFields(xs[j]) ==>
          xs[j].lastUpdatedAt.value.nanos <= xs[i].lastUpdatedAt.value.nanos)
    && (forall j :: i < j < |xs| && HasAllFields(xs[j]) ==>
          xs[j].lastUpdatedAt.value.nanos < xs[i].lastUpdatedAt.value.nanos)
  }

  ghost predicate NoneComplete(xs: seq<OrderState>) {
    forall j :: 0 <= j < |xs| ==> !HasAllFields(xs[j])
  }

  ghost predicate HoldsWinner(xs: seq<OrderState>, cell: Cell, i: int) {
    IsWinner(xs, i) && cell.Held? && Shows(cell.state.snapshot, xs[i])
  }

  ghost predicate Latest(xs: seq<OrderState>, cell: Cell) {
    (cell.Empty? && NoneComplete(xs)) || exists i :: HoldsWinner(xs, cell, i)
  }

  lemma WinnerUnique(xs: seq<OrderState>, i: int, j: int)
    requires IsWinner(xs, i) && IsWinner(xs, j)
    ensures i == j
  {
  }

  ghost predicate LatestInv(c: Config, m: Machine) {
    && m.pos <= |c.input| && Latest(c.input[..m.pos], m.ks.cell)
    && (m.saved.Some? ==> m.saved.value.pos <= |c.input| &&
                          Latest(c.input[..m.saved.value.pos], m.saved.value.ks.cell))
  }

  /** A message makes the winner of a stretch of messages the winner of the longer stretch. */
  lemma EventKeepsLatest(c: Config, m: Machine, xs: seq<OrderState>)
    requires m.pos < |c.input| && Latest(xs, m.ks.cell)
    requires Fresh(c, m) || !HasAllFields(c.input[m.pos])
    ensures Latest(xs + [c.input[m.pos]], Next(c, m, Event).ks.cell)
  {
    var x := c.input[m.pos];
    var xs', cell' := xs + [x], Next(c, m, Event).ks.cell;
    if m.ks.cell.Empty? {
      if HasAllFields(x) {
        assert HoldsWinner(xs', cell', |xs|);
      } else {
        assert NoneComplete(xs');
      }
    } else {
      var i :| HoldsWinner(xs, m.ks.cell, i);
      if HasAllFields(x) && xs[i].lastUpdatedAt.value.nanos <= x.lastUpdatedAt.value.nanos {
        forall j | 0 <= j < |xs| && HasAllFields(xs[j])
          ensures xs[j].lastUpdatedAt.value.nanos <= x.lastUpdatedAt.value.nanos
        {
          assert j < i || j == i || i < j;
        }
        assert HoldsWinner(xs', cell', |xs|);
      } else {
        assert HoldsWinner(xs', cell', i);
      }
    }
  }

  lemma FireKeepsLatest(c: Config, m: Machine, t: int, xs: seq<OrderState>)
    requires Latest(xs, m.ks.cell)
    ensures Latest(xs, Next(c, m, Fire(t)).ks.cell)
  {
    if m.ks.cell.Held? {
      var i :| HoldsWinner(xs, m.ks.cell, i);
      assert HoldsWinner(xs, Next(c, m, Fire(t)).ks.cell, i);
    }
  }

  lemma LatestStep(g: Regime, c: Config, m: Machine, st: Step)
    requires g.unexpired && LatestInv(c, m) && Admits(g, c, m, st)
    ensures LatestInv(c, Next(c, m, st))
  {
    if st.Event? {
      EventKeepsLatest(c, m, c.input[..m.pos]);
      assert c.input[..m.pos + 1] == c.input[..m.pos] + [c.input[m.pos]];
    } else if st.Fire? {
      FireKeepsLatest(c, m, st.t, c.input[..m.pos]);
    }
  }

  lemma {:induction false} LatestKept(g: Regime, c: Config, m: Machine, steps: seq<Step>)
    requires g.unexpired && LatestInv(c, m) && Legal(g, c, m, steps)
    ensures LatestInv(c, Run(c, m, steps))
    decreases |steps|
  {
    if steps == [] {
    } else {
      LatestStep(g, c, m, steps[0]);
      LatestKept(g, c, Next(c, m, steps[0]), steps[1..]);
    }
  }

  /** Last writer wins: without expiry the stored snapshot is the winner of exactly the processed
      prefix, whatever fired, was emitted or was replayed in between. */
  lemma LastWriterWins(g: Regime, c: Config, clock: int, steps: seq<Step>)
    requires g.unexpired && Legal(g, c, Init(clock), steps)
    ensures
      var m := Run(c, Init(clock), steps);
      && m.pos <= |c.input|
      && (m.ks.cell.Empty? <==> NoneComplete(c.input[..m.pos]))
      && (m.ks.cell.Held? ==> exists i :: HoldsWinner(c.input[..m.pos], m.ks.cell, i))
      && (m.ks.cell.Held? ==> forall j :: 0 <= j < m.pos && HasAllFields(c.input[j]) ==>
            c.input[j].lastUpdatedAt.value.nanos <= m.ks.cell.state.snapshot.lastUpdatedAt.nanos)
  {
    LatestKept(g, c, Init(clock), steps);
  }

  // ---------------------------------------------------------------------------------------------
  // When states expire
  // ---------------------------------------------------------------------------------------------

  /** The messages that created the live state and the saved one: positions in the input. */
  datatype Origins = Origins(live: nat, saved: nat)

  /** A valid message creates the state anew when it finds none, or only an expired one. */
  predicate Creates(c: Config, m: Machine, st: Step) {
    st.Event? && m.pos < |c.input| && HasAllFields(c.input[m.pos]) && !Live(c.ttl, m.ks.cell, m.clock)
  }

  function OriginsNext(c: Config, m: Machine, o: Origins, st: Step): Origins {
    match st
    case Checkpoint => o.(saved := o.live)
    case Restore => o.(live := o.saved)
    case _ => if Creates(c, m, st) then o.(live := m.pos) else o
  }

  /** Who created the states at the end of the run. */
  function OriginsOf(c: Config, m: Machine, o: Origins, steps: seq<Step>): Origins
    decreases |steps|
  {
    if steps == [] then o
    else OriginsOf(c, Next(c, m, steps[0]), OriginsNext(c, m, o, steps[0]), steps[1..])
  }

  /** The stored snapshot is the winner of the messages since the one that created the state. */
  ghost predicate LatestSince(c: Config, ks: KeyState, pos: nat, origin: nat) {
    && origin <= pos <= |c.input| && Latest(c.input[origin..pos], ks.cell)
    && (ks.cell.Held? ==> origin < pos && HasAllFields(c.input[origin]))
    && (ks.cell.Empty? ==> origin == 0)
  }

  ghost predicate SinceInv(c: Config, m: Machine, o: Origins) {
    && LatestSince(c, m.ks, m.pos, o.live)
    && (m.saved.Some? ==> LatestSince(c, m.saved.value.ks, m.saved.value.pos, o.saved))
  }

  lemma SinceEvent(c: Config, m: Machine, o: Origins)
    requires m.pos < |c.input| && LatestSince(c, m.ks, m.pos, o.live)
    ensures LatestSince(c, Next(c, m, Event).ks, m.pos + 1, OriginsNext(c, m, o, Event).live)
  {
    var ks' := Next(c, m, Event).ks;
    if Creates(c, m, Event) {
      assert c.input[m.pos..m.pos + 1] == [c.input[m.pos]];
      assert HoldsWinner(c.input[m.pos..m.pos + 1], ks'.cell, 0);
    } else {
      EventKeepsLatest(c, m, c.input[o.live..m.pos]);
      assert c.input[o.live..m.pos + 1] == c.input[o.live..m.pos] + [c.input[m.pos]];
    }
  }

  lemma SinceStep(c: Config, m: Machine, o: Origins, st: Step)
    requires SinceInv(c, m, o) && Enabled(c, m, st)
    ensures SinceInv(c, Next(c, m, st), OriginsNext(c, m, o, st))
  {
    if st.Event? {
      SinceEvent(c, m, o);
    } else if st.Fire? {
      FireKeepsLatest(c, m, st.t, c.input[o.live..m.pos]);
    }
  }

  lemma {:induction false} SinceKept(g: Regime, c: Config, m: Machine, o: Origins, steps: seq<Step>)
    requires SinceInv(c, m, o) && Legal(g, c, m, steps)
    ensures SinceInv(c, Run(c, m, steps), OriginsOf(c, m, o, steps))
    decreases |steps|
  {
    if steps == [] {
    } else {
      SinceStep(c, m, o, steps[0]);
      SinceKept(g, c, Next(c, m, steps[0]), OriginsNext(c, m, o, steps[0]), steps[1..]);
    }
  }

  /** In every run, whatever expired, crashed or was replayed: the stored snapshot is the winner of exactly
      the messages processed since the one that last created the state. */
  lemma LastWriterWinsSinceCreation(g: Regime, c: Config, clock: int, steps: seq<Step>)
    requires Legal(g, c, Init(clock), steps)
    ensures
      var m := Run(c, Init(clock), steps);
      var origin := OriginsOf(c, Init(clock), Origins(0, 0), steps).live;
      && origin <= m.pos <= |c.input|
      && (m.ks.cell.Empty? <==> NoneComplete(c.input[origin..m.pos]))
      && (m.ks.cell.Held? ==> origin < m.pos && HasAllFields(c.input[origin]) &&
                              exists i :: HoldsWinner(c.input[origin..m.pos], m.ks.cell, i))
  {
    SinceKept(g, c, Init(clock), Origins(0, 0), steps);
    var m, origin := Run(c, Init(clock), steps), OriginsOf(c, Init(clock), Origins(0, 0), steps).live;
    assert m.ks.cell.Held? ==> HasAllFields(c.input[origin..m.pos][0]);
  }
}
