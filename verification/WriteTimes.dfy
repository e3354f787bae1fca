/** The time of the last write: what it is, and that it decides nothing but expiry. */
module WriteTimes {
  import opened Domain
  import opened Detector
  import opened Reference
  import opened KeyRun

  /** Equal up to the time of the last write, which only the TTL reads. */
  predicate SameButForWrites(a: KeyState, b: KeyState) {
    && a.timers == b.timers
    && a.cell.Held? == b.cell.Held?
    && (a.cell.Held? ==> a.cell.state == b.cell.state)
  }

  /** Equal now: the states up to write times, the clocks, and the logs. */
  predicate SameNow(a: Machine, b: Machine) {
    SameButForWrites(a.ks, b.ks) && a.clock == b.clock && a.log == b.log
  }

  /** Inputs that agree from two read positions on. */
  ghost predicate SameRest(c: Config, p: nat, c': Config, q: nat) {
    c.ttl == c'.ttl && p <= |c.input| && q <= |c'.input| && c.input[p..] == c'.input[q..]
  }

  /** The checkpoints agree as well: the same state up to write times, the same messages to replay. */
  ghost predicate SameSaved(c: Config, a: Machine, c': Config, b: Machine) {
    && a.saved.Some? == b.saved.Some?
    && (a.saved.Some? ==>
          && SameButForWrites(a.saved.value.ks, b.saved.value.ks)
          && SameRest(c, a.saved.value.pos, c', b.saved.value.pos))
  }

  lemma SameNextMessage(c: Config, p: nat, c': Config, q: nat)
    requires SameRest(c, p, c', q) && p < |c.input|
    ensures q < |c'.input| && c.input[p] == c'.input[q] && SameRest(c, p + 1, c', q + 1)
  {
    assert c.input[p..][0] == c'.input[q..][0];
    assert c.input[p..][1..] == c'.input[q..][1..];
    assert c.input[p..][1..] == c.input[p + 1..] && c'.input[q..][1..] == c'.input[q + 1..];
  }

  lemma SameStep(g: Regime, c: Config, a: Machine, c': Config, b: Machine, st: Step)
    requires g.unexpired && SameNow(a, b) && SameRest(c, a.pos, c', b.pos)
    requires Admits(g, c, a, st) && Admits(g, c', b, st) && (st.Restore? ==> SameSaved(c, a, c', b))
    ensures SameNow(Next(c, a, st), Next(c', b, st)) && SameRest(c, Next(c, a, st).pos, c', Next(c', b, st).pos)
    ensures st.Checkpoint? || SameSaved(c, a, c', b) ==> SameSaved(c, Next(c, a, st), c', Next(c', b, st))
  {
    if st.Event? {
      SameNextMessage(c, a.pos, c', b.pos);
    }
  }

  /** Machines that differ only in write times, with the same messages still to come and to replay, answer
      every common unexpired schedule alike, crashes included. */
  lemma {:induction false} WriteTimesInvisible(g: Regime, c: Config, a: Machine, c': Config, b: Machine,
                                               steps: seq<Step>)
    requires g.unexpired && SameNow(a, b) && SameRest(c, a.pos, c', b.pos) && SameSaved(c, a, c', b)
    requires Legal(g, c, a, steps) && Legal(g, c', b, steps)
    ensures SameNow(Run(c, a, steps), Run(c', b, steps))
    decreases |steps|
  {
    if steps == [] {
    } else {
      SameStep(g, c, a, c', b, steps[0]);
      WriteTimesInvisible(g, c, Next(c, a, steps[0]), c', Next(c', b, steps[0]), steps[1..]);
    }
  }

  /** Checkpoints taken earlier do not matter to a schedule that never restores them. */
  lemma {:induction false} OldCheckpointsInvisible(g: Regime, c: Config, a: Machine, c': Config, b: Machine,
                                                   steps: seq<Step>)
    requires g.unexpired && SameNow(a, b) && SameRest(c, a.pos, c', b.pos) && RestoresOwnCheckpoints(steps)
    requires Legal(g, c, a, steps) && Legal(g, c', b, steps)
    ensures SameNow(Run(c, a, steps), Run(c', b, steps))
    decreases |steps|
  {
    if steps == [] {
    } else {
      var a', b' := Next(c, a, steps[0]), Next(c', b, steps[0]);
      SameStep(g, c, a, c', b, steps[0]);
      if steps[0].Checkpoint? {
        WriteTimesInvisible(g, c, a', c', b', steps[1..]);
      } else {
        OldCheckpointsInvisible(g, c, a', c', b', steps[1..]);
      }
    }
  }

  // ---------------------------------------------------------------------------------------------
  // What the write times are
  // ---------------------------------------------------------------------------------------------

  /** A step writes the state when it accepts a message or fires a timer that emits. */
  predicate Writes(c: Config, m: Machine, st: Step) {
    || (st.Event? && m.pos < |c.input| && Accepted(c.ttl, m.ks, c.input[m.pos], m.clock))
    || (st.Fire? && Fires(c.ttl, m.ks, st.t, m.clock))
  }

  /** When the live state and the saved one were written, if at all. */
  datatype Written = Written(live: Option<int>, saved: Option<int>)

  function WrittenNext(c: Config, m: Machine, w: Written, st: Step): Written {
    match st
    case Checkpoint => w.(saved := w.live)
    case Restore => w.(live := w.saved)
    case _ => if Writes(c, m, st) then w.(live := Some(m.clock)) else w
  }

  function WrittenOf(c: Config, m: Machine, w: Written, steps: seq<Step>): Written
    decreases |steps|
  {
    if steps == [] then w else WrittenOf(c, Next(c, m, steps[0]), WrittenNext(c, m, w, steps[0]), steps[1..])
  }

  predicate WrittenAt(cell: Cell, at: Option<int>, clock: int) {
    if cell.Empty? then at == None else at == Some(cell.lastWrite) && cell.lastWrite <= clock
  }

  predicate WrittenInv(m: Machine, w: Written) {
    WrittenAt(m.ks.cell, w.live, m.clock) && (m.saved.Some? ==> WrittenAt(m.saved.value.ks.cell, w.saved, m.clock))
  }

  lemma WrittenStep(c: Config, m: Machine, w: Written, st: Step)
    requires Enabled(c, m, st) && WrittenInv(m, w)
    ensures WrittenInv(Next(c, m, st), WrittenNext(c, m, w, st))
  {
  }

  lemma {:induction false} WrittenKept(g: Regime, c: Config, m: Machine, w: Written, steps: seq<Step>)
    requires Legal(g, c, m, steps) && WrittenInv(m, w)
    ensures WrittenInv(Run(c, m, steps), WrittenOf(c, m, w, steps))
    decreases |steps|
  {
    if steps == [] {
    } else {
      WrittenStep(c, m, w, steps[0]);
      WrittenKept(g, c, Next(c, m, steps[0]), WrittenNext(c, m, w, steps[0]), steps[1..]);
    }
  }

  /** In every run the state carries the clock of the last step that accepted a message or emitted, which
      never lies ahead; a restore brings back that of the checkpoint. */
  lemma WrittenByLastStep(g: Regime, c: Config, clock: int, steps: seq<Step>)
    requires Legal(g, c, Init(clock), steps)
    ensures
      var m := Run(c, Init(clock), steps);
      WrittenAt(m.ks.cell, WrittenOf(c, Init(clock), Written(None, None), steps).live, m.clock)
  {
    WrittenKept(g, c, Init(clock), Written(None, None), steps);
  }
}
