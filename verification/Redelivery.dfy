/** At-least-once delivery: redelivered messages leave no trace. */
module Redelivery {
  import opened Domain
  import opened Detector
  import opened Reference
  import opened KeyRun
  import opened LastWriter
  import opened WriteTimes

  /** The input without the messages that repeat an earlier one. */
  function FirstOccurrences(xs: seq<OrderState>): (ys: seq<OrderState>)
    ensures forall x :: x in ys <==> x in xs
    ensures forall i, j :: 0 <= i < j < |ys| ==> ys[i] != ys[j]
  {
    if xs == [] then []
    else
      var ys := FirstOccurrences(xs[..|xs| - 1]);
      assert xs == xs[..|xs| - 1] + [xs[|xs| - 1]];
      if xs[|xs| - 1] in xs[..|xs| - 1] then ys else ys + [xs[|xs| - 1]]
  }

  lemma {:induction false} FirstOccurrencesPrefix(xs: seq<OrderState>, n: nat)
    requires n <= |xs|
    ensures FirstOccurrences(xs[..n]) <= FirstOccurrences(xs)
    ensures n < |xs| && xs[n] !in xs[..n] ==>
              |FirstOccurrences(xs[..n])| < |FirstOccurrences(xs)| &&
              FirstOccurrences(xs)[|FirstOccurrences(xs[..n])|] == xs[n]
    decreases |xs|
  {
    if n < |xs| {
      var init := xs[..|xs| - 1];
      assert init[..n] == xs[..n];
      FirstOccurrencesPrefix(init, n);
    } else {
      assert xs[..n] == xs;
    }
  }

  predicate IsRedelivery(c: Config, m: Machine, st: Step) {
    st.Event? && m.pos < |c.input| && c.input[m.pos] in c.input[..m.pos]
  }

  /** The schedule without the redeliveries that the run meets. */
  function Stripped(c: Config, m: Machine, steps: seq<Step>): seq<Step>
    decreases |steps|
  {
    if steps == [] then []
    else
      var rest := Stripped(c, Next(c, m, steps[0]), steps[1..]);
      if IsRedelivery(c, m, steps[0]) then rest else [steps[0]] + rest
  }

  /** An update time identifies its snapshot. */
  ghost predicate UpdateTimesIdentify(xs: seq<OrderState>) {
    forall i, j :: 0 <= i < |xs| && 0 <= j < |xs| && HasAllFields(xs[i]) && HasAllFields(xs[j]) ==>
      (xs[i].lastUpdatedAt == xs[j].lastUpdatedAt ==> xs[i] == xs[j])
  }

  /** A message that the state shows already, or that is older, changes at most the write time. */
  lemma KnownMessageIsIdle(c: Config, m: Machine)
    requires m.pos < |c.input| && Live(c.ttl, m.ks.cell, m.clock) && Exact(m.ks) && Quiet(m)
    requires Outdated(c.ttl, m.ks, c.input[m.pos], m.clock) || Shows(m.ks.cell.state.snapshot, c.input[m.pos])
    ensures SameButForWrites(Next(c, m, Event).ks, m.ks) && Next(c, m, Event).log == m.log
  {
  }

  lemma RedeliveryIsIdle(g: Regime, c: Config, m: Machine)
    requires g.unexpired && g.prompt && LatestInv(c, m) && ExactInv(m) && UpdateTimesIdentify(c.input)
    requires Admits(g, c, m, Event) && IsRedelivery(c, m, Event)
    ensures SameButForWrites(Next(c, m, Event).ks, m.ks) && Next(c, m, Event).log == m.log
  {
    var xs, x := c.input[..m.pos], c.input[m.pos];
    if HasAllFields(x) {
      var j :| 0 <= j < |xs| && xs[j] == x;
      assert !NoneComplete(xs);
      var i :| HoldsWinner(xs, m.ks.cell, i);
      assert xs[j].lastUpdatedAt.value.nanos <= xs[i].lastUpdatedAt.value.nanos;
      if !Outdated(c.ttl, m.ks, x, m.clock) {
        assert c.input[i].lastUpdatedAt == c.input[j].lastUpdatedAt;
      }
      KnownMessageIsIdle(c, m);
    }
  }

  predicate SamePlace(c: Config, p: nat, q: nat) {
    p <= |c.input| && q == |FirstOccurrences(c.input[..p])|
  }

  /** b is where a would be had the redeliveries not been sent. */
  predicate Shadows(c: Config, a: Machine, b: Machine) {
    && SameButForWrites(a.ks, b.ks) && a.clock == b.clock && a.log == b.log && SamePlace(c, a.pos, b.pos)
    && a.saved.Some? == b.saved.Some?
    && (a.saved.Some? ==>
          SameButForWrites(a.saved.value.ks, b.saved.value.ks) && SamePlace(c, a.saved.value.pos, b.saved.value.pos))
  }

  function Deduplicated(c: Config): Config {
    c.(input := FirstOccurrences(c.input))
  }

  /** A first occurrence is the next message for both, and takes both one place further. */
  lemma PlaceAfterFirst(c: Config, p: nat, q: nat)
    requires SamePlace(c, p, q) && p < |c.input| && c.input[p] !in c.input[..p]
    ensures q < |Deduplicated(c).input| && Deduplicated(c).input[q] == c.input[p]
    ensures SamePlace(c, p + 1, q + 1)
  {
    FirstOccurrencesPrefix(c.input, p);
    assert c.input[..p + 1][..p] == c.input[..p];
  }

  /** Fresh states that differ only in write times react alike. */
  lemma SameReaction(ttl: nat, a: KeyState, b: KeyState, x: OrderState, now: int)
    requires SameButForWrites(a, b)
    requires (a.cell.Empty? || Live(ttl, a.cell, now)) && (b.cell.Empty? || Live(ttl, b.cell, now))
    ensures SameButForWrites(OnElement(ttl, a, x, now).next, OnElement(ttl, b, x, now).next)
    ensures OnElement(ttl, a, x, now).out == OnElement(ttl, b, x, now).out
  {
  }

  lemma ShadowEvent(c: Config, a: Machine, b: Machine)
    requires Shadows(c, a, b) && a.pos < |c.input| && !IsRedelivery(c, a, Event)
    requires Fresh(c, a) && Fresh(Deduplicated(c), b)
    ensures b.pos < |Deduplicated(c).input| && Shadows(c, Next(c, a, Event), Next(Deduplicated(c), b, Event))
  {
    PlaceAfterFirst(c, a.pos, b.pos);
    SameReaction(c.ttl, a.ks, b.ks, c.input[a.pos], a.clock);
  }

  lemma ShadowMove(c: Config, a: Machine, b: Machine, st: Step)
    requires Shadows(c, a, b) && Enabled(c, a, st) && !IsRedelivery(c, a, st)
    requires st.Event? || st.Fire? ==> Fresh(c, a) && Fresh(Deduplicated(c), b)
    ensures Shadows(c, Next(c, a, st), Next(Deduplicated(c), b, st))
  {
    if st.Event? {
      ShadowEvent(c, a, b);
    }
  }

  lemma ShadowIdle(g: Regime, c: Config, a: Machine, b: Machine)
    requires g.unexpired && g.prompt && LatestInv(c, a) && ExactInv(a) && UpdateTimesIdentify(c.input)
    requires Shadows(c, a, b) && Admits(g, c, a, Event) && IsRedelivery(c, a, Event)
    ensures Shadows(c, Next(c, a, Event), b)
  {
    RedeliveryIsIdle(g, c, a);
    assert c.input[..a.pos + 1][..a.pos] == c.input[..a.pos];
  }

  lemma {:induction false} ShadowKept(g: Regime, c: Config, a: Machine, b: Machine, steps: seq<Step>)
    requires g.unexpired && g.prompt && LatestInv(c, a) && ExactInv(a) && UpdateTimesIdentify(c.input)
    requires Shadows(c, a, b) && Legal(g, c, a, steps) && Legal(g, Deduplicated(c), b, Stripped(c, a, steps))
    ensures Shadows(c, Run(c, a, steps), Run(Deduplicated(c), b, Stripped(c, a, steps)))
    decreases |steps|
  {
    if steps == [] {
    } else {
      var st, a1 := steps[0], Next(c, a, steps[0]);
      LatestStep(g, c, a, st);
      ExactStep(g, c, a, st);
      if IsRedelivery(c, a, st) {
        ShadowIdle(g, c, a, b);
        ShadowKept(g, c, a1, b, steps[1..]);
      } else {
        ShadowMove(c, a, b, st);
        RunCons(g, Deduplicated(c), b, st, Stripped(c, a1, steps[1..]));
        ShadowKept(g, c, a1, Next(Deduplicated(c), b, st), steps[1..]);
      }
    }
  }

  /** Redeliveries stutter: when an update time identifies its message, due timers fire promptly and
      nothing expires, a run over an input with any number of redeliveries anywhere ends with the same
      snapshot, timer field, pending timers and command log as the run over the input without them,
      crashes and replays included. */
  lemma RedeliveriesStutter(g: Regime, c: Config, clock: int, steps: seq<Step>)
    requires g.unexpired && g.prompt && UpdateTimesIdentify(c.input)
    requires Legal(g, c, Init(clock), steps)
    requires Legal(g, Deduplicated(c), Init(clock), Stripped(c, Init(clock), steps))
    ensures
      var a := Run(c, Init(clock), steps);
      var b := Run(Deduplicated(c), Init(clock), Stripped(c, Init(clock), steps));
      SameButForWrites(a.ks, b.ks) && a.log == b.log
  {
    ShadowKept(g, c, Init(clock), Init(clock), steps);
  }

  /** Any other step of a is open to its shadow as well, as long as the shadow's state is fresh. */
  lemma ShadowStep(g: Regime, c: Config, a: Machine, b: Machine, st: Step)
    requires Shadows(c, a, b) && Admits(g, c, a, st) && !IsRedelivery(c, a, st)
    requires Fresh(c, a) && Fresh(Deduplicated(c), b)
    ensures Admits(g, Deduplicated(c), b, st)
    ensures Shadows(c, Next(c, a, st), Next(Deduplicated(c), b, st))
  {
    ShadowMove(c, a, b, st);
    if st.Event? {
      ShadowEvent(c, a, b);
    }
  }

  lemma {:induction false} ShadowLegal(g: Regime, c: Config, a: Machine, b: Machine, steps: seq<Step>, start: int)
    requires g.unexpired && g.prompt && LatestInv(c, a) && ExactInv(a) && UpdateTimesIdentify(c.input)
    requires Shadows(c, a, b) && Legal(g, c, a, steps)
    requires WrittenSince(a, start) && WrittenSince(b, start) && start <= a.clock
    requires Run(c, a, steps).clock < start + c.ttl
    ensures Legal(g, Deduplicated(c), b, Stripped(c, a, steps))
    decreases |steps|
  {
    if steps == [] {
    } else {
      var st, a1 := steps[0], Next(c, a, steps[0]);
      ClockAndLogGrow(c, a, steps);
      LatestStep(g, c, a, st);
      ExactStep(g, c, a, st);
      if IsRedelivery(c, a, st) {
        ShadowIdle(g, c, a, b);
        WrittenSinceKept(c, a, st, start);
        ShadowLegal(g, c, a1, b, steps[1..], start);
      } else {
        ShadowStep(g, c, a, b, st);
        WrittenSinceKept(c, a, st, start);
        WrittenSinceKept(Deduplicated(c), b, st, start);
        ShadowLegal(g, c, a1, Next(Deduplicated(c), b, st), steps[1..], start);
        RunCons(g, Deduplicated(c), b, st, Stripped(c, a1, steps[1..]));
      }
    }
  }

  /** Within one TTL nothing need be said about expiry, nor about the schedule without redeliveries. */
  lemma RedeliveriesStutterWithinTtl(g: Regime, c: Config, clock: int, steps: seq<Step>)
    requires g.prompt && UpdateTimesIdentify(c.input)
    requires Legal(g, c, Init(clock), steps) && Run(c, Init(clock), steps).clock < clock + c.ttl
    ensures
      var a := Run(c, Init(clock), steps);
      var b := Run(Deduplicated(c), Init(clock), Stripped(c, Init(clock), steps));
      SameButForWrites(a.ks, b.ks) && a.log == b.log
  {
    var h := g.(unexpired := true);
    ShortRunsDoNotExpire(g, c, clock, steps);
    ShadowLegal(h, c, Init(clock), Init(clock), steps, clock);
    RedeliveriesStutter(h, c, clock, steps);
  }
}
