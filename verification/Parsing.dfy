/** The stage in front of the detector: raw payloads are parsed, parse failures go to the dead letters,
    and the parsed messages are routed to their orders. */
module Parsing {
  import opened Domain
  import Job

  /** The marked places of a stream. */
  function Places(marks: seq<bool>): (places: seq<nat>)
    ensures forall k :: 0 <= k < |places| ==> places[k] < |marks| && marks[places[k]]
    ensures forall k, l :: 0 <= k < l < |places| ==> places[k] < places[l]
    ensures forall i :: 0 <= i < |marks| && marks[i] ==> i in places
  {
    if marks == [] then []
    else Places(marks[..|marks| - 1]) + if marks[|marks| - 1] then [|marks| - 1] else []
  }

  function Parsed(parse: string -> Option<OrderState>, values: seq<string>): seq<OrderState> {
    if values == [] then []
    else
      var rest := Parsed(parse, values[..|values| - 1]);
      match parse(values[|values| - 1])
      case None => rest
      case Some(x) => rest + [x]
  }

  function Rejected(parse: string -> Option<OrderState>, values: seq<string>): seq<string> {
    if values == [] then []
    else
      Rejected(parse, values[..|values| - 1]) +
      if parse(values[|values| - 1]).None? then [values[|values| - 1]] else []
  }

  /** The messages are the parsed payloads in order of arrival. */
  lemma {:induction false} ParsedInOrder(parse: string -> Option<OrderState>, values: seq<string>, marks: seq<bool>)
    requires |marks| == |values| && forall i :: 0 <= i < |values| ==> (marks[i] <==> parse(values[i]).Some?)
    ensures |Parsed(parse, values)| == |Places(marks)|
    ensures forall k :: 0 <= k < |Places(marks)| ==>
      parse(values[Places(marks)[k]]) == Some(Parsed(parse, values)[k])
  {
    if values == [] {
    } else {
      ParsedInOrder(parse, values[..|values| - 1], marks[..|marks| - 1]);
    }
  }

  /** The dead letters are the other payloads, in order of arrival. */
  lemma {:induction false} RejectedInOrder(parse: string -> Option<OrderState>, values: seq<string>, marks: seq<bool>)
    requires |marks| == |values| && forall i :: 0 <= i < |values| ==> (marks[i] <==> parse(values[i]).None?)
    ensures |Rejected(parse, values)| == |Places(marks)|
    ensures forall k :: 0 <= k < |Places(marks)| ==> values[Places(marks)[k]] == Rejected(parse, values)[k]
  {
    if values == [] {
    } else {
      RejectedInOrder(parse, values[..|values| - 1], marks[..|marks| - 1]);
    }
  }

  /** The parser is a parameter; None stands for an exception. */
  class OrderStateDeserializationFunction {
    const parse: string -> Option<OrderState>
    var collected: seq<OrderState>
    var deadLetters: seq<string>
    var parseErrors: nat

    constructor (parse: string -> Option<OrderState>)
      ensures this.parse == parse && collected == [] && deadLetters == [] && parseErrors == 0
    {
      this.parse := parse;
      collected, deadLetters, parseErrors := [], [], 0;
    }

    method ProcessElement(value: string)
      modifies this
      ensures match parse(value)
              case Some(x) =>
                collected == old(collected) + [x] && deadLetters == old(deadLetters) && parseErrors == old(parseErrors)
              case None =>
                collected == old(collected) && deadLetters == old(deadLetters) + [value] &&
                parseErrors == old(parseErrors) + 1
    {
      match parse(value) {
        case Some(orderState) =>
          collected := collected + [orderState];
        case None =>
          parseErrors := parseErrors + 1;
          deadLetters := deadLetters + [value];
      }
    }
  }

  /** A stream of payloads: each one is either collected or a dead letter, both in order of arrival. */
  method ParseStream(parse: string -> Option<OrderState>, values: seq<string>)
    returns (f: OrderStateDeserializationFunction)
    ensures f.collected == Parsed(parse, values) && f.deadLetters == Rejected(parse, values)
    ensures |f.collected| + |f.deadLetters| == |values| && f.parseErrors == |f.deadLetters|
  {
    f := new OrderStateDeserializationFunction(parse);
    for i := 0 to |values|
      invariant f.parse == parse && fresh(f)
      invariant f.collected == Parsed(parse, values[..i]) && f.deadLetters == Rejected(parse, values[..i])
      invariant |f.collected| + |f.deadLetters| == i && f.parseErrors == |f.deadLetters|
    {
      assert values[..i + 1][..i] == values[..i];
      f.ProcessElement(values[i]);
    }
    assert values[..|values|] == values;
  }

  // ---------------------------------------------------------------------------------------------
  // keyBy
  // ---------------------------------------------------------------------------------------------

  /** The messages of one order, in order of arrival. */
  function InputOf(xs: seq<OrderState>, key: string): seq<OrderState> {
    if xs == [] then []
    else
      InputOf(xs[..|xs| - 1], key) + if xs[|xs| - 1].orderId == Some(key) then [xs[|xs| - 1]] else []
  }

  /** The input of an order lists exactly its messages, by their places in the stream. */
  lemma {:induction false} InputOfInOrder(xs: seq<OrderState>, key: string, marks: seq<bool>)
    requires |marks| == |xs| && forall i :: 0 <= i < |xs| ==> (marks[i] <==> xs[i].orderId == Some(key))
    ensures |InputOf(xs, key)| == |Places(marks)|
    ensures forall k :: 0 <= k < |Places(marks)| ==> InputOf(xs, key)[k] == xs[Places(marks)[k]]
  {
    if xs == [] {
    } else {
      InputOfInOrder(xs[..|xs| - 1], key, marks[..|marks| - 1]);
    }
  }

  function Keys(xs: seq<OrderState>): set<string> {
    set i | 0 <= i < |xs| && xs[i].orderId.Some? :: xs[i].orderId.value
  }

  function Routed(ttl: nat, xs: seq<OrderState>): Job.Topology {
    Job.Topology(ttl, map key | key in Keys(xs) :: InputOf(xs, key))
  }

  lemma {:induction false} InputOfIsKeyed(xs: seq<OrderState>, key: string)
    ensures forall i :: 0 <= i < |InputOf(xs, key)| ==> InputOf(xs, key)[i].orderId == Some(key)
    ensures InputOf(xs, key) != [] ==> key in Keys(xs)
  {
    if xs == [] {
    } else {
      var init := xs[..|xs| - 1];
      InputOfIsKeyed(init, key);
      if key in Keys(init) {
        var i :| 0 <= i < |init| && init[i].orderId == Some(key);
        assert xs[i].orderId == Some(key);
      } else if xs[|xs| - 1].orderId == Some(key) {
        assert key in Keys(xs);
      }
    }
  }

  /** Routing by order id delivers every stream to the right states, so what is proved of well-keyed
      jobs holds for the job behind any stream; and no order's messages are lost. */
  lemma RoutingIsWellKeyed(ttl: nat, xs: seq<OrderState>)
    ensures Routed(ttl, xs).WellKeyed()
    ensures forall key :: Routed(ttl, xs).For(key).input == InputOf(xs, key)
  {
    forall key ensures Routed(ttl, xs).For(key).WellKeyed() && Routed(ttl, xs).For(key).input == InputOf(xs, key) {
      InputOfIsKeyed(xs, key);
    }
  }

  lemma {:induction false} InputOfCount(xs: seq<OrderState>, key: string, x: OrderState)
    requires x.orderId == Some(key)
    ensures multiset(InputOf(xs, key))[x] == multiset(xs)[x]
  {
    if xs == [] {
    } else {
      InputOfCount(xs[..|xs| - 1], key, x);
      assert xs == xs[..|xs| - 1] + [xs[|xs| - 1]];
    }
  }

  /** The detector behind any raw stream: of the payloads that parse, each order's messages drive its
      state alone, and the SMS service acts once per notified order. */
  lemma EndToEnd(parse: string -> Option<OrderState>, values: seq<string>, ttl: nat, clock: int,
                 steps: seq<Job.JobStep>, key: string)
    requires Job.JobLegal(Routed(ttl, Parsed(parse, values)), Job.Start(clock), steps)
    ensures
      var t := Routed(ttl, Parsed(parse, values));
      var j := Job.JobRun(t, Job.Start(clock), steps);
      var raw := Job.LogOf(j.log, key);
      && t.For(key).input == InputOf(Parsed(parse, values), key)
      && Job.LogOf(Job.Delivered(j.log), key) == if raw == [] then [] else [raw[0]]
  {
    RoutingIsWellKeyed(ttl, Parsed(parse, values));
    Job.ActedOnOnce(Routed(ttl, Parsed(parse, values)), clock, steps, key);
  }
}
