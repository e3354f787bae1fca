/** The simulator's interpreter of one scenario for one order: a step-to-value memory, duplicates of
    earlier steps, and the failures that end a run. */
module ScenarioRun {
  import opened Domain

  /** One entry of a scenario's events. A missing or empty value is None. The ETA offset goes into the
      building of the event's own value; a duplicate ignores both. */
  datatype EventDefinition<!T> = EventDefinition(
    step: Option<int>,
    duplicateOfStep: Option<int>,
    value: Option<T>,
    etaOffset: Option<string>,
    messageKey: Option<string>)
  {
    function Step(): int {
      match step
      case None => 0
      case Some(n) => n
    }

    function MessageKey(): string {
      match messageKey
      case None => "{{orderId}}"
      case Some(key) => key
    }
  }

  datatype Message<!V> = Message(key: string, value: V)

  datatype Result = Completed | NoEvents | DuplicateNotPublished(duplicateStep: int) | MissingValue(step: int)

  /** Template rendering and time resolution, and the rendering of message keys, are parameters. */
  datatype Renderer<!T, !V> = Renderer(build: EventDefinition<T> -> V, renderKey: string -> string)

  /** The event has this step number; without one it has step 0. */
  predicate IsStep<T>(event: EventDefinition<T>, n: int) {
    match event.step
    case None => n == 0
    case Some(step) => n == step
  }

  /** The event is published under the rendering of its own key, or of the order id. */
  predicate HasKey<T, V>(r: Renderer<T, V>, event: EventDefinition<T>, key: string) {
    match event.messageKey
    case None => key == r.renderKey("{{orderId}}")
    case Some(template) => key == r.renderKey(template)
  }

  /** Event j recorded the value that a duplicate of the given step would repeat. */
  ghost predicate Records<T>(events: seq<EventDefinition<T>>, j: int, step: int)
    requires 0 <= j < |events|
  {
    events[j].duplicateOfStep.None? && IsStep(events[j], step)
  }

  /** Event j is the most recent one before i that recorded the step. */
  ghost predicate Latest<T>(events: seq<EventDefinition<T>>, i: int, step: int, j: int)
    requires 0 <= i <= |events|
  {
    && 0 <= j < i && Records(events, j, step)
    && forall k :: j < k < i ==> !Records(events, k, step)
  }

  /** Event i alone can be published: it brings a value, or repeats a step recorded before it. */
  ghost predicate Publishable<T>(events: seq<EventDefinition<T>>, i: int)
    requires 0 <= i < |events|
  {
    match events[i].duplicateOfStep
    case None => events[i].value.Some?
    case Some(step) => exists j :: 0 <= j < i && Records(events, j, step)
  }

  /** The event whose value event i publishes. */
  ghost predicate Supplies<T>(events: seq<EventDefinition<T>>, i: int, j: int)
    requires 0 <= i < |events|
  {
    match events[i].duplicateOfStep
    case None => j == i
    case Some(step) => Latest(events, i, step, j)
  }

  ghost predicate PublishedAs<T(!new), V(!new)>(r: Renderer<T, V>, events: seq<EventDefinition<T>>, i: int,
                                                message: Message<V>)
    requires 0 <= i < |events|
  {
    && HasKey(r, events[i], message.key)
    && exists j :: 0 <= j < |events| && Supplies(events, i, j) && message.value == r.build(events[j])
  }

  /** The first n messages are those of the first n events. */
  ghost predicate PublishedPrefix<T(!new), V(!new)>(r: Renderer<T, V>, events: seq<EventDefinition<T>>,
                                                    published: seq<Message<V>>)
  {
    && |published| <= |events|
    && forall i :: 0 <= i < |published| ==> PublishedAs(r, events, i, published[i])
  }

  /** The memory holds, for every step recorded so far, the value of its most recent recording. */
  ghost predicate Remembers<T(!new), V(!new)>(r: Renderer<T, V>, events: seq<EventDefinition<T>>, i: int,
                                              memory: map<int, V>)
    requires 0 <= i <= |events|
  {
    && (forall step :: step in memory ==>
          exists j :: Latest(events, i, step, j) && memory[step] == r.build(events[j]))
    && (forall j, step :: 0 <= j < i && Records(events, j, step) ==> step in memory)
  }

  lemma RememberOwn<T(!new), V(!new)>(r: Renderer<T, V>, events: seq<EventDefinition<T>>, i: int, memory: map<int, V>)
    requires 0 <= i < |events| && events[i].duplicateOfStep.None? && Remembers(r, events, i, memory)
    ensures Remembers(r, events, i + 1, memory[events[i].Step() := r.build(events[i])])
  {
    var memory' := memory[events[i].Step() := r.build(events[i])];
    forall step | step in memory'
      ensures exists j :: Latest(events, i + 1, step, j) && memory'[step] == r.build(events[j])
    {
      if step == events[i].Step() {
        assert Latest(events, i + 1, step, i);
      } else {
        var j :| Latest(events, i, step, j) && memory[step] == r.build(events[j]);
        assert Latest(events, i + 1, step, j);
      }
    }
  }

  lemma RememberDuplicate<T(!new), V(!new)>(r: Renderer<T, V>, events: seq<EventDefinition<T>>, i: int,
                                            memory: map<int, V>)
    requires 0 <= i < |events| && events[i].duplicateOfStep.Some? && Remembers(r, events, i, memory)
    ensures Remembers(r, events, i + 1, memory)
  {
    forall step | step in memory
      ensures exists j :: Latest(events, i + 1, step, j) && memory[step] == r.build(events[j])
    {
      var j :| Latest(events, i, step, j) && memory[step] == r.build(events[j]);
      assert Latest(events, i + 1, step, j);
    }
  }

  /** A run completes exactly when every event is publishable; it then publishes one message per event.
      Otherwise exactly the messages of the events before the first unpublishable one are out. */
  method RunSingleOrder<T(!new), V(!new)>(r: Renderer<T, V>, events: seq<EventDefinition<T>>)
    returns (result: Result, published: seq<Message<V>>)
    ensures result == NoEvents <==> events == []
    ensures result == Completed <==> events != [] && forall i :: 0 <= i < |events| ==> Publishable(events, i)
    ensures PublishedPrefix(r, events, published)
    ensures result == Completed ==> |published| == |events|
    ensures events != [] && result != Completed ==>
              && |published| < |events|
              && (forall i :: 0 <= i < |published| ==> Publishable(events, i))
              && !Publishable(events, |published|)
              && match events[|published|].duplicateOfStep
                 case None => result.MissingValue? && IsStep(events[|published|], result.step)
                 case Some(step) => result == DuplicateNotPublished(step)
  {
    published := [];
    if events == [] {
      return NoEvents, published;
    }

    var publishedByStep: map<int, V> := map[];
    for i := 0 to |events|
      invariant |published| == i && PublishedPrefix(r, events, published)
      invariant forall k :: 0 <= k < i ==> Publishable(events, k)
      invariant Remembers(r, events, i, publishedByStep)
    {
      var event := events[i];
      var value: V;
      ghost var supplier: int;

      if event.duplicateOfStep.Some? {
        var duplicateStep := event.duplicateOfStep.value;
        if duplicateStep !in publishedByStep {
          forall j | 0 <= j < i ensures !Records(events, j, duplicateStep) {
          }
          assert !Publishable(events, i);
          return DuplicateNotPublished(duplicateStep), published;
        }
        value := publishedByStep[duplicateStep];
        ghost var j :| Latest(events, i, duplicateStep, j) && publishedByStep[duplicateStep] == r.build(events[j]);
        supplier := j;
        RememberDuplicate(r, events, i, publishedByStep);
      } else {
        if event.value.None? {
          assert !Publishable(events, i);
          return MissingValue(event.Step()), published;
        }
        value := r.build(event);
        supplier := i;
        RememberOwn(r, events, i, publishedByStep);
        publishedByStep := publishedByStep[event.Step() := value];
      }

      assert Supplies(events, i, supplier) && value == r.build(events[supplier]);
      published := published + [Message(r.renderKey(event.MessageKey()), value)];
    }
    return Completed, published;
  }

  /** What one event publishes is determined: no event has two suppliers. */
  lemma SupplierUnique<T>(events: seq<EventDefinition<T>>, i: int, j: int, k: int)
    requires 0 <= i < |events| && Supplies(events, i, j) && Supplies(events, i, k)
    ensures j == k
  {
  }
}
